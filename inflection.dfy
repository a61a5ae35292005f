/**
 * ASCII versions of the three `inflection` library functions the generator uses:
 * `camelize` (the generator imports it as `pascalize`), `camelize` with a lower-case
 * first letter (the generator's own `camelize`), and `underscore`.
 */
module Inflection {
  import opened Strings

  predicate IsUpper(c: char) { 'A' <= c <= 'Z' }

  predicate IsLower(c: char) { 'a' <= c <= 'z' }

  /**
   * Rewrites every `_x` pair, scanning left to right, to the upper-case `x`. The
   * library's regular expression matches `_.` and `.` does not match a newline, so
   * it keeps a `_` that precedes one; tag and attribute names never hold a newline,
   * and this model does not separate that case.
   */
  function CamelTail(s: string): (r: string)
    ensures '_' !in s ==> r == s
    ensures |r| <= |s|
  {
    if |s| >= 2 && s[0] == '_' then [UpperChar(s[1])] + CamelTail(s[2..])
    else if s == [] then []
    else [s[0]] + CamelTail(s[1..])
  }

  /** `inflection.camelize(s)`: the first character and each character after `_` upper-cased, those `_` dropped. */
  function Pascalize(s: string): (r: string)
    ensures |r| <= |s|
    ensures s != [] ==> r != [] && r[0] == UpperChar(s[0])
    ensures s != [] && '_' !in s ==> r == [UpperChar(s[0])] + s[1..]
  {
    if s == [] then [] else [UpperChar(s[0])] + CamelTail(s[1..])
  }

  /**
   * `inflection.camelize(s, uppercase_first_letter=False)`; Python raises IndexError on
   * the empty string, which no caller passes.
   */
  function Camelize(s: string): (r: string)
    requires s != []
    ensures r != [] && r[0] == LowerChar(s[0])
    ensures r[1..] == Pascalize(s)[1..]
  {
    [LowerChar(s[0])] + Pascalize(s)[1..]
  }

  /** Whether `underscore` puts a `_` in front of position `i` (its two regular expressions). */
  predicate BreaksBefore(s: string, i: nat)
    requires i < |s|
  {
    i >= 1 && IsUpper(s[i]) &&
    ((IsUpper(s[i - 1]) && i + 1 < |s| && IsLower(s[i + 1]))
     || IsLower(s[i - 1]) || IsDigit(s[i - 1]))
  }

  function InsertBreaks(s: string, i: nat): (r: string)
    requires i <= |s|
    ensures |r| >= |s| - i
    decreases |s| - i
  {
    if i == |s| then []
    else (if BreaksBefore(s, i) then "_" else "") + [s[i]] + InsertBreaks(s, i + 1)
  }

  /** `inflection.underscore(s)`: word breaks become `_`, `-` becomes `_`, all lower case. */
  function Underscore(s: string): (r: string)
    ensures forall k :: 0 <= k < |r| ==> !IsUpper(r[k]) && r[k] != '-'
  {
    Lower(ReplaceChar(InsertBreaks(s, 0), '-', '_'))
  }

  lemma {:induction false} InsertBreaksNoUpper(s: string, i: nat)
    requires i <= |s|
    requires forall k :: 0 <= k < |s| ==> !IsUpper(s[k])
    ensures InsertBreaks(s, i) == s[i..]
    decreases |s| - i
  {
    if i < |s| {
      InsertBreaksNoUpper(s, i + 1);
      assert s[i..] == [s[i]] + s[i + 1..];
    }
  }

  lemma {:induction false} LowerNoUpper(s: string)
    requires forall k :: 0 <= k < |s| ==> !IsUpper(s[k])
    ensures Lower(s) == s
  {
    assert forall k :: 0 <= k < |s| ==> Lower(s)[k] == s[k];
  }

  /** `underscore` is idempotent: its output has no upper case letter and no `-` left. */
  lemma UnderscoreIdempotent(s: string)
    ensures Underscore(Underscore(s)) == Underscore(s)
  {
    var u := Underscore(s);
    InsertBreaksNoUpper(u, 0);
    assert ReplaceChar(u, '-', '_') == u;
    LowerNoUpper(u);
  }
}
