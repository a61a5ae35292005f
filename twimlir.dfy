/**
 * The TwiML intermediate representation: the verbs of one TwiML document, the IR
 * that owns them, the builder that fills it from the XML parser's start/end events,
 * and its two traversals.
 *
 * Verbs live in an arena (`TwimlIR.verbs`) in the order their start events came in;
 * a verb names its parent by arena index and the IR keeps each verb's children
 * list (`TwimlIR.children`).
 */
module TwimlIr {
  import opened Wrappers
  import opened Strings
  import opened Attributes
  import opened Tree

  /** A verb's fields as plain data. */
  datatype VerbRec = VerbRec(name: string, attributes: Attrs, text: Value, variableName: Option<string>,
                             tail: Option<string>, isSsml: bool, parent: Option<nat>, depth: nat)

  /** `TwimlIRVerb`: one TwiML verb, or one SSML element inside a `Say`. */
  class Verb {
    var name: string
    var attributes: Attrs
    /** `None`, a `str`, or (after the C# `Play` handler) `bytes`. */
    var text: Value
    var variableName: Option<string>
    const tail: Option<string>
    const isSsml: bool
    /** Arena index of the parent verb; `None` for the root `Response`. */
    const parent: Option<nat>
    const depth: nat

    /**
     * `TwimlIRVerb.__init__`: `-` in the tag becomes `_`, the attributes are copied,
     * there is no variable name yet, and the depth is one more than the parent's.
     */
    constructor (name: string, attributes: Attrs, text: Option<string>, parent: Option<(nat, Verb)>,
                 tail: Option<string>, isSsml: bool)
      ensures this.name == ReplaceChar(name, '-', '_') && '-' !in this.name
      ensures this.attributes == attributes
      ensures this.text == TextValue(text)
      ensures this.parent == (if parent.Some? then Some(parent.value.0) else None)
      ensures this.depth == (if parent.Some? then parent.value.1.depth + 1 else 0)
      ensures this.tail == tail && this.isSsml == isSsml && variableName == None
    {
      this.name := ReplaceChar(name, '-', '_');
      this.attributes := attributes;
      this.text := if text.Some? then Str(text.value) else Null;
      this.parent := if parent.Some? then Some(parent.value.0) else None;
      this.depth := if parent.Some? then parent.value.1.depth + 1 else 0;
      this.tail := tail;
      this.isSsml := isSsml;
      this.variableName := None;
    }

    function Rec(): VerbRec
      reads this
    {
      VerbRec(name, attributes, text, variableName, tail, isSsml, parent, depth)
    }
  }

  /** `TwimlIR.clean_text`: `None` for blank text, else the stripped lines joined by the two characters `\n`. */
  function CleanText(text: Option<string>): (r: Option<string>)
    ensures r.None? <==> text.None? || AllSpace(text.value)
    ensures r.Some? ==> '\n' !in r.value
  {
    if text.None? || Strip(text.value) == "" then None
    else
      var parts := Split(Strip(text.value), '\n');
      var lines := StripAll(parts);
      StripAllNoChar(parts, '\n');
      JoinNoChar("\\n", lines, '\n');
      Some(Join("\\n", lines))
  }

  /** `[line.strip() for line in lines]`. */
  function StripAll(lines: seq<string>): (r: seq<string>)
    ensures |r| == |lines|
  {
    seq(|lines|, k requires 0 <= k < |lines| => Strip(lines[k]))
  }

  lemma StripAllNoChar(lines: seq<string>, c: char)
    requires forall k :: 0 <= k < |lines| ==> c !in lines[k]
    ensures forall k :: 0 <= k < |lines| ==> c !in StripAll(lines)[k]
  {
    forall k | 0 <= k < |lines|
      ensures c !in StripAll(lines)[k]
    {
      StripNoChar(lines[k], c);
    }
  }

  lemma StripAllTrimmed(lines: seq<string>)
    requires forall k :: 0 <= k < |lines| ==> Trimmed(lines[k])
    ensures StripAll(lines) == lines
  {
    forall k | 0 <= k < |lines|
      ensures StripAll(lines)[k] == lines[k]
    {
      StripTrimmed(lines[k]);
    }
  }

  /**
   * Text whose lines carry no surrounding whitespace, and whose first and last lines
   * are not empty, only has its newlines replaced by the two characters `\n`.
   */
  lemma CleanTextStrippedLines(lines: seq<string>)
    requires |lines| >= 1 && lines[0] != [] && lines[|lines| - 1] != []
    requires forall k :: 0 <= k < |lines| ==> '\n' !in lines[k] && Trimmed(lines[k])
    ensures CleanText(Some(Join("\n", lines))) == Some(Join("\\n", lines))
  {
    var s := Join("\n", lines);
    JoinStartsClean("\n", lines);
    JoinEndsClean("\n", lines);
    StripNoop(s);
    SplitJoin(lines, '\n');
    StripAllTrimmed(lines);
  }

  lemma JoinStartsClean(sep: string, lines: seq<string>)
    requires |lines| >= 1 && lines[0] != [] && !IsSpace(lines[0][0])
    ensures Join(sep, lines) != [] && !IsSpace(Join(sep, lines)[0])
  {
    JoinFirst(sep, lines);
  }

  lemma JoinEndsClean(sep: string, lines: seq<string>)
    requires |lines| >= 1 && Last(lines) != [] && !IsSpace(Last(Last(lines)))
    ensures Join(sep, lines) != [] && !IsSpace(Last(Join(sep, lines)))
  {
    JoinLast(sep, lines);
  }

  /** A single line without surrounding whitespace comes out of cleaning unchanged. */
  lemma CleanTextOneLine(s: string)
    requires s != [] && !IsSpace(s[0]) && !IsSpace(s[|s| - 1]) && '\n' !in s
    ensures CleanText(Some(s)) == Some(s)
  {
    StripNoop(s);
    assert Split(s, '\n') == [s];
    assert StripAll([s]) == [s];
  }

  /** The cleaned form of already stripped, non-blank text. */
  function CleanLines(st: string): string
  {
    Join("\\n", StripAll(Split(st, '\n')))
  }

  lemma CleanTextIsCleanLines(text: string)
    requires !AllSpace(text)
    ensures CleanText(Some(text)) == Some(CleanLines(Strip(text)))
  {
  }

  lemma CleanLinesStarts(st: string)
    requires st != [] && !IsSpace(st[0])
    ensures CleanLines(st) != [] && !IsSpace(CleanLines(st)[0])
  {
    assert IsSpace('\n');
    var parts := Split(st, '\n');
    SplitFirst(st, '\n');
    assert !AllSpace(parts[0]) by { assert !IsSpace(parts[0][0]); }
    JoinStartsClean("\\n", StripAll(parts));
  }

  lemma CleanLinesEnds(st: string)
    requires st != [] && !IsSpace(Last(st))
    ensures CleanLines(st) != [] && !IsSpace(Last(CleanLines(st)))
  {
    var parts := Split(st, '\n');
    LastPartNotBlank(st);
    StripAllEnds(parts);
    JoinEndsClean("\\n", StripAll(parts));
  }

  lemma LastPartNotBlank(st: string)
    requires st != [] && !IsSpace(Last(st))
    ensures !AllSpace(Last(Split(st, '\n')))
  {
    assert IsSpace('\n');
    SplitLast(st, '\n');
  }

  lemma StripAllEnds(parts: seq<string>)
    requires parts != [] && !AllSpace(Last(parts))
    ensures Last(StripAll(parts)) != [] && !IsSpace(Last(Last(StripAll(parts))))
  {
    var sl := Strip(Last(parts));
    assert sl != [] && !IsSpace(Last(sl));
    assert Last(StripAll(parts)) == sl;
  }

  /** Cleaning cleaned text changes nothing, so comparing cleaned texts is stable. */
  lemma CleanTextIdempotent(text: Option<string>)
    requires CleanText(text).Some?
    ensures CleanText(CleanText(text)) == CleanText(text)
  {
    CleanTextIsCleanLines(text.value);
    CleanLinesStarts(Strip(text.value));
    CleanLinesEnds(Strip(text.value));
    CleanTextOneLine(CleanText(text).value);
  }

  /** `clean_attributes` for one attribute: an `xs:int` attribute becomes `int(value)`, the rest stay strings. */
  function CleanValue(types: map<string, string>, name: string, value: string): Result<Value>
  {
    if name in types && types[name] == "xs:int" then
      match ParseInt(value)
      case Some(i) => Ok(Int(i))
      case None => Err(ValueError)
    else Ok(Str(value))
  }

  /** The loop of `clean_attributes` over the remaining attributes, with the dict built so far. */
  function CleanFold(types: map<string, string>, pairs: seq<(string, string)>, acc: Attrs): Result<Attrs>
    decreases |pairs|
  {
    if pairs == [] then Ok(acc)
    else
      match CleanValue(types, pairs[0].0, pairs[0].1)
      case Err(e) => Err(e)
      case Ok(v) => CleanFold(types, pairs[1..], Put(acc, pairs[0].0, v))
  }

  /** `clean_attributes` followed by the `dict(...)` copy in `TwimlIRVerb.__init__`. */
  function CleanAttributesSpec(allTypes: map<string, map<string, string>>, verb: string,
                               pairs: seq<(string, string)>): Result<Attrs>
  {
    if verb + "Type" !in allTypes then Ok(FromPairs(pairs))
    else CleanFold(allTypes[verb + "Type"], pairs, [])
  }

  predicate DistinctNames(pairs: seq<(string, string)>)
  {
    forall i, j :: 0 <= i < j < |pairs| ==> pairs[i].0 != pairs[j].0
  }

  function Names(pairs: seq<(string, string)>): (r: seq<string>)
    ensures |r| == |pairs| && forall i :: 0 <= i < |pairs| ==> r[i] == pairs[i].0
  {
    if pairs == [] then [] else [pairs[0].0] + Names(pairs[1..])
  }

  /** Cleaning fails, always with ValueError, exactly when some `xs:int` attribute is not an integer. */
  lemma {:induction false} CleanFoldErr(types: map<string, string>, pairs: seq<(string, string)>, acc: Attrs)
    ensures CleanFold(types, pairs, acc).Err? <==>
            exists i :: 0 <= i < |pairs| && CleanValue(types, pairs[i].0, pairs[i].1).Err?
    ensures CleanFold(types, pairs, acc).Err? ==> CleanFold(types, pairs, acc).error == ValueError
    decreases |pairs|
  {
    if pairs != [] {
      var c := CleanValue(types, pairs[0].0, pairs[0].1);
      if c.Err? {
        assert CleanFold(types, pairs, acc) == Err(c.error);
        assert 0 < |pairs| && CleanValue(types, pairs[0].0, pairs[0].1).Err?;
      } else {
        var acc' := Put(acc, pairs[0].0, c.value);
        assert CleanFold(types, pairs, acc) == CleanFold(types, pairs[1..], acc');
        CleanFoldErr(types, pairs[1..], acc');
        BadAfterFirst(types, pairs);
      }
    }
  }

  /** When the first attribute cleans, an attribute that does not is one of the rest. */
  lemma BadAfterFirst(types: map<string, string>, pairs: seq<(string, string)>)
    requires pairs != [] && CleanValue(types, pairs[0].0, pairs[0].1).Ok?
    ensures (exists i :: 0 <= i < |pairs| && CleanValue(types, pairs[i].0, pairs[i].1).Err?) <==>
            (exists i :: 0 <= i < |pairs[1..]| && CleanValue(types, pairs[1..][i].0, pairs[1..][i].1).Err?)
  {
    var rest := pairs[1..];
    if i :| 0 <= i < |pairs| && CleanValue(types, pairs[i].0, pairs[i].1).Err? {
      assert i != 0 by {
        assert CleanValue(types, pairs[0].0, pairs[0].1).Ok?;
      }
      assert rest[i - 1] == pairs[i];
    }
    if i :| 0 <= i < |rest| && CleanValue(types, rest[i].0, rest[i].1).Err? {
      assert pairs[i + 1] == rest[i];
    }
  }

  /**
   * With the parser's distinct attribute names, a successful clean appends, after
   * the entries already there, one entry per attribute in document order holding its
   * cleaned value.
   */
  lemma {:induction false} CleanFoldOk(types: map<string, string>, pairs: seq<(string, string)>, acc: Attrs)
    requires DistinctNames(pairs)
    requires forall i :: 0 <= i < |pairs| ==> !Has(acc, pairs[i].0)
    requires CleanFold(types, pairs, acc).Ok?
    ensures |CleanFold(types, pairs, acc).value| == |acc| + |pairs|
    ensures CleanFold(types, pairs, acc).value[..|acc|] == acc
    ensures forall i :: 0 <= i < |pairs| ==>
              (CleanValue(types, pairs[i].0, pairs[i].1).Ok? &&
               CleanFold(types, pairs, acc).value[|acc| + i] == (pairs[i].0, CleanValue(types, pairs[i].0, pairs[i].1).value))
    decreases |pairs|
  {
    if pairs != [] {
      var rest := pairs[1..];
      assert forall i :: 0 <= i < |rest| ==> rest[i] == pairs[i + 1];
      var c := CleanValue(types, pairs[0].0, pairs[0].1);
      var acc' := Put(acc, pairs[0].0, c.value);
      assert acc' == acc + [(pairs[0].0, c.value)];
      forall i | 0 <= i < |rest|
        ensures !Has(acc', rest[i].0)
      {
        HasPut(acc, pairs[0].0, c.value, rest[i].0);
      }
      CleanFoldOk(types, rest, acc');
      var d := CleanFold(types, pairs, acc).value;
      assert d == CleanFold(types, rest, acc').value;
      assert d[..|acc|] == d[..|acc'|][..|acc|];
      forall i | 0 <= i < |pairs|
        ensures CleanValue(types, pairs[i].0, pairs[i].1).Ok?
        ensures d[|acc| + i] == (pairs[i].0, CleanValue(types, pairs[i].0, pairs[i].1).value)
      {
        if i > 0 {
          assert rest[i - 1] == pairs[i];
          assert d[|acc'| + (i - 1)] == d[|acc| + i];
        } else {
          assert d[|acc|] == d[..|acc'|][|acc|];
        }
      }
    }
  }

  /**
   * An element type the schema does not describe keeps every attribute as a string:
   * each key holds the `str` of its last pair, and with distinct keys entry `i` is pair
   * `i`, in document order.
   */
  lemma CleanAttributesUntyped(allTypes: map<string, map<string, string>>, verb: string, pairs: seq<(string, string)>)
    requires verb + "Type" !in allTypes
    ensures CleanAttributesSpec(allTypes, verb, pairs).Ok?
    ensures forall j: nat :: LastOfKey(pairs, j) ==>
              Get(CleanAttributesSpec(allTypes, verb, pairs).value, pairs[j].0) == Some(Str(pairs[j].1))
    ensures DistinctNames(pairs) ==>
              |CleanAttributesSpec(allTypes, verb, pairs).value| == |pairs| &&
              forall i :: 0 <= i < |pairs| ==>
                CleanAttributesSpec(allTypes, verb, pairs).value[i] == (pairs[i].0, Str(pairs[i].1))
  {
    forall j: nat | LastOfKey(pairs, j)
      ensures Get(FromPairs(pairs), pairs[j].0) == Some(Str(pairs[j].1))
    {
      FromPairsGet(pairs, j);
    }
    if DistinctNames(pairs) {
      FromPairsEntries(pairs);
    }
  }

  // ----- the event stream `parse_xml` consumes -----

  /**
   * One event of the XML parser's `start`/`end` stream. A start carries the element's
   * tag, attributes, text, tail and whether it has child elements; an end closes the
   * element opened last.
   */
  datatype XmlEvent =
    | StartEv(tag: string, attrib: seq<(string, string)>, text: Option<string>, tail: Option<string>, hasChildren: bool)
    | EndEv

  /** The start events among `evs`, in order: one per verb. */
  function Starts(evs: seq<XmlEvent>): (s: seq<XmlEvent>)
    ensures |s| <= |evs|
    ensures forall j :: 0 <= j < |s| ==> s[j].StartEv?
  {
    if evs == [] then []
    else Starts(evs[..|evs| - 1]) + (if evs[|evs| - 1].StartEv? then [evs[|evs| - 1]] else [])
  }

  /** The verbs still open after `evs`, outermost first, each by its position among the starts. */
  function Open(evs: seq<XmlEvent>): (o: seq<nat>)
    ensures |o| <= |Starts(evs)|
    ensures forall i :: 0 <= i < |o| ==> o[i] < |Starts(evs)|
  {
    if evs == [] then []
    else
      var o := Open(evs[..|evs| - 1]);
      if evs[|evs| - 1].StartEv? then o + [|Starts(evs[..|evs| - 1])|]
      else if o == [] then [] else o[..|o| - 1]
  }

  /** The parent each verb gets: the verb open when its start event comes, if any. */
  function Parents(evs: seq<XmlEvent>): (ps: seq<Option<nat>>)
    ensures |ps| == |Starts(evs)|
  {
    if evs == [] then []
    else
      var o := Open(evs[..|evs| - 1]);
      Parents(evs[..|evs| - 1])
      + (if evs[|evs| - 1].StartEv? then [if o == [] then None else Some(o[|o| - 1])] else [])
  }

  /** A `Say` with child elements: it opens the SSML window. */
  predicate SayWithChildren(e: XmlEvent)
  {
    e.StartEv? && e.tag == "Say" && e.hasChildren
  }

  /** How many of the open verbs are a `Say` with child elements. */
  function OpenSays(s: seq<XmlEvent>, o: seq<nat>): nat
  {
    if o == [] then 0
    else OpenSays(s, o[..|o| - 1]) + (if o[|o| - 1] < |s| && SayWithChildren(s[o[|o| - 1]]) then 1 else 0)
  }

  lemma {:induction false} OpenSaysPositive(s: seq<XmlEvent>, o: seq<nat>)
    ensures OpenSays(s, o) > 0 <==> exists i :: 0 <= i < |o| && o[i] < |s| && SayWithChildren(s[o[i]])
  {
    if o != [] {
      var o' := o[..|o| - 1];
      OpenSaysPositive(s, o');
      assert forall i :: 0 <= i < |o'| ==> o'[i] == o[i];
    }
  }

  lemma {:induction false} OpenSaysExtend(s: seq<XmlEvent>, s': seq<XmlEvent>, o: seq<nat>)
    requires s <= s'
    requires forall i :: 0 <= i < |o| ==> o[i] < |s|
    ensures OpenSays(s', o) == OpenSays(s, o)
  {
    if o != [] {
      OpenSaysExtend(s, s', o[..|o| - 1]);
    }
  }

  /** No `Say` with child elements opens while another one is still open. */
  predicate NoNestedSsml(evs: seq<XmlEvent>)
  {
    evs == [] || (NoNestedSsml(evs[..|evs| - 1]) && OpenSays(Starts(evs), Open(evs)) <= 1)
  }

  /**
   * The first error `parse_xml` runs into on the last event of `evs`, given the
   * verbs opened before it: `int()` failing on an `xs:int` attribute; a `Response`
   * that would not be the root (refused by the model); a start or an end with no
   * open verb (`None.children`, `None.parent`).
   */
  function StepError(types: map<string, map<string, string>>, before: seq<XmlEvent>, ev: XmlEvent): Option<PyError>
  {
    match ev
    case EndEv => if Open(before) == [] then Some(AttributeError) else None
    case StartEv(tag, attrib, _, _, _) =>
      if CleanAttributesSpec(types, tag, attrib).Err? then Some(ValueError)
      else if tag == "Response" && Starts(before) != [] then Some(UnsupportedDocument)
      else if tag != "Response" && Open(before) == [] then Some(AttributeError)
      else None
  }

  /** The error `parse_xml` stops with on the stream `evs`, if any: the first event's. */
  function FirstError(types: map<string, map<string, string>>, evs: seq<XmlEvent>): Option<PyError>
  {
    if evs == [] then None
    else if FirstError(types, evs[..|evs| - 1]).Some? then FirstError(types, evs[..|evs| - 1])
    else StepError(types, evs[..|evs| - 1], evs[|evs| - 1])
  }

  /** Once the stream has failed, later events do not change the error. */
  lemma {:induction false} FirstErrorSticks(types: map<string, map<string, string>>, evs: seq<XmlEvent>, k: nat, m: nat)
    requires k <= m <= |evs| && FirstError(types, evs[..k]).Some?
    ensures FirstError(types, evs[..m]) == FirstError(types, evs[..k])
    decreases m - k
  {
    if k < m {
      FirstErrorSticks(types, evs, k, m - 1);
      assert evs[..m][..m - 1] == evs[..m - 1];
    }
  }

  /** What `parse_xml` ends with on `evs`: its first error, or the refusal of a stream without a root. */
  function ParseOutcome(types: map<string, map<string, string>>, evs: seq<XmlEvent>): Outcome
  {
    if FirstError(types, evs).Some? then Fail(FirstError(types, evs).value)
    else if Starts(evs) == [] then Fail(UnsupportedDocument)
    else Pass
  }

  predicate IsMessage(e: XmlEvent)
  {
    e.StartEv? && e.tag == "Message"
  }

  /** The value a cleaned text is stored as. */
  function TextValue(t: Option<string>): Value
  {
    if t.Some? then Str(t.value) else Null
  }

  /** The innermost open verb, if any: `latest_verb`. */
  function Top(o: seq<nat>): (r: Option<nat>)
    ensures r.Some? <==> o != []
  {
    if o == [] then None else Some(Last(o))
  }

  lemma SnocStart(pre: seq<XmlEvent>, ev: XmlEvent)
    requires ev.StartEv?
    ensures Starts(pre + [ev]) == Starts(pre) + [ev]
    ensures Open(pre + [ev]) == Open(pre) + [|Starts(pre)|]
    ensures Parents(pre + [ev]) == Parents(pre) + [Top(Open(pre))]
    ensures NoNestedSsml(pre + [ev]) ==> NoNestedSsml(pre)
  {
    assert (pre + [ev])[..|pre|] == pre;
  }

  lemma SnocEnd(pre: seq<XmlEvent>)
    ensures Starts(pre + [EndEv]) == Starts(pre)
    ensures Open(pre + [EndEv]) == if Open(pre) == [] then [] else Open(pre)[..|Open(pre)| - 1]
    ensures Parents(pre + [EndEv]) == Parents(pre)
    ensures NoNestedSsml(pre + [EndEv]) ==> NoNestedSsml(pre)
  {
    assert (pre + [EndEv])[..|pre|] == pre;
  }

  /** Opening a verb adds it to the open list; it counts when it is a `Say` with child elements. */
  lemma OpenSaysPush(s: seq<XmlEvent>, o: seq<nat>, ev: XmlEvent)
    requires forall i :: 0 <= i < |o| ==> o[i] < |s|
    ensures OpenSays(s + [ev], o + [|s|]) == OpenSays(s, o) + if SayWithChildren(ev) then 1 else 0
  {
    assert (o + [|s|])[..|o|] == o;
    OpenSaysExtend(s, s + [ev], o);
  }

  /** Some verb strictly above `j` in `t` comes from a `Say` with child elements among the starts `s`. */
  ghost predicate SsmlAbove(t: seq<Node>, s: seq<XmlEvent>, j: nat)
    requires WellFormed(t) && j < |t|
  {
    exists a :: 0 <= a < |s| && a != j && Desc(t, j, a) && SayWithChildren(s[a])
  }

  /** Every verb flagged SSML lies inside a `Say` with child elements. */
  ghost predicate SsmlSound(t: seq<Node>, flags: seq<bool>, s: seq<XmlEvent>)
    requires WellFormed(t) && |flags| == |t|
  {
    forall j :: 0 <= j < |t| && flags[j] ==> SsmlAbove(t, s, j)
  }

  /** Every verb inside a `Say` with child elements is flagged SSML. */
  ghost predicate SsmlComplete(t: seq<Node>, flags: seq<bool>, s: seq<XmlEvent>)
    requires WellFormed(t) && |flags| == |t|
  {
    forall j :: 0 <= j < |t| && SsmlAbove(t, s, j) ==> flags[j]
  }

  /** Adding a child leaves the ancestors of the verbs already there as they were. */
  lemma SsmlAboveOld(t: seq<Node>, p: nat, s: seq<XmlEvent>, ev: XmlEvent, j: nat)
    requires WellFormed(t) && p < |t| && |s| == |t| && j < |t|
    ensures WellFormed(AddChild(t, p))
    ensures SsmlAbove(AddChild(t, p), s + [ev], j) <==> SsmlAbove(t, s, j)
  {
    var u := AddChild(t, p);
    AddChildWellFormed(t, p);
    if SsmlAbove(u, s + [ev], j) {
      var a :| 0 <= a < |s| + 1 && a != j && Desc(u, j, a) && SayWithChildren((s + [ev])[a]);
      DescLe(u, j, a);
      DescPrefix(t, u, j, a);
      assert (s + [ev])[a] == s[a];
    }
    if SsmlAbove(t, s, j) {
      var a :| 0 <= a < |s| && a != j && Desc(t, j, a) && SayWithChildren(s[a]);
      DescPrefix(t, u, j, a);
      assert (s + [ev])[a] == s[a];
    }
  }

  /** A new child of the innermost open verb lies inside a `Say` with child elements exactly when one is open. */
  lemma SsmlAboveNew(t: seq<Node>, o: seq<nat>, s: seq<XmlEvent>, ev: XmlEvent)
    requires WellFormed(t) && Chain(t, o) && |s| == |t|
    ensures WellFormed(AddChild(t, Last(o))) && Chain(AddChild(t, Last(o)), o + [|t|])
    ensures SsmlAbove(AddChild(t, Last(o)), s + [ev], |t|) <==> OpenSays(s, o) > 0
  {
    var u := AddChild(t, Last(o));
    var c := o + [|t|];
    AddChildWellFormed(t, Last(o));
    assert Chain(u, c) by {
      forall i | 0 < i < |c|
        ensures u[c[i]].parent == Some(c[i - 1])
      {
        if i < |o| {
          assert c[i] == o[i] && c[i - 1] == o[i - 1];
        }
      }
    }
    OpenSaysPositive(s, o);
    if SsmlAbove(u, s + [ev], |t|) {
      var a :| 0 <= a < |s| + 1 && a != |t| && Desc(u, |t|, a) && SayWithChildren((s + [ev])[a]);
      ChainDesc(u, c, a);
      var i :| 0 <= i < |c| && c[i] == a;
      assert i < |o| && o[i] == a && s[a] == (s + [ev])[a];
    }
    if OpenSays(s, o) > 0 {
      var i :| 0 <= i < |o| && o[i] < |s| && SayWithChildren(s[o[i]]);
      assert c[i] == o[i];
      ChainDesc(u, c, o[i]);
      assert (s + [ev])[o[i]] == s[o[i]];
    }
  }

  /**
   * A verb added under the innermost open verb keeps the SSML flags sound, and
   * complete, when its own flag is set only, and always, while a `Say` with child
   * elements is open.
   */
  lemma SsmlAddChild(t: seq<Node>, o: seq<nat>, flags: seq<bool>, s: seq<XmlEvent>, ev: XmlEvent, b: bool)
    requires WellFormed(t) && Chain(t, o) && |flags| == |t| == |s|
    ensures WellFormed(AddChild(t, Last(o))) && Chain(AddChild(t, Last(o)), o + [|t|])
    ensures SsmlSound(t, flags, s) && (b ==> OpenSays(s, o) > 0) ==>
              SsmlSound(AddChild(t, Last(o)), flags + [b], s + [ev])
    ensures SsmlComplete(t, flags, s) && (OpenSays(s, o) > 0 ==> b) ==>
              SsmlComplete(AddChild(t, Last(o)), flags + [b], s + [ev])
  {
    var u := AddChild(t, Last(o));
    SsmlAboveNew(t, o, s, ev);
    forall j | 0 <= j < |t|
      ensures SsmlAbove(u, s + [ev], j) <==> SsmlAbove(t, s, j)
    {
      SsmlAboveOld(t, Last(o), s, ev, j);
    }
    assert forall j :: 0 <= j < |t| ==> (flags + [b])[j] == flags[j];
  }

  // ----- the IR as plain data, and `parse_xml` as a function of the stream -----

  /** The IR as plain data: the verbs in document order, their children lists, and `is_voice_response`. */
  datatype Doc = Doc(verbs: seq<VerbRec>, children: seq<seq<nat>>, isVoiceResponse: bool)

  /** The tree shape of a document: each verb's parent index and children list. */
  function ShapeOf(d: Doc): (t: seq<Node>)
    requires |d.children| == |d.verbs|
    ensures |t| == |d.verbs| && forall i :: 0 <= i < |t| ==> t[i] == Node(d.verbs[i].parent, d.children[i])
  {
    seq(|d.verbs|, i requires 0 <= i < |d.verbs| => Node(d.verbs[i].parent, d.children[i]))
  }

  /** The names of a document's verbs, SSML elements left out when `excludeSsml` is set. */
  ghost function VerbNames(d: Doc, excludeSsml: bool): set<string>
  {
    set j | 0 <= j < |d.verbs| && !(excludeSsml && d.verbs[j].isSsml) :: d.verbs[j].name
  }

  /** The `is_ssml` flag of every verb. */
  function Flags(d: Doc): (f: seq<bool>)
    ensures |f| == |d.verbs| && forall j :: 0 <= j < |d.verbs| ==> f[j] == d.verbs[j].isSsml
  {
    seq(|d.verbs|, j requires 0 <= j < |d.verbs| => d.verbs[j].isSsml)
  }

  /** A parsed document: a well formed tree rooted at `response`, each depth one more than the parent's. */
  ghost predicate DocOk(d: Doc)
  {
    |d.children| == |d.verbs| && |d.verbs| > 0 && WellFormed(ShapeOf(d))
    && d.verbs[0].depth == 0
    && (forall j {:trigger d.verbs[j].parent} :: 0 < j < |d.verbs| ==>
          d.verbs[j].parent.Some? && d.verbs[j].parent.value < j
          && d.verbs[j].depth == d.verbs[d.verbs[j].parent.value].depth + 1)
  }

  /** The verb `TwimlIRVerb(...)` builds from the start event `ev`. */
  function NewVerb(ev: XmlEvent, attributes: Attrs, parent: Option<nat>, parentDepth: nat, isSsml: bool): (v: VerbRec)
    requires ev.StartEv?
    ensures '-' !in v.name && v.variableName == None
    ensures v.depth == if parent.Some? then parentDepth + 1 else 0
  {
    VerbRec(ReplaceChar(ev.tag, '-', '_'), attributes, TextValue(CleanText(ev.text)), None, ev.tail, isSsml,
            parent, if parent.Some? then parentDepth + 1 else 0)
  }

  /** `v` was built from the start event `e`. */
  predicate FromStart(types: map<string, map<string, string>>, v: VerbRec, e: XmlEvent)
  {
    e.StartEv? && v.name == ReplaceChar(e.tag, '-', '_')
    && CleanAttributesSpec(types, e.tag, e.attrib) == Ok(v.attributes)
    && v.text == TextValue(CleanText(e.text)) && v.tail == e.tail && v.variableName == None
  }

  /**
   * The document holds one verb per start event `s[j]`, built from it, with parent
   * `ps[j]`; it is a messaging response exactly when some start is a `Message`; and an
   * SSML verb always lies inside a `Say` with child elements.
   */
  ghost predicate Mirrors(types: map<string, map<string, string>>, d: Doc, s: seq<XmlEvent>, ps: seq<Option<nat>>)
  {
    DocOk(d) && |d.verbs| == |s| == |ps|
    && (forall j :: 0 <= j < |s| ==> FromStart(types, d.verbs[j], s[j]) && d.verbs[j].parent == ps[j])
    && (d.isVoiceResponse <==> forall j :: 0 <= j < |s| ==> !IsMessage(s[j]))
    && SsmlSound(ShapeOf(d), Flags(d), s)
  }

  /** The local variables of `parse_xml` besides the IR: `latest_verb`, `processing_ssml`, and the starts seen. */
  datatype ParseState = ParseState(doc: Doc, latest: Option<nat>, processing: bool, starts: seq<XmlEvent>)

  /** The indices a parse state holds are in range. */
  predicate Sane(p: ParseState)
  {
    |p.doc.children| == |p.doc.verbs| == |p.starts|
    && (p.latest.Some? ==> p.latest.value < |p.doc.verbs|)
    && (forall j :: 0 <= j < |p.doc.verbs| && p.doc.verbs[j].parent.Some? ==> p.doc.verbs[j].parent.value < |p.doc.verbs|)
    && (forall j :: 0 <= j < |p.starts| ==> p.starts[j].StartEv?)
  }

  /** The document after the verb built from the start event `ev` is added, as a child of `latest` unless it is the root. */
  function AddStart(d: Doc, ev: XmlEvent, attributes: Attrs, latest: Option<nat>, isSsml: bool): (r: Doc)
    requires ev.StartEv? && |d.children| == |d.verbs| && (latest.Some? ==> latest.value < |d.verbs|)
    ensures |r.verbs| == |r.children| == |d.verbs| + 1
  {
    var v := NewVerb(ev, attributes, latest, if latest.Some? then d.verbs[latest.value].depth else 0, isSsml);
    Doc(d.verbs + [v],
        (if latest.Some? then d.children[latest.value := d.children[latest.value] + [|d.verbs|]] else d.children) + [[]],
        d.isVoiceResponse && !IsMessage(ev))
  }

  /** One turn of the loop of `parse_xml`. */
  function ParseStep(types: map<string, map<string, string>>, p: ParseState, ev: XmlEvent): (r: Result<ParseState>)
    requires Sane(p)
    ensures r.Ok? ==> Sane(r.value)
  {
    match ev
    case EndEv =>
      if p.latest.None? then Err(AttributeError)
      else
        Ok(ParseState(p.doc, p.doc.verbs[p.latest.value].parent,
                      p.processing && !SayWithChildren(p.starts[p.latest.value]), p.starts))
    case StartEv(tag, attrib, _, _, _) =>
      match CleanAttributesSpec(types, tag, attrib)
      case Err(_) => Err(ValueError)
      case Ok(attributes) =>
        if tag == "Response" && p.doc.verbs != [] then Err(UnsupportedDocument)
        else if tag != "Response" && p.latest.None? then Err(AttributeError)
        else
          Ok(ParseState(AddStart(p.doc, ev, attributes, p.latest, p.processing), Some(|p.doc.verbs|),
                        p.processing || SayWithChildren(ev), p.starts + [ev]))
  }

  /** `parse_xml` on the stream `evs`, from the empty IR. */
  function Build(types: map<string, map<string, string>>, evs: seq<XmlEvent>): (r: Result<ParseState>)
    ensures r.Ok? ==> Sane(r.value)
  {
    if evs == [] then Ok(ParseState(Doc([], [], true), None, false, []))
    else
      match Build(types, evs[..|evs| - 1])
      case Err(e) => Err(e)
      case Ok(p) => ParseStep(types, p, evs[|evs| - 1])
  }

  /** Once the parse has failed, later events do not change the error. */
  lemma {:induction false} BuildSticks(types: map<string, map<string, string>>, evs: seq<XmlEvent>, k: nat, m: nat)
    requires k <= m <= |evs| && Build(types, evs[..k]).Err?
    ensures Build(types, evs[..m]) == Build(types, evs[..k])
    decreases m - k
  {
    if k < m {
      BuildSticks(types, evs, k, m - 1);
      assert evs[..m][..m - 1] == evs[..m - 1];
    }
  }

  /**
   * What the loop of `parse_xml` has built after the events `pre`: the verbs mirror the
   * starts; `latest` is the innermost open verb and the open verbs form a path from
   * the root; `processing` is set only while a `Say` with child elements is open, and
   * always then as long as no such `Say` has opened inside another.
   */
  ghost predicate Built(types: map<string, map<string, string>>, pre: seq<XmlEvent>, p: ParseState)
  {
    |p.doc.verbs| == |p.doc.children| == |Starts(pre)| && p.starts == Starts(pre) && p.latest == Top(Open(pre))
    && (p.doc.verbs == [] ==> p.doc.isVoiceResponse)
    && (p.doc.verbs != [] ==> Mirrors(types, p.doc, Starts(pre), Parents(pre)))
    && (Open(pre) != [] ==> Chain(ShapeOf(p.doc), Open(pre)))
    && (p.processing ==> OpenSays(Starts(pre), Open(pre)) > 0)
    && (NoNestedSsml(pre) && OpenSays(Starts(pre), Open(pre)) > 0 ==> p.processing)
    && (NoNestedSsml(pre) && p.doc.verbs != [] ==> SsmlComplete(ShapeOf(p.doc), Flags(p.doc), Starts(pre)))
  }

  /** An end event fails exactly when no verb is open, and otherwise keeps what has been built. */
  lemma StepEnd(types: map<string, map<string, string>>, pre: seq<XmlEvent>, p: ParseState)
    requires Sane(p) && Built(types, pre, p)
    ensures ParseStep(types, p, EndEv).Err? <==> StepError(types, pre, EndEv).Some?
    ensures ParseStep(types, p, EndEv).Err? ==> ParseStep(types, p, EndEv).error == StepError(types, pre, EndEv).value
    ensures ParseStep(types, p, EndEv).Ok? ==> Built(types, pre + [EndEv], ParseStep(types, p, EndEv).value)
  {
    if p.latest.Some? {
      EndKeeps(types, pre, p);
    }
  }

  /** Closing the innermost open verb makes its parent `latest` and keeps the rest of what has been built. */
  lemma EndKeeps(types: map<string, map<string, string>>, pre: seq<XmlEvent>, p: ParseState)
    requires Sane(p) && Built(types, pre, p) && p.latest.Some?
    ensures ParseStep(types, p, EndEv).Ok?
    ensures Built(types, pre + [EndEv], ParseStep(types, p, EndEv).value)
  {
    var l := p.latest.value;
    var r := ParseState(p.doc, p.doc.verbs[l].parent, p.processing && !SayWithChildren(p.starts[l]), p.starts);
    assert ParseStep(types, p, EndEv) == Ok(r);
    SnocEnd(pre);
    var o, s := Open(pre), Starts(pre);
    var o' := o[..|o| - 1];
    assert p.doc.verbs != [] && Chain(ShapeOf(p.doc), o);
    ChainPop(ShapeOf(p.doc), o);
    assert r.latest == Top(o');
    assert OpenSays(s, o) == OpenSays(s, o') + if SayWithChildren(s[l]) then 1 else 0;
    assert r.processing ==> OpenSays(s, o') > 0;
    assert NoNestedSsml(pre + [EndEv]) && OpenSays(s, o') > 0 ==> r.processing;
  }

  /** Leaving the last verb of a path: its parent is the new last one, and what is left is still a path. */
  lemma ChainPop(t: seq<Node>, o: seq<nat>)
    requires WellFormed(t) && Chain(t, o)
    ensures t[Last(o)].parent == Top(o[..|o| - 1])
    ensures |o| > 1 ==> Chain(t, o[..|o| - 1])
  {
  }

  /** A start event fails exactly as the stream specification says. */
  lemma StepStartError(types: map<string, map<string, string>>, pre: seq<XmlEvent>, p: ParseState, ev: XmlEvent)
    requires Sane(p) && Built(types, pre, p) && ev.StartEv?
    ensures ParseStep(types, p, ev).Err? <==> StepError(types, pre, ev).Some?
    ensures ParseStep(types, p, ev).Err? ==> ParseStep(types, p, ev).error == StepError(types, pre, ev).value
  {
    StartErrorCounts(types, pre, p, ev);
  }

  /** The checks on a start event need only the number of verbs built and the innermost open one. */
  lemma StartErrorCounts(types: map<string, map<string, string>>, pre: seq<XmlEvent>, p: ParseState, ev: XmlEvent)
    requires Sane(p) && ev.StartEv? && |p.doc.verbs| == |Starts(pre)| && p.latest == Top(Open(pre))
    ensures ParseStep(types, p, ev).Err? <==> StepError(types, pre, ev).Some?
    ensures ParseStep(types, p, ev).Err? ==> ParseStep(types, p, ev).error == StepError(types, pre, ev).value
  {
    if CleanAttributesSpec(types, ev.tag, ev.attrib).Err? {
      assert ParseStep(types, p, ev) == Err(ValueError);
    }
  }

  /** Adding a verb under `l` adds one child to `l` in the tree and keeps the document well formed. */
  lemma AddStartShape(d: Doc, ev: XmlEvent, attributes: Attrs, l: nat, b: bool)
    requires DocOk(d) && l < |d.verbs| && ev.StartEv?
    ensures ShapeOf(AddStart(d, ev, attributes, Some(l), b)) == AddChild(ShapeOf(d), l)
    ensures Flags(AddStart(d, ev, attributes, Some(l), b)) == Flags(d) + [b]
    ensures AddStart(d, ev, attributes, Some(l), b).verbs[..|d.verbs|] == d.verbs
    ensures DocOk(AddStart(d, ev, attributes, Some(l), b))
  {
    var d' := AddStart(d, ev, attributes, Some(l), b);
    assert ShapeOf(d') == AddChild(ShapeOf(d), l);
    AddChildWellFormed(ShapeOf(d), l);
    assert Flags(d') == Flags(d) + [b];
    assert forall j :: 0 <= j < |d.verbs| ==> d'.verbs[j] == d.verbs[j];
  }

  /** The first verb makes a one-verb document. */
  lemma AddRootShape(d: Doc, ev: XmlEvent, attributes: Attrs, b: bool)
    requires d.verbs == [] && d.children == [] && ev.StartEv?
    ensures ShapeOf(AddStart(d, ev, attributes, None, b)) == [Node(None, [])]
    ensures Flags(AddStart(d, ev, attributes, None, b)) == [b]
    ensures DocOk(AddStart(d, ev, attributes, None, b))
  {
    assert ShapeOf(AddStart(d, ev, attributes, None, b)) == [Node(None, [])];
    assert Flags(AddStart(d, ev, attributes, None, b)) == [b];
  }

  /**
   * A verb added under the innermost open verb keeps the document mirroring the
   * stream, extends the path of open verbs, and keeps the SSML flags complete.
   */
  lemma AddStartMirrors(types: map<string, map<string, string>>, d: Doc, s: seq<XmlEvent>, ps: seq<Option<nat>>,
                        o: seq<nat>, ev: XmlEvent, attributes: Attrs, b: bool)
    requires Mirrors(types, d, s, ps) && Chain(ShapeOf(d), o)
    requires ev.StartEv? && CleanAttributesSpec(types, ev.tag, ev.attrib) == Ok(attributes)
    requires b ==> OpenSays(s, o) > 0
    ensures Mirrors(types, AddStart(d, ev, attributes, Some(Last(o)), b), s + [ev], ps + [Some(Last(o))])
    ensures Chain(ShapeOf(AddStart(d, ev, attributes, Some(Last(o)), b)), o + [|s|])
    ensures SsmlComplete(ShapeOf(d), Flags(d), s) && (OpenSays(s, o) > 0 ==> b) ==>
              SsmlComplete(ShapeOf(AddStart(d, ev, attributes, Some(Last(o)), b)),
                           Flags(AddStart(d, ev, attributes, Some(Last(o)), b)), s + [ev])
  {
    AddStartShape(d, ev, attributes, Last(o), b);
    SsmlAddChild(ShapeOf(d), o, Flags(d), s, ev, b);
    AddStartKeepsMirrors(types, d, s, ps, o, ev, attributes, b);
  }

  lemma AddStartKeepsMirrors(types: map<string, map<string, string>>, d: Doc, s: seq<XmlEvent>, ps: seq<Option<nat>>,
                             o: seq<nat>, ev: XmlEvent, attributes: Attrs, b: bool)
    requires Mirrors(types, d, s, ps) && Chain(ShapeOf(d), o)
    requires ev.StartEv? && CleanAttributesSpec(types, ev.tag, ev.attrib) == Ok(attributes)
    requires b ==> OpenSays(s, o) > 0
    ensures Mirrors(types, AddStart(d, ev, attributes, Some(Last(o)), b), s + [ev], ps + [Some(Last(o))])
  {
    var d' := AddStart(d, ev, attributes, Some(Last(o)), b);
    AddStartShape(d, ev, attributes, Last(o), b);
    SsmlAddChild(ShapeOf(d), o, Flags(d), s, ev, b);
    AddStartVerbs(types, d, s, ps, ev, attributes, Last(o), b);
    AddStartVoice(d, s, ev, attributes, Last(o), b);
    MirrorsIntro(types, d', s + [ev], ps + [Some(Last(o))]);
  }

  /** A document whose verbs match the starts, whose voice flag matches the stream and whose SSML flags are sound mirrors it. */
  lemma MirrorsIntro(types: map<string, map<string, string>>, d: Doc, s: seq<XmlEvent>, ps: seq<Option<nat>>)
    requires DocOk(d) && |d.verbs| == |s| == |ps|
    requires forall j :: 0 <= j < |s| ==> FromStart(types, d.verbs[j], s[j]) && d.verbs[j].parent == ps[j]
    requires d.isVoiceResponse <==> forall j :: 0 <= j < |s| ==> !IsMessage(s[j])
    requires SsmlSound(ShapeOf(d), Flags(d), s)
    ensures Mirrors(types, d, s, ps)
  {
  }

  /** The voice flag after adding a verb stays true only while no start is a messaging verb. */
  lemma AddStartVoice(d: Doc, s: seq<XmlEvent>, ev: XmlEvent, attributes: Attrs, l: nat, b: bool)
    requires ev.StartEv? && |d.children| == |d.verbs| && l < |d.verbs|
    requires d.isVoiceResponse <==> forall j :: 0 <= j < |s| ==> !IsMessage(s[j])
    ensures AddStart(d, ev, attributes, Some(l), b).isVoiceResponse
            <==> forall j :: 0 <= j < |s| + 1 ==> !IsMessage((s + [ev])[j])
  {
    NoMessageAppend(s, ev);
  }

  /** The verbs already built keep their starts and parents; the new one is built from `ev` under `l`. */
  lemma AddStartVerbs(types: map<string, map<string, string>>, d: Doc, s: seq<XmlEvent>, ps: seq<Option<nat>>,
                      ev: XmlEvent, attributes: Attrs, l: nat, b: bool)
    requires Mirrors(types, d, s, ps) && l < |d.verbs|
    requires ev.StartEv? && CleanAttributesSpec(types, ev.tag, ev.attrib) == Ok(attributes)
    ensures forall j :: 0 <= j < |s| + 1 ==>
              FromStart(types, AddStart(d, ev, attributes, Some(l), b).verbs[j], (s + [ev])[j])
              && AddStart(d, ev, attributes, Some(l), b).verbs[j].parent == (ps + [Some(l)])[j]
  {
    var d' := AddStart(d, ev, attributes, Some(l), b);
    forall j | 0 <= j < |s| + 1
      ensures FromStart(types, d'.verbs[j], (s + [ev])[j]) && d'.verbs[j].parent == (ps + [Some(l)])[j]
    {
      if j < |s| {
        assert d'.verbs[j] == d.verbs[j];
      }
    }
  }

  lemma NoMessageAppend(s: seq<XmlEvent>, ev: XmlEvent)
    ensures (forall j :: 0 <= j < |s| + 1 ==> !IsMessage((s + [ev])[j]))
            <==> (forall j :: 0 <= j < |s| ==> !IsMessage(s[j])) && !IsMessage(ev)
  {
    assert forall j :: 0 <= j < |s| ==> (s + [ev])[j] == s[j];
    assert (s + [ev])[|s|] == ev;
  }

  /** The root `Response` makes a document that mirrors its one start. */
  lemma AddRootMirrors(types: map<string, map<string, string>>, d: Doc, ev: XmlEvent, attributes: Attrs)
    requires d.verbs == [] && d.children == [] && d.isVoiceResponse
    requires ev.StartEv? && ev.tag == "Response" && CleanAttributesSpec(types, ev.tag, ev.attrib) == Ok(attributes)
    ensures Mirrors(types, AddStart(d, ev, attributes, None, false), [ev], [None])
    ensures SsmlComplete(ShapeOf(AddStart(d, ev, attributes, None, false)), Flags(AddStart(d, ev, attributes, None, false)), [ev])
    ensures Chain(ShapeOf(AddStart(d, ev, attributes, None, false)), [0])
  {
    AddRootShape(d, ev, attributes, false);
    var t := ShapeOf(AddStart(d, ev, attributes, None, false));
    assert !SsmlAbove(t, [ev], 0);
  }

  /** A start event that does not fail keeps what has been built. */
  lemma StepStartOk(types: map<string, map<string, string>>, pre: seq<XmlEvent>, p: ParseState, ev: XmlEvent)
    requires Sane(p) && Built(types, pre, p) && ev.StartEv? && StepError(types, pre, ev).None?
    ensures ParseStep(types, p, ev).Ok?
    ensures Built(types, pre + [ev], ParseStep(types, p, ev).value)
  {
    StepStartError(types, pre, p, ev);
    var attributes := CleanAttributesSpec(types, ev.tag, ev.attrib).value;
    assert ParseStep(types, p, ev).value
        == ParseState(AddStart(p.doc, ev, attributes, p.latest, p.processing), Some(|p.doc.verbs|),
                      p.processing || SayWithChildren(ev), p.starts + [ev]);
    if p.latest.None? {
      StartRootBuilt(types, pre, p, ev, attributes);
    } else {
      StartChildBuilt(types, pre, p, ev, attributes);
    }
  }

  lemma StartRootBuilt(types: map<string, map<string, string>>, pre: seq<XmlEvent>, p: ParseState, ev: XmlEvent,
                       attributes: Attrs)
    requires Sane(p) && Built(types, pre, p) && ev.StartEv? && StepError(types, pre, ev).None? && p.latest.None?
    requires CleanAttributesSpec(types, ev.tag, ev.attrib) == Ok(attributes)
    ensures Built(types, pre + [ev], ParseState(AddStart(p.doc, ev, attributes, None, p.processing), Some(|p.doc.verbs|),
                                                p.processing || SayWithChildren(ev), p.starts + [ev]))
  {
    assert ev.tag == "Response" && Starts(pre) == [] && Open(pre) == [];
    assert p.doc == Doc([], [], true) && p.starts == [] && !p.processing;
    RootBuilt(types, pre, ev, attributes);
  }

  /** The root `Response` starts the document. */
  lemma RootBuilt(types: map<string, map<string, string>>, pre: seq<XmlEvent>, ev: XmlEvent, attributes: Attrs)
    requires Starts(pre) == [] && Open(pre) == []
    requires ev.StartEv? && ev.tag == "Response" && CleanAttributesSpec(types, ev.tag, ev.attrib) == Ok(attributes)
    ensures Built(types, pre + [ev], ParseState(AddStart(Doc([], [], true), ev, attributes, None, false), Some(0),
                                                SayWithChildren(ev), [ev]))
  {
    var d' := AddStart(Doc([], [], true), ev, attributes, None, false);
    var pre' := pre + [ev];
    RootStream(pre, ev);
    RootSays(ev);
    AddRootMirrors(types, Doc([], [], true), ev, attributes);
    BuiltIntro(types, pre', ParseState(d', Some(0), SayWithChildren(ev), [ev]), [ev], [0], [None]);
  }

  /** The root's start event is the first start and the only open verb. */
  lemma RootStream(pre: seq<XmlEvent>, ev: XmlEvent)
    requires Starts(pre) == [] && Open(pre) == [] && ev.StartEv?
    ensures Starts(pre + [ev]) == [ev] && Open(pre + [ev]) == [0] && Parents(pre + [ev]) == [None]
  {
    SnocStart(pre, ev);
  }

  /** The root is no `Say`, so no `Say` is open once it starts. */
  lemma RootSays(ev: XmlEvent)
    requires ev.StartEv? && ev.tag == "Response"
    ensures !SayWithChildren(ev) && OpenSays([ev], [0]) == 0
  {
    OpenSaysPush([], [], ev);
    assert [] + [ev] == [ev] && [] + [0] == [0];
    assert ev.tag[0] != "Say"[0];
  }

  /** `Built`, with the starts, the open verbs and the parents of the stream given by name. */
  lemma BuiltIntro(types: map<string, map<string, string>>, pre: seq<XmlEvent>, p: ParseState,
                   s: seq<XmlEvent>, o: seq<nat>, ps: seq<Option<nat>>)
    requires Starts(pre) == s && Open(pre) == o && Parents(pre) == ps
    requires |p.doc.verbs| == |p.doc.children| == |s| && p.starts == s && p.latest == Top(o)
    requires p.doc.verbs == [] ==> p.doc.isVoiceResponse
    requires p.doc.verbs != [] ==> Mirrors(types, p.doc, s, ps)
    requires o != [] ==> Chain(ShapeOf(p.doc), o)
    requires p.processing ==> OpenSays(s, o) > 0
    requires NoNestedSsml(pre) && OpenSays(s, o) > 0 ==> p.processing
    requires NoNestedSsml(pre) && p.doc.verbs != [] ==> SsmlComplete(ShapeOf(p.doc), Flags(p.doc), s)
    ensures Built(types, pre, p)
  {
  }

  lemma StartChildBuilt(types: map<string, map<string, string>>, pre: seq<XmlEvent>, p: ParseState, ev: XmlEvent,
                        attributes: Attrs)
    requires Sane(p) && Built(types, pre, p) && ev.StartEv? && StepError(types, pre, ev).None? && p.latest.Some?
    requires CleanAttributesSpec(types, ev.tag, ev.attrib) == Ok(attributes)
    ensures Built(types, pre + [ev], ParseState(AddStart(p.doc, ev, attributes, p.latest, p.processing), Some(|p.doc.verbs|),
                                                p.processing || SayWithChildren(ev), p.starts + [ev]))
  {
    var s := Starts(pre);
    var o := Open(pre);
    SnocStart(pre, ev);
    OpenSaysPush(s, o, ev);
    AddStartMirrors(types, p.doc, s, Parents(pre), o, ev, attributes, p.processing);
  }

  /** `parse_xml` fails exactly as the stream specification says, and otherwise builds what it describes. */
  lemma {:induction false} BuildBuilt(types: map<string, map<string, string>>, evs: seq<XmlEvent>)
    ensures Build(types, evs).Err? <==> FirstError(types, evs).Some?
    ensures Build(types, evs).Err? ==> Build(types, evs).error == FirstError(types, evs).value
    ensures Build(types, evs).Ok? ==> Built(types, evs, Build(types, evs).value)
  {
    if evs != [] {
      var pre := evs[..|evs| - 1];
      var ev := evs[|evs| - 1];
      assert evs == pre + [ev];
      BuildBuilt(types, pre);
      if Build(types, pre).Ok? {
        var p := Build(types, pre).value;
        if ev.EndEv? {
          StepEnd(types, pre, p);
        } else {
          StepStartError(types, pre, p, ev);
          if StepError(types, pre, ev).None? {
            StepStartOk(types, pre, p, ev);
          }
        }
      }
    }
  }

  /**
   * The outcome of `parse_xml` read off the built state; when it passes, the IR
   * mirrors the stream, and with no `Say` nested in another every verb inside such
   * a `Say` is flagged SSML.
   */
  lemma BuildOutcome(types: map<string, map<string, string>>, evs: seq<XmlEvent>)
    ensures Build(types, evs).Err? ==> ParseOutcome(types, evs) == Fail(Build(types, evs).error)
    ensures Build(types, evs).Ok? ==>
              (ParseOutcome(types, evs).Pass? <==> Build(types, evs).value.doc.verbs != [])
    ensures Build(types, evs).Ok? && Build(types, evs).value.doc.verbs == [] ==>
              ParseOutcome(types, evs) == Fail(UnsupportedDocument)
    ensures ParseOutcome(types, evs).Pass? ==>
              Build(types, evs).Ok? && Mirrors(types, Build(types, evs).value.doc, Starts(evs), Parents(evs))
    ensures ParseOutcome(types, evs).Pass? && NoNestedSsml(evs) ==>
              SsmlComplete(ShapeOf(Build(types, evs).value.doc), Flags(Build(types, evs).value.doc), Starts(evs))
  {
    BuildBuilt(types, evs);
  }

  /** `TwimlIR`: the verbs of one document plus the document-wide flags. */
  class TwimlIR {
    /** `TwimlAttributesTypes`, read from the TwiML schema: `<Verb>Type` to attribute name to schema type. */
    const attributesTypes: map<string, map<string, string>>
    /** The verbs in document order; `verbs[0]` is `response`. */
    var verbs: seq<Verb>
    /** `children[i]` is the children list of `verbs[i]`. */
    var children: seq<seq<nat>>
    var isVoiceResponse: bool
    var generatedVariablesNames: set<string>

    /** `TwimlIR.__init__` before parsing: no verbs, a voice response, no variable names handed out. */
    constructor (attributesTypes: map<string, map<string, string>>)
      ensures this.attributesTypes == attributesTypes
      ensures verbs == [] && children == [] && isVoiceResponse && generatedVariablesNames == {}
    {
      this.attributesTypes := attributesTypes;
      verbs := [];
      children := [];
      isVoiceResponse := true;
      generatedVariablesNames := {};
    }

    /** The IR as plain data. */
    function Abstract(): (d: Doc)
      reads this, verbs
      ensures |d.verbs| == |verbs| && forall i :: 0 <= i < |verbs| ==> d.verbs[i] == verbs[i].Rec()
      ensures d.children == children && d.isVoiceResponse == isVoiceResponse
    {
      Doc(seq(|verbs|, i requires 0 <= i < |verbs| reads this, verbs => verbs[i].Rec()), children, isVoiceResponse)
    }

    /** The tree shape: each verb's parent index and children list. */
    function Shape(): (t: seq<Node>)
      reads this, verbs
      requires |children| == |verbs|
      ensures |t| == |verbs|
      ensures forall i :: 0 <= i < |t| ==> t[i] == Node(verbs[i].parent, children[i])
    {
      ShapeOf(Abstract())
    }

    /** A parsed document held by distinct verb objects. */
    ghost predicate Valid()
      reads this, verbs
    {
      (forall i, j :: 0 <= i < j < |verbs| ==> verbs[i] != verbs[j]) && DocOk(Abstract())
    }

    /** `is_messaging_response`. */
    predicate IsMessagingResponse()
      reads this
    {
      !isVoiceResponse
    }

    /** `TwimlIR.clean_attributes` (and the copy the verb makes of the result). */
    method CleanAttributes(verb: string, pairs: seq<(string, string)>) returns (r: Result<Attrs>)
      ensures r == CleanAttributesSpec(attributesTypes, verb, pairs)
    {
      var verbType := verb + "Type";
      if verbType !in attributesTypes {
        return Ok(FromPairs(pairs));
      }
      var types := attributesTypes[verbType];
      var cleaned: Attrs := [];
      for k := 0 to |pairs|
        invariant CleanFold(types, pairs, []) == CleanFold(types, pairs[k..], cleaned)
      {
        assert pairs[k..][1..] == pairs[k + 1..];
        var (name, value) := pairs[k];
        var v := Str(value);
        if name in types && types[name] == "xs:int" {
          var n := ParseInt(value);
          if n.None? {
            return Err(ValueError);
          }
          v := Int(n.value);
        }
        cleaned := Put(cleaned, name, v);
      }
      return Ok(cleaned);
    }

    /**
     * `TwimlIR.parse_xml` over the parser's event stream. A start builds a verb from
     * the element with the SSML flag as it stood, opens the SSML window at a `Say` with
     * child elements, marks the response as messaging at a `Message`, and appends any
     * verb but `Response` to the children of the innermost open verb; an end goes back
     * to that verb's parent and closes the SSML window when it is a `Say` with child
     * elements.
     */
    method ParseXml(events: seq<XmlEvent>) returns (outcome: Outcome)
      requires verbs == [] && children == [] && isVoiceResponse
      modifies this
      ensures outcome == ParseOutcome(attributesTypes, events)
      ensures outcome.Pass? ==> Build(attributesTypes, events).Ok? && Abstract() == Build(attributesTypes, events).value.doc
      ensures outcome.Pass? ==> Valid() && Mirrors(attributesTypes, Abstract(), Starts(events), Parents(events))
      ensures outcome.Pass? && NoNestedSsml(events) ==> SsmlComplete(Shape(), Flags(Abstract()), Starts(events))
    {
      var failure := ParseEvents(events);
      if failure.Some? {
        return Fail(failure.value);
      }
      BuildOutcome(attributesTypes, events);
      if verbs == [] {
        return Fail(UnsupportedDocument);
      }
      return Pass;
    }

    /** The loop of `parse_xml`: the error of the first failing event, or the IR built from all of them. */
    method ParseEvents(events: seq<XmlEvent>) returns (failure: Option<PyError>)
      requires verbs == [] && children == [] && isVoiceResponse
      modifies this
      ensures failure.Some? ==> ParseOutcome(attributesTypes, events) == Fail(failure.value)
      ensures failure.None? ==> Build(attributesTypes, events).Ok? && Build(attributesTypes, events).value.doc == Abstract()
      ensures forall i, j :: 0 <= i < j < |verbs| ==> verbs[i] != verbs[j]
    {
      var latest: Option<nat> := None;
      var processing := false;
      var starts: seq<XmlEvent> := [];
      ghost var seen: seq<XmlEvent> := [];
      failure := None;
      assert Abstract() == Doc([], [], true);
      for k := 0 to |events|
        invariant seen == events[..k]
        invariant Build(attributesTypes, seen) == Ok(ParseState(Abstract(), latest, processing, starts))
        invariant forall i, j :: 0 <= i < j < |verbs| ==> verbs[i] != verbs[j]
      {
        var ev := events[k];
        ghost var p := ParseState(Abstract(), latest, processing, starts);
        assert events[..k + 1] == seen + [ev];
        assert Build(attributesTypes, seen + [ev]) == ParseStep(attributesTypes, p, ev) by {
          assert (seen + [ev])[..|seen|] == seen;
        }
        var f;
        f, latest, processing, starts := ParseEvent(ev, latest, processing, starts);
        if f.Some? {
          Fails(events, k);
          return f;
        }
        seen := seen + [ev];
      }
      assert seen == events;
    }

    /** One turn of the loop of `parse_xml`: the error the event raises, or the state after it. */
    method ParseEvent(ev: XmlEvent, latest: Option<nat>, processing: bool, starts: seq<XmlEvent>)
        returns (failure: Option<PyError>, latest': Option<nat>, processing': bool, starts': seq<XmlEvent>)
      requires Sane(ParseState(Abstract(), latest, processing, starts))
      requires forall i, j :: 0 <= i < j < |verbs| ==> verbs[i] != verbs[j]
      modifies this
      ensures failure.Some? ==> ParseStep(attributesTypes, old(ParseState(Abstract(), latest, processing, starts)), ev) == Err(failure.value)
      ensures failure.None? ==>
                ParseStep(attributesTypes, old(ParseState(Abstract(), latest, processing, starts)), ev)
                == Ok(ParseState(Abstract(), latest', processing', starts'))
      ensures forall i, j :: 0 <= i < j < |verbs| ==> verbs[i] != verbs[j]
    {
      failure, latest', processing', starts' := None, latest, processing, starts;
      if ev.EndEv? {
        if latest.None? {
          return Some(AttributeError), latest, processing, starts;
        }
        var cur := latest.value;
        latest' := verbs[cur].parent;
        if starts[cur].tag == "Say" && starts[cur].hasChildren {
          processing' := false;
        }
      } else {
        failure, latest', processing', starts' := ParseStart(ev, latest, processing, starts);
      }
    }

    /** The start branch of the loop of `parse_xml`. */
    method ParseStart(ev: XmlEvent, latest: Option<nat>, processing: bool, starts: seq<XmlEvent>)
        returns (failure: Option<PyError>, latest': Option<nat>, processing': bool, starts': seq<XmlEvent>)
      requires ev.StartEv? && Sane(ParseState(Abstract(), latest, processing, starts))
      requires forall i, j :: 0 <= i < j < |verbs| ==> verbs[i] != verbs[j]
      modifies this
      ensures failure.Some? ==> ParseStep(attributesTypes, old(ParseState(Abstract(), latest, processing, starts)), ev) == Err(failure.value)
      ensures failure.None? ==>
                ParseStep(attributesTypes, old(ParseState(Abstract(), latest, processing, starts)), ev)
                == Ok(ParseState(Abstract(), latest', processing', starts'))
      ensures forall i, j :: 0 <= i < j < |verbs| ==> verbs[i] != verbs[j]
    {
      var attributes := CleanAttributes(ev.tag, ev.attrib);
      if attributes.Err? {
        return Some(ValueError), latest, processing, starts;
      }
      if ev.tag == "Response" && verbs != [] {
        return Some(UnsupportedDocument), latest, processing, starts;
      }
      if ev.tag != "Response" && latest.None? {
        return Some(AttributeError), latest, processing, starts;
      }
      ghost var before := verbs;
      processing' := AddVerbFromStart(ev, attributes.value, latest, processing);
      assert forall i :: 0 <= i < |before| ==> verbs[i] == before[i];
      failure, latest', starts' := None, Some(|starts|), starts + [ev];
    }

    /** A failing event ends the parse with its error. */
    lemma Fails(events: seq<XmlEvent>, k: nat)
      requires k < |events| && Build(attributesTypes, events[..k + 1]).Err?
      ensures ParseOutcome(attributesTypes, events) == Fail(Build(attributesTypes, events[..k + 1]).error)
    {
      BuildSticks(attributesTypes, events, k + 1, |events|);
      assert events[..|events|] == events;
      BuildOutcome(attributesTypes, events);
    }

    /**
     * The start branch of `parse_xml` once the event is known not to fail: the new
     * verb is added, the SSML window opens at a `Say` with child elements and the
     * response becomes a messaging one at a `Message`.
     */
    method AddVerbFromStart(ev: XmlEvent, attributes: Attrs, latest: Option<nat>, processing: bool)
        returns (processing': bool)
      requires ev.StartEv? && |children| == |verbs|
      requires latest.Some? ==> latest.value < |verbs|
      modifies this
      ensures processing' == (processing || SayWithChildren(ev))
      ensures |verbs| == |old(verbs)| + 1 && verbs == old(verbs) + [verbs[|old(verbs)|]] && fresh(verbs[|old(verbs)|])
      ensures Abstract() == AddStart(old(Abstract()), ev, attributes, latest, processing)
    {
      ghost var d0 := Abstract();
      var n := |verbs|;
      var verb := MakeVerb(ev, attributes, latest, processing);
      assert latest.Some? ==> d0.verbs[latest.value].depth == verbs[latest.value].depth;
      processing' := processing;
      if ev.tag == "Say" && ev.hasChildren {
        processing' := true;
      }
      if ev.tag == "Message" {
        isVoiceResponse := false;
      }
      if latest.Some? {
        children := children[latest.value := children[latest.value] + [n]];
      }
      Push(verb);
      assert Abstract() == Doc(d0.verbs + [verb.Rec()], children, isVoiceResponse);
    }

    /** `TwimlIRVerb(...)` on the start event, under the verb `latest` if any. */
    method MakeVerb(ev: XmlEvent, attributes: Attrs, latest: Option<nat>, isSsml: bool) returns (verb: Verb)
      requires ev.StartEv? && (latest.Some? ==> latest.value < |verbs|)
      ensures fresh(verb)
      ensures verb.Rec() == NewVerb(ev, attributes, latest, if latest.Some? then verbs[latest.value].depth else 0, isSsml)
    {
      var parent := if latest.Some? then Some((latest.value, verbs[latest.value])) else None;
      verb := new Verb(ev.tag, attributes, CleanText(ev.text), parent, ev.tail, isSsml);
    }

    /** Appends a new verb, with no children yet, to the arena. */
    method Push(verb: Verb)
      modifies this
      ensures verbs == old(verbs) + [verb] && children == old(children) + [[]]
      ensures isVoiceResponse == old(isVoiceResponse)
      ensures Abstract().verbs == old(Abstract().verbs) + [verb.Rec()]
    {
      ghost var d0 := Abstract();
      verbs := verbs + [verb];
      children := children + [[]];
      ghost var d := Abstract();
      forall i | 0 <= i < |d0.verbs|
        ensures d.verbs[i] == d0.verbs[i]
      {
        assert verbs[i] == old(verbs)[i];
      }
      assert d.verbs == d0.verbs + [verb.Rec()];
    }

    /**
     * `TwimlIR.__iter__`, with the events it yields collected in order: an explicit
     * stack of (verb, event) entries; a popped `start` pushes the verb's `end` and
     * then its children reversed, each as `start`, or `leaf` when it has none.
     */
    method Iter() returns (events: seq<Event>)
      requires Valid()
      ensures events == Fwd(Shape())
    {
      var t := Shape();
      assert WellFormed(t);
      var queue := [Start(0)];
      events := [];
      assert ExpandStack(t, queue) == Fwd(t);
      while queue != []
        invariant StackOk(t, queue)
        invariant events + ExpandStack(t, queue) == Fwd(t)
        decreases |Fwd(t)| - |events|
      {
        var top := queue[|queue| - 1];
        ghost var rest := ExpandStack(t, queue[..|queue| - 1]);
        assert ExpandStack(t, queue) == Expand(t, top) + rest;
        queue := queue[..|queue| - 1];
        if top.Start? {
          var v := top.v;
          assert t[v].children == children[v];
          ExpandStackPush(t, queue, End(v));
          ExpandPush(t, queue + [End(v)], v, children[v]);
          queue := queue + [End(v)] + RevItems(t, children[v]);
          ghost var kids := Kids(t, v, children[v]);
          assert ExpandStack(t, queue) == kids + ([End(v)] + rest);
          assert Expand(t, top) == [top] + kids + [End(v)];
          calc {
            Fwd(t);
            events + (Expand(t, top) + rest);
            { AppendAssoc(events, Expand(t, top), rest); }
            (events + Expand(t, top)) + rest;
            { Regroup(events, [top], kids, [End(v)], rest); }
            ((events + [top]) + kids) + ([End(v)] + rest);
            { AppendAssoc(events + [top], kids, [End(v)] + rest); }
            (events + [top]) + ExpandStack(t, queue);
          }
        } else {
          assert Expand(t, top) == [top];
          AppendAssoc(events, [top], rest);
        }
        events := events + [top];
      }
    }

    /**
     * `TwimlIR.reverse_iter`, with the verbs it yields collected in order (see
     * `Tree.ReverseTraversal`): every verb comes out exactly once, after all of its
     * children, starting from the leaf reached by first children and ending with the
     * root.
     */
    method ReverseIter() returns (order: seq<nat>)
      requires Valid()
      ensures NoDup(order) && forall v: nat :: v in order <==> v < |verbs|
      ensures ChildrenFirst(Shape(), order)
      ensures order != [] && order[0] == FirstLeaf(Shape(), 0) && order[|order| - 1] == 0
    {
      order := ReverseTraversal(Shape());
      RootLast(Shape(), order);
    }

    /**
     * `TwimlIR.get_verb_names`: the names of the verbs the traversal meets, SSML
     * elements left out when asked, each once, in Python's string order.
     */
    method GetVerbNames(excludeSsml: bool) returns (names: seq<string>)
      requires Valid()
      ensures StrictlySorted(names)
      ensures forall n :: n in names <==> n in VerbNames(Abstract(), excludeSsml)
    {
      var events := Iter();
      ghost var t := Shape();
      ghost var d := Abstract();
      forall m | 0 <= m < |events|
        ensures events[m].v < |verbs|
      {
        FwdMembers(t, events[m]);
      }
      var found := CollectNames(events, excludeSsml);
      forall j | 0 <= j < |verbs| && !(excludeSsml && d.verbs[j].isSsml)
        ensures d.verbs[j].name in found
      {
        var m := FwdVisits(t, j);
      }
      assert found == VerbNames(d, excludeSsml);
      names := SortedList(found);
    }

    /** The loop of `get_verb_names` that gathers the names over the traversal's events. */
    method CollectNames(events: seq<Event>, excludeSsml: bool) returns (found: set<string>)
      requires forall m :: 0 <= m < |events| ==> events[m].v < |verbs|
      ensures found <= VerbNames(Abstract(), excludeSsml)
      ensures forall m :: 0 <= m < |events| && !(excludeSsml && Abstract().verbs[events[m].v].isSsml) ==>
                Abstract().verbs[events[m].v].name in found
    {
      ghost var d := Abstract();
      found := {};
      for k := 0 to |events|
        invariant found <= VerbNames(d, excludeSsml)
        invariant forall m :: 0 <= m < k && !(excludeSsml && d.verbs[events[m].v].isSsml) ==>
                    d.verbs[events[m].v].name in found
      {
        var verb := verbs[events[k].v];
        assert verb.Rec() == d.verbs[events[k].v];
        if excludeSsml && verb.isSsml {
          continue;
        }
        found := found + {verb.name};
      }
    }
  }
}
