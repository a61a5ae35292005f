/**
 * The attribute helpers the language handlers share, in their two versions: the
 * package's own `rename_attr`, `to_list` and `to_bytes`, and the `common` module's
 * `rename_attr`, `attr_to_list` and `to_bytes`; plus the `Language` registry that
 * dispatches a verb to the handler class registered under its name.
 *
 * A value is "settled" under a key when the key is absent or holds `bytes`: every
 * helper leaves such a key alone, and `to_bytes` settles the key it is given.
 */
module Specificity {
  import opened Wrappers
  import opened Strings
  import opened Attributes
  import opened TwimlIr

  /** The key is absent or already raw: no helper rewrites it. */
  predicate Settled(d: Attrs, k: string)
  {
    Get(d, k).None? || Get(d, k).value.Raw?
  }

  /**
   * `rename_attr`: when the key is present its value is popped and assigned under
   * `newName` (so a new key goes last); otherwise the attributes stay as they are.
   */
  function RenameAttr(d: Attrs, attrName: string, newName: string): (r: Attrs)
    ensures !Has(d, attrName) ==> r == d
    ensures Distinct(d) ==> Distinct(r)
  {
    if Has(d, attrName) then
      PopDistinctIf(d, attrName);
      PutDistinctIf(Pop(d, attrName), newName, Get(d, attrName).value);
      Put(Pop(d, attrName), newName, Get(d, attrName).value)
    else d
  }

  lemma PopDistinctIf(d: Attrs, k: string)
    ensures Distinct(d) ==> Distinct(Pop(d, k))
  {
    if Distinct(d) {
      PopDistinct(d, k);
    }
  }

  lemma PutDistinctIf(d: Attrs, k: string, v: Value)
    ensures Distinct(d) ==> Distinct(Put(d, k, v))
  {
    if Distinct(d) {
      PutDistinct(d, k, v);
    }
  }

  /** After a rename the new key holds the old key's value, the old key is gone, and every other key is as it was. */
  lemma RenameAttrMoves(d: Attrs, attrName: string, newName: string, k: string)
    requires Has(d, attrName)
    ensures Get(RenameAttr(d, attrName, newName), k) ==
            if k == newName then Get(d, attrName) else if k == attrName then None else Get(d, k)
  {
    GetPut(Pop(d, attrName), newName, Get(d, attrName).value, k);
    GetPop(d, attrName, k);
  }

  /** A rename settles the old key (it is absent afterwards) unless both names are the same. */
  lemma RenameAttrSettles(d: Attrs, attrName: string, newName: string)
    requires attrName != newName
    ensures !Has(RenameAttr(d, attrName, newName), attrName)
  {
    if Has(d, attrName) {
      RenameAttrMoves(d, attrName, newName, attrName);
    }
  }

  /** `do_nothing`: the default token transform of the package's `to_list`. */
  function DoNothing(x: string): (r: string)
    ensures r == x
  {
    x
  }

  function MapStrings(f: string -> string, xs: seq<string>): (r: seq<string>)
    ensures |r| == |xs| && forall i :: 0 <= i < |xs| ==> r[i] == f(xs[i])
  {
    seq(|xs|, i requires 0 <= i < |xs| => f(xs[i]))
  }

  /** The list a `str` value becomes: its `' '`-separated tokens, each transformed, joined by `', '`, put in the template. */
  function ListLiteral(formatter: string -> string, transform: string -> string, s: string): string
  {
    formatter(Join(", ", MapStrings(transform, Split(s, ' '))))
  }

  /**
   * The package's `to_list`. A present `str` value with a space in it, or any present
   * `str` value under `force`, becomes the list literal and the result says `True`; a
   * single token becomes `transform(value)` and the result says `False`; an absent or
   * raw value is left alone. `' ' in value` fails on an `int` or `None`.
   */
  function ToList(d: Attrs, attrName: string, formatter: string -> string, force: bool,
                  transform: string -> string): (r: Result<(Attrs, bool)>)
    ensures Settled(d, attrName) ==> r == Ok((d, false))
    ensures r.Ok? ==> SameElsewhere(d, r.value.0, attrName)
    ensures r.Ok? ==> (r.value.1 <==> Has(d, attrName) && Get(d, attrName).value.Str? &&
                                      (' ' in Get(d, attrName).value.s || force))
    ensures r.Err? <==> Has(d, attrName) && (Get(d, attrName).value.Int? || Get(d, attrName).value.Null?)
  {
    match Get(d, attrName)
    case None => Ok((d, false))
    case Some(v) =>
      match v
      case Raw(_) => Ok((d, false))
      case Str(s) =>
        if ' ' in s || force then
          PutElsewhere(d, attrName, Str(ListLiteral(formatter, transform, s)));
          Ok((Put(d, attrName, Str(ListLiteral(formatter, transform, s))), true))
        else
          PutElsewhere(d, attrName, Str(transform(s)));
          Ok((Put(d, attrName, Str(transform(s))), false))
      case _ => Err(TypeError)
  }

  /** What `to_list` stores is the list literal, or the transformed single token; it is still a `str`. */
  lemma ToListStores(d: Attrs, attrName: string, formatter: string -> string, force: bool, transform: string -> string)
    requires Has(d, attrName) && Get(d, attrName).value.Str?
    ensures var s := Get(d, attrName).value.s;
            var r := ToList(d, attrName, formatter, force, transform);
            r.Ok? && Get(r.value.0, attrName) ==
              Some(Str(if ' ' in s || force then ListLiteral(formatter, transform, s) else transform(s)))
  {
    var s := Get(d, attrName).value.s;
    if ' ' in s || force {
      PutElsewhere(d, attrName, Str(ListLiteral(formatter, transform, s)));
    } else {
      PutElsewhere(d, attrName, Str(transform(s)));
    }
  }

  /**
   * A listified value is still a `str`, so a second `to_list` under `force` turns it
   * into a list again: only `to_bytes` makes the conversion final.
   */
  lemma ToListAgain(d: Attrs, attrName: string, formatter: string -> string, transform: string -> string)
    requires Has(d, attrName) && Get(d, attrName).value.Str?
    ensures var once := ToList(d, attrName, formatter, true, transform);
            once.Ok? && ToList(once.value.0, attrName, formatter, true, transform).Ok? &&
            ToList(once.value.0, attrName, formatter, true, transform).value.1
  {
    ToListStores(d, attrName, formatter, true, transform);
  }

  /** With the identity transform and template, listifying puts `', '` in place of every space. */
  lemma {:induction false} ListLiteralPlain(s: string)
    ensures Join(", ", MapStrings(DoNothing, Split(s, ' '))) == Replace(s, " ", ", ")
  {
    assert MapStrings(DoNothing, Split(s, ' ')) == Split(s, ' ');
    JoinSplitReplace(s);
  }

  lemma {:induction false} JoinSplitReplace(s: string)
    ensures Join(", ", Split(s, ' ')) == Replace(s, " ", ", ")
  {
    if s != [] {
      var rest := Split(s[1..], ' ');
      JoinSplitReplace(s[1..]);
      if s[0] == ' ' {
        assert " " <= s;
        assert Split(s, ' ') == [""] + rest;
        assert ([""] + rest)[1..] == rest;
      } else {
        assert !(" " <= s);
        assert Split(s, ' ') == [[s[0]] + rest[0]] + rest[1..];
        if |rest| > 1 {
          assert rest == [rest[0]] + rest[1..];
          assert Join(", ", rest) == rest[0] + ", " + Join(", ", rest[1..]);
        }
      }
    }
  }

  /**
   * The `common` module's `attr_to_list`: like `ToList`, except that a token whose
   * transform is absent or gives an empty string stays as it is in the list, and that
   * the single-token branch calls the transform unguarded, which fails when there is
   * none.
   */
  function AttrToList(d: Attrs, attrName: string, formatter: string -> string, force: bool,
                      transform: Option<string -> string>): (r: Result<(Attrs, bool)>)
    ensures Settled(d, attrName) ==> r == Ok((d, false))
    ensures r.Ok? ==> SameElsewhere(d, r.value.0, attrName)
    ensures r.Ok? ==> (r.value.1 <==> Has(d, attrName) && Get(d, attrName).value.Str? &&
                                      (' ' in Get(d, attrName).value.s || force))
    ensures (transform.None? && Has(d, attrName) && Get(d, attrName).value.Str? &&
             ' ' !in Get(d, attrName).value.s && !force) ==> r == Err(TypeError)
  {
    match Get(d, attrName)
    case None => Ok((d, false))
    case Some(v) =>
      match v
      case Raw(_) => Ok((d, false))
      case Str(s) =>
        if ' ' in s || force then
          var literal := ListLiteral(formatter, OrToken(transform), s);
          PutElsewhere(d, attrName, Str(literal));
          Ok((Put(d, attrName, Str(literal)), true))
        else if transform.None? then Err(TypeError)
        else
          PutElsewhere(d, attrName, Str(transform.value(s)));
          Ok((Put(d, attrName, Str(transform.value(s))), false))
      case _ => Err(TypeError)
  }

  /** `transform and transform(value) or value`, for one token. */
  function OrToken(transform: Option<string -> string>): (f: string -> string)
    ensures forall x :: f(x) == (if transform.Some? && transform.value(x) != "" then transform.value(x) else x)
  {
    x => if transform.Some? && transform.value(x) != "" then transform.value(x) else x
  }

  /** Without a transform, `attr_to_list` lists the tokens themselves. */
  lemma AttrToListPlain(d: Attrs, attrName: string, formatter: string -> string)
    requires Has(d, attrName) && Get(d, attrName).value.Str?
    ensures var s := Get(d, attrName).value.s;
            var r := AttrToList(d, attrName, formatter, true, None);
            r.Ok? && Get(r.value.0, attrName) == Some(Str(formatter(Replace(s, " ", ", "))))
  {
    var s := Get(d, attrName).value.s;
    assert MapStrings(OrToken(None), Split(s, ' ')) == MapStrings(DoNothing, Split(s, ' '));
    ListLiteralPlain(s);
    PutElsewhere(d, attrName, Str(formatter(Replace(s, " ", ", "))));
  }

  /**
   * `to_bytes` (both versions): a present `str` value is marked raw, an absent or raw
   * value is left alone, and `encode` is missing on an `int` or `None`.
   */
  function ToBytes(d: Attrs, attrName: string): (r: Result<Attrs>)
    ensures Settled(d, attrName) ==> r == Ok(d)
    ensures r.Ok? ==> Settled(r.value, attrName) && SameElsewhere(d, r.value, attrName)
    ensures r.Err? <==> Has(d, attrName) && (Get(d, attrName).value.Int? || Get(d, attrName).value.Null?)
  {
    match Get(d, attrName)
    case None => Ok(d)
    case Some(v) =>
      match v
      case Raw(_) => Ok(d)
      case Str(s) =>
        PutElsewhere(d, attrName, Raw(s));
        Ok(Put(d, attrName, Raw(s)))
      case _ => Err(AttributeError)
  }

  /** `to_bytes` keeps the characters of a `str` and only marks them raw. */
  lemma ToBytesKeepsText(d: Attrs, attrName: string)
    requires Has(d, attrName) && Get(d, attrName).value.Str?
    ensures ToBytes(d, attrName).Ok? && Get(ToBytes(d, attrName).value, attrName) == Some(Raw(Get(d, attrName).value.s))
  {
    PutElsewhere(d, attrName, Raw(Get(d, attrName).value.s));
  }

  /** `to_bytes` is idempotent. */
  lemma ToBytesIdempotent(d: Attrs, attrName: string)
    requires ToBytes(d, attrName).Ok?
    ensures ToBytes(ToBytes(d, attrName).value, attrName) == ToBytes(d, attrName)
  {
  }

  /**
   * The verb names on which the Java and C# modules' `eval(verb.name)` raises
   * `SyntaxError`: Python's keywords, except the three that are values (`True`,
   * `False`, `None`), which evaluate to something that is not a handler class.
   */
  const StatementKeywords: set<string> := {
    "and", "as", "assert", "async", "await", "break", "class", "continue", "def", "del",
    "elif", "else", "except", "finally", "for", "from", "global", "if", "import", "in",
    "is", "lambda", "nonlocal", "not", "or", "pass", "raise", "return", "try", "while",
    "with", "yield"}

  /** Every keyword is lower case, so a capitalised verb name is never one. */
  lemma CapitalisedNotKeyword(name: string)
    requires name != [] && 'A' <= name[0] <= 'Z'
    ensures name !in StatementKeywords
  {
    forall k | k in StatementKeywords
      ensures k != [] && 'a' <= k[0] <= 'z'
    {
    }
  }

  // ----- the `Language` registry of the `common` module -----

  /** What the `process` of a class registered with a language does to a verb. */
  datatype Process =
    /** Ruby's classes: non-empty text moves into the attribute `key` and the text becomes `None`. */
    | MoveTextTo(key: string)
    /** Python's `Play`: empty text becomes one space. */
    | BlankTextToSpace

  /** A handler class as `register` sees it: its `name` class attribute if any, its class name, its `process`. */
  datatype HandlerClass = HandlerClass(nameAttr: Option<string>, className: string, process: Process)

  /** `getattr(class_, 'name', class_.__name__)`. */
  function RegistryKey(c: HandlerClass): (k: string)
    ensures c.nameAttr.Some? ==> k == c.nameAttr.value
    ensures c.nameAttr.None? ==> k == c.className
  {
    if c.nameAttr.Some? then c.nameAttr.value else c.className
  }

  /** One registered `process` run on a verb. */
  function RunProcess(p: Process, v: VerbRec): (r: VerbRec)
    ensures r.name == v.name && r.isSsml == v.isSsml && r.variableName == v.variableName
    ensures p.MoveTextTo? ==> if Truthy(v.text) then r.text == Null && Get(r.attributes, p.key) == Some(v.text)
                              else r == v
    ensures p.BlankTextToSpace? ==> r.attributes == v.attributes && r.text == if Truthy(v.text) then v.text else Str(" ")
  {
    match p
    case MoveTextTo(key) =>
      if Truthy(v.text) then
        GetPut(v.attributes, key, v.text, key);
        v.(attributes := Put(v.attributes, key, v.text), text := Null)
      else v
    case BlankTextToSpace => if Truthy(v.text) then v else v.(text := Str(" "))
  }

  /** A registered `process` run twice leaves the verb as one run does. */
  lemma RunProcessIdempotent(p: Process, v: VerbRec)
    ensures RunProcess(p, RunProcess(p, v)) == RunProcess(p, v)
  {
  }

  /**
   * `Language.verb_processing`: the class registered under the verb's name processes
   * it; a verb whose name is not registered is left alone. `in` on a language whose
   * `_classes` is `None` fails.
   */
  function VerbProcessing(classes: Option<map<string, HandlerClass>>, v: VerbRec): (r: Result<VerbRec>)
    ensures r.Err? <==> classes.None?
    ensures classes.Some? && v.name !in classes.value ==> r == Ok(v)
    ensures classes.Some? && v.name in classes.value ==> r == Ok(RunProcess(classes.value[v.name].process, v))
  {
    if classes.None? then Err(TypeError)
    else if v.name in classes.value then Ok(RunProcess(classes.value[v.name].process, v))
    else Ok(v)
  }

  /** Processing keeps the name, so a second dispatch reaches the same class and changes nothing. */
  lemma VerbProcessingIdempotent(classes: map<string, HandlerClass>, v: VerbRec)
    ensures VerbProcessing(Some(classes), VerbProcessing(Some(classes), v).value) == VerbProcessing(Some(classes), v)
  {
    if v.name in classes {
      RunProcessIdempotent(classes[v.name].process, v);
    }
  }

  /** `Language`: a language's class-level `_classes` registry, `None` when the language defines none. */
  class Language {
    var classes: Option<map<string, HandlerClass>>

    constructor (classes: Option<map<string, HandlerClass>>)
      ensures this.classes == classes
    {
      this.classes := classes;
    }

    /**
     * `Language.register`: stores the class under its `name` attribute, else its class
     * name, and hands the class back; item assignment on `None` fails.
     */
    method Register(c: HandlerClass) returns (r: Result<HandlerClass>)
      modifies this
      ensures old(classes).None? ==> r == Err(TypeError) && classes == old(classes)
      ensures old(classes).Some? ==> r == Ok(c) && classes == Some(old(classes).value[RegistryKey(c) := c])
    {
      if classes.None? {
        return Err(TypeError);
      }
      classes := Some(classes.value[RegistryKey(c) := c]);
      return Ok(c);
    }
  }
}
