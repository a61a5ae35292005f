/**
 * The C# specificity module: `verb_processing` evaluates the verb's name and, when it
 * names `Prompt`, `Pay` or `Play`, runs that class's `process` on the verb and the
 * generator's import set. `Prompt` and `Pay` are lists of attribute calls (see
 * `AttrOps`) whose lists are always built, even from a single token; `Play` wraps the
 * text in a `new Uri(...)` expression.
 */
module CSharpHandlers {
  import opened Wrappers
  import opened Strings
  import opened Attributes
  import opened Inflection
  import opened TwimlIr
  import opened Specificity
  import opened AttrOps

  /** C#'s `enum_name`: `<verb>.<Attr>Enum.<Value>`, the value underscored then camelized. */
  function EnumName(verbName: string, attrName: string, value: string): string
  {
    verbName + "." + Pascalize(attrName + "Enum") + "." + Pascalize(Underscore(value))
  }

  const LinqImport := "using System.Linq;"
  const SystemImport := "using System;"

  function ListOfItems(items: string): string
  {
    "new []{" + items + "}.ToList()"
  }

  /** The module's `to_list` wrapper adds the `Linq` import after every call, whether a list was built or not. */
  const CSharp := Dialect(EnumName, ListOfItems, LinqImport, true)

  /** What a handler class's `process` does. */
  datatype Handler =
    | Calls(ops: seq<Op>)
    /** `Play`: the text, one space when it is falsy, becomes raw `new Uri("<text>")`. */
    | PlayUri

  /** `to_list(verb, k, imports, force=True, ...)` then `to_bytes(verb, k)`. */
  function ListBytes(k: string, tokens: Tokens): seq<Op>
  {
    [ListOp(k, tokens, true), BytesOp(k)]
  }

  const PromptOps: seq<Op> :=
    ListBytes("errorType", EnumOf) + ListBytes("cardType", EnumOf) + ListBytes("attempt", AsIs)

  const PayOps: seq<Op> := ListBytes("validCardTypes", EnumOf) + [BytesOp("timeout"), BytesOp("maxAttempts")]

  /** The classes in the `verbs` list of `verb_processing`, by name. */
  function HandlerFor(name: string): Option<Handler>
  {
    match name
    case "Prompt" => Some(Calls(PromptOps))
    case "Pay" => Some(Calls(PayOps))
    case "Play" => Some(PlayUri)
    case _ => None
  }

  /**
   * What `'{}'.format(value)` writes for a text value: a `str` as it is, an `int` in
   * decimal, `bytes` as their `b'...'` form, `None` as `None`.
   */
  function FormatValue(v: Value): string
  {
    match v
    case Str(s) => s
    case Int(i) => IntToString(i)
    case Raw(s) => "b'" + s + "'"
    case Null => "None"
  }

  /** `build_uri`: the value inside `new Uri("...")`, with nothing escaped. */
  function BuildUri(value: string): string
  {
    "new Uri(\"" + value + "\")"
  }

  /**
   * `to_uri`: a present value that is not `bytes` is replaced by the `str` of
   * `build_uri` over its formatted form; an absent or raw one is left alone. Nothing
   * marks the result raw, and nothing in the module calls it.
   */
  function ToUri(d: Attrs, k: string): (r: Attrs)
    ensures Settled(d, k) ==> r == d
    ensures SameElsewhere(d, r, k)
    ensures !Settled(d, k) ==> Get(r, k) == Some(Str(BuildUri(FormatValue(Get(d, k).value))))
  {
    match Get(d, k)
    case None => d
    case Some(v) =>
      if v.Raw? then d
      else
        PutElsewhere(d, k, Str(BuildUri(FormatValue(v))));
        Put(d, k, Str(BuildUri(FormatValue(v))))
  }

  /**
   * `to_uri` is not idempotent: its result is a `str`, so a second call wraps it in a
   * second `new Uri`.
   */
  lemma ToUriTwice(d: Attrs, k: string)
    requires Has(d, k) && !Get(d, k).value.Raw?
    ensures Get(ToUri(ToUri(d, k), k), k) ==
            Some(Str(BuildUri(BuildUri(FormatValue(Get(d, k).value)))))
    ensures ToUri(ToUri(d, k), k) != ToUri(d, k)
  {
    var once := ToUri(d, k);
    var s := BuildUri(FormatValue(Get(d, k).value));
    assert Get(once, k) == Some(Str(s));
    assert |BuildUri(s)| == |s| + 11;
  }

  /** `to_uri` followed by `to_bytes` leaves the raw `new Uri`, and repeating the pair changes nothing. */
  lemma ToUriThenBytes(d: Attrs, k: string)
    requires Has(d, k) && !Get(d, k).value.Raw?
    ensures ToBytes(ToUri(d, k), k) == Ok(Put(d, k, Raw(BuildUri(FormatValue(Get(d, k).value)))))
    ensures ToUri(ToBytes(ToUri(d, k), k).value, k) == ToBytes(ToUri(d, k), k).value
  {
    var s := BuildUri(FormatValue(Get(d, k).value));
    assert Get(ToUri(d, k), k) == Some(Str(s));
    assert ToUri(d, k) == Put(d, k, Str(s));
    PutTwice(d, k, Str(s), Raw(s));
  }

  /** The text `Play.process` leaves: a falsy text is first made one space. */
  function PlayText(text: Value): Value
  {
    Raw(BuildUri(if Truthy(text) then FormatValue(text) else " "))
  }

  /** A class's `process` on a verb: the verb's new state and the imports added. */
  function Process(h: Handler, v: VerbRec): (r: Result<(VerbRec, set<string>)>)
    ensures r.Ok? ==> r.value.0.name == v.name && r.value.0.isSsml == v.isSsml && r.value.0.variableName == v.variableName
    ensures h.Calls? ==> (r.Ok? <==> Run(CSharp, v.name, h.ops, v.attributes).Ok?)
    ensures h.Calls? && r.Ok? ==> r.value.0.text == v.text
    ensures h.PlayUri? ==> r.Ok? && r.value.0.attributes == v.attributes && r.value.1 == {SystemImport}
    ensures h.PlayUri? ==> r.Ok? && r.value.0.text == Raw(BuildUri(if Truthy(v.text) then FormatValue(v.text) else " "))
  {
    match h
    case Calls(ops) =>
      var (d, imports) :- Run(CSharp, v.name, ops, v.attributes);
      Ok((v.(attributes := d), imports))
    case PlayUri =>
      Ok((v.(text := PlayText(v.text)), {SystemImport}))
  }

  /**
   * `verb_processing`: a name that is a statement keyword fails to evaluate; `Prompt`,
   * `Pay` and `Play` run their class; any other name leaves the verb and the imports
   * alone.
   */
  function VerbProcessing(v: VerbRec): (r: Result<(VerbRec, set<string>)>)
    ensures v.name in StatementKeywords ==> r == Err(SyntaxError)
    ensures v.name !in StatementKeywords && HandlerFor(v.name).None? ==> r == Ok((v, {}))
    ensures v.name !in StatementKeywords && HandlerFor(v.name).Some? ==> r == Process(HandlerFor(v.name).value, v)
  {
    if v.name in StatementKeywords then Err(SyntaxError)
    else if HandlerFor(v.name).None? then Ok((v, {}))
    else Process(HandlerFor(v.name).value, v)
  }

  lemma ListBytesTrack(k: string, tokens: Tokens, t: Track)
    ensures TrackAll(ListBytes(k, tokens), t) == Track(t.settled + {k}, t.absent)
  {
    var ops := ListBytes(k, tokens);
    assert ops[..1][..0] == [];
    assert TrackAll(ops[..1], t) == t;
  }

  lemma PromptQuiet()
    ensures SelfQuiet(PromptOps)
  {
    var e := Track({}, {});
    var x := ListBytes("errorType", EnumOf);
    var y := ListBytes("cardType", EnumOf);
    var z := ListBytes("attempt", AsIs);
    TrackAppend(x + y, z, e);
    TrackAppend(x, y, e);
    ListBytesTrack("errorType", EnumOf, e);
    ListBytesTrack("cardType", EnumOf, TrackAll(x, e));
    ListBytesTrack("attempt", AsIs, TrackAll(x + y, e));
    assert Final(PromptOps) == Track({"errorType", "cardType", "attempt"}, {});
  }

  lemma PayQuiet()
    ensures SelfQuiet(PayOps)
  {
    var e := Track({}, {});
    var x := ListBytes("validCardTypes", EnumOf);
    var y: seq<Op> := [BytesOp("timeout"), BytesOp("maxAttempts")];
    TrackAppend(x, y, e);
    ListBytesTrack("validCardTypes", EnumOf, e);
    var t1 := Track({"validCardTypes"}, {});
    assert y[..1][..0] == [];
    assert TrackAll(y[..1], t1) == Track({"validCardTypes", "timeout"}, {});
    assert TrackAll(y, t1) == Track({"validCardTypes", "timeout", "maxAttempts"}, {});
    assert PayOps == x + y;
    assert TrackAll(x, e) == t1;
  }

  lemma CallsSelfQuiet(name: string)
    requires HandlerFor(name).Some? && HandlerFor(name).value.Calls?
    ensures SelfQuiet(HandlerFor(name).value.ops)
  {
    if name == "Prompt" {
      PromptQuiet();
    } else {
      PayQuiet();
    }
  }

  /**
   * `Prompt` and `Pay` are idempotent on the verb: run again on their own result they
   * change nothing, and the imports they add again are among those the first run added.
   */
  lemma CallsTwice(name: string, v: VerbRec)
    requires HandlerFor(name).Some? && HandlerFor(name).value.Calls?
    requires name == v.name && Process(HandlerFor(name).value, v).Ok?
    ensures Process(HandlerFor(name).value, Process(HandlerFor(name).value, v).value.0).Ok?
    ensures Process(HandlerFor(name).value, Process(HandlerFor(name).value, v).value.0).value.0 ==
            Process(HandlerFor(name).value, v).value.0
    ensures Process(HandlerFor(name).value, Process(HandlerFor(name).value, v).value.0).value.1 <=
            Process(HandlerFor(name).value, v).value.1
  {
    var ops := HandlerFor(name).value.ops;
    CallsSelfQuiet(name);
    RunTwice(CSharp, name, ops, v.attributes);
  }

  /** Every `to_list` call adds the `Linq` import, and stores a list built from a single token as well. */
  lemma ListAlwaysBuilt(verbName: string, k: string, tokens: Tokens, d: Attrs, s: string)
    requires Get(d, k) == Some(Str(s))
    ensures Apply(CSharp, verbName, ListOp(k, tokens, true), d).Ok?
    ensures Get(Apply(CSharp, verbName, ListOp(k, tokens, true), d).value.0, k) ==
            Some(Str(ListOfItems(Join(", ", MapStrings(TokenTransform(CSharp, verbName, k, tokens), Split(s, ' '))))))
    ensures Apply(CSharp, verbName, ListOp(k, tokens, true), d).value.1 == {LinqImport}
  {
    var t := TokenTransform(CSharp, verbName, k, tokens);
    ToListStores(d, k, ListOfItems, true, t);
    var r := ToList(d, k, ListOfItems, true, t);
    assert Apply(CSharp, verbName, ListOp(k, tokens, true), d) == Ok((r.value.0, {LinqImport}));
  }

  /** `Play` always succeeds, and its text is the raw `new Uri` of the text it found, or of one space. */
  lemma PlayResult(v: VerbRec)
    ensures Process(PlayUri, v).Ok?
    ensures Truthy(v.text) ==> Process(PlayUri, v).value.0.text == Raw("new Uri(\"" + FormatValue(v.text) + "\")")
    ensures !Truthy(v.text) ==> Process(PlayUri, v).value.0.text == Raw("new Uri(\" \")")
  {
  }

  /**
   * `Play` is not idempotent: a second run formats the `bytes` the first run left as
   * `b'...'` and wraps them in a second `new Uri`.
   */
  lemma PlayNotIdempotent(v: VerbRec)
    ensures Process(PlayUri, Process(PlayUri, v).value.0).value.0.text != Process(PlayUri, v).value.0.text
  {
    var once := Process(PlayUri, v).value.0.text;
    var twice := Process(PlayUri, Process(PlayUri, v).value.0).value.0.text;
    assert Truthy(once);
    assert |twice.s| == |once.s| + 14;
  }
}
