/**
 * The Java specificity module: `verb_processing` evaluates the verb's name and, when it
 * names one of the fifteen handler classes, runs that class's `process` on the verb
 * and the generator's import set. All but `Enqueue` and `Play` are lists of attribute
 * calls (see `AttrOps`).
 */
module JavaHandlers {
  import opened Wrappers
  import opened Strings
  import opened Attributes
  import opened Inflection
  import opened TwimlIr
  import opened Specificity
  import opened AttrOps

  /** Java's `enum_name`: `<verb>.<Attr>.<VALUE>`, the value underscored and upper-cased, each `.` in it made `_`. */
  function EnumName(verbName: string, attrName: string, value: string): string
  {
    verbName + "." + Pascalize(attrName) + "." + ReplaceChar(Upper(Underscore(value)), '.', '_')
  }

  const ArraysImport := "import java.util.Arrays;"

  function ArraysAsList(items: string): string
  {
    "Arrays.asList(" + items + ")"
  }

  /** The module's `to_list` wrapper adds the `Arrays` import only when a list was built. */
  const Java := Dialect(EnumName, ArraysAsList, ArraysImport, false)

  /** What a handler class's `process` does. */
  datatype Handler =
    | Calls(ops: seq<Op>)
    /** `Enqueue`: the text, whatever it is, goes to `queueName` and the text becomes `None`. */
    | EnqueueText
    /** `Play`: empty text becomes one space. */
    | PlayText

  /** `to_enum(verb, k)` then `to_bytes(verb, k)`. */
  function EnumBytes(k: string): seq<Op>
  {
    [EnumOp(k), BytesOp(k)]
  }

  /** `to_list(verb, k, imports, ...)`, `to_bytes(verb, k)`, then `rename_attr(verb, k, newName)`. */
  function ListBytesRename(k: string, tokens: Tokens, newName: string): seq<Op>
  {
    [ListOp(k, tokens, false), BytesOp(k), RenameOp(k, newName)]
  }

  /** `_Evented.process`, which `Client`, `Number`, `Sip` and `Conference` inherit. */
  const Evented: seq<Op> := ListBytesRename("statusCallbackEvent", EventOf, "statusCallbackEvents")

  const PromptOps: seq<Op> :=
    EnumBytes("for") + ListBytesRename("cardType", EnumOf, "cardTypes") +
    ListBytesRename("errorType", EnumOf, "errorTypes") + ListBytesRename("attempt", AsIs, "attempts")

  const PayOps: seq<Op> :=
    EnumBytes("language") + [ListOp("validCardTypes", EnumOf, false), BytesOp("validCardTypes"),
                             BytesOp("maxAttempts"), BytesOp("timeout")]

  const SsmlSayAsOps: seq<Op> := [RenameOp("interpret-as", "interpretAs")] + EnumBytes("interpretAs") + EnumBytes("role")

  /** The classes in the `verbs` list of `verb_processing`, by name. */
  function HandlerFor(name: string): Option<Handler>
  {
    match name
    case "Prompt" => Some(Calls(PromptOps))
    case "Pay" => Some(Calls(PayOps))
    case "Conference" => Some(Calls(Evented + EnumBytes("beep") + EnumBytes("record")))
    case "Client" => Some(Calls(Evented))
    case "Number" => Some(Calls(Evented))
    case "Sip" => Some(Calls(Evented))
    case "Say" => Some(Calls(EnumBytes("voice") + EnumBytes("language")))
    case "Reject" => Some(Calls(EnumBytes("reason")))
    case "Dial" => Some(Calls(EnumBytes("record") + EnumBytes("trim")))
    case "Enqueue" => Some(EnqueueText)
    case "Play" => Some(PlayText)
    case "SsmlBreak" => Some(Calls(EnumBytes("strength")))
    case "SsmlEmphasis" => Some(Calls(EnumBytes("level")))
    case "SsmlPhoneme" => Some(Calls(EnumBytes("alphabet")))
    case "SsmlSayAs" => Some(Calls(SsmlSayAsOps))
    case _ => None
  }

  /** A class's `process` on a verb: the verb's new state and the imports added. */
  function Process(h: Handler, v: VerbRec): (r: Result<(VerbRec, set<string>)>)
    ensures r.Ok? ==> r.value.0.name == v.name && r.value.0.isSsml == v.isSsml && r.value.0.variableName == v.variableName
    ensures h.Calls? ==> (r.Ok? <==> Run(Java, v.name, h.ops, v.attributes).Ok?)
    ensures h.Calls? && r.Ok? ==> r.value.0.text == v.text
    ensures h.EnqueueText? ==> r.Ok? && r.value.0.text == Null && Get(r.value.0.attributes, "queueName") == Some(v.text)
    ensures h.EnqueueText? ==> r.Ok? && r.value.1 == {} && r.value.0.attributes == Put(v.attributes, "queueName", v.text)
    ensures h.EnqueueText? ==> r.Ok? && forall k :: k != "queueName" ==> Get(r.value.0.attributes, k) == Get(v.attributes, k)
    ensures h.PlayText? ==> r.Ok? && r.value.0.attributes == v.attributes && r.value.1 == {}
    ensures h.PlayText? ==> r.Ok? && r.value.0.text == (if Truthy(v.text) then v.text else Str(" "))
  {
    match h
    case Calls(ops) =>
      var (d, imports) :- Run(Java, v.name, ops, v.attributes);
      Ok((v.(attributes := d), imports))
    case EnqueueText =>
      GetPut(v.attributes, "queueName", v.text, "queueName");
      forall k | k != "queueName"
        ensures Get(Put(v.attributes, "queueName", v.text), k) == Get(v.attributes, k)
      {
        GetPut(v.attributes, "queueName", v.text, k);
      }
      Ok((v.(attributes := Put(v.attributes, "queueName", v.text), text := Null), {}))
    case PlayText =>
      Ok((if Truthy(v.text) then v else v.(text := Str(" ")), {}))
  }

  /**
   * `verb_processing`: a name that is a statement keyword fails to evaluate; a name of
   * one of the fifteen classes runs it; any other name leaves the verb and the imports
   * alone.
   */
  function VerbProcessing(v: VerbRec): (r: Result<(VerbRec, set<string>)>)
    ensures v.name in StatementKeywords ==> r == Err(SyntaxError)
    ensures v.name !in StatementKeywords && HandlerFor(v.name).None? ==> r == Ok((v, {}))
    ensures v.name !in StatementKeywords && HandlerFor(v.name).Some? ==> r == Process(HandlerFor(v.name).value, v)
  {
    if v.name in StatementKeywords then Err(SyntaxError)
    else if HandlerFor(v.name).None? then Ok((v, {}))
    else Process(HandlerFor(v.name).value, v)
  }

  lemma EnumBytesTrack(k: string, t: Track)
    ensures TrackAll(EnumBytes(k), t) == Track(t.settled + {k}, t.absent)
  {
    var ops := EnumBytes(k);
    assert ops[..1][..0] == [];
    assert TrackAll(ops[..1], t) == t;
  }

  lemma ListBytesRenameTrack(k: string, tokens: Tokens, newName: string, t: Track)
    requires k != newName
    ensures TrackAll(ListBytesRename(k, tokens, newName), t) ==
            Track(t.settled - {newName} + {k}, t.absent - {newName} + {k})
  {
    var ops := ListBytesRename(k, tokens, newName);
    assert ops[..2][..1][..0] == [];
    assert TrackAll(ops[..2][..1], t) == t;
    var t2 := Track(t.settled + {k}, t.absent);
    assert TrackAll(ops[..2], t) == t2;
    assert TrackAll(ops, t) == TrackOp(t2, RenameOp(k, newName));
    assert t.settled + {k} - {newName} + {k} == t.settled - {newName} + {k};
  }

  lemma EnumBytesQuiet(k: string)
    ensures SelfQuiet(EnumBytes(k))
  {
    EnumBytesTrack(k, Track({}, {}));
  }

  lemma EnumBytesTwiceQuiet(k1: string, k2: string)
    ensures SelfQuiet(EnumBytes(k1) + EnumBytes(k2))
  {
    var e := Track({}, {});
    TrackAppend(EnumBytes(k1), EnumBytes(k2), e);
    EnumBytesTrack(k1, e);
    EnumBytesTrack(k2, TrackAll(EnumBytes(k1), e));
  }

  lemma EventedQuiet()
    ensures SelfQuiet(Evented)
  {
    ListBytesRenameTrack("statusCallbackEvent", EventOf, "statusCallbackEvents", Track({}, {}));
  }

  lemma ConferenceQuiet()
    ensures SelfQuiet(Evented + EnumBytes("beep") + EnumBytes("record"))
  {
    var e := Track({}, {});
    ListBytesRenameTrack("statusCallbackEvent", EventOf, "statusCallbackEvents", e);
    TrackAppend(Evented + EnumBytes("beep"), EnumBytes("record"), e);
    TrackAppend(Evented, EnumBytes("beep"), e);
    EnumBytesTrack("beep", TrackAll(Evented, e));
    EnumBytesTrack("record", TrackAll(Evented + EnumBytes("beep"), e));
  }

  lemma PromptQuiet()
    ensures SelfQuiet(PromptOps)
  {
    var e := Track({}, {});
    var x := EnumBytes("for");
    var y := ListBytesRename("cardType", EnumOf, "cardTypes");
    var z := ListBytesRename("errorType", EnumOf, "errorTypes");
    var w := ListBytesRename("attempt", AsIs, "attempts");
    TrackAppend(x + y + z, w, e);
    TrackAppend(x + y, z, e);
    TrackAppend(x, y, e);
    EnumBytesTrack("for", e);
    ListBytesRenameTrack("cardType", EnumOf, "cardTypes", TrackAll(x, e));
    ListBytesRenameTrack("errorType", EnumOf, "errorTypes", TrackAll(x + y, e));
    ListBytesRenameTrack("attempt", AsIs, "attempts", TrackAll(x + y + z, e));
    assert Final(PromptOps) == Track({"for", "cardType", "errorType", "attempt"}, {"cardType", "errorType", "attempt"});
  }

  lemma PayQuiet()
    ensures SelfQuiet(PayOps)
  {
    var e := Track({}, {});
    var x := EnumBytes("language");
    var y: seq<Op> := [ListOp("validCardTypes", EnumOf, false), BytesOp("validCardTypes"), BytesOp("maxAttempts"), BytesOp("timeout")];
    TrackAppend(x, y, e);
    EnumBytesTrack("language", e);
    var t1 := Track({"language"}, {});
    assert y[..3][..2][..1][..0] == [];
    assert TrackAll(y[..3][..2][..1], t1) == t1;
    assert TrackAll(y[..3][..2], t1) == Track({"language", "validCardTypes"}, {});
    assert TrackAll(y[..3], t1) == Track({"language", "validCardTypes", "maxAttempts"}, {});
    assert TrackAll(y, t1) == Track({"language", "validCardTypes", "maxAttempts", "timeout"}, {});
    assert PayOps == x + y;
    assert TrackAll(x, e) == t1;
  }

  lemma SsmlSayAsQuiet()
    ensures SelfQuiet(SsmlSayAsOps)
  {
    var e := Track({}, {});
    var x: seq<Op> := [RenameOp("interpret-as", "interpretAs")];
    var r := TrackAll(x, e);
    assert r == Track({"interpret-as"}, {"interpret-as"});
    TrackAppend(x + EnumBytes("interpretAs"), EnumBytes("role"), e);
    TrackAppend(x, EnumBytes("interpretAs"), e);
    EnumBytesTrack("interpretAs", r);
    EnumBytesTrack("role", TrackAll(x + EnumBytes("interpretAs"), e));
  }

  /** Every attribute-only class leaves each key it works on raw, or renamed away. */
  lemma CallsSelfQuiet(name: string)
    requires HandlerFor(name).Some? && HandlerFor(name).value.Calls?
    ensures SelfQuiet(HandlerFor(name).value.ops)
  {
    match name
    case "Prompt" => PromptQuiet();
    case "Pay" => PayQuiet();
    case "Conference" => ConferenceQuiet();
    case "Client" => EventedQuiet();
    case "Number" => EventedQuiet();
    case "Sip" => EventedQuiet();
    case "Say" => EnumBytesTwiceQuiet("voice", "language");
    case "Reject" => EnumBytesQuiet("reason");
    case "Dial" => EnumBytesTwiceQuiet("record", "trim");
    case "SsmlBreak" => EnumBytesQuiet("strength");
    case "SsmlEmphasis" => EnumBytesQuiet("level");
    case "SsmlPhoneme" => EnumBytesQuiet("alphabet");
    case "SsmlSayAs" => SsmlSayAsQuiet();
  }

  /**
   * The attribute-only classes are idempotent: run again on their own result they
   * change nothing and add no import.
   */
  lemma CallsTwice(name: string, v: VerbRec)
    requires HandlerFor(name).Some? && HandlerFor(name).value.Calls?
    requires name == v.name && Process(HandlerFor(name).value, v).Ok?
    ensures var once := Process(HandlerFor(name).value, v).value.0;
            Process(HandlerFor(name).value, once) == Ok((once, {}))
  {
    var ops := HandlerFor(name).value.ops;
    CallsSelfQuiet(name);
    RunTwice(Java, name, ops, v.attributes);
    QuietImportsJava(ops);
  }

  lemma {:induction false} QuietImportsJava(ops: seq<Op>)
    ensures QuietImports(Java, ops) == {}
    decreases |ops|
  {
    if ops != [] {
      QuietImportsJava(ops[..|ops| - 1]);
    }
  }

  /** `Play` is idempotent. */
  lemma PlayTwice(v: VerbRec)
    ensures Process(PlayText, Process(PlayText, v).value.0) == Process(PlayText, v)
  {
  }

  /**
   * `Enqueue` is not: on a second run `queueName` is overwritten by the text the first
   * run set to `None`, so text that was there is lost.
   */
  lemma EnqueueTwiceLosesText(v: VerbRec)
    requires Truthy(v.text)
    ensures var once := Process(EnqueueText, v).value.0;
            Get(once.attributes, "queueName") == Some(v.text) &&
            Get(Process(EnqueueText, once).value.0.attributes, "queueName") == Some(Null)
  {
  }

  /** The module's `to_list` adds the `Arrays` import exactly when it built a list. */
  lemma ListImportWhenConverted(verbName: string, k: string, tokens: Tokens, d: Attrs)
    requires Apply(Java, verbName, ListOp(k, tokens, false), d).Ok?
    ensures var converted := ToList(d, k, ArraysAsList, false, TokenTransform(Java, verbName, k, tokens));
            converted.Ok? &&
            (ArraysImport in Apply(Java, verbName, ListOp(k, tokens, false), d).value.1 <==> converted.value.1)
  {
  }

  /** The three calls of `_Evented`, one after the other. */
  lemma EventedSteps(verbName: string, d: Attrs, l: Attrs, imports: set<string>, b: Attrs)
    requires Apply(Java, verbName, ListOp("statusCallbackEvent", EventOf, false), d) == Ok((l, imports))
    requires ToBytes(l, "statusCallbackEvent") == Ok(b)
    ensures Run(Java, verbName, Evented, d) == Ok((RenameAttr(b, "statusCallbackEvent", "statusCallbackEvents"), imports))
  {
    var e0 := ListOp("statusCallbackEvent", EventOf, false);
    var e1 := BytesOp("statusCallbackEvent");
    var e2 := RenameOp("statusCallbackEvent", "statusCallbackEvents");
    assert Evented == [e0, e1, e2];
    assert Apply(Java, verbName, e1, l) == Ok((b, {}));
    assert Apply(Java, verbName, e2, b) == Ok((RenameAttr(b, "statusCallbackEvent", "statusCallbackEvents"), {}));
    RunThree(Java, verbName, e0, e1, e2, d, l, imports, b, {}, RenameAttr(b, "statusCallbackEvent", "statusCallbackEvents"), {});
    assert imports + {} + {} == imports;
  }

  /**
   * `_Evented` with several events stores the raw `Arrays.asList` of the event
   * constants under `statusCallbackEvents` and adds the import; with one event it
   * stores the raw constant alone and adds nothing. `statusCallbackEvent` is gone.
   */
  lemma EventedResult(v: VerbRec, s: string)
    requires Get(v.attributes, "statusCallbackEvent") == Some(Str(s))
    ensures Run(Java, v.name, Evented, v.attributes).Ok?
    ensures !Has(Run(Java, v.name, Evented, v.attributes).value.0, "statusCallbackEvent")
    ensures ' ' in s ==>
              Get(Run(Java, v.name, Evented, v.attributes).value.0, "statusCallbackEvents") ==
                Some(Raw(ListLiteral(ArraysAsList, TokenTransform(Java, v.name, "statusCallbackEvent", EventOf), s))) &&
              Run(Java, v.name, Evented, v.attributes).value.1 == {ArraysImport}
    ensures ' ' !in s ==>
              Get(Run(Java, v.name, Evented, v.attributes).value.0, "statusCallbackEvents") ==
                Some(Raw(EventConstant(v.name, s))) &&
              Run(Java, v.name, Evented, v.attributes).value.1 == {}
  {
    var l := EventedListed(v.name, v.attributes, s);
    var event := TokenTransform(Java, v.name, "statusCallbackEvent", EventOf);
    if ' ' in s {
      EventedStored(v.name, v.attributes, l, {ArraysImport}, ListLiteral(ArraysAsList, event, s));
    } else {
      EventedStored(v.name, v.attributes, l, {}, event(s));
    }
  }

  /** The first part of `_Evented`: `to_list` over `statusCallbackEvent`, with the Java event transform. */
  lemma EventedListed(verbName: string, d: Attrs, s: string) returns (l: Attrs)
    requires Get(d, "statusCallbackEvent") == Some(Str(s))
    ensures Apply(Java, verbName, ListOp("statusCallbackEvent", EventOf, false), d) ==
              Ok((l, if ' ' in s then {ArraysImport} else {}))
    ensures var event := TokenTransform(Java, verbName, "statusCallbackEvent", EventOf);
            Get(l, "statusCallbackEvent") ==
              Some(Str(if ' ' in s then ListLiteral(ArraysAsList, event, s) else event(s)))
  {
    var k := "statusCallbackEvent";
    var event := TokenTransform(Java, verbName, k, EventOf);
    ToListStores(d, k, ArraysAsList, false, event);
    l := ToList(d, k, ArraysAsList, false, event).value.0;
  }

  /** The last two parts of `_Evented`: the stored text becomes `bytes` and moves to `statusCallbackEvents`. */
  lemma EventedStored(verbName: string, d: Attrs, l: Attrs, imports: set<string>, stored: string)
    requires Apply(Java, verbName, ListOp("statusCallbackEvent", EventOf, false), d) == Ok((l, imports))
    requires Get(l, "statusCallbackEvent") == Some(Str(stored))
    ensures Run(Java, verbName, Evented, d).Ok? && Run(Java, verbName, Evented, d).value.1 == imports
    ensures !Has(Run(Java, verbName, Evented, d).value.0, "statusCallbackEvent")
    ensures Get(Run(Java, verbName, Evented, d).value.0, "statusCallbackEvents") == Some(Raw(stored))
  {
    var k := "statusCallbackEvent";
    var k2 := "statusCallbackEvents";
    ToBytesKeepsText(l, k);
    var b := ToBytes(l, k).value;
    EventedSteps(verbName, d, l, imports, b);
    RenameAttrMoves(b, k, k2, k2);
    RenameAttrMoves(b, k, k2, k);
  }

  /**
   * The constant after the last `.` that `enum_name` adds holds no `.` and no
   * lower-case letter: the value's dots and case do not leak into the Java name.
   */
  lemma EnumConstant(verbName: string, attrName: string, value: string)
    ensures var c := EnumName(verbName, attrName, value)[|verbName| + |Pascalize(attrName)| + 2..];
            '.' !in c && forall i :: 0 <= i < |c| ==> !('a' <= c[i] <= 'z')
  {
    var c := ReplaceChar(Upper(Underscore(value)), '.', '_');
    assert EnumName(verbName, attrName, value)[|verbName| + |Pascalize(attrName)| + 2..] == c;
  }
}
