/**
 * The generator's own clean-up passes, `TwimlCodeGenerator.clean_<language>_specificities`.
 * They are a second, separate set of rewrites from the `specificity` package: the
 * generator's constructor runs one of these, never the package's `Language.clean`.
 * Each is a loop over every traversal event (see module Passes) whose body is a
 * `Step` below; what the Java pass adds to `specific_imports` is the step's import set.
 * The Node.js pass has the same loop body as `Node.clean` (NodeLanguage.CleanStep).
 */
module InlinePasses {
  import opened Wrappers
  import opened Strings
  import opened Attributes
  import opened Inflection
  import opened Tree
  import opened TwimlIr
  import opened Specificity
  import opened Passes
  import AttrOps
  import JavaHandlers
  import PythonLanguage
  import RubyLanguage

  // ---------------------------------------------------------------- Java

  /**
   * `java_enumize(verb, attr_name)`: a present `str` value becomes the raw enum constant
   * `<verb>.<Attr>.<VALUE>`; an absent or raw value is left alone. `underscore` fails
   * on an `int` or `None`.
   */
  function JavaEnumize(verbName: string, d: Attrs, k: string): (r: Result<Attrs>)
    ensures Settled(d, k) ==> r == Ok(d)
    ensures r.Ok? ==> Settled(r.value, k) && SameElsewhere(d, r.value, k)
    ensures Has(d, k) && Get(d, k).value.Str? ==>
              r.Ok? && Get(r.value, k) == Some(Raw(JavaHandlers.EnumName(verbName, k, Get(d, k).value.s)))
    ensures r.Err? <==> Has(d, k) && (Get(d, k).value.Int? || Get(d, k).value.Null?)
  {
    match Get(d, k)
    case None => Ok(d)
    case Some(v) =>
      match v
      case Raw(_) => Ok(d)
      case Str(s) =>
        PutElsewhere(d, k, Raw(JavaHandlers.EnumName(verbName, k, s)));
        Ok(Put(d, k, Raw(JavaHandlers.EnumName(verbName, k, s))))
      case _ => Err(TypeError)
  }

  /**
   * `java_enumize` does in one call what the package's `to_enum` followed by `to_bytes`
   * does: the same raw constant, the same failures, no import.
   */
  lemma JavaEnumizeMatchesModule(verbName: string, d: Attrs, k: string)
    ensures AttrOps.Run(JavaHandlers.Java, verbName, JavaHandlers.EnumBytes(k), d) ==
            match JavaEnumize(verbName, d, k)
            case Ok(e) => Ok((e, {}))
            case Err(x) => Err(x)
  {
    var dl := JavaHandlers.Java;
    var a, b := AttrOps.EnumOp(k), AttrOps.BytesOp(k);
    assert JavaHandlers.EnumBytes(k) == [a] + [b];
    var r := AttrOps.ToEnum(dl, verbName, d, k);
    if r.Ok? {
      assert AttrOps.Apply(dl, verbName, a, d) == Ok((r.value, {}));
      AttrOps.RunOne(dl, verbName, a, d, r.value, {});
      if Settled(d, k) {
        assert ToBytes(r.value, k) == Ok(d);
      } else {
        var s := Get(d, k).value.s;
        var e := Put(d, k, Str(dl.enumName(verbName, k, s)));
        assert r.value == e;
        GetPut(d, k, Str(dl.enumName(verbName, k, s)), k);
        PutPut(d, k, Str(dl.enumName(verbName, k, s)), Raw(dl.enumName(verbName, k, s)));
        assert ToBytes(e, k) == Ok(Put(e, k, Raw(dl.enumName(verbName, k, s))));
      }
      AttrOps.RunSnoc(dl, verbName, [a], b, d);
      var none: set<string> := {};
      assert none + none == none;
    } else {
      assert [a][..0] == [];
      assert AttrOps.Run(dl, verbName, [], d) == Ok((d, {}));
      assert AttrOps.Run(dl, verbName, [a], d) == Err(TypeError);
      assert [a] + [b] == [a, b] && [a, b][..1] == [a];
      assert AttrOps.Run(dl, verbName, [a, b], d) == Err(TypeError);
    }
  }

  /** Assigning a key twice keeps the second value where the first was. */
  lemma {:induction false} PutPut(d: Attrs, k: string, v: Value, w: Value)
    ensures Put(Put(d, k, v), k, w) == Put(d, k, w)
  {
    if d != [] && d[0].0 != k {
      PutPut(d[1..], k, v, w);
    }
  }

  /** Two `java_enumize` calls in a row. */
  function JavaEnumizeTwo(verbName: string, d: Attrs, k1: string, k2: string): Result<Attrs>
  {
    var e :- JavaEnumize(verbName, d, k1);
    JavaEnumize(verbName, e, k2)
  }

  /**
   * The `statusCallbackEvent` branch with class prefix `prefix`: a present `str` value
   * always becomes the raw `Arrays.asList(...)` of `<prefix>.Event.<EVENT>` over its
   * `' '`-separated events, stored under `statusCallbackEvents`, the old key is popped and
   * the `Arrays` import added. `split` fails on `int` and `None` (no such method) and on
   * `bytes` (a `str` separator).
   */
  function JavaEvents(prefix: string, d: Attrs): (r: Result<(Attrs, set<string>)>)
  {
    match Get(d, "statusCallbackEvent")
    case None => Ok((d, {}))
    case Some(v) =>
      match v
      case Str(s) =>
        var listed := Raw(ListLiteral(JavaHandlers.ArraysAsList, (x: string) => AttrOps.EventConstant(prefix, x), s));
        Ok((Pop(Put(d, "statusCallbackEvents", listed), "statusCallbackEvent"), {JavaHandlers.ArraysImport}))
      case Raw(_) => Err(TypeError)
      case _ => Err(AttributeError)
  }

  /** The `is_ssml` part: variable name `ssmlX`, class name `SsmlX`, and the class's import. */
  function JavaSsml(v: VerbRec): (VerbRec, set<string>)
  {
    if v.isSsml then
      var n := Pascalize("ssml_" + v.name);
      (v.(variableName := Some(Camelize("ssml_" + v.name)), name := n), {"import com.twilio.twiml.voice." + n + ";"})
    else (v, {})
  }

  /** The `if`/`elif` chain on the (possibly renamed) verb: it never renames the verb nor touches its variable name. */
  function JavaBranch(v: VerbRec): (r: Result<(VerbRec, set<string>)>)
    ensures r.Ok? ==> Assign(v, r.value.0) == r.value.0
    ensures r.Ok? ==> r.value.0 == v.(attributes := r.value.0.attributes, text := r.value.0.text)
  {
    if v.name == "Enqueue" then Ok((v.(attributes := Put(v.attributes, "queueName", v.text), text := Null), {}))
    else if v.name == "Play" then Ok((if Truthy(v.text) then v else v.(text := Str(" ")), {}))
    else if v.name == "Dial" then WithAttrs(v, JavaEnumizeTwo(v.name, v.attributes, "record", "trim"))
    else if v.name == "Reject" then WithAttrs(v, JavaEnumize(v.name, v.attributes, "reason"))
    else if v.name == "Say" then WithAttrs(v, JavaEnumizeTwo(v.name, v.attributes, "voice", "language"))
    else if v.name == "Client" || v.name == "Number" || v.name == "Sip" then WithImports(v, JavaEvents(v.name, v.attributes))
    else if v.name == "Conference" then
      match JavaEnumizeTwo(v.name, v.attributes, "beep", "record")
      case Ok(a) => WithImports(v, JavaEvents("Conference", a))
      case Err(x) => Err(x)
    else if v.name == "SsmlBreak" then WithAttrs(v, JavaEnumize(v.name, v.attributes, "strength"))
    else if v.name == "SsmlPhoneme" then WithAttrs(v, JavaEnumize(v.name, v.attributes, "alphabet"))
    else if v.name == "SsmlSayAs" then
      WithAttrs(v, JavaEnumizeTwo(v.name, RenameAttr(v.attributes, "interpret-as", "interpretAs"), "interpretAs", "role"))
    else if v.name == "SsmlEmphasis" then WithAttrs(v, JavaEnumize(v.name, v.attributes, "level"))
    else Ok((v, {}))
  }

  function WithAttrs(v: VerbRec, e: Result<Attrs>): Result<(VerbRec, set<string>)>
  {
    match e
    case Ok(d) => Ok((v.(attributes := d), {}))
    case Err(x) => Err(x)
  }

  function WithImports(v: VerbRec, e: Result<(Attrs, set<string>)>): Result<(VerbRec, set<string>)>
  {
    match e
    case Ok(p) => Ok((v.(attributes := p.0), p.1))
    case Err(x) => Err(x)
  }

  /** The body of `clean_java_specificities`' loop. */
  function JavaStep(v: VerbRec): (r: Result<(VerbRec, set<string>)>)
    ensures r.Ok? ==> Assign(v, r.value.0) == r.value.0
  {
    var (w, ssmlImports) := JavaSsml(v);
    var (x, more) :- JavaBranch(w);
    Ok((x, ssmlImports + more))
  }

  /**
   * One run of the loop body on an SSML verb: the class is `pascalize('ssml_' + name)`,
   * the variable `camelize('ssml_' + name)`, and that class's import is added.
   */
  lemma JavaStepSsml(v: VerbRec)
    requires v.isSsml && JavaStep(v).Ok?
    ensures JavaStep(v).value.0.name == Pascalize("ssml_" + v.name)
    ensures JavaStep(v).value.0.variableName == Some(Camelize("ssml_" + v.name))
    ensures "import com.twilio.twiml.voice." + Pascalize("ssml_" + v.name) + ";" in JavaStep(v).value.1
  {
  }

  /**
   * The preset name clashes: two SSML elements of the same kind (two `<break>`s, say)
   * both get the variable name `camelize('ssml_' + name)`, and an SSML element without
   * attributes always gets through the loop body. `variable_for_verb` keeps a preset
   * name, so the generated Java declares the same variable twice.
   */
  lemma JavaSsmlNamesClash(v: VerbRec, u: VerbRec)
    requires v.isSsml && u.isSsml && v.name == u.name && v.attributes == [] && u.attributes == []
    ensures JavaStep(v).Ok? && JavaStep(u).Ok?
    ensures JavaStep(v).value.0.variableName == JavaStep(u).value.0.variableName == Some(Camelize("ssml_" + v.name))
  {
    JavaStepOkWithoutAttributes(v);
    JavaStepOkWithoutAttributes(u);
    JavaStepSsml(v);
    JavaStepSsml(u);
  }

  /** With no attributes, no branch of the loop body can fail. */
  lemma JavaStepOkWithoutAttributes(v: VerbRec)
    requires v.attributes == []
    ensures JavaStep(v).Ok?
  {
    var w := JavaSsml(v).0;
    assert w.attributes == [];
    JavaBranchOkWithoutAttributes(w);
  }

  lemma JavaBranchOkWithoutAttributes(w: VerbRec)
    requires w.attributes == []
    ensures JavaBranch(w).Ok?
  {
    assert Get(w.attributes, "statusCallbackEvent").None?;
    if w.name == "SsmlSayAs" {
      assert RenameAttr(w.attributes, "interpret-as", "interpretAs") == [];
    }
  }

  /**
   * A present `str` value always becomes the `Arrays.asList` form, even for a single
   * event, stored under `statusCallbackEvents`; the old key is gone and the `Arrays`
   * import is added.
   */
  lemma JavaEventsSpec(prefix: string, d: Attrs, s: string)
    requires Get(d, "statusCallbackEvent") == Some(Str(s))
    ensures JavaEvents(prefix, d).Ok? && JavaEvents(prefix, d).value.1 == {JavaHandlers.ArraysImport}
    ensures !Has(JavaEvents(prefix, d).value.0, "statusCallbackEvent")
    ensures Get(JavaEvents(prefix, d).value.0, "statusCallbackEvents") ==
            Some(Raw(ListLiteral(JavaHandlers.ArraysAsList, (x: string) => AttrOps.EventConstant(prefix, x), s)))
  {
    var listed := Raw(ListLiteral(JavaHandlers.ArraysAsList, (x: string) => AttrOps.EventConstant(prefix, x), s));
    var put := Put(d, "statusCallbackEvents", listed);
    assert JavaEvents(prefix, d) == Ok((Pop(put, "statusCallbackEvent"), {JavaHandlers.ArraysImport}));
    GetPut(d, "statusCallbackEvents", listed, "statusCallbackEvents");
    GetPop(put, "statusCallbackEvent", "statusCallbackEvents");
  }

  /** `Client`, `Number` and `Sip` (not SSML) go to the `statusCallbackEvent` branch with their own name. */
  lemma JavaStepEvents(v: VerbRec)
    requires !v.isSsml && (v.name == "Client" || v.name == "Number" || v.name == "Sip")
    ensures JavaStep(v) == WithImports(v, JavaEvents(v.name, v.attributes))
  {
    var none: set<string> := {};
    match JavaEvents(v.name, v.attributes)
    case Ok(p) => assert none + p.1 == p.1;
    case Err(_) =>
  }

  /**
   * Where the inline pass and the package's `_Evented` part: for a single event the
   * inline pass stores `Arrays.asList(<Cls>.Event.<E>)` and adds the import, the
   * package stores the bare constant `<Cls>.Event.<E>` and adds nothing.
   */
  lemma SingleEventDiffers(v: VerbRec, s: string)
    requires !v.isSsml && (v.name == "Client" || v.name == "Number" || v.name == "Sip")
    requires Get(v.attributes, "statusCallbackEvent") == Some(Str(s)) && ' ' !in s
    ensures JavaStep(v).Ok? && JavaStep(v).value.1 == {JavaHandlers.ArraysImport}
    ensures Get(JavaStep(v).value.0.attributes, "statusCallbackEvents") ==
            Some(Raw("Arrays.asList(" + AttrOps.EventConstant(v.name, s) + ")"))
    ensures JavaHandlers.VerbProcessing(v).Ok? && JavaHandlers.VerbProcessing(v).value.1 == {}
    ensures Get(JavaHandlers.VerbProcessing(v).value.0.attributes, "statusCallbackEvents") ==
            Some(Raw(AttrOps.EventConstant(v.name, s)))
  {
    JavaStepEvents(v);
    JavaEventsSpec(v.name, v.attributes, s);
    var f := (x: string) => AttrOps.EventConstant(v.name, x);
    assert MapStrings(f, Split(s, ' ')) == [AttrOps.EventConstant(v.name, s)];
    JavaHandlers.EventedResult(v, s);
    CapitalisedNotKeyword(v.name);
    assert JavaHandlers.HandlerFor(v.name) == Some(JavaHandlers.Calls(JavaHandlers.Evented));
  }

  /** `Conference` goes to its own branch: `beep` and `record` enumized, then the events with the literal prefix `Conference`. */
  lemma JavaStepConference(v: VerbRec)
    requires !v.isSsml && v.name == "Conference"
    ensures JavaStep(v) == match JavaEnumizeTwo(v.name, v.attributes, "beep", "record")
                           case Ok(a) => WithImports(v, JavaEvents("Conference", a))
                           case Err(x) => Err(x)
  {
    var none: set<string> := {};
    match JavaEnumizeTwo(v.name, v.attributes, "beep", "record")
    case Ok(a) =>
      if JavaEvents("Conference", a).Ok? {
        var p := JavaEvents("Conference", a).value;
        assert none + p.1 == p.1;
      }
    case Err(_) =>
  }

  /**
   * `Conference` gets the same list, with the literal class prefix `Conference`, once
   * `beep` and `record` have gone through `java_enumize`.
   */
  lemma JavaStepConferenceEvents(v: VerbRec, s: string)
    requires !v.isSsml && v.name == "Conference" && JavaEnumizeTwo(v.name, v.attributes, "beep", "record").Ok?
    requires Get(v.attributes, "statusCallbackEvent") == Some(Str(s))
    ensures JavaStep(v).Ok? && JavaStep(v).value.1 == {JavaHandlers.ArraysImport}
    ensures Get(JavaStep(v).value.0.attributes, "beep") ==
            Get(JavaEnumize(v.name, v.attributes, "beep").value, "beep")
    ensures Get(JavaStep(v).value.0.attributes, "statusCallbackEvents") ==
            Some(Raw(ListLiteral(JavaHandlers.ArraysAsList, (x: string) => AttrOps.EventConstant("Conference", x), s)))
  {
    JavaStepConference(v);
    var e := JavaEnumize(v.name, v.attributes, "beep").value;
    var a := JavaEnumizeTwo(v.name, v.attributes, "beep", "record").value;
    assert Get(a, "statusCallbackEvent") == Some(Str(s));
    assert Get(a, "beep") == Get(e, "beep");
    JavaEventsSpec("Conference", a, s);
    GetPut(a, "statusCallbackEvents", Get(JavaEvents("Conference", a).value.0, "statusCallbackEvents").value, "beep");
    var listed := Raw(ListLiteral(JavaHandlers.ArraysAsList, (x: string) => AttrOps.EventConstant("Conference", x), s));
    GetPut(a, "statusCallbackEvents", listed, "beep");
    GetPop(Put(a, "statusCallbackEvents", listed), "statusCallbackEvent", "beep");
  }

  /** `Enqueue`: the text, whatever it is, goes to `queueName` and the text becomes `None`. */
  lemma JavaStepEnqueue(v: VerbRec)
    requires !v.isSsml && v.name == "Enqueue"
    ensures JavaStep(v).Ok? && JavaStep(v).value.0.text == Null && JavaStep(v).value.1 == {}
    ensures Get(JavaStep(v).value.0.attributes, "queueName") == Some(v.text)
  {
    GetPut(v.attributes, "queueName", v.text, "queueName");
  }

  /** The loop body run once or twice on a non-SSML `Enqueue`. */
  lemma RepeatJavaEnqueue(v: VerbRec, n: nat)
    requires !v.isSsml && v.name == "Enqueue" && 1 <= n <= 2
    ensures Repeat(JavaStep, n, v).Ok?
    ensures Get(Repeat(JavaStep, n, v).value.attributes, "queueName") == Some(if n == 2 then Null else v.text)
  {
    assert Repeat(JavaStep, 0, v) == Ok(v);
    JavaStepEnqueue(v);
    var u := Assign(v, JavaStep(v).value.0);
    assert Repeat(JavaStep, 1, v) == Ok(u);
    if n == 2 {
      JavaStepEnqueue(u);
    }
  }

  /**
   * `clean_java_specificities` as written: an `Enqueue` with children (a `<Task>`) is
   * visited at its `start` and again at its `end`, and the second visit overwrites
   * `queueName` with the `None` the first visit left in the text.
   */
  lemma JavaCleanEnqueue(d: Doc, j: nat)
    requires DocOk(d) && j < |d.verbs| && !d.verbs[j].isSsml && d.verbs[j].name == "Enqueue"
    requires DocPass(JavaStep, d, false).Ok?
    ensures Get(DocPass(JavaStep, d, false).value.0[j].attributes, "queueName") ==
            Some(if Visited(d, j, false) == 2 then Null else d.verbs[j].text)
  {
    DocPassPerVerb(JavaStep, d, false, j);
    RepeatJavaEnqueue(d.verbs[j], Visited(d, j, false));
  }

  /** Visiting each verb once, as intended, keeps the `Enqueue` text in `queueName`. */
  lemma JavaCleanOnceEnqueue(d: Doc, j: nat)
    requires DocOk(d) && j < |d.verbs| && !d.verbs[j].isSsml && d.verbs[j].name == "Enqueue"
    requires DocPass(JavaStep, d, true).Ok?
    ensures Get(DocPass(JavaStep, d, true).value.0[j].attributes, "queueName") == Some(d.verbs[j].text)
  {
    DocPassPerVerb(JavaStep, d, true, j);
    RepeatJavaEnqueue(d.verbs[j], 1);
  }

  /** The loop body run once or twice on an SSML verb renames it once or twice. */
  lemma RepeatJavaSsml(v: VerbRec, n: nat)
    requires v.isSsml && 1 <= n <= 2 && Repeat(JavaStep, n, v).Ok?
    ensures Repeat(JavaStep, n, v).value.name ==
            if n == 2 then Pascalize("ssml_" + Pascalize("ssml_" + v.name)) else Pascalize("ssml_" + v.name)
  {
    RepeatOkFirst(JavaStep, n, v);
    var u := Assign(v, JavaStep(v).value.0);
    JavaStepSsml(v);
    if n == 2 {
      JavaStepSsml(u);
    }
  }

  /**
   * As written, an SSML verb with children (a `<prosody>` holding an `<emphasis>`) is
   * renamed at its `start` and again at its `end`: `SsmlSsmlProsody`.
   */
  lemma JavaCleanSsmlName(d: Doc, j: nat)
    requires DocOk(d) && j < |d.verbs| && d.verbs[j].isSsml && DocPass(JavaStep, d, false).Ok?
    ensures DocPass(JavaStep, d, false).value.0[j].name ==
            if Visited(d, j, false) == 2 then Pascalize("ssml_" + Pascalize("ssml_" + d.verbs[j].name))
            else Pascalize("ssml_" + d.verbs[j].name)
  {
    DocPassPerVerb(JavaStep, d, false, j);
    RepeatJavaSsml(d.verbs[j], Visited(d, j, false));
  }

  /** Visiting each verb once renames every SSML verb exactly once. */
  lemma JavaCleanOnceSsmlName(d: Doc, j: nat)
    requires DocOk(d) && j < |d.verbs| && d.verbs[j].isSsml && DocPass(JavaStep, d, true).Ok?
    ensures DocPass(JavaStep, d, true).value.0[j].name == Pascalize("ssml_" + d.verbs[j].name)
  {
    DocPassPerVerb(JavaStep, d, true, j);
    RepeatJavaSsml(d.verbs[j], 1);
  }

  /** `clean_java_specificities`: the verbs end as the pass says; the imports it adds come back. */
  method CleanJava(ir: TwimlIR) returns (r: Result<set<string>>)
    requires ir.Valid()
    modifies ir.verbs
    ensures DocOk(old(ir.Abstract()))
    ensures r.Err? <==> DocPass(JavaStep, old(ir.Abstract()), false).Err?
    ensures r.Ok? ==> r.value == DocPass(JavaStep, old(ir.Abstract()), false).value.1
    ensures r.Ok? ==> ir.Abstract() == old(ir.Abstract()).(verbs := DocPass(JavaStep, old(ir.Abstract()), false).value.0)
    ensures r.Ok? ==> ir.Valid() && ir.Shape() == old(ir.Shape())
  {
    r := ApplyPass(ir, JavaStep, false);
  }

  /** The corrected pass: each verb visited once (the `end` events skipped). */
  method CleanJavaOnce(ir: TwimlIR) returns (r: Result<set<string>>)
    requires ir.Valid()
    modifies ir.verbs
    ensures DocOk(old(ir.Abstract()))
    ensures r.Err? <==> DocPass(JavaStep, old(ir.Abstract()), true).Err?
    ensures r.Ok? ==> r.value == DocPass(JavaStep, old(ir.Abstract()), true).value.1
    ensures r.Ok? ==> ir.Abstract() == old(ir.Abstract()).(verbs := DocPass(JavaStep, old(ir.Abstract()), true).value.0)
    ensures r.Ok? ==> ir.Valid() && ir.Shape() == old(ir.Shape())
  {
    r := ApplyPass(ir, JavaStep, true);
  }

  // ---------------------------------------------------------------- Python

  /**
   * The body of `clean_python_specificities`' loop: the `ssml_` prefix, `from` moved to
   * `from_` (but `for` left alone), one space for an empty `Play`, then the boolean loop.
   */
  function PythonStep(v: VerbRec): Result<(VerbRec, set<string>)>
  {
    var named := if v.isSsml then v.(name := "ssml_" + v.name) else v;
    var renamed := named.(attributes := RenameAttr(named.attributes, "from", "from_"));
    var played := if renamed.name == "Play" && !Truthy(renamed.text) then renamed.(text := Str(" ")) else renamed;
    Ok((played.(attributes := PythonLanguage.Booleans(played.attributes)), {}))
  }

  /** Without a `for` attribute the inline pass and `Python.clean` run the same loop body. */
  lemma PythonStepMatchesModule(v: VerbRec)
    requires !Has(v.attributes, "for")
    ensures PythonStep(v) == PythonLanguage.CleanStep(v)
  {
    var once := RenameAttr(v.attributes, "from", "from_");
    if Has(v.attributes, "from") {
      RenameAttrMoves(v.attributes, "from", "from_", "for");
    }
    assert !Has(once, "for");
    assert PythonLanguage.KeywordRenames(v.attributes) == once;
  }

  /** With `for` (and no `from`), the package moves it to `for_`; the inline pass keeps it. */
  lemma PythonStepKeepsFor(v: VerbRec)
    requires Has(v.attributes, "for") && !Has(v.attributes, "from")
    ensures Has(PythonStep(v).value.0.attributes, "for")
    ensures !Has(PythonLanguage.CleanStep(v).value.0.attributes, "for")
  {
    PythonLanguage.CleanStepSpec(v);
    var once := RenameAttr(v.attributes, "from", "from_");
    assert once == v.attributes;
    PythonLanguage.BooleansKeys(once);
  }

  lemma PythonStepTotal()
    ensures Total(PythonStep) && NoImport(PythonStep)
  {
  }

  /** `clean_python_specificities`: the verbs end as the pass says; no import is added. */
  method CleanPython(ir: TwimlIR) returns (r: Result<set<string>>)
    requires ir.Valid()
    modifies ir.verbs
    ensures DocOk(old(ir.Abstract()))
    ensures r == Ok({}) && DocPass(PythonStep, old(ir.Abstract()), false).Ok?
    ensures ir.Abstract() == old(ir.Abstract()).(verbs := DocPass(PythonStep, old(ir.Abstract()), false).value.0)
    ensures ir.Valid() && ir.Shape() == old(ir.Shape())
  {
    ghost var d := ir.Abstract();
    r := ApplyPass(ir, PythonStep, false);
    PythonStepTotal();
    DocPassTotal(PythonStep, d, false);
    DocPassNoImport(PythonStep, d, false);
  }

  // ---------------------------------------------------------------- C#

  /**
   * The body of `clean_csharp_specificities`' loop, for a messaging response or not:
   * `pascalize('ssml_' + name)` for SSML, one space for an empty `Play`, the text of a
   * messaging `Redirect` moved to `url`, and a `say-as` branch.
   */
  function CSharpStep(messaging: bool): Step
  {
    (v: VerbRec) => Ok((CSharpRun(messaging, v), {}))
  }

  function CSharpRun(messaging: bool, v: VerbRec): VerbRec
  {
    CSharpBranch(messaging, if v.isSsml then v.(name := Pascalize("ssml_" + v.name)) else v)
  }

  function CSharpBranch(messaging: bool, v: VerbRec): (r: VerbRec)
    ensures Assign(v, r) == r && r.name == v.name
  {
    if v.name == "Play" && !Truthy(v.text) then v.(text := Str(" "))
    else if v.name == "Redirect" && messaging then v.(attributes := Put(v.attributes, "url", v.text), text := Null)
    else if v.name == "say-as" then
      match Get(v.attributes, "interpret-as")
      case Some(x) =>
        if Truthy(x) then v.(attributes := Pop(Put(v.attributes, "interpretAs", x), "interpret-as")) else v
      case None => v
    else v
  }

  /** `pascalize` puts no `-` into a name that has none. */
  lemma {:induction false} CamelTailNoDash(s: string)
    requires '-' !in s
    ensures '-' !in CamelTail(s)
    decreases |s|
  {
    if |s| >= 2 && s[0] == '_' {
      CamelTailNoDash(s[2..]);
    } else if s != [] {
      CamelTailNoDash(s[1..]);
    }
  }

  /**
   * For a verb name without `-` (every parsed name; see `NamesHaveNoDash`), one run of the
   * loop body: SSML verbs are renamed (still without `-`), an empty `Play` gets one space,
   * a messaging `Redirect` has its text moved to `url` and set to `None`, and nothing else
   * changes: the `say-as` branch never runs.
   */
  lemma CSharpStepSpec(messaging: bool, v: VerbRec)
    requires '-' !in v.name
    ensures CSharpRun(messaging, v).name == if v.isSsml then Pascalize("ssml_" + v.name) else v.name
    ensures '-' !in CSharpRun(messaging, v).name
    ensures CSharpRun(messaging, v).name == "Play" && !Truthy(v.text) ==>
              CSharpRun(messaging, v).text == Str(" ") && CSharpRun(messaging, v).attributes == v.attributes
    ensures CSharpRun(messaging, v).name == "Redirect" && messaging ==>
              CSharpRun(messaging, v).text == Null && Get(CSharpRun(messaging, v).attributes, "url") == Some(v.text)
    ensures !(CSharpRun(messaging, v).name == "Play" && !Truthy(v.text)) &&
            !(CSharpRun(messaging, v).name == "Redirect" && messaging) ==>
              CSharpRun(messaging, v).text == v.text && CSharpRun(messaging, v).attributes == v.attributes
  {
    var a := if v.isSsml then v.(name := Pascalize("ssml_" + v.name)) else v;
    if v.isSsml {
      assert "ssml_" + v.name == "s" + ("sml_" + v.name);
      CamelTailNoDash(("ssml_" + v.name)[1..]);
    }
    assert '-' !in a.name;
    assert "say-as"[3] == '-';
    GetPut(a.attributes, "url", a.text, "url");
  }

  lemma CSharpStepTotal(messaging: bool)
    ensures Total(CSharpStep(messaging)) && NoImport(CSharpStep(messaging))
  {
  }

  /** Every verb of a parsed document has a name without `-`, so no name equals `say-as`. */
  lemma NamesHaveNoDash(types: map<string, map<string, string>>, d: Doc, s: seq<XmlEvent>, ps: seq<Option<nat>>, j: nat)
    requires Mirrors(types, d, s, ps) && j < |d.verbs|
    ensures '-' !in d.verbs[j].name && d.verbs[j].name != "say-as"
  {
    assert FromStart(types, d.verbs[j], s[j]);
    assert "say-as"[3] == '-';
  }

  /** `clean_csharp_specificities`: the verbs end as the pass says; no import is added. */
  method CleanCSharp(ir: TwimlIR) returns (r: Result<set<string>>)
    requires ir.Valid()
    modifies ir.verbs
    ensures DocOk(old(ir.Abstract()))
    ensures r == Ok({}) && DocPass(CSharpStep(!old(ir.isVoiceResponse)), old(ir.Abstract()), false).Ok?
    ensures ir.Abstract() ==
            old(ir.Abstract()).(verbs := DocPass(CSharpStep(!old(ir.isVoiceResponse)), old(ir.Abstract()), false).value.0)
    ensures ir.Valid() && ir.Shape() == old(ir.Shape())
  {
    ghost var d := ir.Abstract();
    var step := CSharpStep(ir.IsMessagingResponse());
    r := ApplyPass(ir, step, false);
    CSharpStepTotal(ir.IsMessagingResponse());
    DocPassTotal(step, d, false);
    DocPassNoImport(step, d, false);
  }

  // ---------------------------------------------------------------- Ruby

  /**
   * The body of `clean_ruby_specificities`' loop: a non-empty text of `Play`, `Message`
   * or `Dial` moves to `url`, `body` or `number` (text `None`), a `say-as` is renamed, and
   * a non-empty `Say` text moves to `message`, the text becoming `''`.
   */
  function RubyStep(v: VerbRec): Result<(VerbRec, set<string>)>
  {
    Ok((RubyBranch(v), {}))
  }

  function RubyBranch(v: VerbRec): (r: VerbRec)
    ensures Assign(v, r) == r
  {
    if v.name == "Play" && Truthy(v.text) then v.(attributes := Put(v.attributes, "url", v.text), text := Null)
    else if v.name == "Message" && Truthy(v.text) then v.(attributes := Put(v.attributes, "body", v.text), text := Null)
    else if v.name == "Dial" && Truthy(v.text) then v.(attributes := Put(v.attributes, "number", v.text), text := Null)
    else if v.name == "say-as" then v.(name := "say_as")
    else if v.name == "Say" then
      if Truthy(v.text) then v.(attributes := Put(v.attributes, "message", v.text), text := Str("")) else v
    else v
  }

  /** The loop body never raises, adds no import, and a second run changes nothing. */
  lemma RubyStepIdempotent()
    ensures Total(RubyStep) && NoImport(RubyStep) && Idempotent(RubyStep)
  {
    forall v: VerbRec
      ensures var u := Assign(v, RubyStep(v).value.0);
              RubyStep(u).Ok? && Assign(u, RubyStep(u).value.0) == u
    {
      var u := Assign(v, RubyStep(v).value.0);
      assert u == RubyBranch(v);
    }
  }

  /** Against the package's `Ruby.clean`: `Play`, `Message` and `Dial` come out the same. */
  lemma RubyStepMatchesModule(v: VerbRec)
    requires v.name == "Play" || v.name == "Message" || v.name == "Dial"
    ensures RubyStep(v).value.0 == RubyLanguage.Step(Some(RubyLanguage.Registry()))(v).value.0
  {
    var key := if v.name == "Play" then "url" else if v.name == "Message" then "body" else "number";
    assert RubyLanguage.Targets[v.name] == key;
    var p := MoveTextTo(key);
    assert RubyLanguage.Registry()[v.name].process == p;
    assert RubyLanguage.Step(Some(RubyLanguage.Registry()))(v).value.0 == RunProcess(p, v);
  }

  /**
   * A `Say` with text gets the same `message` from both, but its text becomes `''`
   * here and `None` in the package.
   */
  lemma RubySayDiffers(v: VerbRec)
    requires v.name == "Say" && Truthy(v.text)
    ensures RubyStep(v).value.0.text == Str("") && Get(RubyStep(v).value.0.attributes, "message") == Some(v.text)
    ensures RubyLanguage.Step(Some(RubyLanguage.Registry()))(v).value.0.text == Null
    ensures Get(RubyLanguage.Step(Some(RubyLanguage.Registry()))(v).value.0.attributes, "message") == Some(v.text)
  {
    RubyLanguage.StepMovesText(v);
    assert v.name in RubyLanguage.Targets;
    GetPut(v.attributes, "message", v.text, "message");
  }

  /** `Enqueue` and `Client` text is moved only by the package. */
  lemma RubyLeavesEnqueueClient(v: VerbRec)
    requires (v.name == "Enqueue" || v.name == "Client") && Truthy(v.text)
    ensures RubyStep(v).value.0 == v
    ensures RubyLanguage.Step(Some(RubyLanguage.Registry()))(v).value.0.text == Null
  {
    RubyBranchLeaves(v);
    RubyLanguage.StepMovesText(v);
    assert v.name in RubyLanguage.Targets;
  }

  lemma RubyBranchLeaves(v: VerbRec)
    requires v.name == "Enqueue" || v.name == "Client"
    ensures RubyBranch(v) == v
  {
    assert v.name != "Message" && v.name != "say-as" by {
      assert "Enqueue"[0] != "Message"[0] && "Client"[0] != "say-as"[0];
    }
  }

  /**
   * `clean_ruby_specificities` visits the root and every verb with children twice, yet
   * every verb ends as after one run of the loop body.
   */
  lemma RubyCleanOnce(d: Doc, j: nat)
    requires DocOk(d) && j < |d.verbs|
    ensures DocPass(RubyStep, d, false).Ok?
    ensures DocPass(RubyStep, d, false).value.0[j] == RubyBranch(d.verbs[j])
  {
    RubyStepIdempotent();
    IdempotentPass(RubyStep, d, j);
  }

  /** `clean_ruby_specificities`: the verbs end as the pass says; no import is added. */
  method CleanRuby(ir: TwimlIR) returns (r: Result<set<string>>)
    requires ir.Valid()
    modifies ir.verbs
    ensures DocOk(old(ir.Abstract()))
    ensures r == Ok({}) && DocPass(RubyStep, old(ir.Abstract()), false).Ok?
    ensures ir.Abstract() == old(ir.Abstract()).(verbs := DocPass(RubyStep, old(ir.Abstract()), false).value.0)
    ensures ir.Valid() && ir.Shape() == old(ir.Shape())
  {
    ghost var d := ir.Abstract();
    r := ApplyPass(ir, RubyStep, false);
    RubyStepIdempotent();
    DocPassTotal(RubyStep, d, false);
    DocPassNoImport(RubyStep, d, false);
  }
}
