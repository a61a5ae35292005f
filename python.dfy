/**
 * The Python specificity module: a `Language` whose registry holds `Play`, whose
 * `verb_processing` also turns the attribute values `'true'` and `'false'` into the
 * raw Python literals, and whose `clean` prefixes SSML verb names with `ssml_` and
 * renames the attributes `from` and `for`, which are Python keywords, on the verb of
 * every traversal event.
 */
module PythonLanguage {
  import opened Wrappers
  import opened Strings
  import opened Attributes
  import opened Inflection
  import opened Tree
  import opened TwimlIr
  import opened Specificity
  import opened Passes

  /** `Python._classes` once `@Python.register` has run on `Play`. */
  function Registry(): map<string, HandlerClass>
  {
    map["Play" := HandlerClass(None, "Play", BlankTextToSpace)]
  }

  /** The module body: `Play` registered. */
  method Setup() returns (python: Language)
    ensures python.classes == Some(Registry())
  {
    python := new Language(Some(map[]));
    var play := python.Register(HandlerClass(None, "Play", BlankTextToSpace));
  }

  /** One value of the attribute loop: exactly `'true'` or `'false'` becomes raw `camelize(value)`. */
  function BoolValue(v: Value): Value
  {
    if v == Str("true") || v == Str("false") then Raw(Pascalize(v.s)) else v
  }

  /** The attribute loop of `Python.verb_processing` over a whole attribute list. */
  function Booleans(d: Attrs): (r: Attrs)
    ensures |r| == |d|
  {
    seq(|d|, i requires 0 <= i < |d| => (d[i].0, BoolValue(d[i].1)))
  }

  /** The two values become the raw literals `True` and `False`. */
  lemma BoolLiterals()
    ensures BoolValue(Str("true")) == Raw("True") && BoolValue(Str("false")) == Raw("False")
  {
    PascalizeWord("true", 't', 'T', "rue", "True");
    PascalizeWord("false", 'f', 'F', "alse", "False");
  }

  /** `pascalize` of a word without `_` upper-cases its first letter only. */
  lemma PascalizeWord(w: string, c: char, u: char, rest: string, r: string)
    requires w == [c] + rest && '_' !in rest && 'a' <= c <= 'z' && u as int == c as int - 32
    requires r == [u] + rest
    ensures Pascalize(w) == r
  {
    assert w[1..] == rest;
  }

  /** The loop keeps the keys and their order. */
  lemma BooleansKeys(d: Attrs)
    ensures Keys(Booleans(d)) == Keys(d)
  {
  }

  /** The loop leaves no `'true'` or `'false'` behind, so a second run changes nothing. */
  lemma BooleansIdempotent(d: Attrs)
    ensures forall i :: 0 <= i < |d| ==> Booleans(d)[i].1 != Str("true") && Booleans(d)[i].1 != Str("false")
    ensures Booleans(Booleans(d)) == Booleans(d)
  {
    BoolLiterals();
  }

  /** Each value is mapped on its own: what is under a key afterwards is what was there, through `BoolValue`. */
  lemma {:induction false} BooleansGet(d: Attrs, k: string)
    ensures Get(Booleans(d), k) == if Has(d, k) then Some(BoolValue(Get(d, k).value)) else None
    decreases |d|
  {
    if d != [] {
      assert Booleans(d) == [(d[0].0, BoolValue(d[0].1))] + Booleans(d[1..]);
      BooleansGet(d[1..], k);
    }
  }

  /**
   * The loop of `Python.verb_processing`, on the verb itself: `verb.attributes[name] =
   * camelize(value)` then `to_bytes(verb, name)` for each entry holding `'true'` or
   * `'false'`. An attribute list holds each key once, so assigning under the key of
   * entry `i` rewrites entry `i`.
   */
  method ConvertBooleans(verb: Verb)
    modifies verb`attributes
    ensures verb.Rec() == old(verb.Rec()).(attributes := Booleans(old(verb.attributes)))
  {
    var i := 0;
    while i < |verb.attributes|
      invariant i <= |verb.attributes| == |old(verb.attributes)|
      invariant forall k :: 0 <= k < i ==> verb.attributes[k] == Booleans(old(verb.attributes))[k]
      invariant forall k :: i <= k < |verb.attributes| ==> verb.attributes[k] == old(verb.attributes)[k]
      invariant verb.Rec() == old(verb.Rec()).(attributes := verb.attributes)
    {
      ConvertEntry(verb, i);
      i := i + 1;
    }
    assert verb.attributes == Booleans(old(verb.attributes));
  }

  /** One pass of that loop: `camelize` the value of entry `i`, then `to_bytes` it. */
  method ConvertEntry(verb: Verb, i: nat)
    requires i < |verb.attributes|
    modifies verb`attributes
    ensures verb.attributes == old(verb.attributes)[i := (old(verb.attributes)[i].0, BoolValue(old(verb.attributes)[i].1))]
  {
    var (name, value) := verb.attributes[i];
    if value == Str("true") || value == Str("false") {
      verb.attributes := verb.attributes[i := (name, Str(Pascalize(value.s)))];
      verb.attributes := verb.attributes[i := (name, Raw(verb.attributes[i].1.s))];
    }
  }

  /** `Python.verb_processing`: the registered class, then the attribute loop. */
  function Processed(v: VerbRec): (r: VerbRec)
  {
    var w := VerbProcessing(Some(Registry()), v).value;
    w.(attributes := Booleans(w.attributes))
  }

  /**
   * `Play` with an empty text gets one space; no other name is dispatched; and the
   * attributes come out of the loop whatever the name.
   */
  lemma ProcessedSpec(v: VerbRec)
    ensures Processed(v).name == v.name && Processed(v).attributes == Booleans(v.attributes)
    ensures Processed(v).text == if v.name == "Play" && !Truthy(v.text) then Str(" ") else v.text
  {
  }

  /** `Python.verb_processing` on the verb object. */
  method ProcessVerb(python: Language, verb: Verb)
    requires python.classes == Some(Registry())
    modifies verb
    ensures verb.Rec() == old(verb.Rec()).(attributes := Processed(old(verb.Rec())).attributes, text := Processed(old(verb.Rec())).text)
  {
    var w := VerbProcessing(python.classes, verb.Rec());
    verb.attributes := w.value.attributes;
    verb.text := w.value.text;
    ConvertBooleans(verb);
  }

  /** The body of `Python.clean`'s loop, on the event's verb. */
  function CleanStep(v: VerbRec): Result<(VerbRec, set<string>)>
  {
    var named := if v.isSsml then v.(name := "ssml_" + v.name) else v;
    var renamed := named.(attributes := KeywordRenames(named.attributes));
    Ok((Processed(renamed), {}))
  }

  /**
   * One run of the loop body: an SSML verb gets the `ssml_` prefix, `from` and `for`
   * move to `from_` and `for_` (their values through the boolean loop), and `Play`
   * (not SSML) with an empty text gets one space.
   */
  lemma CleanStepSpec(v: VerbRec)
    ensures CleanStep(v).Ok? && CleanStep(v).value.1 == {}
    ensures CleanStep(v).value.0.name == if v.isSsml then "ssml_" + v.name else v.name
    ensures !Has(CleanStep(v).value.0.attributes, "from") && !Has(CleanStep(v).value.0.attributes, "for")
    ensures Has(v.attributes, "for") ==> Get(CleanStep(v).value.0.attributes, "for_") == Some(BoolValue(Get(v.attributes, "for").value))
    ensures Has(v.attributes, "from") ==>
              Get(CleanStep(v).value.0.attributes, "from_") == Some(BoolValue(Get(v.attributes, "from").value))
    ensures CleanStep(v).value.0.text ==
              if !v.isSsml && v.name == "Play" && !Truthy(v.text) then Str(" ") else v.text
  {
    var named := if v.isSsml then v.(name := "ssml_" + v.name) else v;
    var twice := KeywordRenames(v.attributes);
    KeywordRenamesSpec(v.attributes);
    ProcessedSpec(named.(attributes := twice));
    BooleansGet(twice, "from");
    BooleansGet(twice, "for");
    BooleansGet(twice, "from_");
    BooleansGet(twice, "for_");
  }

  /** `rename_attr(verb, 'from', 'from_')` then `rename_attr(verb, 'for', 'for_')`. */
  function KeywordRenames(d: Attrs): Attrs
  {
    RenameAttr(RenameAttr(d, "from", "from_"), "for", "for_")
  }

  lemma KeywordRenamesSpec(d: Attrs)
    ensures !Has(KeywordRenames(d), "from") && !Has(KeywordRenames(d), "for")
    ensures Has(d, "for") ==> Get(KeywordRenames(d), "for_") == Get(d, "for")
    ensures Has(d, "from") ==> Get(KeywordRenames(d), "from_") == Get(d, "from")
  {
    var once := RenameAttr(d, "from", "from_");
    RenameAttrSettles(d, "from", "from_");
    RenameAttrSettles(once, "for", "for_");
    if Has(d, "from") {
      RenameAttrMoves(d, "from", "from_", "for");
      RenameAttrMoves(d, "from", "from_", "from_");
    }
    if Has(once, "for") {
      RenameAttrMoves(once, "for", "for_", "from");
      RenameAttrMoves(once, "for", "for_", "for_");
      RenameAttrMoves(once, "for", "for_", "from_");
    }
    if Has(d, "for") && !Has(d, "from") {
      assert once == d;
    }
    if !Has(d, "for") && Has(d, "from") {
      assert Get(once, "for") == None;
    }
  }

  lemma CleanStepTotal()
    ensures Total(CleanStep) && NoImport(CleanStep)
  {
  }

  /**
   * `Python.clean` prefixes an SSML verb that has children at its `start` and again at
   * its `end` event, so the name ends `ssml_ssml_<name>`; every other SSML verb ends
   * `ssml_<name>`.
   */
  lemma CleanSsmlName(d: Doc, j: nat)
    requires DocOk(d) && j < |d.verbs| && d.verbs[j].isSsml
    ensures DocPass(CleanStep, d, false).Ok?
    ensures DocPass(CleanStep, d, false).value.0[j].name ==
            if Visited(d, j, false) == 2 then "ssml_ssml_" + d.verbs[j].name else "ssml_" + d.verbs[j].name
  {
    CleanStepTotal();
    DocPassTotal(CleanStep, d, false);
    DocPassPerVerb(CleanStep, d, false, j);
    RepeatSsmlName(d.verbs[j], Visited(d, j, false));
    PrefixTwice(d.verbs[j].name);
  }

  /** The step run once or twice on an SSML verb prefixes its name once or twice. */
  lemma RepeatSsmlName(v: VerbRec, n: nat)
    requires v.isSsml && 1 <= n <= 2
    ensures Repeat(CleanStep, n, v).Ok?
    ensures Repeat(CleanStep, n, v).value.name == if n == 2 then "ssml_" + ("ssml_" + v.name) else "ssml_" + v.name
  {
    CleanStepName(v);
    var u := Assign(v, CleanStep(v).value.0);
    CleanStepName(u);
    RepeatNames(CleanStep, v, n, "ssml_" + v.name, "ssml_" + ("ssml_" + v.name));
  }

  lemma PrefixTwice(name: string)
    ensures "ssml_" + ("ssml_" + name) == "ssml_ssml_" + name
  {
    assert "ssml_ssml_" == "ssml_" + "ssml_";
    AppendAssoc("ssml_", "ssml_", name);
  }

  /** The name the loop body gives a verb: the `ssml_` prefix on an SSML verb. */
  lemma CleanStepName(v: VerbRec)
    ensures CleanStep(v).Ok?
    ensures CleanStep(v).value.0.name == if v.isSsml then "ssml_" + v.name else v.name
  {
    var named := if v.isSsml then v.(name := "ssml_" + v.name) else v;
    ProcessedSpec(named.(attributes := KeywordRenames(named.attributes)));
  }

  /** Visiting each verb once, as intended, prefixes every SSML verb exactly once. */
  lemma CleanOnceSsmlName(d: Doc, j: nat)
    requires DocOk(d) && j < |d.verbs| && d.verbs[j].isSsml
    ensures DocPass(CleanStep, d, true).Ok?
    ensures DocPass(CleanStep, d, true).value.0[j].name == "ssml_" + d.verbs[j].name
  {
    CleanStepTotal();
    DocPassTotal(CleanStep, d, true);
    DocPassPerVerb(CleanStep, d, true, j);
    RepeatSsmlName(d.verbs[j], 1);
  }

  /** `Python.clean`: the loop body on the verb of every traversal event; no import is added. */
  method Clean(ir: TwimlIR) returns (r: Result<set<string>>)
    requires ir.Valid()
    modifies ir.verbs
    ensures DocOk(old(ir.Abstract()))
    ensures r == Ok({}) && DocPass(CleanStep, old(ir.Abstract()), false).Ok?
    ensures ir.Abstract() == old(ir.Abstract()).(verbs := DocPass(CleanStep, old(ir.Abstract()), false).value.0)
    ensures ir.Valid() && ir.Shape() == old(ir.Shape())
  {
    ghost var d := ir.Abstract();
    r := ApplyPass(ir, CleanStep, false);
    CleanStepTotal();
    DocPassTotal(CleanStep, d, false);
    DocPassNoImport(CleanStep, d, false);
  }

  /** The corrected `clean`: each verb visited once (the `end` events skipped). */
  method CleanOnce(ir: TwimlIR) returns (r: Result<set<string>>)
    requires ir.Valid()
    modifies ir.verbs
    ensures DocOk(old(ir.Abstract()))
    ensures r == Ok({}) && DocPass(CleanStep, old(ir.Abstract()), true).Ok?
    ensures ir.Abstract() == old(ir.Abstract()).(verbs := DocPass(CleanStep, old(ir.Abstract()), true).value.0)
    ensures ir.Valid() && ir.Shape() == old(ir.Shape())
  {
    ghost var d := ir.Abstract();
    r := ApplyPass(ir, CleanStep, true);
    CleanStepTotal();
    DocPassTotal(CleanStep, d, true);
    DocPassNoImport(CleanStep, d, true);
  }
}
