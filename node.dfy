/**
 * The Node.js specificity module: a `Language` with no registry whose `clean` renames
 * every SSML verb `camelize('ssml_' + name, uppercase_first_letter=False)` on the verb
 * of every traversal event.
 */
module NodeLanguage {
  import opened Wrappers
  import opened Strings
  import opened Attributes
  import opened Inflection
  import opened Tree
  import opened TwimlIr
  import opened Specificity
  import opened Passes

  /** The body of `Node.clean`'s loop, on the event's verb. */
  function CleanStep(v: VerbRec): Result<(VerbRec, set<string>)>
  {
    Ok((if v.isSsml then v.(name := Camelize("ssml_" + v.name)) else v, {}))
  }

  /** The SSML name `camelize` builds: `ssml` then the name with its first letter and each letter after `_` upper-cased. */
  lemma SsmlName(name: string)
    requires name != []
    ensures Camelize("ssml_" + name) == "ssml" + [UpperChar(name[0])] + CamelTail(name[1..])
  {
    var p := "ssml";
    assert '_' !in p && p[0] == 's' && LowerChar('s') == 's';
    assert "ssml_" + name == p + ("_" + name);
    CamelizeJoined(p, name);
    assert [LowerChar(p[0])] + p[1..] == p;
  }

  /** `camelize(p + '_' + name)` for a prefix `p` without `_`. */
  lemma CamelizeJoined(p: string, name: string)
    requires p != [] && '_' !in p && name != []
    ensures Camelize(p + ("_" + name)) == [LowerChar(p[0])] + p[1..] + [UpperChar(name[0])] + CamelTail(name[1..])
  {
    var s := p + ("_" + name);
    assert s[0] == p[0] && s[1..] == p[1..] + ("_" + name);
    CamelTailKeepsPrefix(p[1..], "_" + name);
    assert ("_" + name)[2..] == name[1..];
  }

  /** A prefix without `_` comes through `CamelTail` unchanged. */
  lemma {:induction false} CamelTailKeepsPrefix(a: string, b: string)
    requires '_' !in a
    ensures CamelTail(a + b) == a + CamelTail(b)
    decreases |a|
  {
    if a == [] {
      assert a + b == b;
    } else {
      assert CamelTail(a + b) == [a[0]] + CamelTail(a[1..] + b) by {
        var c := a + b;
        assert c[0] == a[0] != '_';
        assert c[1..] == a[1..] + b;
      }
      CamelTailKeepsPrefix(a[1..], b);
      assert [a[0]] + (a[1..] + CamelTail(b)) == a + CamelTail(b) by {
        assert a == [a[0]] + a[1..];
      }
    }
  }

  /**
   * The loop body touches only the name of an SSML verb: attributes, text and every
   * other verb are left as they are.
   */
  lemma CleanStepSpec(v: VerbRec)
    ensures CleanStep(v).Ok? && CleanStep(v).value.1 == {}
    ensures CleanStep(v).value.0.attributes == v.attributes && CleanStep(v).value.0.text == v.text
    ensures !v.isSsml ==> CleanStep(v).value.0 == v
    ensures v.isSsml && v.name != [] ==> CleanStep(v).value.0.name == "ssml" + [UpperChar(v.name[0])] + CamelTail(v.name[1..])
  {
    if v.isSsml && v.name != [] {
      SsmlName(v.name);
    }
  }

  lemma CleanStepTotal()
    ensures Total(CleanStep) && NoImport(CleanStep)
  {
  }

  /** The step run once or twice on an SSML verb renames it once or twice. */
  lemma RepeatSsmlName(v: VerbRec, n: nat)
    requires v.isSsml && 1 <= n <= 2
    ensures Repeat(CleanStep, n, v).Ok?
    ensures Repeat(CleanStep, n, v).value.name ==
            if n == 2 then Camelize("ssml_" + Camelize("ssml_" + v.name)) else Camelize("ssml_" + v.name)
    ensures Repeat(CleanStep, n, v).value.attributes == v.attributes && Repeat(CleanStep, n, v).value.text == v.text
  {
    assert Repeat(CleanStep, 0, v) == Ok(v);
    var u := Assign(v, CleanStep(v).value.0);
    assert Repeat(CleanStep, 1, v) == Ok(u);
  }

  /**
   * `Node.clean` renames an SSML verb that has children at its `start` and again at
   * its `end` event; every other SSML verb is renamed once, and no verb's attributes
   * or text change.
   */
  lemma CleanSsmlName(d: Doc, j: nat)
    requires DocOk(d) && j < |d.verbs| && d.verbs[j].isSsml
    ensures DocPass(CleanStep, d, false).Ok?
    ensures DocPass(CleanStep, d, false).value.0[j].name ==
            if Visited(d, j, false) == 2 then Camelize("ssml_" + Camelize("ssml_" + d.verbs[j].name))
            else Camelize("ssml_" + d.verbs[j].name)
  {
    CleanStepTotal();
    DocPassTotal(CleanStep, d, false);
    DocPassPerVerb(CleanStep, d, false, j);
    RepeatSsmlName(d.verbs[j], Visited(d, j, false));
  }

  /** For `<prosody>` the intended name is `ssmlProsody`. */
  lemma ProsodyRenamedOnce()
    ensures Camelize("ssml_" + "prosody") == "ssmlProsody"
  {
    ProsodySpelling();
    RenamedOnce("prosody", 'P', "rosody", "ssmlProsody");
  }

  /** For `<prosody>` with children the pass as written leaves `ssmlSsmlProsody`. */
  lemma ProsodyRenamedTwice()
    ensures Camelize("ssml_" + Camelize("ssml_" + "prosody")) == "ssmlSsmlProsody"
  {
    calc {
      Camelize("ssml_" + Camelize("ssml_" + "prosody"));
      { ProsodyRenamedOnce(); }
      Camelize("ssml_" + "ssmlProsody");
      { SsmlProsodyRenamed(); }
      "ssmlSsmlProsody";
    }
  }

  lemma SsmlProsodyRenamed()
    ensures Camelize("ssml_" + "ssmlProsody") == "ssmlSsmlProsody"
  {
    SsmlProsodySpelling();
    RenamedOnce("ssmlProsody", 'S', "smlProsody", "ssmlSsmlProsody");
  }

  /** The letters of `prosody` the renaming works on. */
  lemma ProsodySpelling()
    ensures UpperChar("prosody"[0]) == 'P' && "prosody"[1..] == "rosody" && '_' !in "rosody"
    ensures "ssml" + ['P'] + "rosody" == "ssmlProsody"
  {
    assert UpperChar('p') == 'P';
  }

  /** The letters of `ssmlProsody` the renaming works on. */
  lemma SsmlProsodySpelling()
    ensures UpperChar("ssmlProsody"[0]) == 'S' && "ssmlProsody"[1..] == "smlProsody" && '_' !in "smlProsody"
    ensures "ssml" + ['S'] + "smlProsody" == "ssmlSsmlProsody"
  {
    assert UpperChar('s') == 'S';
  }

  lemma RenamedOnce(name: string, first: char, rest: string, renamed: string)
    requires name != [] && UpperChar(name[0]) == first && name[1..] == rest && '_' !in rest
    requires renamed == "ssml" + [first] + rest
    ensures Camelize("ssml_" + name) == renamed
  {
    SsmlName(name);
  }

  /** Visiting each verb once, as intended, renames every SSML verb exactly once. */
  lemma CleanOnceSsmlName(d: Doc, j: nat)
    requires DocOk(d) && j < |d.verbs| && d.verbs[j].isSsml
    ensures DocPass(CleanStep, d, true).Ok?
    ensures DocPass(CleanStep, d, true).value.0[j].name == Camelize("ssml_" + d.verbs[j].name)
  {
    CleanStepTotal();
    DocPassTotal(CleanStep, d, true);
    DocPassPerVerb(CleanStep, d, true, j);
    RepeatSsmlName(d.verbs[j], 1);
  }

  /** `Node.clean`: the loop body on the verb of every traversal event; no import is added. */
  method Clean(ir: TwimlIR) returns (r: Result<set<string>>)
    requires ir.Valid()
    modifies ir.verbs
    ensures DocOk(old(ir.Abstract()))
    ensures r == Ok({}) && DocPass(CleanStep, old(ir.Abstract()), false).Ok?
    ensures ir.Abstract() == old(ir.Abstract()).(verbs := DocPass(CleanStep, old(ir.Abstract()), false).value.0)
    ensures ir.Valid() && ir.Shape() == old(ir.Shape())
  {
    ghost var d := ir.Abstract();
    r := ApplyPass(ir, CleanStep, false);
    CleanStepTotal();
    DocPassTotal(CleanStep, d, false);
    DocPassNoImport(CleanStep, d, false);
  }

  /** The corrected `clean`: each verb visited once (the `end` events skipped). */
  method CleanOnce(ir: TwimlIR) returns (r: Result<set<string>>)
    requires ir.Valid()
    modifies ir.verbs
    ensures DocOk(old(ir.Abstract()))
    ensures r == Ok({}) && DocPass(CleanStep, old(ir.Abstract()), true).Ok?
    ensures ir.Abstract() == old(ir.Abstract()).(verbs := DocPass(CleanStep, old(ir.Abstract()), true).value.0)
    ensures ir.Valid() && ir.Shape() == old(ir.Shape())
  {
    ghost var d := ir.Abstract();
    r := ApplyPass(ir, CleanStep, true);
    CleanStepTotal();
    DocPassTotal(CleanStep, d, true);
    DocPassNoImport(CleanStep, d, true);
  }

  /** `Node` inherits `_classes = None`, so registering a class on it raises. */
  method RegisterOnNode(c: HandlerClass) returns (r: Result<HandlerClass>)
    ensures r == Err(TypeError)
  {
    var node := new Language(None);
    r := node.Register(c);
  }
}
