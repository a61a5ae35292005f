/**
 * The PHP specificity module: a `Language` with no registry whose `clean` renames a
 * verb named `break` (a PHP keyword) to `break_` on the verb of every traversal event.
 */
module PhpLanguage {
  import opened Wrappers
  import opened Attributes
  import opened Tree
  import opened TwimlIr
  import opened Specificity
  import opened Passes

  /** The body of `PHP.clean`'s loop, on the event's verb. */
  function CleanStep(v: VerbRec): Result<(VerbRec, set<string>)>
  {
    Ok((if v.name == "break" then v.(name := "break_") else v, {}))
  }

  /** The loop body never raises, adds no import, and a second run on its result changes nothing. */
  lemma CleanStepIdempotent()
    ensures Total(CleanStep) && NoImport(CleanStep) && Idempotent(CleanStep)
  {
    forall v: VerbRec
      ensures var u := Assign(v, CleanStep(v).value.0);
              CleanStep(u).Ok? && Assign(u, CleanStep(u).value.0) == u
    {
      var u := Assign(v, CleanStep(v).value.0);
      assert u.name != "break";
    }
  }

  /**
   * After `PHP.clean` a verb named `break` is named `break_`; every other name, and
   * every verb's attributes and text, are as they were, although the root and verbs
   * with children are visited twice.
   */
  lemma CleanResult(d: Doc, j: nat)
    requires DocOk(d) && j < |d.verbs|
    ensures DocPass(CleanStep, d, false).Ok?
    ensures DocPass(CleanStep, d, false).value.0[j].name == if d.verbs[j].name == "break" then "break_" else d.verbs[j].name
    ensures DocPass(CleanStep, d, false).value.0[j].attributes == d.verbs[j].attributes
    ensures DocPass(CleanStep, d, false).value.0[j].text == d.verbs[j].text
  {
    CleanStepIdempotent();
    IdempotentPass(CleanStep, d, j);
  }

  /** `PHP.clean`: the loop body on the verb of every traversal event; no import is added. */
  method Clean(ir: TwimlIR) returns (r: Result<set<string>>)
    requires ir.Valid()
    modifies ir.verbs
    ensures DocOk(old(ir.Abstract()))
    ensures r == Ok({}) && DocPass(CleanStep, old(ir.Abstract()), false).Ok?
    ensures ir.Abstract() == old(ir.Abstract()).(verbs := DocPass(CleanStep, old(ir.Abstract()), false).value.0)
    ensures ir.Valid() && ir.Shape() == old(ir.Shape())
  {
    ghost var d := ir.Abstract();
    r := ApplyPass(ir, CleanStep, false);
    CleanStepIdempotent();
    DocPassTotal(CleanStep, d, false);
    DocPassNoImport(CleanStep, d, false);
  }

  /** `PHP` inherits `_classes = None`, so registering a class on it raises. */
  method RegisterOnPhp(c: HandlerClass) returns (r: Result<HandlerClass>)
    ensures r == Err(TypeError)
  {
    var php := new Language(None);
    r := php.Register(c);
  }
}
