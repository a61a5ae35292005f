/**
 * The Ruby specificity module: a `Language` whose registry holds six classes, each
 * moving a non-empty text into one attribute, and whose `clean` runs the registry's
 * `verb_processing` on the verb of every traversal event.
 */
module RubyLanguage {
  import opened Wrappers
  import opened Attributes
  import opened Tree
  import opened TwimlIr
  import opened Specificity
  import opened Passes

  /** The attribute each registered class moves the text into. */
  const Targets: map<string, string> :=
    map["Play" := "url", "Message" := "body", "Dial" := "number", "Say" := "message",
        "Enqueue" := "name", "Client" := "identity"]

  /** `Ruby._classes` once the six `@Ruby.register` decorators have run. */
  function Registry(): map<string, HandlerClass>
  {
    map k | k in Targets :: HandlerClass(None, k, MoveTextTo(Targets[k]))
  }

  /** The module body: the six classes registered one after the other, in source order. */
  method Setup() returns (ruby: Language)
    ensures ruby.classes == Some(Registry())
  {
    ruby := new Language(Some(map[]));
    var play := ruby.Register(HandlerClass(None, "Play", MoveTextTo("url")));
    var message := ruby.Register(HandlerClass(None, "Message", MoveTextTo("body")));
    var dial := ruby.Register(HandlerClass(None, "Dial", MoveTextTo("number")));
    var say := ruby.Register(HandlerClass(None, "Say", MoveTextTo("message")));
    var enqueue := ruby.Register(HandlerClass(None, "Enqueue", MoveTextTo("name")));
    var client := ruby.Register(HandlerClass(None, "Client", MoveTextTo("identity")));
    assert ruby.classes.value.Keys == Targets.Keys;
    forall k | k in Targets
      ensures ruby.classes.value[k] == Registry()[k]
    {
    }
    assert ruby.classes.value == Registry();
  }

  /** The body of `Ruby.clean`'s loop: `verb_processing` on the event's verb; it adds no import. */
  function Step(classes: Option<map<string, HandlerClass>>): Step
  {
    (v: VerbRec) => match VerbProcessing(classes, v)
                    case Ok(w) => Ok((w, {}))
                    case Err(e) => Err(e)
  }

  /**
   * A verb named after one of the six classes with a non-empty text has the text
   * moved into that class's attribute (replacing any value there) and the text set to
   * `None`; with an empty or missing text, or any other name, nothing changes.
   */
  lemma StepMovesText(v: VerbRec)
    ensures Step(Some(Registry()))(v).Ok? && Step(Some(Registry()))(v).value.1 == {}
    ensures v.name in Targets && Truthy(v.text) ==>
              Step(Some(Registry()))(v).value.0.text == Null &&
              Get(Step(Some(Registry()))(v).value.0.attributes, Targets[v.name]) == Some(v.text)
    ensures !(v.name in Targets && Truthy(v.text)) ==> Step(Some(Registry()))(v).value.0 == v
  {
  }

  /** The step with a registry never raises and is idempotent. */
  lemma StepIdempotent(classes: map<string, HandlerClass>)
    ensures Total(Step(Some(classes))) && Idempotent(Step(Some(classes)))
  {
    var step := Step(Some(classes));
    forall v: VerbRec | step(v).Ok?
      ensures var u := Assign(v, step(v).value.0);
              step(u).Ok? && Assign(u, step(u).value.0) == u
    {
      var w := VerbProcessing(Some(classes), v).value;
      assert Assign(v, w) == w;
      VerbProcessingIdempotent(classes, v);
    }
  }

  /**
   * `Ruby.clean` visits the root and every verb with children twice, yet every verb
   * ends as after one `verb_processing`, since the second visit finds the text gone.
   */
  lemma CleanProcessesOnce(classes: map<string, HandlerClass>, d: Doc, j: nat)
    requires DocOk(d) && j < |d.verbs|
    ensures DocPass(Step(Some(classes)), d, false).Ok?
    ensures DocPass(Step(Some(classes)), d, false).value.0[j] == VerbProcessing(Some(classes), d.verbs[j]).value
  {
    StepIdempotent(classes);
    IdempotentPass(Step(Some(classes)), d, j);
    StepResult(classes, d.verbs[j]);
  }

  /** One run of the step replaces the verb by what `verb_processing` returns. */
  lemma StepResult(classes: map<string, HandlerClass>, v: VerbRec)
    ensures VerbProcessing(Some(classes), v).Ok? && Step(Some(classes))(v).Ok?
    ensures Assign(v, Step(Some(classes))(v).value.0) == VerbProcessing(Some(classes), v).value
  {
    var w := VerbProcessing(Some(classes), v).value;
    assert Assign(v, w) == w;
  }

  /** A language without a registry raises on the first verb. */
  lemma CleanWithoutRegistryFails(d: Doc)
    requires DocOk(d)
    ensures DocPass(Step(None), d, false).Err?
  {
    DocPassFailing(Step(None), d, false);
  }

  /**
   * `Ruby.clean`: `verb_processing` on the verb of every traversal event, in order;
   * the verbs end as `DocPass` says and no import is added.
   */
  method Clean(ruby: Language, ir: TwimlIR) returns (r: Result<set<string>>)
    requires ir.Valid()
    modifies ir.verbs
    ensures DocOk(old(ir.Abstract()))
    ensures r.Err? <==> DocPass(Step(ruby.classes), old(ir.Abstract()), false).Err?
    ensures r.Ok? ==> r.value == {}
    ensures r.Ok? ==> ir.Abstract() == old(ir.Abstract()).(verbs := DocPass(Step(ruby.classes), old(ir.Abstract()), false).value.0)
    ensures r.Ok? ==> ir.Valid() && ir.Shape() == old(ir.Shape())
  {
    ghost var d := ir.Abstract();
    r := ApplyPass(ir, Step(ruby.classes), false);
    if r.Ok? {
      DocPassNoImport(Step(ruby.classes), d, false);
    }
  }
}
