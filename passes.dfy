/**
 * A specificity pass: the loop `for verb, event in twimlir: ...` that every
 * language's clean-up runs over the IR before code is emitted. The loop body sees the
 * verb of each traversal event and rewrites its name, attributes, text or variable
 * name in place, and may add imports.
 *
 * Because the traversal yields a `start` and an `end` for the root and for every
 * verb with children, such a verb goes through the loop body twice, while every other
 * verb goes through it once (`PassPerVerb`, `FwdCount`). `onceEach` selects the
 * variant that skips `end` events, which visits every verb exactly once.
 */
module Passes {
  import opened Wrappers
  import opened Strings
  import opened Attributes
  import opened Tree
  import opened TwimlIr

  /** One run of the loop body on a verb: the verb's new fields and the imports it adds, or the exception it raises. */
  type Step = VerbRec -> Result<(VerbRec, set<string>)>

  /** The fields a pass may assign (`name`, `attributes`, `text`, `variable_name`) taken from `w`, the others from `v`. */
  function Assign(v: VerbRec, w: VerbRec): (r: VerbRec)
    ensures r.tail == v.tail && r.isSsml == v.isSsml && r.parent == v.parent && r.depth == v.depth
    ensures r.name == w.name && r.attributes == w.attributes && r.text == w.text && r.variableName == w.variableName
  {
    v.(name := w.name, attributes := w.attributes, text := w.text, variableName := w.variableName)
  }

  predicate InRange(evs: seq<Event>, n: nat)
  {
    forall k :: 0 <= k < |evs| ==> evs[k].v < n
  }

  /** Whether the loop body runs for event `e`. */
  predicate Visits(e: Event, onceEach: bool)
  {
    !(onceEach && e.End?)
  }

  /** The two verb lists agree on every field a pass cannot assign. */
  predicate SameFrame(a: seq<VerbRec>, b: seq<VerbRec>)
  {
    |a| == |b| &&
    forall i :: 0 <= i < |a| ==>
      a[i].tail == b[i].tail && a[i].isSsml == b[i].isSsml && a[i].parent == b[i].parent && a[i].depth == b[i].depth
  }

  /**
   * The pass over the events `evs`: the step runs on the current state of each visited
   * event's verb, in order, and the first exception ends the pass. The result holds
   * the verbs and the union of the imports added.
   */
  function RunPass(step: Step, verbs: seq<VerbRec>, evs: seq<Event>, onceEach: bool): (r: Result<(seq<VerbRec>, set<string>)>)
    requires InRange(evs, |verbs|)
    ensures r.Ok? ==> SameFrame(verbs, r.value.0)
    decreases |evs|
  {
    if evs == [] then Ok((verbs, {}))
    else
      var before :- RunPass(step, verbs, evs[..|evs| - 1], onceEach);
      var e := Last(evs);
      if !Visits(e, onceEach) then Ok(before)
      else
        var vs := before.0;
        var out :- step(vs[e.v]);
        Ok((vs[e.v := Assign(vs[e.v], out.0)], before.1 + out.1))
  }

  /** The step run `n` times in a row on one verb. */
  function Repeat(step: Step, n: nat, v: VerbRec): Result<VerbRec>
  {
    if n == 0 then Ok(v)
    else
      var u :- Repeat(step, n - 1, v);
      var out :- step(u);
      Ok(Assign(u, out.0))
  }

  /** The name a verb ends with after one or two runs of a step, from the names each run gives. */
  lemma RepeatNames(step: Step, v: VerbRec, n: nat, once: string, twice: string)
    requires 1 <= n <= 2 && step(v).Ok? && step(v).value.0.name == once
    requires step(Assign(v, step(v).value.0)).Ok? && step(Assign(v, step(v).value.0)).value.0.name == twice
    ensures Repeat(step, n, v).Ok?
    ensures Repeat(step, n, v).value.name == if n == 2 then twice else once
  {
    assert Repeat(step, 0, v) == Ok(v);
  }

  /** A successful run of one step or more began with a step that succeeded. */
  lemma {:induction false} RepeatOkFirst(step: Step, n: nat, v: VerbRec)
    requires 1 <= n && Repeat(step, n, v).Ok?
    ensures step(v).Ok? && Repeat(step, 1, v) == Ok(Assign(v, step(v).value.0))
  {
    assert Repeat(step, 0, v) == Ok(v);
    if n > 1 {
      RepeatOkFirst(step, n - 1, v);
    }
  }

  /** How many of the events `evs` the loop body runs for on verb `j`. */
  function Count(evs: seq<Event>, j: nat, onceEach: bool): nat
  {
    if evs == [] then 0
    else Count(evs[..|evs| - 1], j, onceEach) + (if Last(evs).v == j && Visits(Last(evs), onceEach) then 1 else 0)
  }

  /** What a successful pass leaves in a verb is the step repeated once per visit of that verb. */
  lemma {:induction false} PassPerVerb(step: Step, verbs: seq<VerbRec>, evs: seq<Event>, onceEach: bool, j: nat)
    requires InRange(evs, |verbs|) && j < |verbs|
    requires RunPass(step, verbs, evs, onceEach).Ok?
    ensures Repeat(step, Count(evs, j, onceEach), verbs[j]) == Ok(RunPass(step, verbs, evs, onceEach).value.0[j])
    decreases |evs|
  {
    if evs != [] {
      var pre := evs[..|evs| - 1];
      RunPassLast(step, verbs, evs, onceEach, j);
      PassPerVerb(step, verbs, pre, onceEach, j);
      var u := RunPass(step, verbs, pre, onceEach).value.0[j];
      if Last(evs).v == j && Visits(Last(evs), onceEach) {
        RepeatSnoc(step, Count(pre, j, onceEach), verbs[j], u);
      }
    }
  }

  /** The last event of a successful pass changes its verb through one more step, and no other verb. */
  lemma RunPassLast(step: Step, verbs: seq<VerbRec>, evs: seq<Event>, onceEach: bool, j: nat)
    requires InRange(evs, |verbs|) && evs != [] && j < |verbs|
    requires RunPass(step, verbs, evs, onceEach).Ok?
    ensures InRange(evs[..|evs| - 1], |verbs|) && RunPass(step, verbs, evs[..|evs| - 1], onceEach).Ok?
    ensures var u := RunPass(step, verbs, evs[..|evs| - 1], onceEach).value.0[j];
            if Last(evs).v == j && Visits(Last(evs), onceEach)
            then step(u).Ok? && RunPass(step, verbs, evs, onceEach).value.0[j] == Assign(u, step(u).value.0)
            else RunPass(step, verbs, evs, onceEach).value.0[j] == u
  {
    assert InRange(evs[..|evs| - 1], |verbs|);
  }

  /** One more run of the step after `n` runs. */
  lemma RepeatSnoc(step: Step, n: nat, v: VerbRec, u: VerbRec)
    requires Repeat(step, n, v) == Ok(u) && step(u).Ok?
    ensures Repeat(step, n + 1, v) == Ok(Assign(u, step(u).value.0))
  {
  }

  lemma NoDupLast<T>(s: seq<T>)
    requires NoDup(s) && s != []
    ensures NoDup(s[..|s| - 1]) && Last(s) !in s[..|s| - 1]
  {
    var pre := s[..|s| - 1];
    forall k | 0 <= k < |pre|
      ensures pre[k] != Last(s)
    {
      assert s[k] != s[|s| - 1];
    }
  }

  /** The visited events of `j` among `evs`. */
  function VisitsOf(evs: seq<Event>, j: nat, onceEach: bool): set<Event>
  {
    set e | e in evs && e.v == j && Visits(e, onceEach)
  }

  lemma VisitsOfSnoc(pre: seq<Event>, x: Event, j: nat, onceEach: bool)
    ensures VisitsOf(pre + [x], j, onceEach) ==
            VisitsOf(pre, j, onceEach) + (if x.v == j && Visits(x, onceEach) then {x} else {})
  {
  }

  /** Without a repeated event, the visits of `j` are the distinct visited events of `j`. */
  lemma {:induction false} CountNoDup(evs: seq<Event>, j: nat, onceEach: bool)
    requires NoDup(evs)
    ensures Count(evs, j, onceEach) == |VisitsOf(evs, j, onceEach)|
    decreases |evs|
  {
    if evs != [] {
      var pre := evs[..|evs| - 1];
      var x := Last(evs);
      NoDupLast(evs);
      CountNoDup(pre, j, onceEach);
      assert evs == pre + [x];
      VisitsOfSnoc(pre, x, j, onceEach);
      assert x !in VisitsOf(pre, j, onceEach);
    }
  }

  /**
   * In the IR's traversal the loop body runs twice on the root and on a verb with
   * children (its `start` and its `end`) and once on any other verb; skipping `end`
   * events, it runs once on every verb.
   */
  lemma FwdCount(t: seq<Node>, j: nat, onceEach: bool)
    requires WellFormed(t) && j < |t|
    ensures Count(Fwd(t), j, onceEach) == if !onceEach && (j == 0 || !IsLeaf(t, j)) then 2 else 1
  {
    FwdNoDup(t);
    CountNoDup(Fwd(t), j, onceEach);
    var s := VisitsOf(Fwd(t), j, onceEach);
    var twice := j == 0 || !IsLeaf(t, j);
    forall e: Event | e.v == j
      ensures e in Fwd(t) <==> (if twice then e == Start(j) || e == End(j) else e == Leaf(j))
    {
      FwdMembers(t, e);
    }
    FwdMembers(t, Start(j));
    FwdMembers(t, End(j));
    FwdMembers(t, Leaf(j));
    if twice && !onceEach {
      assert s == {Start(j), End(j)};
    } else if twice {
      assert s == {Start(j)};
    } else {
      assert s == {Leaf(j)};
    }
  }

  /** A step whose second run on a verb changes nothing the first run did not. */
  ghost predicate Idempotent(step: Step)
  {
    forall v: VerbRec :: step(v).Ok? ==>
      var u := Assign(v, step(v).value.0);
      step(u).Ok? && Assign(u, step(u).value.0) == u
  }

  /** For an idempotent step, visiting a verb twice leaves it as visiting it once. */
  lemma TwiceIsOnce(step: Step, v: VerbRec)
    requires Idempotent(step)
    ensures Repeat(step, 2, v) == Repeat(step, 1, v)
  {
    assert Repeat(step, 0, v) == Ok(v);
  }

  /** The pass over a whole document, in the order of its traversal. */
  function DocPass(step: Step, d: Doc, onceEach: bool): (r: Result<(seq<VerbRec>, set<string>)>)
    requires DocOk(d)
    ensures r.Ok? ==> SameFrame(d.verbs, r.value.0)
  {
    FwdEventsInRange(ShapeOf(d));
    RunPass(step, d.verbs, Fwd(ShapeOf(d)), onceEach)
  }

  /**
   * With an idempotent step, the pass as written (which visits a verb with children
   * twice) leaves every verb as the pass that visits each verb once.
   */
  lemma IdempotentPassOnce(step: Step, d: Doc, j: nat)
    requires DocOk(d) && j < |d.verbs| && Idempotent(step)
    requires DocPass(step, d, false).Ok? && DocPass(step, d, true).Ok?
    ensures DocPass(step, d, false).value.0[j] == DocPass(step, d, true).value.0[j]
  {
    var t := ShapeOf(d);
    FwdEventsInRange(t);
    PassPerVerb(step, d.verbs, Fwd(t), false, j);
    PassPerVerb(step, d.verbs, Fwd(t), true, j);
    FwdCount(t, j, false);
    FwdCount(t, j, true);
    TwiceIsOnce(step, d.verbs[j]);
  }

  /** How many times the pass runs the step on verb `j`: twice for the root and every verb with children, unless `onceEach`. */
  function Visited(d: Doc, j: nat, onceEach: bool): nat
    requires DocOk(d) && j < |d.verbs|
  {
    if !onceEach && (j == 0 || !IsLeaf(ShapeOf(d), j)) then 2 else 1
  }

  /** What a successful pass over a document leaves in verb `j` is the step repeated once per visit. */
  lemma DocPassPerVerb(step: Step, d: Doc, onceEach: bool, j: nat)
    requires DocOk(d) && j < |d.verbs| && DocPass(step, d, onceEach).Ok?
    ensures Repeat(step, Visited(d, j, onceEach), d.verbs[j]) == Ok(DocPass(step, d, onceEach).value.0[j])
  {
    var t := ShapeOf(d);
    FwdEventsInRange(t);
    PassPerVerb(step, d.verbs, Fwd(t), onceEach, j);
    FwdCount(t, j, onceEach);
  }

  /** A step that never raises. */
  ghost predicate Total(step: Step)
  {
    forall v: VerbRec :: step(v).Ok?
  }

  /** With a step that never raises, the pass never raises either. */
  lemma {:induction false} RunPassTotal(step: Step, verbs: seq<VerbRec>, evs: seq<Event>, onceEach: bool)
    requires InRange(evs, |verbs|) && Total(step)
    ensures RunPass(step, verbs, evs, onceEach).Ok?
    decreases |evs|
  {
    if evs != [] {
      assert InRange(evs[..|evs| - 1], |verbs|);
      RunPassTotal(step, verbs, evs[..|evs| - 1], onceEach);
    }
  }

  lemma DocPassTotal(step: Step, d: Doc, onceEach: bool)
    requires DocOk(d) && Total(step)
    ensures DocPass(step, d, onceEach).Ok?
  {
    FwdEventsInRange(ShapeOf(d));
    RunPassTotal(step, d.verbs, Fwd(ShapeOf(d)), onceEach);
  }

  /**
   * With a step that never raises and whose second run changes nothing, every verb
   * ends as after one run, although the root and verbs with children are visited twice.
   */
  lemma IdempotentPass(step: Step, d: Doc, j: nat)
    requires DocOk(d) && j < |d.verbs| && Total(step) && Idempotent(step)
    ensures DocPass(step, d, false).Ok?
    ensures DocPass(step, d, false).value.0[j] == Assign(d.verbs[j], step(d.verbs[j]).value.0)
  {
    DocPassTotal(step, d, false);
    DocPassPerVerb(step, d, false, j);
    TwiceIsOnce(step, d.verbs[j]);
    assert Repeat(step, 0, d.verbs[j]) == Ok(d.verbs[j]);
  }

  /** A step that never adds an import. */
  ghost predicate NoImport(step: Step)
  {
    forall v: VerbRec :: step(v).Ok? ==> step(v).value.1 == {}
  }

  lemma {:induction false} RunPassNoImport(step: Step, verbs: seq<VerbRec>, evs: seq<Event>, onceEach: bool)
    requires InRange(evs, |verbs|) && NoImport(step) && RunPass(step, verbs, evs, onceEach).Ok?
    ensures RunPass(step, verbs, evs, onceEach).value.1 == {}
    decreases |evs|
  {
    if evs != [] {
      assert InRange(evs[..|evs| - 1], |verbs|);
      RunPassNoImport(step, verbs, evs[..|evs| - 1], onceEach);
    }
  }

  /** A pass whose step never adds an import adds none. */
  lemma DocPassNoImport(step: Step, d: Doc, onceEach: bool)
    requires DocOk(d) && NoImport(step) && DocPass(step, d, onceEach).Ok?
    ensures DocPass(step, d, onceEach).value.1 == {}
  {
    FwdEventsInRange(ShapeOf(d));
    RunPassNoImport(step, d.verbs, Fwd(ShapeOf(d)), onceEach);
  }

  /** A step that always raises. */
  ghost predicate Failing(step: Step)
  {
    forall v: VerbRec :: step(v).Err?
  }

  lemma {:induction false} RunPassFailing(step: Step, verbs: seq<VerbRec>, evs: seq<Event>, onceEach: bool, k: nat)
    requires InRange(evs, |verbs|) && Failing(step) && k < |evs| && Visits(evs[k], onceEach)
    ensures RunPass(step, verbs, evs, onceEach).Err?
    decreases |evs|
  {
    var pre := evs[..|evs| - 1];
    assert InRange(pre, |verbs|);
    if k < |pre| {
      assert pre[k] == evs[k];
      RunPassFailing(step, verbs, pre, onceEach, k);
    }
  }

  /** A pass whose step always raises raises: every document has a root, and its `start` is visited. */
  lemma DocPassFailing(step: Step, d: Doc, onceEach: bool)
    requires DocOk(d) && Failing(step)
    ensures DocPass(step, d, onceEach).Err?
  {
    var t := ShapeOf(d);
    FwdEventsInRange(t);
    FwdMembers(t, Start(0));
    var k :| 0 <= k < |Fwd(t)| && Fwd(t)[k] == Start(0);
    RunPassFailing(step, d.verbs, Fwd(t), onceEach, k);
  }

  lemma FwdEventsInRange(t: seq<Node>)
    requires WellFormed(t)
    ensures InRange(Fwd(t), |t|)
  {
    forall k | 0 <= k < |Fwd(t)|
      ensures Fwd(t)[k].v < |t|
    {
      FwdMembers(t, Fwd(t)[k]);
    }
  }

  /** A pass keeps the tree: parents, depths and children lists are not touched. */
  lemma PassKeepsDoc(d: Doc, vs: seq<VerbRec>)
    requires DocOk(d) && SameFrame(d.verbs, vs)
    ensures DocOk(d.(verbs := vs)) && ShapeOf(d.(verbs := vs)) == ShapeOf(d)
  {
    var d' := d.(verbs := vs);
    assert ShapeOf(d') == ShapeOf(d) by {
      assert forall i :: 0 <= i < |vs| ==> ShapeOf(d')[i] == ShapeOf(d)[i];
    }
    forall j | 0 < j < |vs|
      ensures vs[j].parent.Some? && vs[j].parent.value < j && vs[j].depth == vs[vs[j].parent.value].depth + 1
    {
      assert d.verbs[j].parent == vs[j].parent;
    }
  }

  /** One more event of a pass, given the outcome of the events before it. */
  lemma PassStep(step: Step, verbs: seq<VerbRec>, evs: seq<Event>, onceEach: bool, k: nat, vs: seq<VerbRec>, imports: set<string>)
    requires InRange(evs, |verbs|) && k < |evs|
    requires RunPass(step, verbs, evs[..k], onceEach) == Ok((vs, imports))
    ensures |vs| == |verbs|
    ensures !Visits(evs[k], onceEach) ==> RunPass(step, verbs, evs[..k + 1], onceEach) == Ok((vs, imports))
    ensures Visits(evs[k], onceEach) && step(vs[evs[k].v]).Err? ==>
              RunPass(step, verbs, evs[..k + 1], onceEach) == Err(step(vs[evs[k].v]).error)
    ensures Visits(evs[k], onceEach) && step(vs[evs[k].v]).Ok? ==>
              var out := step(vs[evs[k].v]).value;
              RunPass(step, verbs, evs[..k + 1], onceEach) == Ok((vs[evs[k].v := Assign(vs[evs[k].v], out.0)], imports + out.1))
  {
    assert evs[..k + 1][..k] == evs[..k];
    assert Last(evs[..k + 1]) == evs[k];
  }

  /** The loop body's assignments to one verb object. */
  method SetFields(verb: Verb, w: VerbRec)
    modifies verb
    ensures verb.Rec() == Assign(old(verb.Rec()), w)
  {
    verb.name, verb.attributes, verb.text, verb.variableName := w.name, w.attributes, w.text, w.variableName;
  }

  /** The fields of the verb at `j` assigned in place; the arena mirrors the verb list with that one entry replaced. */
  method SetVerb(ir: TwimlIR, j: nat, w: VerbRec, ghost vs: seq<VerbRec>)
    requires forall i, k :: 0 <= i < k < |ir.verbs| ==> ir.verbs[i] != ir.verbs[k]
    requires j < |ir.verbs| == |vs| && forall i :: 0 <= i < |ir.verbs| ==> ir.verbs[i].Rec() == vs[i]
    modifies ir.verbs[j]
    ensures forall i :: 0 <= i < |ir.verbs| ==> ir.verbs[i].Rec() == vs[j := Assign(vs[j], w)][i]
  {
    SetFields(ir.verbs[j], w);
  }

  /**
   * The pass run in place on the IR's verbs: the traversal is collected first (the
   * loop body never changes the tree), then each visited verb gets the fields the step
   * computes. On success the imports the pass adds come back.
   */
  method ApplyPass(ir: TwimlIR, step: Step, onceEach: bool) returns (r: Result<set<string>>)
    requires ir.Valid()
    modifies ir.verbs
    ensures DocOk(old(ir.Abstract()))
    ensures r.Err? <==> DocPass(step, old(ir.Abstract()), onceEach).Err?
    ensures r.Ok? ==> r.value == DocPass(step, old(ir.Abstract()), onceEach).value.1
    ensures r.Ok? ==> ir.Abstract() == old(ir.Abstract()).(verbs := DocPass(step, old(ir.Abstract()), onceEach).value.0)
    ensures r.Ok? ==> ir.Valid() && ir.Shape() == old(ir.Shape())
  {
    ghost var d := ir.Abstract();
    ghost var t := ir.Shape();
    var events := ir.Iter();
    assert events == Fwd(t);
    FwdEventsInRange(t);
    ghost var vs;
    r, vs := RunEvents(ir, step, events, onceEach, d);
    if r.Ok? {
      ValidAfterPass(ir, d, vs);
    }
  }

  lemma ValidAfterPass(ir: TwimlIR, d: Doc, vs: seq<VerbRec>)
    requires forall i, j :: 0 <= i < j < |ir.verbs| ==> ir.verbs[i] != ir.verbs[j]
    requires DocOk(d) && SameFrame(d.verbs, vs) && ir.Abstract() == d.(verbs := vs)
    ensures ir.Valid() && ir.Shape() == ShapeOf(d)
  {
    PassKeepsDoc(d, vs);
  }

  /** The loop over the collected events. */
  method RunEvents(ir: TwimlIR, step: Step, events: seq<Event>, onceEach: bool, ghost d: Doc) returns (r: Result<set<string>>, ghost vs: seq<VerbRec>)
    requires forall i, j :: 0 <= i < j < |ir.verbs| ==> ir.verbs[i] != ir.verbs[j]
    requires ir.Abstract() == d && InRange(events, |d.verbs|)
    modifies ir.verbs
    ensures forall i, j :: 0 <= i < j < |ir.verbs| ==> ir.verbs[i] != ir.verbs[j]
    ensures r.Err? <==> RunPass(step, d.verbs, events, onceEach).Err?
    ensures r.Ok? ==> RunPass(step, d.verbs, events, onceEach) == Ok((vs, r.value))
    ensures r.Ok? ==> ir.Abstract() == d.(verbs := vs)
  {
    var imports: set<string> := {};
    vs := d.verbs;
    for k := 0 to |events|
      invariant RunPass(step, d.verbs, events[..k], onceEach) == Ok((vs, imports))
      invariant ir.verbs == old(ir.verbs)
      invariant |vs| == |ir.verbs| && forall i :: 0 <= i < |ir.verbs| ==> ir.verbs[i].Rec() == vs[i]
    {
      var e := events[k];
      PassStep(step, d.verbs, events, onceEach, k, vs, imports);
      if Visits(e, onceEach) {
        var verb := ir.verbs[e.v];
        var out := step(verb.Rec());
        if out.Err? {
          RunPassFails(step, d.verbs, events, onceEach, k + 1);
          return Err(out.error), vs;
        }
        SetVerb(ir, e.v, out.value.0, vs);
        imports := imports + out.value.1;
        vs := vs[e.v := Assign(vs[e.v], out.value.0)];
      }
    }
    assert events[..|events|] == events;
    assert ir.Abstract() == d.(verbs := vs);
    return Ok(imports), vs;
  }

  /** An exception part way through the events ends the whole pass with that exception. */
  lemma {:induction false} RunPassFails(step: Step, verbs: seq<VerbRec>, evs: seq<Event>, onceEach: bool, k: nat)
    requires InRange(evs, |verbs|) && k <= |evs|
    requires RunPass(step, verbs, evs[..k], onceEach).Err?
    ensures RunPass(step, verbs, evs, onceEach) == RunPass(step, verbs, evs[..k], onceEach)
    decreases |evs| - k
  {
    if k < |evs| {
      assert evs[..k + 1][..k] == evs[..k];
      RunPassFails(step, verbs, evs, onceEach, k + 1);
    } else {
      assert evs[..k] == evs;
    }
  }
}
