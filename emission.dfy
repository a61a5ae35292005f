/**
 * Which lines the generator's forward `__repr__` emits for a traversal of the IR,
 * one `Line` per emitted line, naming the verb it is about and the output method
 * that made it. The text of each line is given by the output methods of
 * `Generator.TwimlCodeGenerator`; this module counts lines.
 */
module Emission {
  import opened Wrappers
  import opened Strings
  import opened Tree
  import opened Passes

  /** Whether the verb's tail gets a text line: present, not empty, not starting with a newline. */
  predicate TailShown(tail: Option<string>)
  {
    tail.Some? && tail.value != "" && tail.value[0] != '\n'
  }

  /** The output method a line comes from, and its verb. */
  datatype Line = VariableLine(v: nat) | LeafLine(v: nat) | AppendLine(v: nat) | TextLine(v: nat)

  /**
   * The line one event of the traversal emits by its kind: `output_new_variable` on
   * `start`, `output_new_leaf` on `leaf`, `output_append` on `end` when the verb is
   * in `appended` (it had a parent and the append line was not empty).
   */
  function MainLines(e: Event, appended: set<nat>): seq<Line>
  {
    match e
      case Start(v) => [VariableLine(v)]
      case Leaf(v) => [LeafLine(v)]
      case End(v) => if v in appended then [AppendLine(v)] else []
  }

  /**
   * The `output_new_text` line that follows when the verb's tail is shown. With
   * `tailOnce`, it is left out after `start`, so that a verb's tail follows its
   * closing line only.
   */
  function TailLines(e: Event, tails: seq<Option<string>>, tailOnce: bool): seq<Line>
    requires e.v < |tails|
  {
    if TailShown(tails[e.v]) && !(tailOnce && e.Start?) then [TextLine(e.v)] else []
  }

  /** The lines one event of the traversal emits. */
  function EventLines(e: Event, appended: set<nat>, tails: seq<Option<string>>, tailOnce: bool): seq<Line>
    requires e.v < |tails|
  {
    MainLines(e, appended) + TailLines(e, tails, tailOnce)
  }

  /** The lines of a sequence of events, in order. */
  function ForwardLines(evs: seq<Event>, appended: set<nat>, tails: seq<Option<string>>, tailOnce: bool): seq<Line>
    requires InRange(evs, |tails|)
  {
    if evs == [] then []
    else ForwardLines(evs[..|evs| - 1], appended, tails, tailOnce) + EventLines(Last(evs), appended, tails, tailOnce)
  }

  /**
   * How many times the events counted by `m` emit the line `x`: once per `start`,
   * `leaf` or `end` of its verb that emits it.
   */
  function Emitted(m: multiset<Event>, appended: set<nat>, tails: seq<Option<string>>, tailOnce: bool, x: Line): nat
    requires x.v < |tails|
  {
    match x
      case VariableLine(v) => m[Start(v)]
      case LeafLine(v) => m[Leaf(v)]
      case AppendLine(v) => if v in appended then m[End(v)] else 0
      case TextLine(v) =>
        if TailShown(tails[v]) then (if tailOnce then 0 else m[Start(v)]) + m[Leaf(v)] + m[End(v)] else 0
  }

  /** Counting the lines of two bags of events is counting them for each bag. */
  lemma EmittedAdd(m1: multiset<Event>, m2: multiset<Event>, appended: set<nat>, tails: seq<Option<string>>, tailOnce: bool, x: Line)
    requires x.v < |tails|
    ensures Emitted(m1 + m2, appended, tails, tailOnce, x) ==
            Emitted(m1, appended, tails, tailOnce, x) + Emitted(m2, appended, tails, tailOnce, x)
  {
  }

  /** The lines of one event are those it emits. */
  lemma EventLineOnce(e: Event, appended: set<nat>, tails: seq<Option<string>>, tailOnce: bool, x: Line)
    requires e.v < |tails| && x.v < |tails|
    ensures multiset(EventLines(e, appended, tails, tailOnce))[x] == Emitted(multiset([e]), appended, tails, tailOnce, x)
  {
    var main, text := MainLines(e, appended), TailLines(e, tails, tailOnce);
    assert multiset(main + text)[x] == multiset(main)[x] + multiset(text)[x];
    var m := multiset([e]);
    assert m[e] == 1 && forall f :: f != e ==> m[f] == 0;
    assert multiset(main)[x] == if (x == VariableLine(e.v) && e.Start?) || (x == LeafLine(e.v) && e.Leaf?)
                                   || (x == AppendLine(e.v) && e.End? && e.v in appended) then 1 else 0;
    assert multiset(text)[x] == if x == TextLine(e.v) && TailShown(tails[e.v]) && !(tailOnce && e.Start?) then 1 else 0;
  }

  /** The lines of a sequence of events hold each line as often as the events emit it. */
  lemma {:induction false} ForwardLinesCount(evs: seq<Event>, appended: set<nat>, tails: seq<Option<string>>, tailOnce: bool, x: Line)
    requires InRange(evs, |tails|) && x.v < |tails|
    ensures multiset(ForwardLines(evs, appended, tails, tailOnce))[x] == Emitted(multiset(evs), appended, tails, tailOnce, x)
    decreases |evs|
  {
    if evs != [] {
      var pre, e := evs[..|evs| - 1], Last(evs);
      ForwardLinesCount(pre, appended, tails, tailOnce, x);
      EventLineOnce(e, appended, tails, tailOnce, x);
      MultisetSnoc(evs);
      EmittedAdd(multiset(pre), multiset([e]), appended, tails, tailOnce, x);
      var lines, more := ForwardLines(pre, appended, tails, tailOnce), EventLines(e, appended, tails, tailOnce);
      assert ForwardLines(evs, appended, tails, tailOnce) == lines + more;
      assert multiset(lines + more)[x] == multiset(lines)[x] + multiset(more)[x];
    }
  }

  lemma MultisetSnoc<T>(s: seq<T>)
    requires s != []
    ensures multiset(s) == multiset(s[..|s| - 1]) + multiset([Last(s)])
  {
    assert s == s[..|s| - 1] + [Last(s)];
  }

  /** Recording a verb as appended changes nothing before its `end` event. */
  lemma {:induction false} ForwardLinesAppendedLater(evs: seq<Event>, appended: set<nat>, tails: seq<Option<string>>, tailOnce: bool, v: nat)
    requires InRange(evs, |tails|) && End(v) !in evs
    ensures ForwardLines(evs, appended + {v}, tails, tailOnce) == ForwardLines(evs, appended, tails, tailOnce)
    decreases |evs|
  {
    if evs != [] {
      var pre := evs[..|evs| - 1];
      assert forall e :: e in pre ==> e in evs;
      ForwardLinesAppendedLater(pre, appended, tails, tailOnce, v);
      assert Last(evs) in evs;
    }
  }

  /** Every event of the traversal is about a verb of the tree. */
  lemma FwdInRange(t: seq<Node>)
    requires WellFormed(t)
    ensures InRange(Fwd(t), |t|) && NoDup(Fwd(t))
  {
    FwdNoDup(t);
    forall k | 0 <= k < |Fwd(t)|
      ensures Fwd(t)[k].v < |t|
    {
      FwdMembers(t, Fwd(t)[k]);
    }
  }

  /** In a sequence without repeats, every element occurs at most once. */
  lemma {:induction false} NoDupOnce<T>(s: seq<T>, x: T)
    requires NoDup(s)
    ensures multiset(s)[x] == if x in s then 1 else 0
    decreases |s|
  {
    if s != [] {
      var pre := s[..|s| - 1];
      NoDupLast(s);
      NoDupOnce(pre, x);
      assert s == pre + [Last(s)];
      assert multiset(s) == multiset(pre) + multiset{Last(s)};
    }
  }

  /** The traversal has `start` and `end` of the root and of a verb with children, and `leaf` of any other verb, each once. */
  lemma FwdOnce(t: seq<Node>, v: nat)
    requires WellFormed(t) && v < |t|
    ensures multiset(Fwd(t))[Start(v)] == multiset(Fwd(t))[End(v)] == if v == 0 || !IsLeaf(t, v) then 1 else 0
    ensures multiset(Fwd(t))[Leaf(v)] == if v == 0 || !IsLeaf(t, v) then 0 else 1
  {
    FwdNoDup(t);
    FwdMembers(t, Start(v));
    FwdMembers(t, End(v));
    FwdMembers(t, Leaf(v));
    NoDupOnce(Fwd(t), Start(v));
    NoDupOnce(Fwd(t), End(v));
    NoDupOnce(Fwd(t), Leaf(v));
  }

  /**
   * Each verb is created by exactly one line: `output_new_variable` for the root and
   * for a verb with children, `output_new_leaf` for any other verb.
   */
  lemma CreatedOnce(t: seq<Node>, appended: set<nat>, tails: seq<Option<string>>, tailOnce: bool, v: nat)
    requires WellFormed(t) && |tails| == |t| && v < |t|
    ensures InRange(Fwd(t), |tails|)
    ensures multiset(ForwardLines(Fwd(t), appended, tails, tailOnce))[VariableLine(v)] == if v == 0 || !IsLeaf(t, v) then 1 else 0
    ensures multiset(ForwardLines(Fwd(t), appended, tails, tailOnce))[LeafLine(v)] == if v == 0 || !IsLeaf(t, v) then 0 else 1
  {
    FwdInRange(t);
    FwdOnce(t, v);
    ForwardLinesCount(Fwd(t), appended, tails, tailOnce, VariableLine(v));
    ForwardLinesCount(Fwd(t), appended, tails, tailOnce, LeafLine(v));
  }

  /**
   * How many text lines carry a verb's tail: none when it is not shown; otherwise
   * one after each of the verb's events, so two for the root and a verb with
   * children, and just one with `tailOnce`.
   */
  lemma TextLinesCount(t: seq<Node>, appended: set<nat>, tails: seq<Option<string>>, tailOnce: bool, v: nat)
    requires WellFormed(t) && |tails| == |t| && v < |t|
    ensures InRange(Fwd(t), |tails|)
    ensures multiset(ForwardLines(Fwd(t), appended, tails, tailOnce))[TextLine(v)] ==
            if !TailShown(tails[v]) then 0 else if !tailOnce && (v == 0 || !IsLeaf(t, v)) then 2 else 1
  {
    FwdInRange(t);
    FwdOnce(t, v);
    ForwardLinesCount(Fwd(t), appended, tails, tailOnce, TextLine(v));
  }

  /** A verb gets an append line at most once: on its `end`, when it was recorded as appended. */
  lemma AppendLinesCount(t: seq<Node>, appended: set<nat>, tails: seq<Option<string>>, tailOnce: bool, v: nat)
    requires WellFormed(t) && |tails| == |t| && v < |t|
    ensures InRange(Fwd(t), |tails|)
    ensures multiset(ForwardLines(Fwd(t), appended, tails, tailOnce))[AppendLine(v)] ==
            if v in appended && (v == 0 || !IsLeaf(t, v)) then 1 else 0
  {
    FwdInRange(t);
    FwdOnce(t, v);
    ForwardLinesCount(Fwd(t), appended, tails, tailOnce, AppendLine(v));
  }

  /**
   * As written, `__repr__` emits the tail of a verb with children twice: once right
   * after the line that creates the verb and once after its closing line.
   */
  lemma TailTextTwice(t: seq<Node>, appended: set<nat>, tails: seq<Option<string>>, v: nat)
    requires WellFormed(t) && |tails| == |t| && v < |t|
    requires TailShown(tails[v]) && !IsLeaf(t, v)
    ensures InRange(Fwd(t), |tails|)
    ensures multiset(ForwardLines(Fwd(t), appended, tails, false))[TextLine(v)] == 2
  {
    TextLinesCount(t, appended, tails, false, v);
  }

  /** With the text line after `start` left out, every shown tail is emitted exactly once. */
  lemma TailTextOnce(t: seq<Node>, appended: set<nat>, tails: seq<Option<string>>, v: nat)
    requires WellFormed(t) && |tails| == |t| && v < |t|
    ensures InRange(Fwd(t), |tails|)
    ensures multiset(ForwardLines(Fwd(t), appended, tails, true))[TextLine(v)] == if TailShown(tails[v]) then 1 else 0
  {
    TextLinesCount(t, appended, tails, true, v);
  }

  /**
   * The lines so far after one more event, when the verb of an `end` event may just
   * have been recorded as appended (`now`): those before it, then its own.
   */
  lemma ForwardLinesNext(evs: seq<Event>, k: nat, appended: set<nat>, appended': set<nat>, now: bool,
                         tails: seq<Option<string>>, tailOnce: bool)
    requires InRange(evs, |tails|) && k < |evs| && evs[k] !in evs[..k]
    requires forall v :: v in appended ==> End(v) in evs[..k]
    requires now ==> evs[k].End?
    requires appended' == if now then appended + {evs[k].v} else appended
    ensures InRange(evs[..k], |tails|) && InRange(evs[..k + 1], |tails|)
    ensures ForwardLines(evs[..k + 1], appended', tails, tailOnce) ==
            ForwardLines(evs[..k], appended, tails, tailOnce)
            + (MainLines(evs[k], if now then {evs[k].v} else {}) + TailLines(evs[k], tails, tailOnce))
  {
    var pre := evs[..k];
    assert evs[..k + 1][..k] == pre && Last(evs[..k + 1]) == evs[k];
    if now {
      ForwardLinesAppendedLater(pre, appended, tails, tailOnce, evs[k].v);
    }
  }

  /** No verb is created by two events: a sequence never holds both `start` and `leaf` of a verb, nor either twice. */
  predicate CreatesOnce(evs: seq<Event>)
  {
    forall i, j :: 0 <= i < j < |evs| && !evs[i].End? && !evs[j].End? ==> evs[i].v != evs[j].v
  }

  /** The traversal creates each verb once: it never holds both the `start` and the `leaf` of a verb. */
  lemma FwdCreatesOnce(t: seq<Node>)
    requires WellFormed(t)
    ensures CreatesOnce(Fwd(t))
  {
    FwdNoDup(t);
    forall i, j | 0 <= i < j < |Fwd(t)| && !Fwd(t)[i].End? && !Fwd(t)[j].End?
      ensures Fwd(t)[i].v != Fwd(t)[j].v
    {
      if Fwd(t)[i].v == Fwd(t)[j].v {
        var v := Fwd(t)[i].v;
        assert Start(v) in Fwd(t) && Leaf(v) in Fwd(t);
        FwdMembers(t, Start(v));
        FwdMembers(t, Leaf(v));
      }
    }
  }

  /** Every verb gets a `start` or a `leaf` event. */
  lemma FwdCreates(t: seq<Node>, v: nat)
    requires WellFormed(t) && v < |t|
    ensures Start(v) in Fwd(t) || Leaf(v) in Fwd(t)
  {
    FwdMembers(t, Start(v));
    FwdMembers(t, Leaf(v));
  }

  /** A verb with children, or the root, gets an `end` event. */
  lemma FwdEnds(t: seq<Node>, v: nat)
    requires WellFormed(t) && v < |t| && (v == 0 || !IsLeaf(t, v))
    ensures End(v) in Fwd(t)
  {
    FwdMembers(t, End(v));
  }

  /**
   * The verbs recorded as appended on their `end` events, when each was recorded
   * only outside `det` and inside `shown` (the verbs whose append line is not
   * empty), and every `end` of such a verb other than the root recorded it: exactly
   * the verbs with children other than the root, outside `det`, inside `shown`.
   */
  lemma FwdAppended(t: seq<Node>, appended: set<nat>, det: set<nat>, shown: set<nat>)
    requires WellFormed(t)
    requires forall v :: v in appended ==> End(v) in Fwd(t) && v != 0 && v !in det && v in shown
    requires forall i ::
               (0 <= i < |Fwd(t)| && Fwd(t)[i].End? && Fwd(t)[i].v != 0 && Fwd(t)[i].v !in det && Fwd(t)[i].v in shown) ==>
               Fwd(t)[i].v in appended
    ensures forall v :: v in appended <==> 0 < v < |t| && !IsLeaf(t, v) && v !in det && v in shown
  {
    forall v | v in appended
      ensures 0 < v < |t| && !IsLeaf(t, v)
    {
      FwdMembers(t, End(v));
    }
    forall v | 0 < v < |t| && !IsLeaf(t, v) && v !in det && v in shown
      ensures v in appended
    {
      FwdEnds(t, v);
      var i :| 0 <= i < |Fwd(t)| && Fwd(t)[i] == End(v);
    }
  }

  /**
   * In the traversal, a verb's `end` comes after its parent's `start`: no `start`
   * follows the `end` of one of its verb's children.
   */
  lemma ChildEndAfterParentStart(t: seq<Node>, i: nat, k: nat)
    requires WellFormed(t) && i < |Fwd(t)| && k < |Fwd(t)| && Fwd(t)[i].End? && Fwd(t)[k].Start?
    requires Fwd(t)[i].v < |t| && t[Fwd(t)[i].v].parent == Some(Fwd(t)[k].v)
    ensures k < i
  {
    var f := Fwd(t);
    var c, u := f[i].v, f[k].v;
    FwdNoDup(t);
    FwdMembers(t, End(c));
    assert f[i] in f;
    if u == 0 {
      assert f[0] == Start(0);
    } else {
      var pre, post := SubtreeBlock(t, u);
      assert c in t[u].children;
      var a, b := ChildSplit(t, c);
      var vc := Visit(t, c);
      var m := |pre| + 1 + |a| + |vc| - 1;
      assert f == pre + ([Start(u)] + (a + vc + b) + [End(u)]) + post;
      assert f[|pre|] == Start(u);
      assert f[m] == End(c);
    }
  }

  /** `ChildEndAfterParentStart` over the whole traversal. */
  lemma FwdChildEndsLate(t: seq<Node>)
    requires WellFormed(t)
    ensures forall i, k :: 0 <= i < k < |Fwd(t)| && Fwd(t)[i].End? && Fwd(t)[k].Start? && Fwd(t)[i].v < |t| ==>
              t[Fwd(t)[i].v].parent != Some(Fwd(t)[k].v)
  {
    forall i, k | 0 <= i < k < |Fwd(t)| && Fwd(t)[i].End? && Fwd(t)[k].Start? && Fwd(t)[i].v < |t|
      ensures t[Fwd(t)[i].v].parent != Some(Fwd(t)[k].v)
    {
      if t[Fwd(t)[i].v].parent == Some(Fwd(t)[k].v) {
        ChildEndAfterParentStart(t, i, k);
      }
    }
  }

  /**
   * The lines of `__reverse_repr__` for the order `reverse_iter` yields the verbs in:
   * `output_new_leaf` for a verb without children, `output_new_variable` for the
   * others.
   */
  function ReverseLines(t: seq<Node>, order: seq<nat>): (r: seq<Line>)
    requires forall i :: 0 <= i < |order| ==> order[i] < |t|
    ensures |r| == |order|
  {
    if order == [] then []
    else
      var v := Last(order);
      ReverseLines(t, order[..|order| - 1]) + [if IsLeaf(t, v) then LeafLine(v) else VariableLine(v)]
  }

  /** The line of the `i`-th verb of the order. */
  lemma {:induction false} ReverseLinesAt(t: seq<Node>, order: seq<nat>, i: nat)
    requires forall i :: 0 <= i < |order| ==> order[i] < |t|
    requires i < |order|
    ensures ReverseLines(t, order)[i] == if IsLeaf(t, order[i]) then LeafLine(order[i]) else VariableLine(order[i])
    decreases |order|
  {
    if i < |order| - 1 {
      ReverseLinesAt(t, order[..|order| - 1], i);
    }
  }

  /**
   * In the reverse build, each verb is created by exactly one line: `output_new_leaf`
   * for a verb without children (the root too, unlike in the forward build), else
   * `output_new_variable`.
   */
  lemma ReverseCreatedOnce(t: seq<Node>, order: seq<nat>, v: nat)
    requires NoDup(order) && (forall u: nat :: u in order <==> u < |t|)
    requires v < |t|
    ensures forall i :: 0 <= i < |order| ==> order[i] < |t|
    ensures multiset(ReverseLines(t, order))[VariableLine(v)] == if IsLeaf(t, v) then 0 else 1
    ensures multiset(ReverseLines(t, order))[LeafLine(v)] == if IsLeaf(t, v) then 1 else 0
  {
    assert forall i :: 0 <= i < |order| ==> order[i] in order;
    NoDupOnce(order, v);
    ReverseLinesOnce(t, order, v);
  }

  /** A sequence without repeats has as many elements as its set. */
  lemma {:induction false} NoDupSetCard(s: seq<nat>)
    requires NoDup(s)
    ensures |Elements(s)| == |s|
    decreases |s|
  {
    if s != [] {
      var rest := s[1..];
      assert forall a, b :: 0 <= a < b < |rest| ==> rest[a] == s[a + 1] && rest[b] == s[b + 1];
      NoDupSetCard(rest);
      assert s[0] !in rest by {
        forall k | 0 <= k < |rest|
          ensures rest[k] != s[0]
        {
          assert rest[k] == s[k + 1];
        }
      }
    }
  }

  /** The numbers below `n`. */
  function Below(n: nat): (r: set<nat>)
    ensures |r| == n && forall v: nat :: v in r <==> v < n
  {
    if n == 0 then {} else Below(n - 1) + {n - 1}
  }

  /** An order holding each of `n` verbs once has `n` entries, each below `n`. */
  lemma ReverseOrderFacts(order: seq<nat>, n: nat)
    requires NoDup(order) && forall v: nat :: v in order <==> v < n
    ensures |order| == n && forall i :: 0 <= i < |order| ==> order[i] < n
  {
    assert forall i :: 0 <= i < |order| ==> order[i] in order;
    NoDupSetCard(order);
    assert Elements(order) == Below(n);
  }

  /** In the reverse build, the lines of a verb's children come before the verb's own line. */
  lemma ReverseChildrenBefore(t: seq<Node>, order: seq<nat>, i: nat, k: nat)
    requires (forall u: nat :: u in order <==> u < |t|) && ChildrenFirst(t, order)
    requires i < |order| && order[i] < |t| && k < |t[order[i]].children|
    ensures forall i :: 0 <= i < |order| ==> order[i] < |t|
    ensures exists m :: 0 <= m < i && ReverseLines(t, order)[m].v == t[order[i]].children[k]
  {
    assert forall i :: 0 <= i < |order| ==> order[i] in order;
    var c := t[order[i]].children[k];
    assert c in order[..i];
    var m :| 0 <= m < i && order[..i][m] == c;
    ReverseLinesAt(t, order, m);
  }

  /** The verb `v` is created by as many lines as it occurs in the order. */
  lemma {:induction false} ReverseLinesOnce(t: seq<Node>, order: seq<nat>, v: nat)
    requires forall i :: 0 <= i < |order| ==> order[i] < |t|
    requires v < |t|
    ensures multiset(ReverseLines(t, order))[VariableLine(v)] == if IsLeaf(t, v) then 0 else multiset(order)[v]
    ensures multiset(ReverseLines(t, order))[LeafLine(v)] == if IsLeaf(t, v) then multiset(order)[v] else 0
    decreases |order|
  {
    if order != [] {
      var pre := order[..|order| - 1];
      ReverseLinesOnce(t, pre, v);
      MultisetSnoc(order);
      var u := Last(order);
      var x := if IsLeaf(t, u) then LeafLine(u) else VariableLine(u);
      assert ReverseLines(t, order) == ReverseLines(t, pre) + [x];
      assert multiset(ReverseLines(t, order)) == multiset(ReverseLines(t, pre)) + multiset{x};
    }
  }
}
