/**
 * The shape of a TwiML IR: verbs stored in document order in an arena, each node
 * holding its parent's index and the indices of its children in document order.
 * This module defines the depth-first event sequence the IR's iterator produces
 * and proves its structure.
 */
module Tree {
  import opened Wrappers

  datatype Node = Node(parent: Option<nat>, children: seq<nat>)

  /**
   * Node 0 is the `Response` root; every other node has a parent with a smaller
   * index and sits in that parent's children list; children lists are strictly
   * increasing, so no verb is listed twice.
   */
  predicate WellFormed(t: seq<Node>)
  {
    |t| > 0 && t[0].parent.None?
    && (forall j {:trigger t[j].parent} :: 0 < j < |t| ==>
          (t[j].parent.Some? && t[j].parent.value < j && j in t[t[j].parent.value].children))
    && (forall i, k :: 0 <= i < |t| && 0 <= k < |t[i].children| ==>
          i < t[i].children[k] < |t| && t[t[i].children[k]].parent == Some(i))
    && (forall i, k1, k2 :: 0 <= i < |t| && 0 <= k1 < k2 < |t[i].children| ==>
          t[i].children[k1] < t[i].children[k2])
  }

  /** `TwimlIRVerb.is_leaf`. */
  predicate IsLeaf(t: seq<Node>, i: nat)
    requires i < |t|
  {
    |t[i].children| == 0
  }

  /** `j` is `i` or lies below `i`. */
  predicate Desc(t: seq<Node>, j: nat, i: nat)
    requires WellFormed(t) && j < |t|
    decreases j
  {
    j == i || (j > 0 && Desc(t, t[j].parent.value, i))
  }

  lemma {:induction false} DescLe(t: seq<Node>, j: nat, i: nat)
    requires WellFormed(t) && j < |t|
    ensures Desc(t, j, i) ==> i <= j
    decreases j
  {
    if j != i && j > 0 {
      DescLe(t, t[j].parent.value, i);
    }
  }

  lemma {:induction false} DescTrans(t: seq<Node>, a: nat, b: nat, c: nat)
    requires WellFormed(t) && a < |t| && b < |t|
    requires Desc(t, a, b) && Desc(t, b, c)
    ensures Desc(t, a, c)
    decreases a
  {
    if a != b {
      DescTrans(t, t[a].parent.value, b, c);
    }
  }

  /** Every verb lies below the root. */
  lemma {:induction false} DescRoot(t: seq<Node>, j: nat)
    requires WellFormed(t) && j < |t|
    ensures Desc(t, j, 0)
    decreases j
  {
    if j > 0 {
      DescRoot(t, t[j].parent.value);
    }
  }

  /** Two nodes above a common node lie on one chain. */
  lemma {:induction false} DescComparable(t: seq<Node>, j: nat, a: nat, b: nat)
    requires WellFormed(t) && j < |t| && a < |t| && b < |t|
    requires Desc(t, j, a) && Desc(t, j, b)
    ensures Desc(t, a, b) || Desc(t, b, a)
    decreases j
  {
    if j != a && j != b {
      DescComparable(t, t[j].parent.value, a, b);
    }
  }

  lemma {:induction false} ChildDesc(t: seq<Node>, i: nat, k: nat)
    requires WellFormed(t) && i < |t| && k < |t[i].children|
    ensures Desc(t, t[i].children[k], i)
  {
  }

  /** A strict descendant of `i` lies below one of the children of `i`, and conversely. */
  lemma {:induction false} DescViaChild(t: seq<Node>, v: nat, i: nat)
    requires WellFormed(t) && v < |t| && i < |t| && v != i
    ensures Desc(t, v, i) <==> exists k :: 0 <= k < |t[i].children| && Desc(t, v, t[i].children[k])
    decreases v
  {
    if Desc(t, v, i) {
      var p := t[v].parent.value;
      if p == i {
        var k :| 0 <= k < |t[i].children| && t[i].children[k] == v;
        assert Desc(t, v, t[i].children[k]);
      } else {
        DescViaChild(t, p, i);
        var k :| 0 <= k < |t[i].children| && Desc(t, p, t[i].children[k]);
        assert Desc(t, v, t[i].children[k]);
      }
    }
    if exists k :: 0 <= k < |t[i].children| && Desc(t, v, t[i].children[k]) {
      var k :| 0 <= k < |t[i].children| && Desc(t, v, t[i].children[k]);
      ChildDesc(t, i, k);
      DescTrans(t, v, t[i].children[k], i);
    }
  }

  /** The nodes of a leaf's subtree are the leaf alone. */
  lemma {:induction false} DescOfLeaf(t: seq<Node>, v: nat, i: nat)
    requires WellFormed(t) && v < |t| && i < |t| && IsLeaf(t, i)
    ensures Desc(t, v, i) <==> v == i
  {
    if v != i {
      DescViaChild(t, v, i);
    }
  }

  /** Ancestry only follows parent links, so growing the arena leaves it alone among the old nodes. */
  lemma {:induction false} DescPrefix(t: seq<Node>, u: seq<Node>, j: nat, i: nat)
    requires WellFormed(t) && WellFormed(u) && |t| <= |u| && j < |t|
    requires forall x :: 0 <= x < |t| ==> u[x].parent == t[x].parent
    ensures Desc(u, j, i) == Desc(t, j, i)
    decreases j
  {
    if j != i && j > 0 {
      DescPrefix(t, u, t[j].parent.value, i);
    }
  }

  /** A path from the root down through parent links. */
  predicate Chain(t: seq<Node>, c: seq<nat>)
  {
    c != [] && c[0] == 0
    && (forall i :: 0 <= i < |c| ==> c[i] < |t|)
    && (forall i :: 0 < i < |c| ==> t[c[i]].parent == Some(c[i - 1]))
  }

  /** The nodes above the end of a chain, itself included, are exactly the chain. */
  lemma {:induction false} ChainDesc(t: seq<Node>, c: seq<nat>, a: nat)
    requires WellFormed(t) && Chain(t, c)
    ensures Desc(t, c[|c| - 1], a) <==> a in c
    decreases |c|
  {
    var x := c[|c| - 1];
    if |c| > 1 {
      var c' := c[..|c| - 1];
      assert Chain(t, c');
      ChainDesc(t, c', a);
      assert x != 0 by { assert t[x].parent.Some?; }
      assert t[x].parent.value == c'[|c'| - 1];
      if a == x {
      } else if a in c' {
        assert Desc(t, x, a);
      } else {
        assert a !in c;
      }
    }
  }

  /** The arena after appending a new last child to `p`. */
  function AddChild(t: seq<Node>, p: nat): (u: seq<Node>)
    requires p < |t|
    ensures |u| == |t| + 1
  {
    t[p := Node(t[p].parent, t[p].children + [|t|])] + [Node(Some(p), [])]
  }

  lemma AddChildWellFormed(t: seq<Node>, p: nat)
    requires WellFormed(t) && p < |t|
    ensures WellFormed(AddChild(t, p))
    ensures forall x :: 0 <= x < |t| ==> AddChild(t, p)[x].parent == t[x].parent
  {
    AddChildParents(t, p);
    AddChildChildren(t, p);
    AddChildSorted(t, p);
  }

  lemma AddChildParents(t: seq<Node>, p: nat)
    requires WellFormed(t) && p < |t|
    ensures forall x :: 0 <= x < |t| ==> AddChild(t, p)[x].parent == t[x].parent
    ensures forall j {:trigger AddChild(t, p)[j].parent} :: 0 < j < |t| + 1 ==>
      var u := AddChild(t, p);
      u[j].parent.Some? && u[j].parent.value < j && j in u[u[j].parent.value].children
  {
    var u := AddChild(t, p);
    var n := |t|;
    forall j | 0 < j < |u|
      ensures u[j].parent.Some? && u[j].parent.value < j && j in u[u[j].parent.value].children
    {
      if j < n {
        var q := t[j].parent.value;
        assert j in t[q].children;
      }
    }
  }

  lemma AddChildChildren(t: seq<Node>, p: nat)
    requires WellFormed(t) && p < |t|
    ensures var u := AddChild(t, p);
      forall i, k :: 0 <= i < |u| && 0 <= k < |u[i].children| ==>
        i < u[i].children[k] < |u| && u[u[i].children[k]].parent == Some(i)
  {
    var u := AddChild(t, p);
    forall i, k | 0 <= i < |u| && 0 <= k < |u[i].children|
      ensures i < u[i].children[k] < |u| && u[u[i].children[k]].parent == Some(i)
    {
      if i == p && k == |t[p].children| {
      } else {
        assert u[i].children[k] == t[i].children[k];
      }
    }
  }

  lemma AddChildSorted(t: seq<Node>, p: nat)
    requires WellFormed(t) && p < |t|
    ensures var u := AddChild(t, p);
      forall i, k1, k2 :: 0 <= i < |u| && 0 <= k1 < k2 < |u[i].children| ==>
        u[i].children[k1] < u[i].children[k2]
  {
    var u := AddChild(t, p);
    forall i, k1, k2 | 0 <= i < |u| && 0 <= k1 < k2 < |u[i].children|
      ensures u[i].children[k1] < u[i].children[k2]
    {
      assert u[i].children[k1] == t[i].children[k1];
      if i != p || k2 < |t[p].children| {
        assert u[i].children[k2] == t[i].children[k2];
      }
    }
  }

  datatype Event = Start(v: nat) | Leaf(v: nat) | End(v: nat)

  /** The kind of event a non-root verb gets: `leaf` when it has no children, `start`/`end` otherwise. */
  predicate Fits(t: seq<Node>, e: Event)
  {
    e.v < |t| && (e.Leaf? <==> IsLeaf(t, e.v))
  }

  /** The events of a non-root verb's subtree, in the order the IR's iterator yields them. */
  function Visit(t: seq<Node>, i: nat): seq<Event>
    requires WellFormed(t) && i < |t|
    decreases |t| - i, 1
  {
    if IsLeaf(t, i) then [Leaf(i)]
    else [Start(i)] + Kids(t, i, t[i].children) + [End(i)]
  }

  /** The events of a list of children of `p`, one subtree after the other, in list order. */
  function Kids(t: seq<Node>, p: nat, cs: seq<nat>): seq<Event>
    requires WellFormed(t) && p < |t|
    requires forall k :: 0 <= k < |cs| ==> p < cs[k] < |t|
    decreases |t| - p, 0, |cs|
  {
    if cs == [] then [] else Visit(t, cs[0]) + Kids(t, p, cs[1..])
  }

  /** The whole traversal: the root always gets `start` and `end`, even without children. */
  function Fwd(t: seq<Node>): seq<Event>
    requires WellFormed(t)
  {
    [Start(0)] + Kids(t, 0, t[0].children) + [End(0)]
  }

  predicate NoDup<T(==)>(s: seq<T>)
  {
    forall a, b :: 0 <= a < b < |s| ==> s[a] != s[b]
  }

  lemma NoDupAppend<T>(x: seq<T>, y: seq<T>)
    requires NoDup(x) && NoDup(y)
    requires forall e :: e in x ==> e !in y
    ensures NoDup(x + y)
  {
    var z := x + y;
    forall a, b | 0 <= a < b < |z|
      ensures z[a] != z[b]
    {
      if a < |x| && b >= |x| {
        assert z[a] == x[a] && z[b] == y[b - |x|];
        assert z[a] in x && z[b] in y;
      } else if b < |x| {
        assert z[a] == x[a] && z[b] == x[b];
      } else {
        assert z[a] == y[a - |x|] && z[b] == y[b - |x|];
      }
    }
  }

  lemma {:induction false} KidsAppend(t: seq<Node>, p: nat, a: seq<nat>, b: seq<nat>)
    requires WellFormed(t) && p < |t|
    requires forall k :: 0 <= k < |a| ==> p < a[k] < |t|
    requires forall k :: 0 <= k < |b| ==> p < b[k] < |t|
    ensures Kids(t, p, a + b) == Kids(t, p, a) + Kids(t, p, b)
  {
    if a == [] {
      assert a + b == b;
    } else {
      assert (a + b)[1..] == a[1..] + b;
      KidsAppend(t, p, a[1..], b);
    }
  }

  /** The subtrees of a children list come one after the other, in list order. */
  lemma KidsSplit(t: seq<Node>, p: nat, cs: seq<nat>, k: nat)
    requires WellFormed(t) && p < |t| && k < |cs|
    requires forall m :: 0 <= m < |cs| ==> p < cs[m] < |t|
    ensures Kids(t, p, cs) == Kids(t, p, cs[..k]) + Visit(t, cs[k]) + Kids(t, p, cs[k + 1..])
  {
    assert cs == cs[..k] + ([cs[k]] + cs[k + 1..]);
    KidsAppend(t, p, cs[..k], [cs[k]] + cs[k + 1..]);
    assert ([cs[k]] + cs[k + 1..])[1..] == cs[k + 1..];
  }

  /** An event is in a subtree's events exactly when it is of the right kind for a node of that subtree. */
  lemma {:induction false} VisitMembers(t: seq<Node>, i: nat, e: Event)
    requires WellFormed(t) && i < |t|
    ensures e in Visit(t, i) <==> Fits(t, e) && Desc(t, e.v, i)
    decreases |t| - i, 1
  {
    if IsLeaf(t, i) {
      if e.v < |t| {
        DescOfLeaf(t, e.v, i);
      }
    } else {
      var cs := t[i].children;
      KidsMembers(t, i, cs, e);
      if e.v < |t| && e.v != i {
        DescViaChild(t, e.v, i);
      }
      if e.v == i {
        forall k | 0 <= k < |cs|
          ensures !Desc(t, i, cs[k])
        {
          DescLe(t, i, cs[k]);
        }
      }
    }
  }

  lemma {:induction false} KidsMembers(t: seq<Node>, p: nat, cs: seq<nat>, e: Event)
    requires WellFormed(t) && p < |t|
    requires forall k :: 0 <= k < |cs| ==> p < cs[k] < |t|
    ensures e in Kids(t, p, cs) <==> exists k :: 0 <= k < |cs| && Fits(t, e) && Desc(t, e.v, cs[k])
    decreases |t| - p, 0, |cs|
  {
    if cs != [] {
      VisitMembers(t, cs[0], e);
      KidsMembers(t, p, cs[1..], e);
      if exists k :: 0 <= k < |cs| && Fits(t, e) && Desc(t, e.v, cs[k]) {
        var k :| 0 <= k < |cs| && Fits(t, e) && Desc(t, e.v, cs[k]);
        if k > 0 {
          assert cs[1..][k - 1] == cs[k];
        }
      }
      if exists k :: 0 <= k < |cs| - 1 && Fits(t, e) && Desc(t, e.v, cs[1..][k]) {
        var k :| 0 <= k < |cs| - 1 && Fits(t, e) && Desc(t, e.v, cs[1..][k]);
        assert cs[1..][k] == cs[k + 1];
      }
    }
  }

  /**
   * The traversal holds exactly: `start` and `end` for the root and for every verb
   * with children, and `leaf` for every other verb.
   */
  lemma FwdMembers(t: seq<Node>, e: Event)
    requires WellFormed(t)
    ensures e in Fwd(t) <==> e.v < |t| && (if e.v == 0 then !e.Leaf? else Fits(t, e))
  {
    var cs := t[0].children;
    KidsMembers(t, 0, cs, e);
    if e.v < |t| && e.v != 0 {
      DescRoot(t, e.v);
      DescViaChild(t, e.v, 0);
    }
    if e.v == 0 {
      forall k | 0 <= k < |cs|
        ensures !Desc(t, 0, cs[k])
      {
        DescLe(t, 0, cs[k]);
      }
    }
  }

  /** The subtrees of two different children of one parent share no event. */
  lemma SiblingSubtreesDisjoint(t: seq<Node>, p: nat, k1: nat, k2: nat, e: Event)
    requires WellFormed(t) && p < |t| && k1 < k2 < |t[p].children|
    ensures !(e in Visit(t, t[p].children[k1]) && e in Visit(t, t[p].children[k2]))
  {
    var c1, c2 := t[p].children[k1], t[p].children[k2];
    VisitMembers(t, c1, e);
    VisitMembers(t, c2, e);
    if e.v < |t| {
      SiblingsNoCommonDesc(t, p, k1, k2, e.v);
    }
  }

  /** No verb lies below two different children of one parent. */
  lemma SiblingsNoCommonDesc(t: seq<Node>, p: nat, k1: nat, k2: nat, v: nat)
    requires WellFormed(t) && p < |t| && k1 < k2 < |t[p].children| && v < |t|
    ensures !(Desc(t, v, t[p].children[k1]) && Desc(t, v, t[p].children[k2]))
  {
    var c1, c2 := t[p].children[k1], t[p].children[k2];
    if Desc(t, v, c1) && Desc(t, v, c2) {
      DescComparable(t, v, c1, c2);
      DescLe(t, p, c2);
      DescLe(t, p, c1);
    }
  }

  lemma LaterSiblingsDisjoint(t: seq<Node>, p: nat, m: nat, e: Event)
    requires WellFormed(t) && p < |t| && m < |t[p].children|
    ensures e in Visit(t, t[p].children[m]) ==> e !in Kids(t, p, t[p].children[m + 1..])
  {
    var cs := t[p].children;
    var rest := cs[m + 1..];
    var inFirst := Fits(t, e) && Desc(t, e.v, cs[m]);
    var inRest := exists k :: 0 <= k < |rest| && Fits(t, e) && Desc(t, e.v, rest[k]);
    assert e in Visit(t, cs[m]) <==> inFirst by {
      VisitMembers(t, cs[m], e);
    }
    assert e in Kids(t, p, rest) <==> inRest by {
      KidsMembers(t, p, rest, e);
    }
    if e.v < |t| {
      LaterSiblingsNoCommonDesc(t, p, m, e.v, rest);
    }
  }

  /** A verb below one child lies below none of the later siblings `rest`. */
  lemma LaterSiblingsNoCommonDesc(t: seq<Node>, p: nat, m: nat, v: nat, rest: seq<nat>)
    requires WellFormed(t) && p < |t| && m < |t[p].children| && v < |t| && rest == t[p].children[m + 1..]
    ensures Desc(t, v, t[p].children[m]) ==> forall k :: 0 <= k < |rest| ==> !Desc(t, v, rest[k])
  {
    forall k | 0 <= k < |rest|
      ensures Desc(t, v, t[p].children[m]) ==> !Desc(t, v, rest[k])
    {
      assert rest[k] == t[p].children[m + 1 + k];
      SiblingsNoCommonDesc(t, p, m, m + 1 + k, v);
    }
  }

  lemma {:induction false} KidsNoDup(t: seq<Node>, p: nat, m: nat)
    requires WellFormed(t) && p < |t| && m <= |t[p].children|
    ensures NoDup(Kids(t, p, t[p].children[m..]))
    decreases |t| - p, 0, |t[p].children| - m
  {
    var cs := t[p].children;
    if m < |cs| {
      assert cs[m..][1..] == cs[m + 1..];
      assert cs[m..][0] == cs[m];
      VisitNoDup(t, cs[m]);
      KidsNoDup(t, p, m + 1);
      forall e | e in Visit(t, cs[m])
        ensures e !in Kids(t, p, cs[m + 1..])
      {
        LaterSiblingsDisjoint(t, p, m, e);
      }
      NoDupAppend(Visit(t, cs[m]), Kids(t, p, cs[m + 1..]));
    }
  }

  /** No event occurs twice in a subtree's events. */
  lemma {:induction false} VisitNoDup(t: seq<Node>, i: nat)
    requires WellFormed(t) && i < |t|
    ensures NoDup(Visit(t, i))
    decreases |t| - i, 1
  {
    if !IsLeaf(t, i) {
      var cs := t[i].children;
      KidsNoDup(t, i, 0);
      assert cs[0..] == cs;
      KidsMembers(t, i, cs, Start(i));
      KidsMembers(t, i, cs, End(i));
      forall k | 0 <= k < |cs|
        ensures !Desc(t, i, cs[k])
      {
        DescLe(t, i, cs[k]);
      }
      NoDupAppend([Start(i)], Kids(t, i, cs));
      NoDupAppend([Start(i)] + Kids(t, i, cs), [End(i)]);
    }
  }

  /** The traversal meets every verb. */
  lemma FwdVisits(t: seq<Node>, j: nat) returns (m: nat)
    requires WellFormed(t) && j < |t|
    ensures m < |Fwd(t)| && Fwd(t)[m].v == j
  {
    var e := if j == 0 then Start(0) else Item(t, j);
    FwdMembers(t, e);
    m :| 0 <= m < |Fwd(t)| && Fwd(t)[m] == e;
  }

  /** Every event occurs at most once in the traversal (so, with `FwdMembers`, exactly once). */
  lemma FwdNoDup(t: seq<Node>)
    requires WellFormed(t)
    ensures NoDup(Fwd(t))
  {
    var cs := t[0].children;
    KidsNoDup(t, 0, 0);
    assert cs[0..] == cs;
    KidsMembers(t, 0, cs, Start(0));
    KidsMembers(t, 0, cs, End(0));
    forall k | 0 <= k < |cs|
      ensures !Desc(t, 0, cs[k])
    {
      DescLe(t, 0, cs[k]);
    }
    NoDupAppend([Start(0)], Kids(t, 0, cs));
    NoDupAppend([Start(0)] + Kids(t, 0, cs), [End(0)]);
  }

  /**
   * Each non-root verb's events form one contiguous block of the traversal: a verb
   * with children gets its `start` before, and its `end` after, all of its
   * descendants' events (which `VisitMembers` identifies).
   */
  lemma {:induction false} SubtreeBlock(t: seq<Node>, i: nat) returns (pre: seq<Event>, post: seq<Event>)
    requires WellFormed(t) && 0 < i < |t|
    ensures Fwd(t) == pre + Visit(t, i) + post
    decreases i
  {
    var p := t[i].parent.value;
    var a, b := ChildSplit(t, i);
    var v := Visit(t, i);
    if p == 0 {
      pre, post := [Start(0)] + a, b + [End(0)];
      Regroup([Start(0)], a, v, b, [End(0)]);
    } else {
      var pre', post' := SubtreeBlock(t, p);
      assert Visit(t, p) == [Start(p)] + (a + v + b) + [End(p)];
      Regroup([Start(p)], a, v, b, [End(p)]);
      pre, post := pre' + ([Start(p)] + a), (b + [End(p)]) + post';
      Regroup(pre', [Start(p)] + a, v, b + [End(p)], post');
    }
  }

  /** The events of a verb's siblings come before and after its own among its parent's children's. */
  lemma ChildSplit(t: seq<Node>, i: nat) returns (a: seq<Event>, b: seq<Event>)
    requires WellFormed(t) && 0 < i < |t|
    ensures Kids(t, t[i].parent.value, t[t[i].parent.value].children) == a + Visit(t, i) + b
  {
    var p := t[i].parent.value;
    var cs := t[p].children;
    var k :| 0 <= k < |cs| && cs[k] == i;
    KidsSplit(t, p, cs, k);
    a, b := Kids(t, p, cs[..k]), Kids(t, p, cs[k + 1..]);
  }

  lemma Regroup<T>(x: seq<T>, a: seq<T>, v: seq<T>, b: seq<T>, y: seq<T>)
    ensures x + (a + v + b) + y == (x + a) + v + (b + y)
  {
  }

  lemma AppendLast<T>(s: seq<T>, u: seq<T>)
    requires u != []
    ensures s + u == (s + u[..|u| - 1]) + [u[|u| - 1]]
  {
    assert u == u[..|u| - 1] + [u[|u| - 1]];
  }

  lemma AppendAssoc<T>(a: seq<T>, b: seq<T>, c: seq<T>)
    ensures (a + b) + c == a + (b + c)
  {
  }

  // ----- the explicit stack of `TwimlIR.__iter__` -----

  /** The stack entry pushed for a child: `leaf` for a childless verb, `start` otherwise. */
  function Item(t: seq<Node>, c: nat): (e: Event)
    requires c < |t|
    ensures e.v == c
  {
    if IsLeaf(t, c) then Leaf(c) else Start(c)
  }

  /** The entries pushed for a children list: the children reversed, so the first is popped first. */
  function RevItems(t: seq<Node>, cs: seq<nat>): (r: seq<Event>)
    requires forall k :: 0 <= k < |cs| ==> cs[k] < |t|
    ensures |r| == |cs|
    ensures forall k :: 0 <= k < |cs| ==> r[k] == Item(t, cs[|cs| - 1 - k])
  {
    if cs == [] then [] else RevItems(t, cs[1..]) + [Item(t, cs[0])]
  }

  predicate StackOk(t: seq<Node>, s: seq<Event>)
  {
    forall k :: 0 <= k < |s| ==> s[k].v < |t|
  }

  /** The events a stack entry still stands for. */
  function Expand(t: seq<Node>, e: Event): (r: seq<Event>)
    requires WellFormed(t) && e.v < |t|
    ensures r != [] && r[0] == e
  {
    match e
    case Start(i) => [Start(i)] + Kids(t, i, t[i].children) + [End(i)]
    case Leaf(i) => [Leaf(i)]
    case End(i) => [End(i)]
  }

  /** The events a whole stack stands for, top entry first. */
  function ExpandStack(t: seq<Node>, s: seq<Event>): seq<Event>
    requires WellFormed(t) && StackOk(t, s)
  {
    if s == [] then [] else Expand(t, s[|s| - 1]) + ExpandStack(t, s[..|s| - 1])
  }

  /** Pushing the reversed entries of a children list puts their subtrees' events in front, in list order. */
  lemma ExpandPush(t: seq<Node>, s: seq<Event>, p: nat, cs: seq<nat>)
    requires WellFormed(t) && StackOk(t, s) && p < |t|
    requires forall k :: 0 <= k < |cs| ==> p < cs[k] < |t|
    ensures StackOk(t, s + RevItems(t, cs))
    ensures ExpandStack(t, s + RevItems(t, cs)) == Kids(t, p, cs) + ExpandStack(t, s)
  {
    RevItemsKids(t, p, cs);
    ExpandStackAppend(t, s, RevItems(t, cs));
  }

  /** On its own, the reversed entries of a children list stand for the children's subtrees in list order. */
  lemma {:induction false} RevItemsKids(t: seq<Node>, p: nat, cs: seq<nat>)
    requires WellFormed(t) && p < |t|
    requires forall k :: 0 <= k < |cs| ==> p < cs[k] < |t|
    ensures StackOk(t, RevItems(t, cs))
    ensures ExpandStack(t, RevItems(t, cs)) == Kids(t, p, cs)
  {
    if cs != [] {
      RevItemsKids(t, p, cs[1..]);
      var x := Item(t, cs[0]);
      assert RevItems(t, cs) == RevItems(t, cs[1..]) + [x];
      ExpandStackPush(t, RevItems(t, cs[1..]), x);
      assert Expand(t, x) == Visit(t, cs[0]);
    }
  }

  /** A stack pushed on top of another stands for its own events first. */
  lemma {:induction false} ExpandStackAppend(t: seq<Node>, s: seq<Event>, u: seq<Event>)
    requires WellFormed(t) && StackOk(t, s) && StackOk(t, u)
    ensures StackOk(t, s + u)
    ensures ExpandStack(t, s + u) == ExpandStack(t, u) + ExpandStack(t, s)
    decreases |u|
  {
    if u == [] {
      assert s + u == s;
    } else {
      var u', y := u[..|u| - 1], u[|u| - 1];
      ExpandStackAppend(t, s, u');
      AppendLast(s, u);
      assert ExpandStack(t, u) == Expand(t, y) + ExpandStack(t, u');
      ExpandStackPush(t, s + u', y);
      AppendAssoc(Expand(t, y), ExpandStack(t, u'), ExpandStack(t, s));
    }
  }

  lemma ExpandStackPush(t: seq<Node>, s: seq<Event>, x: Event)
    requires WellFormed(t) && StackOk(t, s) && x.v < |t|
    ensures StackOk(t, s + [x])
    ensures ExpandStack(t, s + [x]) == Expand(t, x) + ExpandStack(t, s)
  {
    assert (s + [x])[..|s|] == s;
  }

  // ----- `TwimlIR.reverse_iter` -----

  /** Every child of a node in `vs` is in `vs` too. */
  predicate DownClosed(t: seq<Node>, vs: set<nat>)
  {
    forall i, k {:trigger t[i].children[k], i in vs} :: i in vs && 0 <= i < |t| && 0 <= k < |t[i].children| ==> t[i].children[k] in vs
  }

  /** A downward closed set that holds the root holds every verb. */
  lemma {:induction false} DownClosedRoot(t: seq<Node>, vs: set<nat>, j: nat)
    requires WellFormed(t) && DownClosed(t, vs) && 0 in vs && j < |t|
    ensures j in vs
    decreases j
  {
    if j > 0 {
      var p := t[j].parent.value;
      DownClosedRoot(t, vs, p);
      var k :| 0 <= k < |t[p].children| && t[p].children[k] == j;
    }
  }

  /** The stack's measure: the number of events the subtrees of its entries hold. */
  function Weight(t: seq<Node>, q: seq<nat>): nat
    requires WellFormed(t)
    requires forall k :: 0 <= k < |q| ==> q[k] < |t|
  {
    if q == [] then 0 else Weight(t, q[..|q| - 1]) + |Visit(t, q[|q| - 1])|
  }

  lemma {:induction false} KidsLength(t: seq<Node>, p: nat, cs: seq<nat>)
    requires WellFormed(t) && p < |t|
    requires forall k :: 0 <= k < |cs| ==> p < cs[k] < |t|
    ensures |Kids(t, p, cs)| == Weight(t, cs)
  {
    if cs != [] {
      var n := |cs| - 1;
      KidsAppend(t, p, cs[..n], [cs[n]]);
      assert cs == cs[..n] + [cs[n]];
      KidsLength(t, p, cs[..n]);
    }
  }

  lemma {:induction false} WeightAppend(t: seq<Node>, q: seq<nat>, cs: seq<nat>)
    requires WellFormed(t)
    requires forall k :: 0 <= k < |q| ==> q[k] < |t|
    requires forall k :: 0 <= k < |cs| ==> cs[k] < |t|
    ensures Weight(t, q + cs) == Weight(t, q) + Weight(t, cs)
    decreases |cs|
  {
    if cs == [] {
      assert q + cs == q;
    } else {
      var n := |cs| - 1;
      assert (q + cs)[..|q + cs| - 1] == q + cs[..n];
      assert (q + cs)[|q + cs| - 1] == cs[n];
      WeightAppend(t, q, cs[..n]);
    }
  }

  /** Replacing a verb with children by its children on the stack lowers the measure. */
  lemma ExpandLowersWeight(t: seq<Node>, q: seq<nat>, i: nat)
    requires WellFormed(t) && i < |t| && !IsLeaf(t, i)
    requires forall k :: 0 <= k < |q| ==> q[k] < |t|
    ensures Weight(t, q + t[i].children) < Weight(t, q + [i])
  {
    KidsLength(t, i, t[i].children);
    WeightAppend(t, q, t[i].children);
    assert (q + [i])[..|q|] == q;
  }

  /** `TwimlIRVerb.siblings`: the parent's children other than the verb itself, as a set. */
  function Siblings(t: seq<Node>, i: nat): set<nat>
    requires WellFormed(t) && 0 < i < |t|
  {
    Elements(t[t[i].parent.value].children) - {i}
  }

  /** The siblings are exactly the other verbs with the same parent. */
  lemma SiblingsSameParent(t: seq<Node>, i: nat, j: nat)
    requires WellFormed(t) && 0 < i < |t| && j < |t|
    ensures j in Siblings(t, i) <==> j != i && j > 0 && t[j].parent == t[i].parent
  {
    var p := t[i].parent.value;
    if j in Siblings(t, i) {
      var k :| 0 <= k < |t[p].children| && t[p].children[k] == j;
    }
  }

  /** A node is childless exactly when no node names it as parent. */
  lemma LeafIffNoChild(t: seq<Node>, i: nat)
    requires WellFormed(t) && i < |t|
    ensures IsLeaf(t, i) <==> forall j :: 0 < j < |t| ==> t[j].parent != Some(i)
  {
    if !IsLeaf(t, i) {
      assert t[t[i].children[0]].parent == Some(i);
    }
  }

  /** A children list holds as many verbs as its set does. */
  lemma ChildrenCardinality(t: seq<Node>, i: nat)
    requires WellFormed(t) && i < |t|
    ensures |Elements(t[i].children)| == |t[i].children|
  {
    ElementsCard(t[i].children);
  }

  /** `set(cs)`: the elements of a list, as a set. */
  function Elements(cs: seq<nat>): (r: set<nat>)
    ensures forall c :: c in r <==> c in cs
  {
    if cs == [] then {} else {cs[0]} + Elements(cs[1..])
  }

  lemma {:induction false} ElementsCard(cs: seq<nat>)
    requires forall k1, k2 :: 0 <= k1 < k2 < |cs| ==> cs[k1] < cs[k2]
    ensures |Elements(cs)| == |cs|
  {
    if cs != [] {
      var rest := cs[1..];
      assert forall k :: 0 <= k < |rest| ==> rest[k] == cs[k + 1];
      ElementsCard(rest);
      assert cs[0] !in Elements(rest);
    }
  }

  /** A set of strictly fewer elements than a superset lacks one of them. */
  lemma ProperSubsetCard<T>(a: set<T>, b: set<T>)
    requires a < b
    ensures |a| < |b|
  {
    assert b == a + (b - a);
    assert a * (b - a) == {};
    var x :| x in b - a;
  }

  /** When `len(set(children) & visited) < len(children)` holds, some child is not in `vs`. */
  lemma SomeChildOutside(t: seq<Node>, i: nat, vs: set<nat>)
    requires WellFormed(t) && i < |t|
    requires |Elements(t[i].children) * vs| < |t[i].children|
    ensures exists k :: 0 <= k < |t[i].children| && t[i].children[k] !in vs
  {
    ChildrenCardinality(t, i);
    var a := Elements(t[i].children);
    assert a * vs != a;
    var x :| x in a && x !in vs;
  }

  /** When `len(set(children) & visited) < len(children)` fails, every child is in `vs`. */
  lemma NoChildOutside(t: seq<Node>, i: nat, vs: set<nat>)
    requires WellFormed(t) && i < |t|
    requires |Elements(t[i].children) * vs| >= |t[i].children|
    ensures forall k :: 0 <= k < |t[i].children| ==> t[i].children[k] in vs
  {
    ChildrenCardinality(t, i);
    var a := Elements(t[i].children);
    if a * vs != a {
      ProperSubsetCard(a * vs, a);
    }
  }

  /** The leaf reached from `i` by following first children, as `reverse_iter` starts. */
  function FirstLeaf(t: seq<Node>, i: nat): (r: nat)
    requires WellFormed(t) && i < |t|
    ensures r < |t| && IsLeaf(t, r) && Desc(t, r, i)
    decreases |t| - i
  {
    if IsLeaf(t, i) then i
    else
      var c := t[i].children[0];
      var r := FirstLeaf(t, c);
      DescTrans(t, r, c, i);
      r
  }

  /** Every verb in `order` comes after all of its children. */
  predicate ChildrenFirst(t: seq<Node>, order: seq<nat>)
  {
    forall i, k :: 0 <= i < |order| && order[i] < |t| && 0 <= k < |t[order[i]].children| ==>
      t[order[i]].children[k] in order[..i]
  }

  lemma ChildrenFirstAppend(t: seq<Node>, order: seq<nat>, v: nat)
    requires ChildrenFirst(t, order) && v < |t|
    requires forall k :: 0 <= k < |t[v].children| ==> t[v].children[k] in order
    ensures ChildrenFirst(t, order + [v])
  {
    var o := order + [v];
    forall i, k | 0 <= i < |o| && o[i] < |t| && 0 <= k < |t[o[i]].children|
      ensures t[o[i]].children[k] in o[..i]
    {
      if i < |order| {
        assert o[i] == order[i] && o[..i] == order[..i];
      } else {
        assert o[..i] == order;
      }
    }
  }

  /**
   * In an ordering of all verbs that lists every verb after its children, each verb
   * comes no later than every verb above it.
   */
  lemma {:induction false} AncestorsLater(t: seq<Node>, order: seq<nat>, i: nat, a: nat)
    requires WellFormed(t) && ChildrenFirst(t, order) && NoDup(order)
    requires forall v :: 0 <= v < |t| ==> v in order
    requires i < |order| && order[i] < |t| && Desc(t, order[i], a)
    ensures a in order[i..]
    decreases order[i]
  {
    var v := order[i];
    if v != a {
      var p := t[v].parent.value;
      assert p in order;
      var ip :| 0 <= ip < |order| && order[ip] == p;
      assert v in t[p].children;
      var k :| 0 <= k < |t[p].children| && t[p].children[k] == v;
      assert v in order[..ip];
      var ii :| 0 <= ii < ip && order[ii] == v;
      assert ii == i;
      AncestorsLater(t, order, ip, a);
      assert order[ip..] == order[i..][ip - i..];
    }
  }

  /** Such an ordering ends with the root. */
  lemma RootLast(t: seq<Node>, order: seq<nat>)
    requires WellFormed(t) && ChildrenFirst(t, order) && NoDup(order)
    requires forall v: nat :: v in order <==> v < |t|
    ensures order != [] && order[|order| - 1] == 0
  {
    assert 0 in order;
    var last := |order| - 1;
    assert order[last] in order;
    DescRoot(t, order[last]);
    AncestorsLater(t, order, last, 0);
    assert order[last..] == [order[last]];
  }

  /**
   * The loop of `TwimlIR.reverse_iter` over the IR's shape. It starts at the leaf
   * reached by first children; a popped verb is skipped when already visited,
   * replaced by its children when some child is not visited yet, and otherwise
   * yielded after pushing its parent and then its siblings.
   */
  method ReverseTraversal(t: seq<Node>) returns (order: seq<nat>)
    requires WellFormed(t)
    ensures NoDup(order) && forall v: nat :: v in order <==> v < |t|
    ensures ChildrenFirst(t, order)
    ensures order != [] && order[0] == FirstLeaf(t, 0)
  {
    var verb: nat := 0;
    while !IsLeaf(t, verb)
      invariant verb < |t| && FirstLeaf(t, verb) == FirstLeaf(t, 0)
      decreases |t| - verb
    {
      verb := t[verb].children[0];
    }
    var visited: set<nat> := {};
    var queue: seq<nat> := [verb];
    order := [];
    assert queue[0] !in visited;
    while queue != []
      invariant RevInv(t, queue, visited, order)
      decreases |t| - |visited|, Weight(t, queue)
    {
      queue, visited, order := RevStep(t, queue, visited, order);
    }
    RevDone(t, visited, order);
  }

  /** One pass of that loop: pop a verb, then skip it, replace it by its children, or yield it. */
  method RevStep(t: seq<Node>, queue: seq<nat>, visited: set<nat>, order: seq<nat>)
      returns (queue': seq<nat>, visited': set<nat>, order': seq<nat>)
    requires WellFormed(t) && queue != [] && RevInv(t, queue, visited, order)
    ensures RevInv(t, queue', visited', order')
    ensures |visited'| > |visited| || (|visited'| == |visited| && Weight(t, queue') < Weight(t, queue))
  {
    var verb := queue[|queue| - 1];
    var rest := queue[..|queue| - 1];
    assert queue == rest + [verb];
    if verb in visited {
      SkipKeeps(t, rest, visited, order, verb);
      return rest, visited, order;
    } else if |t[verb].children| > 0 && |Elements(t[verb].children) * visited| < |t[verb].children| {
      ExpandKeeps(t, rest, visited, order, verb);
      return rest + t[verb].children, visited, order;
    } else {
      queue' := PushFamily(t, rest, verb);
      YieldKeeps(t, rest, visited, order, verb, queue');
      return queue', visited + {verb}, order + [verb];
    }
  }

  /** The invariant of the main loop of `reverse_iter`. */
  ghost predicate RevInv(t: seq<Node>, queue: seq<nat>, visited: set<nat>, order: seq<nat>)
    requires WellFormed(t)
  {
    (forall k :: 0 <= k < |queue| ==> queue[k] < |t|)
    && (forall v :: v in visited <==> v in order)
    && (forall k :: 0 <= k < |order| ==> order[k] < |t|)
    && NoDup(order) && ChildrenFirst(t, order) && DownClosed(t, visited)
    && (order == [] ==> queue == [FirstLeaf(t, 0)])
    && (order != [] ==> order[0] == FirstLeaf(t, 0))
    && (0 !in visited ==> exists k :: 0 <= k < |queue| && queue[k] !in visited)
    && |visited| <= |t|
  }

  /** Skipping a visited verb keeps the invariant. */
  lemma SkipKeeps(t: seq<Node>, queue: seq<nat>, visited: set<nat>, order: seq<nat>, verb: nat)
    requires WellFormed(t) && verb in visited
    requires RevInv(t, queue + [verb], visited, order)
    ensures RevInv(t, queue, visited, order)
    ensures Weight(t, queue) < Weight(t, queue + [verb])
  {
    var q := queue + [verb];
    assert forall k :: 0 <= k < |queue| ==> queue[k] == q[k];
    assert q[|queue|] == verb;
    WeightPush(t, queue, verb);
    if 0 !in visited {
      var k :| 0 <= k < |q| && q[k] !in visited;
      assert queue[k] == q[k];
    }
  }

  /** Replacing an unvisited verb by its children, one of them unvisited, keeps the invariant. */
  lemma ExpandKeeps(t: seq<Node>, queue: seq<nat>, visited: set<nat>, order: seq<nat>, verb: nat)
    requires WellFormed(t) && verb < |t| && verb !in visited
    requires |Elements(t[verb].children) * visited| < |t[verb].children|
    requires RevInv(t, queue + [verb], visited, order)
    ensures RevInv(t, queue + t[verb].children, visited, order)
    ensures Weight(t, queue + t[verb].children) < Weight(t, queue + [verb])
  {
    ExpandInv(t, queue, visited, order, verb);
    ExpandLowersWeight(t, queue, verb);
  }

  lemma ExpandInv(t: seq<Node>, queue: seq<nat>, visited: set<nat>, order: seq<nat>, verb: nat)
    requires WellFormed(t) && verb < |t| && verb !in visited
    requires |Elements(t[verb].children) * visited| < |t[verb].children|
    requires RevInv(t, queue + [verb], visited, order)
    ensures RevInv(t, queue + t[verb].children, visited, order)
    ensures !IsLeaf(t, verb) && forall k :: 0 <= k < |queue| ==> queue[k] < |t|
  {
    SomeChildOutside(t, verb, visited);
    var q, cs := queue + [verb], t[verb].children;
    var q' := queue + cs;
    forall k | 0 <= k < |q'|
      ensures q'[k] < |t|
    {
      if k < |queue| {
        assert q'[k] == q[k];
      } else {
        assert q'[k] == cs[k - |queue|];
      }
    }
    var k :| 0 <= k < |cs| && cs[k] !in visited;
    assert q'[|queue| + k] !in visited;
    ExpandStarted(t, queue, visited, order, verb);
    assert !IsLeaf(t, verb);
    assert forall k :: 0 <= k < |queue| ==> queue[k] == q[k];
  }

  /** A verb with children still to visit is not the first leaf, so something has come out already. */
  lemma ExpandStarted(t: seq<Node>, queue: seq<nat>, visited: set<nat>, order: seq<nat>, verb: nat)
    requires WellFormed(t) && verb < |t|
    requires |Elements(t[verb].children) * visited| < |t[verb].children|
    requires RevInv(t, queue + [verb], visited, order)
    ensures order != []
  {
    assert (queue + [verb])[|queue|] == verb;
  }

  /** When the stack runs empty the root has come out, hence every verb has. */
  lemma RevDone(t: seq<Node>, visited: set<nat>, order: seq<nat>)
    requires WellFormed(t) && RevInv(t, [], visited, order)
    ensures NoDup(order) && forall v: nat :: v in order <==> v < |t|
    ensures ChildrenFirst(t, order)
    ensures order != [] && order[0] == FirstLeaf(t, 0)
  {
    forall v | 0 <= v < |t|
      ensures v in order
    {
      DownClosedRoot(t, visited, v);
    }
    assert forall v :: v in order ==> v < |t|;
  }

  /**
   * Yielding an unvisited verb whose children are all visited keeps the invariant,
   * once its parent and then its siblings are pushed.
   */
  lemma YieldKeeps(t: seq<Node>, queue: seq<nat>, visited: set<nat>, order: seq<nat>, verb: nat, queue': seq<nat>)
    requires WellFormed(t) && verb < |t| && verb !in visited
    requires RevInv(t, queue + [verb], visited, order)
    requires !(|t[verb].children| > 0 && |Elements(t[verb].children) * visited| < |t[verb].children|)
    requires FamilyPushed(t, queue, verb, queue')
    ensures RevInv(t, queue', visited + {verb}, order + [verb])
    ensures |visited + {verb}| == |visited| + 1
  {
    assert forall k :: 0 <= k < |queue| ==> queue[k] == (queue + [verb])[k];
    YieldQueue(t, queue, verb, queue');
    if |t[verb].children| > 0 {
      NoChildOutside(t, verb, visited);
    }
    YieldOrder(t, queue, visited, order, verb);
    if verb != 0 {
      var p := t[verb].parent.value;
      assert verb in t[p].children;
      assert p !in visited;
      assert queue'[|queue|] == p;
    }
  }

  lemma YieldQueue(t: seq<Node>, queue: seq<nat>, verb: nat, queue': seq<nat>)
    requires WellFormed(t) && verb < |t|
    requires forall k :: 0 <= k < |queue| ==> queue[k] < |t|
    requires FamilyPushed(t, queue, verb, queue')
    ensures forall k :: 0 <= k < |queue'| ==> queue'[k] < |t|
  {
    forall k | 0 <= k < |queue'|
      ensures queue'[k] < |t|
    {
      if k < |queue| {
        assert queue'[k] == queue[k];
      } else if k > |queue| {
        assert queue'[k] in Siblings(t, verb);
        SiblingsSameParent(t, verb, queue'[k]);
      }
    }
  }

  lemma YieldOrder(t: seq<Node>, queue: seq<nat>, visited: set<nat>, order: seq<nat>, verb: nat)
    requires WellFormed(t) && verb < |t| && verb !in visited
    requires RevInv(t, queue + [verb], visited, order)
    requires forall k :: 0 <= k < |t[verb].children| ==> t[verb].children[k] in visited
    ensures forall v :: v in visited + {verb} <==> v in order + [verb]
    ensures forall k :: 0 <= k < |order + [verb]| ==> (order + [verb])[k] < |t|
    ensures NoDup(order + [verb]) && ChildrenFirst(t, order + [verb]) && DownClosed(t, visited + {verb})
    ensures (order + [verb])[0] == FirstLeaf(t, 0)
    ensures |visited + {verb}| == |visited| + 1 <= |t|
  {
    ChildrenFirstAppend(t, order, verb);
    NoDupAppend(order, [verb]);
    if order == [] {
      assert queue + [verb] == [FirstLeaf(t, 0)];
    }
    BoundedCard(visited + {verb}, |t|);
  }

  lemma WeightPush(t: seq<Node>, q: seq<nat>, v: nat)
    requires WellFormed(t) && v < |t|
    requires forall k :: 0 <= k < |q| ==> q[k] < |t|
    ensures Weight(t, q) < Weight(t, q + [v])
  {
    assert (q + [v])[..|q|] == q;
  }

  /** A set of naturals below `n` has at most `n` elements. */
  lemma {:induction false} BoundedCard(vs: set<nat>, n: nat)
    requires forall x :: x in vs ==> x < n
    ensures |vs| <= n
  {
    if n > 0 {
      var rest := vs - {n - 1};
      BoundedCard(rest, n - 1);
    }
  }

  /**
   * The yield step of `reverse_iter` before the verb is marked visited: push its
   * parent, when it has one, and then its siblings.
   */
  method PushFamily(t: seq<Node>, queue: seq<nat>, verb: nat) returns (queue': seq<nat>)
    requires WellFormed(t) && verb < |t|
    ensures FamilyPushed(t, queue, verb, queue')
  {
    queue' := queue;
    if t[verb].parent.Some? {
      var q := queue + [t[verb].parent.value];
      queue' := PushAll(q, Siblings(t, verb));
      PushedFamily(t, queue, verb, q, queue');
    } else {
      assert verb == 0;
    }
  }

  lemma PushedFamily(t: seq<Node>, queue: seq<nat>, verb: nat, q: seq<nat>, r: seq<nat>)
    requires WellFormed(t) && verb < |t| && t[verb].parent.Some? && q == queue + [t[verb].parent.value]
    requires |r| == |q| + |Siblings(t, verb)|
    requires forall k :: 0 <= k < |q| ==> r[k] == q[k]
    requires forall k :: |q| <= k < |r| ==> r[k] in Siblings(t, verb)
    requires forall x :: x in Siblings(t, verb) ==> x in r[|q|..]
    ensures FamilyPushed(t, queue, verb, r)
  {
    assert verb != 0 by {
      assert t[0].parent.None?;
    }
    assert r[..|queue|] == queue && r[|queue|] == t[verb].parent.value by {
      PrefixAgree(r, q, |queue|);
      assert q[..|queue|] == queue;
    }
  }

  lemma PrefixAgree<T>(r: seq<T>, q: seq<T>, n: nat)
    requires n < |q| <= |r| && forall k :: 0 <= k < |q| ==> r[k] == q[k]
    ensures r[..n] == q[..n] && r[n] == q[n]
  {
  }

  /** `queue'` is `queue` with the parent of `verb` and then its siblings pushed; nothing is pushed for the root. */
  predicate FamilyPushed(t: seq<Node>, queue: seq<nat>, verb: nat, queue': seq<nat>)
    requires WellFormed(t) && verb < |t|
  {
    if verb == 0 then queue' == queue
    else
      |queue'| == |queue| + 1 + |Siblings(t, verb)| && queue'[..|queue|] == queue
      && queue'[|queue|] == t[verb].parent.value
      && (forall k :: |queue| < k < |queue'| ==> queue'[k] in Siblings(t, verb))
      && (forall x :: x in Siblings(t, verb) ==> x in queue'[|queue| + 1..])
  }

  /** `queue.extend(s)` for a set `s`, whose iteration order is left open: each element once, after `queue`. */
  method PushAll(queue: seq<nat>, s: set<nat>) returns (r: seq<nat>)
    ensures |r| == |queue| + |s|
    ensures forall k :: 0 <= k < |queue| ==> r[k] == queue[k]
    ensures forall k :: |queue| <= k < |r| ==> r[k] in s
    ensures forall x :: x in s ==> x in r[|queue|..]
  {
    r := queue;
    var rest := s;
    while rest != {}
      invariant |queue| <= |r| && |r| + |rest| == |queue| + |s|
      invariant forall k :: 0 <= k < |queue| ==> r[k] == queue[k]
      invariant forall k :: |queue| <= k < |r| ==> r[k] in s && r[k] !in rest
      invariant forall x :: x in s ==> x in r[|queue|..] || x in rest
      decreases rest
    {
      var x :| x in rest;
      assert (r + [x])[|queue|..] == r[|queue|..] + [x];
      r := r + [x];
      rest := rest - {x};
    }
  }
}
