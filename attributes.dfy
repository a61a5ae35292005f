/**
 * A verb's attributes: a Python dict from attribute name to value, which keeps
 * insertion order. Values are `str`, `bytes` (the generator's "emit verbatim" mark),
 * `int` (attributes the schema types as `xs:int`) or `None`.
 */
module Attributes {
  import opened Wrappers

  datatype Value =
    | Null
    /** A Python `str`. */
    | Str(s: string)
    /** Python `bytes`: code already written in the target language, emitted as is. */
    | Raw(s: string)
    | Int(i: int)

  /** Python truthiness. */
  predicate Truthy(v: Value)
  {
    match v
    case Null => false
    case Str(s) => s != ""
    case Raw(s) => s != ""
    case Int(i) => i != 0
  }

  type Attrs = seq<(string, Value)>

  function Keys(d: Attrs): (ks: seq<string>)
    ensures |ks| == |d| && forall i :: 0 <= i < |d| ==> ks[i] == d[i].0
  {
    if d == [] then [] else [d[0].0] + Keys(d[1..])
  }

  predicate Has(d: Attrs, k: string)
  {
    k in Keys(d)
  }

  /** A dict never holds a key twice. */
  predicate Distinct(d: Attrs)
  {
    forall i, j :: 0 <= i < j < |d| ==> d[i].0 != d[j].0
  }

  /** `d.get(k)`: the value stored under `k`, `None` when absent. */
  function Get(d: Attrs, k: string): (r: Option<Value>)
    ensures r.Some? <==> Has(d, k)
    ensures r.Some? ==> (k, r.value) in d
  {
    if d == [] then None
    else if d[0].0 == k then Some(d[0].1)
    else Get(d[1..], k)
  }

  /** `d[k] = v`: replaces the value in place when `k` is present, appends otherwise. */
  function Put(d: Attrs, k: string, v: Value): (r: Attrs)
    ensures Has(d, k) ==> Keys(r) == Keys(d)
    ensures !Has(d, k) ==> r == d + [(k, v)]
  {
    if d == [] then [(k, v)]
    else if d[0].0 == k then [(k, v)] + d[1..]
    else [d[0]] + Put(d[1..], k, v)
  }

  /** `d.pop(k)` for its effect on `d`: the entry under `k` is removed, the rest keep their order. */
  function Pop(d: Attrs, k: string): (r: Attrs)
    ensures !Has(r, k)
    ensures |r| <= |d|
    ensures !Has(d, k) ==> r == d
  {
    if d == [] then []
    else if d[0].0 == k then Pop(d[1..], k)
    else [d[0]] + Pop(d[1..], k)
  }

  lemma {:induction false} GetPut(d: Attrs, k: string, v: Value, k2: string)
    ensures Get(Put(d, k, v), k2) == if k2 == k then Some(v) else Get(d, k2)
  {
    if d != [] && d[0].0 != k {
      GetPut(d[1..], k, v, k2);
    }
  }

  lemma {:induction false} GetPop(d: Attrs, k: string, k2: string)
    ensures Get(Pop(d, k), k2) == if k2 == k then None else Get(d, k2)
  {
    if d != [] {
      GetPop(d[1..], k, k2);
    }
  }

  lemma {:induction false} HasPut(d: Attrs, k: string, v: Value, k2: string)
    ensures Has(Put(d, k, v), k2) <==> k2 == k || Has(d, k2)
  {
    GetPut(d, k, v, k2);
  }

  lemma {:induction false} HasPop(d: Attrs, k: string, k2: string)
    ensures Has(Pop(d, k), k2) <==> k2 != k && Has(d, k2)
  {
    GetPop(d, k, k2);
  }

  lemma {:induction false} DistinctTail(d: Attrs)
    requires d != [] && Distinct(d)
    ensures Distinct(d[1..]) && !Has(d[1..], d[0].0)
  {
    assert forall i :: 0 <= i < |d| - 1 ==> d[1..][i] == d[i + 1];
  }

  lemma {:induction false} DistinctCons(x: (string, Value), d: Attrs)
    requires Distinct(d) && !Has(d, x.0)
    ensures Distinct([x] + d)
  {
    var e := [x] + d;
    forall i, j | 0 <= i < j < |e|
      ensures e[i].0 != e[j].0
    {
      assert e[j] == d[j - 1];
      if i == 0 {
        assert Keys(d)[j - 1] == d[j - 1].0;
      } else {
        assert e[i] == d[i - 1];
      }
    }
  }

  /** Assigning a key keeps every key unique. */
  lemma {:induction false} PutDistinct(d: Attrs, k: string, v: Value)
    requires Distinct(d)
    ensures Distinct(Put(d, k, v))
  {
    if d != [] {
      DistinctTail(d);
      if d[0].0 == k {
        DistinctCons((k, v), d[1..]);
      } else {
        PutDistinct(d[1..], k, v);
        HasPut(d[1..], k, v, d[0].0);
        DistinctCons(d[0], Put(d[1..], k, v));
      }
    }
  }

  /** Removing a key keeps every key unique. */
  lemma {:induction false} PopDistinct(d: Attrs, k: string)
    requires Distinct(d)
    ensures Distinct(Pop(d, k))
  {
    if d != [] {
      DistinctTail(d);
      PopDistinct(d[1..], k);
      if d[0].0 != k {
        HasPop(d[1..], k, d[0].0);
        DistinctCons(d[0], Pop(d[1..], k));
      }
    }
  }

  /** Storing the value a key already holds changes nothing. */
  lemma {:induction false} PutSame(d: Attrs, k: string)
    requires Has(d, k)
    ensures Put(d, k, Get(d, k).value) == d
  {
    if d[0].0 != k {
      assert Keys(d) == [d[0].0] + Keys(d[1..]);
      PutSame(d[1..], k);
    }
  }

  /** A second assignment to the same key overrides the first: only the last value is kept, in the first one's place. */
  lemma {:induction false} PutTwice(d: Attrs, k: string, v: Value, w: Value)
    ensures Put(Put(d, k, v), k, w) == Put(d, k, w)
  {
    if d != [] && d[0].0 != k {
      PutTwice(d[1..], k, v, w);
    }
  }

  /** Two dicts with the same keys in the same order and the same value under every key are the same dict. */
  lemma {:induction false} SameKeysSameGet(a: Attrs, b: Attrs)
    requires Distinct(a) && Keys(a) == Keys(b)
    requires forall k :: Get(a, k) == Get(b, k)
    ensures a == b
  {
    forall i | 0 <= i < |a|
      ensures a[i] == b[i]
    {
      GetIndex(a, i);
      assert Distinct(b);
      GetIndex(b, i);
    }
  }

  lemma {:induction false} GetIndex(d: Attrs, i: nat)
    requires Distinct(d) && i < |d|
    ensures Get(d, d[i].0) == Some(d[i].1)
  {
    if i > 0 {
      DistinctTail(d);
      assert d[1..][i - 1] == d[i];
      GetIndex(d[1..], i - 1);
    }
  }

  /** The value of `k` and of no other key: `e` has `d`'s keys in `d`'s order and differs from it at most under `k`. */
  ghost predicate SameElsewhere(d: Attrs, e: Attrs, k: string)
  {
    Keys(e) == Keys(d) && forall k2 :: k2 != k ==> Get(e, k2) == Get(d, k2)
  }

  /** Assigning a key that is already present changes nothing but its value. */
  lemma PutElsewhere(d: Attrs, k: string, v: Value)
    requires Has(d, k)
    ensures SameElsewhere(d, Put(d, k, v), k) && Get(Put(d, k, v), k) == Some(v)
  {
    forall k2 | k2 != k
      ensures Get(Put(d, k, v), k2) == Get(d, k2)
    {
      GetPut(d, k, v, k2);
    }
    GetPut(d, k, v, k);
  }

  /** Assigning the key of entry `i` rewrites that entry where it stands. */
  lemma {:induction false} PutAt(d: Attrs, i: nat, v: Value)
    requires Distinct(d) && i < |d|
    ensures Put(d, d[i].0, v) == d[i := (d[i].0, v)]
  {
    if i > 0 {
      DistinctTail(d);
      assert d[1..][i - 1] == d[i];
      PutAt(d[1..], i - 1, v);
      assert d[1..][i - 1 := (d[i].0, v)] == d[i := (d[i].0, v)][1..];
    }
  }

  /** `dict(attrib)` for an element's attributes as the XML parser reports them (all strings). */
  function FromPairs(pairs: seq<(string, string)>): (d: Attrs)
    ensures forall k :: Has(d, k) <==> exists i :: 0 <= i < |pairs| && pairs[i].0 == k
    decreases |pairs|
  {
    if pairs == [] then []
    else
      var last := |pairs| - 1;
      var d := FromPairs(pairs[..last]);
      assert pairs == pairs[..last] + [pairs[last]];
      PutLastKeys(pairs, pairs[..last], pairs[last], d);
      Put(d, pairs[last].0, Str(pairs[last].1))
  }

  /** No later pair repeats the key of pair `j`: its value is the one `dict(...)` keeps. */
  predicate LastOfKey(pairs: seq<(string, string)>, j: nat)
  {
    j < |pairs| && forall i :: j < i < |pairs| ==> pairs[i].0 != pairs[j].0
  }

  /** With distinct keys, `dict(attrib)` has one `str` entry per pair, in the parser's order. */
  lemma {:induction false} FromPairsEntries(pairs: seq<(string, string)>)
    requires forall i, j :: 0 <= i < j < |pairs| ==> pairs[i].0 != pairs[j].0
    ensures |FromPairs(pairs)| == |pairs|
    ensures forall i :: 0 <= i < |pairs| ==> FromPairs(pairs)[i] == (pairs[i].0, Str(pairs[i].1))
    decreases |pairs|
  {
    if pairs != [] {
      var last := |pairs| - 1;
      var init := pairs[..last];
      FromPairsEntries(init);
      FromPairsUnfold(pairs);
      PutFresh(pairs, FromPairs(init));
    }
  }

  /** Storing a new last key into a dict holding the other pairs, one entry each, adds its entry at the end. */
  lemma PutFresh(pairs: seq<(string, string)>, d: Attrs)
    requires pairs != [] && |d| == |pairs| - 1
    requires forall i :: 0 <= i < |d| ==> d[i] == (pairs[i].0, Str(pairs[i].1))
    requires forall i :: 0 <= i < |d| ==> pairs[i].0 != pairs[|d|].0
    ensures |Put(d, pairs[|d|].0, Str(pairs[|d|].1))| == |pairs|
    ensures forall i :: 0 <= i < |pairs| ==> Put(d, pairs[|d|].0, Str(pairs[|d|].1))[i] == (pairs[i].0, Str(pairs[i].1))
  {
    var k := pairs[|d|].0;
    assert forall i :: 0 <= i < |Keys(d)| ==> Keys(d)[i] != k;
    assert !Has(d, k);
    var e := Put(d, k, Str(pairs[|d|].1));
    assert e == d + [(k, Str(pairs[|d|].1))];
    forall i | 0 <= i < |pairs|
      ensures e[i] == (pairs[i].0, Str(pairs[i].1))
    {
      if i < |d| {
        assert e[i] == d[i];
      }
    }
  }

  /** Whatever the keys, each key of `dict(attrib)` holds the `str` of the last pair with that key. */
  lemma {:induction false} FromPairsGet(pairs: seq<(string, string)>, j: nat)
    requires LastOfKey(pairs, j)
    ensures Get(FromPairs(pairs), pairs[j].0) == Some(Str(pairs[j].1))
    decreases |pairs|
  {
    var last := |pairs| - 1;
    var init := pairs[..last];
    FromPairsUnfold(pairs);
    if j == last {
      GetPut(FromPairs(init), pairs[last].0, Str(pairs[last].1), pairs[j].0);
    } else {
      LastOfKeyInit(pairs, j);
      FromPairsGet(init, j);
      GetPutOther(FromPairs(init), pairs[last].0, Str(pairs[last].1), init[j].0, Str(init[j].1));
    }
  }

  /** A pair last of its key, but not last of all, is last of its key among the pairs before the last. */
  lemma LastOfKeyInit(pairs: seq<(string, string)>, j: nat)
    requires LastOfKey(pairs, j) && j < |pairs| - 1
    ensures LastOfKey(pairs[..|pairs| - 1], j) && pairs[..|pairs| - 1][j] == pairs[j]
    ensures pairs[|pairs| - 1].0 != pairs[j].0
  {
  }

  /** Assigning one key leaves the value another key holds. */
  lemma GetPutOther(d: Attrs, k: string, v: Value, k2: string, w: Value)
    requires k2 != k && Get(d, k2) == Some(w)
    ensures Get(Put(d, k, v), k2) == Some(w)
  {
    GetPut(d, k, v, k2);
  }

  /** `dict(attrib)` of non-empty pairs stores the last pair into the dict of the others. */
  lemma FromPairsUnfold(pairs: seq<(string, string)>)
    requires pairs != []
    ensures FromPairs(pairs) == Put(FromPairs(pairs[..|pairs| - 1]), pairs[|pairs| - 1].0, Str(pairs[|pairs| - 1].1))
  {
  }

  /** Storing the last pair `last` into the dict `d` of the others, `init`, gives the keys of all pairs. */
  lemma PutLastKeys(pairs: seq<(string, string)>, init: seq<(string, string)>, last: (string, string), d: Attrs)
    requires pairs == init + [last]
    requires forall k :: Has(d, k) <==> exists i :: 0 <= i < |init| && init[i].0 == k
    ensures forall k :: Has(Put(d, last.0, Str(last.1)), k) <==> exists i :: 0 <= i < |pairs| && pairs[i].0 == k
  {
    forall k
      ensures Has(Put(d, last.0, Str(last.1)), k) <==> exists i :: 0 <= i < |pairs| && pairs[i].0 == k
    {
      HasPut(d, last.0, Str(last.1), k);
      assert pairs[|init|] == last;
      if i :| 0 <= i < |pairs| && pairs[i].0 == k {
        if i < |init| {
          assert init[i] == pairs[i];
        }
      }
      if i :| 0 <= i < |init| && init[i].0 == k {
        assert pairs[i] == init[i];
      }
    }
  }
}
