/**
 * The Java and C# handler classes are, apart from a few that work on the text,
 * straight sequences of calls to the package's `to_enum`, `to_bytes`, `to_list` and
 * `rename_attr`. Here such a sequence is a list of `Op`s, run in order on the
 * attributes; the first exception ends the run. What the two languages do
 * differently (the enum constant, the list template, when the list import is added)
 * is a `Dialect`.
 *
 * `SelfQuiet` is a check on the list alone: every key an op works on is left raw or
 * removed by the end of the list. `RunTwice` proves that such a list, run a second
 * time on its own result, changes nothing.
 */
module AttrOps {
  import opened Wrappers
  import opened Strings
  import opened Attributes
  import opened Specificity

  /** The `transform` a `to_list` call passes for each token. */
  datatype Tokens =
    /** No `transform` argument: `do_nothing`. */
    | AsIs
    /** `enum_builder(verb, attr_name)`: each token becomes an enum constant of the verb and attribute. */
    | EnumOf
    /** Java's `_Evented.event_name`: `<class name>.Event.<TOKEN>`. */
    | EventOf

  datatype Op =
    | EnumOp(key: string)
    | BytesOp(key: string)
    | ListOp(key: string, tokens: Tokens, force: bool)
    | RenameOp(key: string, newName: string)

  /** The language-specific parts of `enum_name` and of the module's `to_list` wrapper. */
  datatype Dialect = Dialect(
    /** `enum_name(verb_name, attr_name, value)`. */
    enumName: (string, string, string) -> string,
    /** The `formatter` handed to the package's `to_list`. */
    listFormat: string -> string,
    /** The import the wrapper adds. */
    listImport: string,
    /** Whether it is added after every call (C#) or only when a list was built (Java). */
    importAlways: bool)

  function TokenTransform(dl: Dialect, verbName: string, key: string, tokens: Tokens): string -> string
  {
    match tokens
    case AsIs => DoNothing
    case EnumOf => (x: string) => dl.enumName(verbName, key, x)
    case EventOf => (x: string) => EventConstant(verbName, x)
  }

  /** Java's `_Evented.event_name`. */
  function EventConstant(verbName: string, event: string): string
  {
    verbName + ".Event." + Upper(event)
  }

  /** `to_enum`: a present `str` becomes the enum constant; `enum_name` fails on an `int` or `None`. */
  function ToEnum(dl: Dialect, verbName: string, d: Attrs, k: string): (r: Result<Attrs>)
    ensures Settled(d, k) ==> r == Ok(d)
    ensures r.Ok? ==> SameElsewhere(d, r.value, k)
    ensures Has(d, k) && Get(d, k).value.Str? ==>
              r.Ok? && Get(r.value, k) == Some(Str(dl.enumName(verbName, k, Get(d, k).value.s)))
    ensures r.Err? <==> Has(d, k) && (Get(d, k).value.Int? || Get(d, k).value.Null?)
  {
    match Get(d, k)
    case None => Ok(d)
    case Some(v) =>
      match v
      case Raw(_) => Ok(d)
      case Str(s) =>
        PutElsewhere(d, k, Str(dl.enumName(verbName, k, s)));
        Ok(Put(d, k, Str(dl.enumName(verbName, k, s))))
      case _ => Err(TypeError)
  }

  /** Whether the op leaves these attributes alone: its key is settled, or for a rename, absent. */
  predicate Quiet(d: Attrs, op: Op)
  {
    if op.RenameOp? then !Has(d, op.key) else Settled(d, op.key)
  }

  /** What an op that leaves the attributes alone still adds to the imports. */
  function QuietImport(dl: Dialect, op: Op): set<string>
  {
    if op.ListOp? && dl.importAlways then {dl.listImport} else {}
  }

  /** One call, on the attributes of a verb named `verbName`; the result carries the imports it adds. */
  function Apply(dl: Dialect, verbName: string, op: Op, d: Attrs): (r: Result<(Attrs, set<string>)>)
    ensures Quiet(d, op) ==> r == Ok((d, QuietImport(dl, op)))
    ensures r.Ok? && !op.RenameOp? ==> SameElsewhere(d, r.value.0, op.key)
    ensures r.Ok? && op.BytesOp? ==> Settled(r.value.0, op.key)
    ensures r.Ok? && op.ListOp? && dl.importAlways ==> dl.listImport in r.value.1
  {
    match op
    case EnumOp(k) =>
      var e :- ToEnum(dl, verbName, d, k);
      Ok((e, {}))
    case BytesOp(k) =>
      var e :- ToBytes(d, k);
      Ok((e, {}))
    case ListOp(k, tokens, force) =>
      var (e, converted) :- ToList(d, k, dl.listFormat, force, TokenTransform(dl, verbName, k, tokens));
      Ok((e, if converted || dl.importAlways then {dl.listImport} else {}))
    case RenameOp(a, b) =>
      Ok((RenameAttr(d, a, b), {}))
  }

  /** The calls in order; the imports are the union of what each adds. */
  function Run(dl: Dialect, verbName: string, ops: seq<Op>, d: Attrs): Result<(Attrs, set<string>)>
    decreases |ops|
  {
    if ops == [] then Ok((d, {}))
    else
      var before :- Run(dl, verbName, ops[..|ops| - 1], d);
      var after :- Apply(dl, verbName, Last(ops), before.0);
      Ok((after.0, before.1 + after.1))
  }

  /** One more call after a successful run. */
  lemma RunSnoc(dl: Dialect, verbName: string, ops: seq<Op>, op: Op, d: Attrs)
    requires Run(dl, verbName, ops, d).Ok? && Apply(dl, verbName, op, Run(dl, verbName, ops, d).value.0).Ok?
    ensures Run(dl, verbName, ops + [op], d) ==
            Ok((Apply(dl, verbName, op, Run(dl, verbName, ops, d).value.0).value.0,
                Run(dl, verbName, ops, d).value.1 + Apply(dl, verbName, op, Run(dl, verbName, ops, d).value.0).value.1))
  {
    assert (ops + [op])[..|ops|] == ops;
  }

  /** Three calls that each succeed. */
  lemma RunThree(dl: Dialect, verbName: string, a: Op, b: Op, c: Op, d: Attrs,
                 da: Attrs, ia: set<string>, db: Attrs, ib: set<string>, dc: Attrs, ic: set<string>)
    requires Apply(dl, verbName, a, d) == Ok((da, ia))
    requires Apply(dl, verbName, b, da) == Ok((db, ib))
    requires Apply(dl, verbName, c, db) == Ok((dc, ic))
    ensures Run(dl, verbName, [a, b, c], d) == Ok((dc, ia + ib + ic))
  {
    RunOne(dl, verbName, a, d, da, ia);
    RunSnoc(dl, verbName, [a], b, d);
    assert [a] + [b] == [a, b];
    RunSnoc(dl, verbName, [a, b], c, d);
    assert [a, b] + [c] == [a, b, c];
  }

  lemma RunOne(dl: Dialect, verbName: string, a: Op, d: Attrs, da: Attrs, ia: set<string>)
    requires Apply(dl, verbName, a, d) == Ok((da, ia))
    ensures Run(dl, verbName, [a], d) == Ok((da, ia))
  {
    assert [a][..0] == [];
    assert {} + ia == ia;
  }

  function QuietImports(dl: Dialect, ops: seq<Op>): set<string>
    decreases |ops|
  {
    if ops == [] then {} else QuietImports(dl, ops[..|ops| - 1]) + QuietImport(dl, Last(ops))
  }

  /** Keys known to be settled, and keys known to be absent (and so settled too). */
  datatype Track = Track(settled: set<string>, absent: set<string>)

  /** What is known after one op, from what was known before it. */
  function TrackOp(t: Track, op: Op): Track
  {
    match op
    case BytesOp(k) => Track(t.settled + {k}, t.absent)
    case RenameOp(a, b) =>
      if a == b then t else Track(t.settled - {b} + {a}, t.absent - {b} + {a})
    case _ => t
  }

  function TrackAll(ops: seq<Op>, t: Track): Track
    decreases |ops|
  {
    if ops == [] then t else TrackOp(TrackAll(ops[..|ops| - 1], t), Last(ops))
  }

  lemma {:induction false} TrackAppend(x: seq<Op>, y: seq<Op>, t: Track)
    ensures TrackAll(x + y, t) == TrackAll(y, TrackAll(x, t))
    decreases |y|
  {
    if y != [] {
      assert (x + y)[..|x + y| - 1] == x + y[..|y| - 1];
      TrackAppend(x, y[..|y| - 1], t);
    } else {
      assert x + y == x;
    }
  }

  /** What any run of the list is sure to leave settled or absent. */
  function Final(ops: seq<Op>): Track
  {
    TrackAll(ops, Track({}, {}))
  }

  /** Every op's key ends up settled, and every renamed key ends up absent. */
  predicate SelfQuiet(ops: seq<Op>)
  {
    forall i :: 0 <= i < |ops| ==>
      if ops[i].RenameOp? then ops[i].key in Final(ops).absent else ops[i].key in Final(ops).settled
  }

  predicate Holds(d: Attrs, t: Track)
  {
    (forall k :: k in t.settled ==> Settled(d, k)) && (forall k :: k in t.absent ==> !Has(d, k))
  }

  lemma ApplyTracks(dl: Dialect, verbName: string, op: Op, d: Attrs, t: Track)
    requires Holds(d, t) && Apply(dl, verbName, op, d).Ok?
    ensures Holds(Apply(dl, verbName, op, d).value.0, TrackOp(t, op))
  {
    var e := Apply(dl, verbName, op, d).value.0;
    if op.RenameOp? {
      RenameTracks(d, op.key, op.newName, t);
    } else {
      forall k | k in TrackOp(t, op).settled
        ensures Settled(e, k)
      {
        if k == op.key && !op.BytesOp? {
          assert Quiet(d, op);
        }
      }
      forall k | k in TrackOp(t, op).absent
        ensures !Has(e, k)
      {
        if k == op.key {
          assert Quiet(d, op);
        } else {
          assert Get(e, k) == Get(d, k);
        }
      }
    }
  }

  lemma RenameTracks(d: Attrs, key: string, newName: string, t: Track)
    requires Holds(d, t)
    ensures Holds(RenameAttr(d, key, newName), TrackOp(t, RenameOp(key, newName)))
  {
    var e := RenameAttr(d, key, newName);
    if Has(d, key) {
      var t' := TrackOp(t, RenameOp(key, newName));
      forall k | k in t'.settled
        ensures Settled(e, k)
      {
        RenameAttrMoves(d, key, newName, k);
      }
      forall k | k in t'.absent
        ensures !Has(e, k)
      {
        RenameAttrMoves(d, key, newName, k);
      }
    }
  }

  /** What the list is sure to leave settled or absent is so after a successful run. */
  lemma {:induction false} RunTracks(dl: Dialect, verbName: string, ops: seq<Op>, d: Attrs)
    requires Run(dl, verbName, ops, d).Ok?
    ensures Holds(Run(dl, verbName, ops, d).value.0, Final(ops))
    decreases |ops|
  {
    if ops != [] {
      var pre := ops[..|ops| - 1];
      RunTracks(dl, verbName, pre, d);
      ApplyTracks(dl, verbName, Last(ops), Run(dl, verbName, pre, d).value.0, Final(pre));
    }
  }

  /** Calls that are all quiet leave the attributes as they are. */
  lemma {:induction false} RunQuiet(dl: Dialect, verbName: string, ops: seq<Op>, d: Attrs)
    requires forall i :: 0 <= i < |ops| ==> Quiet(d, ops[i])
    ensures Run(dl, verbName, ops, d) == Ok((d, QuietImports(dl, ops)))
    decreases |ops|
  {
    if ops != [] {
      RunQuiet(dl, verbName, ops[..|ops| - 1], d);
    }
  }

  /** A successful run adds at least the imports a quiet run of the same calls adds. */
  lemma {:induction false} RunImports(dl: Dialect, verbName: string, ops: seq<Op>, d: Attrs)
    requires Run(dl, verbName, ops, d).Ok?
    ensures QuietImports(dl, ops) <= Run(dl, verbName, ops, d).value.1
    decreases |ops|
  {
    if ops != [] {
      RunImports(dl, verbName, ops[..|ops| - 1], d);
    }
  }

  /**
   * Run a second time on its own result, a self-quiet list of calls changes nothing
   * and adds no import the first run did not add.
   */
  lemma RunTwice(dl: Dialect, verbName: string, ops: seq<Op>, d: Attrs)
    requires SelfQuiet(ops) && Run(dl, verbName, ops, d).Ok?
    ensures var e := Run(dl, verbName, ops, d).value;
            Run(dl, verbName, ops, e.0) == Ok((e.0, QuietImports(dl, ops))) && QuietImports(dl, ops) <= e.1
  {
    var e := Run(dl, verbName, ops, d).value.0;
    RunTracks(dl, verbName, ops, d);
    RunImports(dl, verbName, ops, d);
    forall i | 0 <= i < |ops|
      ensures Quiet(e, ops[i])
    {
    }
    RunQuiet(dl, verbName, ops, e);
  }
}
