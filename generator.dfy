/**
 * `TwimlCodeGenerator`: the language clean-up it runs on a parsed IR when it is
 * created, and the emitter that turns the cleaned IR into lines of code. While it
 * emits, the generator hands out variable names (stored on the verbs and recorded in
 * the IR), collects the imports its attribute map asks for, and rewrites a verb's
 * text `' '` to `''`.
 */
module Generator {
  import opened Wrappers
  import opened Strings
  import opened Attributes
  import opened Tree
  import opened TwimlIr
  import opened Passes
  import opened Emitter
  import opened Emission
  import InlinePasses
  import Inflection
  import NodeLanguage

  // ----- variable names -----

  /** The `n`-th name `variable_for_verb` tries for a base name: the base itself, then `base2`, `base3`, ... */
  function Candidate(base: string, n: nat): string
  {
    if n <= 1 then base else base + NatToString(n)
  }

  /** Different attempts give different names. */
  lemma {:induction false} CandidateInjective(base: string, m: nat, n: nat)
    requires 1 <= m < n
    ensures Candidate(base, m) != Candidate(base, n)
  {
    if m > 1 {
      if Candidate(base, m) == Candidate(base, n) {
        var a, b := NatToString(m), NatToString(n);
        assert base + a == base + b;
        assert a == (base + a)[|base|..] == (base + b)[|base|..] == b;
        NatToStringInjective(m, n);
      }
    } else {
      assert |Candidate(base, n)| > |base|;
    }
  }

  /** The first `n` names tried. */
  ghost function Tried(base: string, n: nat): set<string>
  {
    set m: nat | 1 <= m <= n :: Candidate(base, m)
  }

  lemma {:induction false} TriedCount(base: string, n: nat)
    ensures |Tried(base, n)| == n
  {
    if n == 0 {
      assert Tried(base, 0) == {};
    } else {
      TriedCount(base, n - 1);
      assert Tried(base, n) == Tried(base, n - 1) + {Candidate(base, n)};
      forall m: nat | 1 <= m <= n - 1
        ensures Candidate(base, m) != Candidate(base, n)
      {
        CandidateInjective(base, m, n);
      }
      assert Candidate(base, n) !in Tried(base, n - 1);
    }
  }

  /** Names already taken by `n` attempts are at least `n` names. */
  lemma TriedBound(base: string, n: nat, names: set<string>)
    requires forall m: nat :: 1 <= m <= n ==> Candidate(base, m) in names
    ensures n <= |names|
  {
    TriedCount(base, n);
    var s := Tried(base, n);
    assert s <= names;
    assert names == s + (names - s);
  }

  /**
   * The attempt `variable_for_verb` stops at, counting on from `n`: the first whose
   * name has not been handed out. The search ends, since the names tried are all
   * different and only finitely many are taken.
   */
  function FreshAttempt(base: string, names: set<string>, n: nat): (r: nat)
    requires n >= 1 && forall m: nat :: 1 <= m < n ==> Candidate(base, m) in names
    ensures r >= n && Candidate(base, r) !in names
    ensures forall m: nat :: 1 <= m < r ==> Candidate(base, m) in names
    decreases |names| + 1 - n
  {
    if Candidate(base, n) !in names then n
    else
      TriedBound(base, n, names);
      FreshAttempt(base, names, n + 1)
  }

  /** The name a verb without one gets. */
  function FreshName(base: string, names: set<string>): (r: string)
    ensures r !in names
  {
    Candidate(base, FreshAttempt(base, names, 1))
  }

  /** The `while` loop of `variable_for_verb`: count up from 1 until the name is free. */
  method FirstFreeName(base: string, names: set<string>) returns (name: string)
    ensures name == FreshName(base, names)
  {
    var number := 1;
    name := base;
    while name in names
      invariant number >= 1 && name == Candidate(base, number)
      invariant forall m: nat :: 1 <= m < number ==> Candidate(base, m) in names
      invariant FreshAttempt(base, names, number) == FreshAttempt(base, names, 1)
      decreases |names| + 1 - number
    {
      TriedBound(base, number, names);
      number := number + 1;
      name := base + NatToString(number);
    }
  }

  /** Python truthiness of `variable_name`: set and not empty. */
  predicate Named(n: Option<string>)
  {
    n.Some? && n.value != ""
  }

  // ----- text -----

  /** The text `quote_text_for_verb` leaves on the verb: `' '` becomes `''`. */
  function WrittenBack(text: Value): (r: Value)
    ensures text != Str(" ") ==> r == text
    ensures r != Str(" ")
  {
    if text == Str(" ") then Str("") else text
  }

  /**
   * `quote_text_for_verb`: nothing for empty or absent text; otherwise the (written
   * back) text quoted. The generator only meets `str` text or none.
   */
  function QuotedVerbText(spec: LanguageSpec, text: Value, hasAttributes: bool): (r: string)
    requires text.Null? || text.Str?
    ensures !Truthy(text) ==> r == ""
    ensures text == Str(" ") ==> r == QuoteText(spec, "", hasAttributes)
    ensures Truthy(text) && text != Str(" ") ==> r == QuoteText(spec, text.s, hasAttributes)
  {
    if !Truthy(text) then "" else QuoteText(spec, WrittenBack(text).s, hasAttributes)
  }

  // ----- the clean-up each language runs when the generator is created -----

  /**
   * What the clean-up leaves of a well formed IR: the new verbs and the imports it
   * adds, or the exception it raises; a language without a clean-up leaves the verbs
   * as they are and adds nothing.
   */
  function Cleaned(language: string, messaging: bool, d: Doc): Result<(seq<VerbRec>, set<string>)>
    requires DocOk(d)
  {
    match CleanStepFor(language, messaging)
    case None => Ok((d.verbs, {}))
    case Some(step) => DocPass(step, d, false)
  }

  /** The loop body of `clean_<language>_specificities` for the languages that have one. */
  function CleanStepFor(language: string, messaging: bool): Option<Step>
  {
    if language == "java" then Some(InlinePasses.JavaStep)
    else if language == "python" then Some(InlinePasses.PythonStep)
    else if language == "csharp" then Some(InlinePasses.CSharpStep(messaging))
    else if language == "ruby" then Some(InlinePasses.RubyStep)
    else if language == "node" then Some(NodeLanguage.CleanStep)
    else None
  }

  /** The loop of `build_attributes_for_verb`, over the verb's attribute dict `d`. */
  method BuildEntries(spec: LanguageSpec, d: Attrs) returns (built: seq<string>, imports: set<string>)
    requires NamedAttrs(d)
    ensures built == Entries(spec, d)
    ensures imports == EntryImports(spec, d)
  {
    built, imports := [], {};
    for i := 0 to |d|
      invariant NamedAttrs(d[..i])
      invariant |built| == i && forall k :: 0 <= k < i ==> built[k] == AttributeEntry(spec, d[k].0, d[k].1)
      invariant imports == EntryImports(spec, d[..i])
    {
      var styled := AttrName(spec.attributeNameStyle, d[i].0);
      imports := imports + MapImport(spec, styled, d[i].1);
      built := built + [spec.attributeFormat(styled, AttributeValue(spec, styled, d[i].1))];
      ghost var next := d[..i + 1];
      assert next[..i] == d[..i] && Last(next) == d[i];
      assert NamedAttrs(next);
    }
    assert d[..|d|] == d;
    assert |built| == |Entries(spec, d)|;
  }

  /**
   * What `join_appends` adds for one child: the child's variable and method, and,
   * for a tail that is shown, the tail, the variable of the parent it is added to
   * and the child's indentation.
   */
  datatype Piece = Piece(variable: string, methodName: string, tail: Option<string>, parent: string, indent: string)

  /**
   * The text of a piece: the chained call that appends the child, followed, when its
   * tail is shown, by the text line for that tail.
   */
  function PieceText(spec: LanguageSpec, p: Piece): string
    requires spec.chainedAppend.Some?
  {
    spec.chainedAppend.value(Args(p.variable, "", "", "", "", "", "", p.methodName))
    + (if TailShown(p.tail) then spec.newText(Args("", p.parent, "", "", RStrip(p.tail.value), "", p.indent, "")) else "")
  }

  /** The texts of the pieces, one after the other. */
  function Pieces(spec: LanguageSpec, ps: seq<Piece>): string
    requires spec.chainedAppend.Some?
  {
    if ps == [] then "" else Pieces(spec, ps[..|ps| - 1]) + PieceText(spec, Last(ps))
  }

  lemma PiecesSnoc(spec: LanguageSpec, ps: seq<Piece>, p: Piece)
    requires spec.chainedAppend.Some?
    ensures Pieces(spec, ps + [p]) == Pieces(spec, ps) + PieceText(spec, p)
  {
    assert (ps + [p])[..|ps|] == ps;
  }

  /** The verbs' tails. */
  ghost function TailsOf(verbs: seq<Verb>): (r: seq<Option<string>>)
    ensures |r| == |verbs| && forall i :: 0 <= i < |verbs| ==> r[i] == verbs[i].tail
  {
    if verbs == [] then [] else TailsOf(verbs[..|verbs| - 1]) + [Last(verbs).tail]
  }

  /**
   * What the loop of `join_appends` has done after the children `cs[..i]` of a verb
   * named `parentName`, over the names and detached set it started from: each of those
   * children is named, its piece records its name, method, tail, indentation and the
   * parent its text is added to, and it is detached exactly when it was or when Java
   * shows its tail; nothing else changed.
   */
  ghost predicate Joined(names: seq<Option<string>>, det: set<nat>, names0: seq<Option<string>>, det0: set<nat>,
                         java: bool, cs: seq<nat>, tails: seq<Option<string>>, methods: seq<string>,
                         indents: seq<string>, parentName: string, i: nat, ps: seq<Piece>)
    requires i <= |cs| == |methods| == |indents| && |tails| == |names0|
    requires forall k :: 0 <= k < |cs| ==> cs[k] < |names0|
  {
    |names| == |names0| && |ps| == i
    && (forall k :: 0 <= k < i ==>
          names[cs[k]] == Some(ps[k].variable) && ps[k].variable != ""
          && ps[k] == Piece(ps[k].variable, methods[k], tails[cs[k]], if cs[k] in det then "" else parentName, indents[k])
          && (cs[k] in det <==> cs[k] in det0 || (java && TailShown(tails[cs[k]]))))
    && (forall v :: 0 <= v < |names| && v !in cs[..i] ==> names[v] == names0[v])
    && (forall c :: c !in cs[..i] ==> (c in det <==> c in det0))
  }

  /**
   * The names and detached set `join_appends` leaves after the children `cs`: each
   * child is named, it is detached exactly when it was or when Java shows its tail,
   * and nothing else changed.
   */
  ghost predicate Renamed(names: seq<Option<string>>, det: set<nat>, names0: seq<Option<string>>, det0: set<nat>,
                          java: bool, cs: seq<nat>, tails: seq<Option<string>>)
  {
    |names| == |names0|
    && (forall k :: 0 <= k < |cs| ==> cs[k] < |names| && Named(names[cs[k]]))
    && (forall k :: 0 <= k < |cs| ==>
          (cs[k] in det <==> cs[k] in det0 || (java && cs[k] < |tails| && TailShown(tails[cs[k]]))))
    && (forall v :: 0 <= v < |names| && v !in cs ==> names[v] == names0[v])
    && (forall c :: c !in cs ==> (c in det <==> c in det0))
  }

  /** A verb that is not one of the children keeps its name and whether it is detached. */
  lemma RenamedOutside(names: seq<Option<string>>, det: set<nat>, names0: seq<Option<string>>, det0: set<nat>,
                       java: bool, cs: seq<nat>, tails: seq<Option<string>>, v: nat)
    requires Renamed(names, det, names0, det0, java, cs, tails) && v !in cs && v < |names0|
    ensures names[v] == names0[v] && (v in det <==> v in det0)
  {
  }

  /** Verbs that were named stay named. */
  lemma RenamedStays(names: seq<Option<string>>, det: set<nat>, names0: seq<Option<string>>, det0: set<nat>,
                     java: bool, cs: seq<nat>, tails: seq<Option<string>>)
    requires Renamed(names, det, names0, det0, java, cs, tails)
    ensures StaysNamed(names, names0) && det0 <= det
  {
    forall v | 0 <= v < |names0| && Named(names0[v])
      ensures Named(names[v])
    {
      if v in cs {
        var k :| 0 <= k < |cs| && cs[k] == v;
      }
    }
  }

  /** One more child keeps `Joined`. */
  lemma JoinedStep(names: seq<Option<string>>, det: set<nat>, names0: seq<Option<string>>, det0: set<nat>,
                   java: bool, cs: seq<nat>, tails: seq<Option<string>>, methods: seq<string>,
                   indents: seq<string>, parentName: string, i: nat, ps: seq<Piece>,
                   variable: string, det': set<nat>)
    requires i < |cs| == |methods| == |indents| && |tails| == |names0|
    requires forall k :: 0 <= k < |cs| ==> cs[k] < |names0|
    requires forall k1, k2 :: 0 <= k1 < k2 < |cs| ==> cs[k1] < cs[k2]
    requires Joined(names, det, names0, det0, java, cs, tails, methods, indents, parentName, i, ps)
    requires variable != "" && det' == det + (if java && TailShown(tails[cs[i]]) then {cs[i]} else {})
    ensures Joined(names[cs[i] := Some(variable)], det', names0, det0, java, cs, tails, methods, indents, parentName,
                   i + 1, ps + [Piece(variable, methods[i], tails[cs[i]], if cs[i] in det' then "" else parentName, indents[i])])
  {
    assert cs[..i + 1] == cs[..i] + [cs[i]];
    assert forall k :: 0 <= k < i ==> cs[k] != cs[i];
    assert cs[i] !in cs[..i];
  }

  /** The names after the verb `v`, if there is one, is given `name`. */
  function Give(names: seq<Option<string>>, v: Option<nat>, name: string): (r: seq<Option<string>>)
    ensures |r| == |names|
  {
    if v.Some? && v.value < |names| then names[v.value := Some(name)] else names
  }

  /** Every verb named in `names0` keeps its name in `names`. */
  predicate KeepsNamed(names: seq<Option<string>>, names0: seq<Option<string>>)
  {
    |names| == |names0| && forall v :: 0 <= v < |names0| && Named(names0[v]) ==> names[v] == names0[v]
  }

  /** Every verb named in `names0` is still named in `names`. */
  predicate StaysNamed(names: seq<Option<string>>, names0: seq<Option<string>>)
  {
    |names| == |names0| && forall v :: 0 <= v < |names0| && Named(names0[v]) ==> Named(names[v])
  }

  lemma StaysNamedTrans(n2: seq<Option<string>>, n1: seq<Option<string>>, n0: seq<Option<string>>)
    requires StaysNamed(n2, n1) && StaysNamed(n1, n0)
    ensures StaysNamed(n2, n0)
  {
  }

  /** `lines[-1] = lines[-1].replace('()', '')`: only the last line changes. */
  function DropParentheses(lines: seq<string>): (r: seq<string>)
    requires lines != []
    ensures |r| == |lines| && r[..|r| - 1] == lines[..|lines| - 1]
    ensures Last(r) == Replace(Last(lines), "()", "")
  {
    lines[..|lines| - 1] + [Replace(Last(lines), "()", "")]
  }

  /** A line after `n` passes of `replace('()', '')`. */
  function DropN(s: string, n: nat): string
  {
    if n == 0 then s else Replace(DropN(s, n - 1), "()", "")
  }

  /** `n` zeros: the drop counts of lines no pass has touched. */
  function Zeros(n: nat): (r: seq<nat>)
    ensures |r| == n && forall i :: 0 <= i < n ==> r[i] == 0
  {
    if n == 0 then [] else Zeros(n - 1) + [0]
  }

  /** Two runs of zeros make one. */
  lemma ZerosJoin(m: nat, n: nat)
    ensures Zeros(m) + Zeros(n) == Zeros(m + n)
  {
    assert forall i :: 0 <= i < m + n ==> (Zeros(m) + Zeros(n))[i] == 0;
  }

  /** The verbs' texts. */
  ghost function TextsOf(verbs: seq<Verb>): (r: seq<Value>)
    reads verbs
    ensures |r| == |verbs| && forall i :: 0 <= i < |verbs| ==> r[i] == verbs[i].text
  {
    if verbs == [] then [] else TextsOf(verbs[..|verbs| - 1]) + [Last(verbs).text]
  }

  /** The verbs the `start` and `leaf` events among the first `k` of `evs` create. */
  ghost function CreatedIn(evs: seq<Event>, k: nat): set<nat>
    requires k <= |evs|
  {
    set i | 0 <= i < k && !evs[i].End? :: evs[i].v
  }

  /** The `k`-th event creates its verb, unless it is an `end`. */
  lemma CreatedStep(evs: seq<Event>, k: nat)
    requires k < |evs|
    ensures CreatedIn(evs, k + 1) == CreatedIn(evs, k) + (if evs[k].End? then {} else {evs[k].v})
  {
  }

  /** The lines of the first `k` events. */
  ghost function LinesSoFar(evs: seq<Event>, k: nat, appended: set<nat>, tails: seq<Option<string>>): seq<Line>
    requires InRange(evs, |tails|) && k <= |evs|
  {
    assert InRange(evs[..k], |tails|);
    ForwardLines(evs[..k], appended, tails, false)
  }

  /** The name a verb holds in `names`, `''` for none. */
  function NameIn(names: seq<Option<string>>, j: nat): string
  {
    if j < |names| && names[j].Some? then names[j].value else ""
  }

  /**
   * What `output_append` makes for the verb `v` of `d` from the names `names`: the
   * `append` template filled with its name, its parent's name, its class and its
   * indentation.
   */
  function AppendText(spec: LanguageSpec, d: Doc, v: nat, names: seq<Option<string>>): string
    requires v < |d.verbs|
  {
    var verb := d.verbs[v];
    spec.append(Args(NameIn(names, v), if verb.parent.Some? then NameIn(names, verb.parent.value) else "",
                     ClassForVerbName(spec, verb.name, d.isVoiceResponse), "", "", "",
                     IndentForVerb(spec, verb.depth), ""))
  }

  /** The verb `v` of `d` and its parent, if it has one, are named in `names`. */
  predicate EndNamed(d: Doc, v: nat, names: seq<Option<string>>)
  {
    v < |d.verbs| && v < |names| && Named(names[v])
    && (d.verbs[v].parent.Some? ==> d.verbs[v].parent.value < |names| && Named(names[d.verbs[v].parent.value]))
  }

  /** Once a verb and its parent are named, handing out more names leaves its append line as it is. */
  lemma AppendTextKept(spec: LanguageSpec, d: Doc, v: nat, names: seq<Option<string>>, names': seq<Option<string>>)
    requires EndNamed(d, v, names) && KeepsNamed(names', names)
    ensures EndNamed(d, v, names') && AppendText(spec, d, v, names') == AppendText(spec, d, v, names)
  {
  }

  /**
   * How `__repr__` decides on the append line at the event `e`: it is kept (`now`)
   * exactly at the `end` of a verb other than the root that is not detached (`det`)
   * and whose append line from `names` is not empty; that verb and its parent are
   * then named.
   */
  predicate EndRule(spec: LanguageSpec, d: Doc, e: Event, det: set<nat>, names: seq<Option<string>>, now: bool)
  {
    (now <==> e.End? && e.v != 0 && e.v !in det && e.v < |d.verbs| && AppendText(spec, d, e.v, names) != "")
    && (e.End? && e.v != 0 && e.v !in det ==> EndNamed(d, e.v, names))
  }

  /** Handing out more names keeps `EndRule`. */
  lemma EndRuleKept(spec: LanguageSpec, d: Doc, e: Event, det: set<nat>, names: seq<Option<string>>,
                    names': seq<Option<string>>, now: bool)
    requires EndRule(spec, d, e, det, names, now) && KeepsNamed(names', names)
    ensures EndRule(spec, d, e, det, names', now)
  {
    if e.End? && e.v != 0 && e.v !in det {
      AppendTextKept(spec, d, e.v, names, names');
    }
  }

  /** No `end` among the first `k` events of `evs` is that of a child, in `d`, of the verb of `evs[k]`. */
  ghost predicate NoChildEndBefore(evs: seq<Event>, k: nat, d: Doc)
    requires k < |evs|
  {
    forall i :: 0 <= i < k && evs[i].End? && evs[i].v < |d.verbs| ==> d.verbs[evs[i].v].parent != Some(evs[k].v)
  }

  /** No `start` among `evs` comes after the `end` of one of its verb's children in `d`. */
  ghost predicate ChildEndsLate(evs: seq<Event>, d: Doc)
  {
    forall k {:trigger NoChildEndBefore(evs, k, d)} :: 0 <= k < |evs| && evs[k].Start? ==> NoChildEndBefore(evs, k, d)
  }

  /**
   * What the loop of `__repr__` relies on in the traversal `evs` of `d`: its verbs
   * exist, each appears once, each verb is created once, it does not open with an
   * `end`, and no verb starts after one of its children has ended.
   */
  ghost predicate Traversal(evs: seq<Event>, d: Doc)
  {
    InRange(evs, |d.verbs|) && (evs != [] ==> !evs[0].End?)
    && (forall k {:trigger FirstTime(evs, k)} :: 0 <= k < |evs| ==> FirstTime(evs, k))
    && ChildEndsLate(evs, d)
  }

  /** The `k`-th event of `evs` is not among those before it, and creates no verb they created. */
  ghost predicate FirstTime(evs: seq<Event>, k: nat)
    requires k < |evs|
  {
    evs[k] !in evs[..k] && (!evs[k].End? ==> evs[k].v !in CreatedIn(evs, k))
  }

  /** A traversal without repeated events that creates each verb once meets `Traversal`. */
  lemma TraversalOf(evs: seq<Event>, d: Doc)
    requires InRange(evs, |d.verbs|) && NoDup(evs) && CreatesOnce(evs) && (evs != [] ==> !evs[0].End?)
    requires ChildEndsLate(evs, d)
    ensures Traversal(evs, d)
  {
    forall k | 0 <= k < |evs|
      ensures FirstTime(evs, k)
    {
      forall i | 0 <= i < k
        ensures evs[..k][i] != evs[k]
      {
        assert evs[..k][i] == evs[i];
      }
    }
  }

  /** Every verb `det` holds is in `det0` or among `cs`. */
  predicate DetachedWithin(det0: set<nat>, det: set<nat>, cs: seq<nat>)
  {
    forall c :: c in det ==> c in det0 || c in cs
  }

  /**
   * What the loop of `__repr__` has done after the first `k` events: the verbs it
   * recorded as appended had their `end` among them, are not the root and are not
   * detached (`det`); the `end` of a verb other than the root that is not detached
   * named the verb and its parent, and recorded the verb exactly when its append line
   * is not empty; every `start` or `leaf` named its verb.
   */
  ghost predicate Progress(evs: seq<Event>, k: nat, appended: set<nat>, det: set<nat>, spec: LanguageSpec, d: Doc,
                           names: seq<Option<string>>)
  {
    k <= |evs| && AppendedSeen(evs, k, appended, det) && EndsRecorded(evs, k, appended, det, spec, d, names)
    && StartsNamed(evs, k, names)
  }

  ghost predicate AppendedSeen(evs: seq<Event>, k: nat, appended: set<nat>, det: set<nat>)
    requires k <= |evs|
  {
    forall v :: v in appended ==> End(v) in evs[..k] && v != 0 && v !in det
  }

  ghost predicate EndsRecorded(evs: seq<Event>, k: nat, appended: set<nat>, det: set<nat>, spec: LanguageSpec, d: Doc,
                               names: seq<Option<string>>)
    requires k <= |evs|
  {
    forall i :: 0 <= i < k && evs[i].End? && evs[i].v != 0 && evs[i].v !in det ==>
      EndNamed(d, evs[i].v, names) && (evs[i].v in appended <==> AppendText(spec, d, evs[i].v, names) != "")
  }

  ghost predicate StartsNamed(evs: seq<Event>, k: nat, names: seq<Option<string>>)
    requires k <= |evs|
  {
    forall i :: 0 <= i < k && !evs[i].End? ==> evs[i].v < |names| && Named(names[evs[i].v])
  }

  /**
   * A `start` detaches only children of its verb (`cs`), none of which has had its
   * `end` yet, so the verbs recorded as appended stay undetached.
   */
  lemma AppendedSeenStep(evs: seq<Event>, k: nat, appended: set<nat>, appended': set<nat>, now: bool,
                         det: set<nat>, det': set<nat>, d: Doc, cs: seq<nat>)
    requires k < |evs| && AppendedSeen(evs, k, appended, det) && det <= det' && ChildEndsLate(evs, d)
    requires appended' == if now then appended + {evs[k].v} else appended
    requires now ==> evs[k].End? && evs[k].v != 0 && evs[k].v !in det'
    requires DetachedWithin(det, det', if evs[k].Start? then cs else [])
    requires forall c :: c in cs ==> c < |d.verbs| && d.verbs[c].parent == Some(evs[k].v)
    ensures AppendedSeen(evs, k + 1, appended', det')
  {
    assert forall e :: e in evs[..k] ==> e in evs[..k + 1];
    assert evs[k] in evs[..k + 1];
    assert evs[k].Start? ==> NoChildEndBefore(evs, k, d);
    forall v | v in appended
      ensures v !in det'
    {
      var i :| 0 <= i < k && evs[i] == End(v);
      assert evs[k].Start? ==> v !in cs;
    }
  }

  lemma EndsRecordedStep(evs: seq<Event>, k: nat, appended: set<nat>, appended': set<nat>, now: bool,
                         det: set<nat>, det': set<nat>, spec: LanguageSpec, d: Doc,
                         names: seq<Option<string>>, names': seq<Option<string>>)
    requires k < |evs| && evs[k] !in evs[..k] && AppendedSeen(evs, k, appended, det) && EndsRecorded(evs, k, appended, det, spec, d, names)
    requires det <= det' && KeepsNamed(names', names)
    requires appended' == if now then appended + {evs[k].v} else appended
    requires now ==> evs[k].End?
    requires evs[k].End? && evs[k].v != 0 && evs[k].v !in det' ==>
               EndNamed(d, evs[k].v, names') && (now <==> AppendText(spec, d, evs[k].v, names') != "")
    ensures EndsRecorded(evs, k + 1, appended', det', spec, d, names')
  {
    forall i | 0 <= i < k && evs[i].End? && evs[i].v != 0 && evs[i].v !in det'
      ensures EndNamed(d, evs[i].v, names')
      ensures evs[i].v in appended' <==> AppendText(spec, d, evs[i].v, names') != ""
    {
      AppendTextKept(spec, d, evs[i].v, names, names');
      assert evs[i] == evs[..k][i];
    }
  }

  lemma StartsNamedStep(evs: seq<Event>, k: nat, names: seq<Option<string>>, names': seq<Option<string>>)
    requires k < |evs| && StartsNamed(evs, k, names) && KeepsNamed(names', names)
    requires !evs[k].End? ==> evs[k].v < |names'| && Named(names'[evs[k].v])
    ensures StartsNamed(evs, k + 1, names')
  {
  }

  /** One more event keeps `Progress` and adds its own lines to `LinesSoFar`. */
  lemma ProgressStep(evs: seq<Event>, k: nat, appended: set<nat>, appended': set<nat>, now: bool, tails: seq<Option<string>>,
                     det: set<nat>, det': set<nat>, spec: LanguageSpec, d: Doc, cs: seq<nat>,
                     names: seq<Option<string>>, names': seq<Option<string>>)
    requires InRange(evs, |tails|) && |tails| == |d.verbs| && ChildEndsLate(evs, d) && k < |evs| && evs[k] !in evs[..k]
    requires Progress(evs, k, appended, det, spec, d, names)
    requires appended' == if now then appended + {evs[k].v} else appended
    requires EndRule(spec, d, evs[k], det, names', now)
    requires det <= det' && DetachedWithin(det, det', if evs[k].Start? then cs else [])
    requires forall c :: c in cs ==> c < |d.verbs| && d.verbs[c].parent == Some(evs[k].v)
    requires KeepsNamed(names', names)
    requires !evs[k].End? ==> evs[k].v < |names'| && Named(names'[evs[k].v])
    ensures Progress(evs, k + 1, appended', det', spec, d, names')
    ensures LinesSoFar(evs, k + 1, appended', tails) ==
            LinesSoFar(evs, k, appended, tails) + (MainLines(evs[k], if now then {evs[k].v} else {}) + TailLines(evs[k], tails, false))
  {
    assert evs[k].End? ==> det' == det;
    AppendedSeenStep(evs, k, appended, appended', now, det, det', d, cs);
    EndsRecordedStep(evs, k, appended, appended', now, det, det', spec, d, names, names');
    StartsNamedStep(evs, k, names, names');
    ForwardLinesNext(evs, k, appended, appended', now, tails, false);
  }

  /**
   * What the loop of `__repr__` has done once it went through the whole traversal of
   * `t`: the verbs whose append line it kept are exactly the verbs with children and
   * a parent that are not detached and whose append line is not empty.
   */
  lemma ForwardFacts(t: seq<Node>, evs: seq<Event>, appended: set<nat>, det: set<nat>, spec: LanguageSpec, d: Doc,
                     names: seq<Option<string>>, tails: seq<Option<string>>)
    requires WellFormed(t) && evs == Fwd(t) && |names| == |t| == |tails| == |d.verbs|
    requires Progress(evs, |evs|, appended, det, spec, d, names)
    ensures InRange(evs, |tails|) && LinesSoFar(evs, |evs|, appended, tails) == ForwardLines(evs, appended, tails, false)
    ensures forall v :: 0 <= v < |names| ==> Named(names[v])
    ensures forall v :: v in appended <==>
              0 < v < |t| && !IsLeaf(t, v) && v !in det && AppendText(spec, d, v, names) != ""
  {
    FwdInRange(t);
    assert evs[..|evs|] == evs;
    FwdAllNamed(t, names);
    var shown := set v | 0 <= v < |d.verbs| && AppendText(spec, d, v, names) != "";
    forall v | v in appended
      ensures End(v) in Fwd(t) && v != 0 && v !in det && v in shown
    {
      var i :| 0 <= i < |evs| && evs[i] == End(v);
    }
    FwdAppended(t, appended, det, shown);
  }

  /** Once every event but the `end`s has named its verb, every verb is named. */
  lemma FwdAllNamed(t: seq<Node>, names: seq<Option<string>>)
    requires WellFormed(t) && |names| == |t|
    requires forall i :: 0 <= i < |Fwd(t)| && !Fwd(t)[i].End? ==> Fwd(t)[i].v < |names| && Named(names[Fwd(t)[i].v])
    ensures forall v :: 0 <= v < |names| ==> Named(names[v])
  {
    forall v | 0 <= v < |names|
      ensures Named(names[v])
    {
      FwdCreates(t, v);
      var i :| 0 <= i < |Fwd(t)| && (Fwd(t)[i] == Start(v) || Fwd(t)[i] == Leaf(v));
    }
  }

  lemma KeepsNamedTrans(n2: seq<Option<string>>, n1: seq<Option<string>>, n0: seq<Option<string>>)
    requires KeepsNamed(n2, n1) && KeepsNamed(n1, n0)
    ensures KeepsNamed(n2, n0)
  {
  }

  // ----- the generator -----

  /**
   * `TwimlCodeGenerator.__init__`: the clean-up of the generator's language, if it has
   * one, run over the parsed IR, then the generator holding the imports it added; an
   * exception the clean-up raises ends the construction.
   */
  method Init(spec: LanguageSpec, language: string, ir: TwimlIR) returns (r: Result<TwimlCodeGenerator>)
    requires ir.Valid()
    modifies ir.verbs
    ensures DocOk(old(ir.Abstract()))
    ensures r.Err? <==> Cleaned(language, old(ir.IsMessagingResponse()), old(ir.Abstract())).Err?
    ensures r.Ok? ==> fresh(r.value) && r.value.ir == ir && r.value.language == language && r.value.spec == spec
    ensures r.Ok? ==> IrCleaned(ir, language, old(ir.Abstract()), old(ir.IsMessagingResponse()))
    ensures r.Ok? ==> r.value.specificImports == Cleaned(language, old(ir.IsMessagingResponse()), old(ir.Abstract())).value.1
    ensures r.Ok? ==> r.value.detached == {} && |r.value.variableNames| == |ir.verbs|
    ensures r.Ok? ==> forall i :: 0 <= i < |ir.verbs| ==> r.value.variableNames[i] == ir.verbs[i].variableName
  {
    var added := CleanSpecificities(language, ir);
    if added.Err? {
      return Err(added.error);
    }
    var g := new TwimlCodeGenerator(spec, language, ir, added.value);
    r := Ok(g);
  }

  /**
   * The IR the clean-up leaves when it raises nothing, from the IR `d` and the kind of
   * response before it: well formed, of the same shape, with the verbs of `Cleaned`.
   */
  ghost predicate IrCleaned(ir: TwimlIR, language: string, d: Doc, messaging: bool)
    requires DocOk(d)
    reads ir, ir.verbs
  {
    Cleaned(language, messaging, d).Ok? && ir.Valid() && ir.Shape() == ShapeOf(d)
    && ir.Abstract() == d.(verbs := Cleaned(language, messaging, d).value.0)
  }

  /**
   * The end of `__init__`: `clean_<language>_specificities` for the languages that
   * have one, run over the IR; returns the imports it adds.
   */
  method CleanSpecificities(language: string, ir: TwimlIR) returns (r: Result<set<string>>)
    requires ir.Valid()
    modifies ir.verbs
    ensures DocOk(old(ir.Abstract()))
    ensures r.Err? <==> Cleaned(language, old(ir.IsMessagingResponse()), old(ir.Abstract())).Err?
    ensures r.Ok? ==> IrCleaned(ir, language, old(ir.Abstract()), old(ir.IsMessagingResponse()))
    ensures r.Ok? ==> r.value == Cleaned(language, old(ir.IsMessagingResponse()), old(ir.Abstract())).value.1
  {
    ghost var d := ir.Abstract();
    var step := CleanStepFor(language, ir.IsMessagingResponse());
    if step.None? {
      assert d.(verbs := d.verbs) == d;
      return Ok({});
    }
    r := ApplyPass(ir, step.value, false);
  }

  class TwimlCodeGenerator {
    const spec: LanguageSpec
    /** The `language` argument of `__init__`, which picks the clean-up. */
    const language: string
    const ir: TwimlIR
    var specificImports: set<string>
    /**
     * The verbs whose `parent` the Java branch of `join_appends` has set to `''`: from
     * then on they count as having no parent.
     */
    var detached: set<nat>
    /**
     * The verbs' `variable_name`s, by position in the arena: read from the verbs when
     * the generator is made and again after the clean-up, and where
     * `variable_for_verb` records the names it hands out.
     */
    var variableNames: seq<Option<string>>
    /** The names the verbs held when the generator was made (after the clean-up). */
    ghost const presets: seq<Option<string>>

    /**
     * The fields `__init__` sets: the spec, the parsed IR, the imports its clean-up
     * added and the verbs' names as the clean-up left them (the file paths are not
     * modelled).
     */
    constructor (spec: LanguageSpec, language: string, ir: TwimlIR, imports: set<string>)
      ensures this.spec == spec && this.language == language && this.ir == ir
      ensures specificImports == imports && detached == {}
      ensures |variableNames| == |ir.verbs| && forall i :: 0 <= i < |ir.verbs| ==> variableNames[i] == ir.verbs[i].variableName
      ensures presets == variableNames && NamesOk()
    {
      this.spec := spec;
      this.language := language;
      this.ir := ir;
      specificImports := imports;
      detached := {};
      variableNames := seq(|ir.verbs|, i requires 0 <= i < |ir.verbs| reads ir, ir.verbs => ir.verbs[i].variableName);
      presets := variableNames;
    }

    /**
     * The names `variable_for_verb` hands out: a verb that held a name when the
     * generator was made keeps it; any other verb is still as it was or holds a name
     * recorded in `generated_variables_names` that no other such verb holds.
     */
    ghost predicate NamesOk()
      reads this`variableNames, ir`generatedVariablesNames
    {
      |presets| == |variableNames|
      && (forall v :: 0 <= v < |presets| && Named(presets[v]) ==> variableNames[v] == presets[v])
      && (forall v :: 0 <= v < |presets| && !Named(presets[v]) && variableNames[v] != presets[v] ==>
            Named(variableNames[v]) && variableNames[v].value in ir.generatedVariablesNames)
      && (forall v, w ::
            (0 <= v < |presets| && 0 <= w < |presets| && v != w && !Named(presets[v]) && !Named(presets[w])
             && Named(variableNames[v])) ==> variableNames[v] != variableNames[w])
    }

    /**
     * When no verb held a name when the generator was made, the verbs that hold one
     * now hold different ones.
     */
    lemma DistinctNames()
      requires NamesOk() && forall v :: 0 <= v < |presets| ==> !Named(presets[v])
      ensures forall v, w :: 0 <= v < |variableNames| && 0 <= w < |variableNames| && v != w && Named(variableNames[v]) ==>
                variableNames[v] != variableNames[w]
    {
    }

    /**
     * A name a verb held when the generator was made is kept as it is, so two verbs
     * that held the same one (the Java SSML elements of one kind) still share it.
     */
    lemma PresetNamesClash(v: nat, w: nat)
      requires NamesOk() && v < |presets| && w < |presets| && Named(presets[v]) && presets[v] == presets[w]
      ensures Named(variableNames[v]) && variableNames[v] == variableNames[w]
    {
    }

    /**
     * What the emitter needs of the IR: a well formed arena (only the lists and the
     * verbs' constant fields), non-empty verb and attribute names (XML names), and
     * text that is a `str` or absent.
     */
    ghost predicate Ready()
      reads ir`verbs, ir`children, ir.verbs`name, ir.verbs`attributes, ir.verbs`text
    {
      Arena() && TextsOk()
    }

    /** The arena's lists and the verbs' names and attributes (the part the emitter never changes). */
    ghost predicate Arena()
      reads ir`verbs, ir`children, ir.verbs`name, ir.verbs`attributes
    {
      |ir.verbs| > 0 && |ir.children| == |ir.verbs| && ir.verbs[0].parent.None? && Distinct()
      && (forall j :: 0 < j < |ir.verbs| ==> ir.verbs[j].parent.Some? && ir.verbs[j].parent.value < j)
      && (forall j, k :: 0 <= j < |ir.verbs| && 0 <= k < |ir.children[j]| ==>
            j < ir.children[j][k] < |ir.verbs| && ir.verbs[ir.children[j][k]].parent == Some(j))
      && (forall j, k1, k2 :: 0 <= j < |ir.verbs| && 0 <= k1 < k2 < |ir.children[j]| ==>
            ir.children[j][k1] < ir.children[j][k2])
      && (forall j :: 0 <= j < |ir.verbs| ==> ir.verbs[j].name != [] && NamedAttrs(ir.verbs[j].attributes))
    }

    /** What `join_appends` needs of the arena about the children of `j`. */
    ghost predicate ChildrenOk(j: nat)
      reads ir`verbs, ir`children, ir.verbs`name
    {
      j < |ir.verbs| && j < |ir.children| && ir.verbs[j].name != []
      && (forall k :: 0 <= k < |ir.children[j]| ==>
            j < ir.children[j][k] < |ir.verbs| && ir.verbs[ir.children[j][k]].parent == Some(j)
            && ir.verbs[ir.children[j][k]].name != [])
      && (forall k1, k2 :: 0 <= k1 < k2 < |ir.children[j]| ==> ir.children[j][k1] < ir.children[j][k2])
    }

    /**
     * What emitting the verb `j` on its own needs: names for it and its parent (which
     * comes before it), attribute names, text that is a `str` or absent, and each
     * verb object once.
     */
    ghost predicate Emittable(j: nat)
      reads ir`verbs, ir.verbs`name, ir.verbs`attributes, ir.verbs`text
    {
      j < |ir.verbs| && Distinct() && TextsOk()
      && ir.verbs[j].name != [] && NamedAttrs(ir.verbs[j].attributes)
      && (ir.verbs[j].parent.Some? ==>
            ir.verbs[j].parent.value < j && ir.verbs[ir.verbs[j].parent.value].name != [])
    }

    /** Every verb's text is a `str` or absent. */
    ghost predicate TextsOk()
      reads ir`verbs, ir.verbs`text
    {
      forall j :: 0 <= j < |ir.verbs| ==> ir.verbs[j].text.Null? || ir.verbs[j].text.Str?
    }

    /** The arena holds each verb object once. */
    ghost predicate Distinct()
      reads ir`verbs
    {
      forall i, j :: 0 <= i < j < |ir.verbs| ==> ir.verbs[i] != ir.verbs[j]
    }

    /** A verb's parent, unless the Java branch of `join_appends` has dropped it. */
    function ParentOf(j: nat): (p: Option<nat>)
      reads this`detached, ir`verbs
      requires j < |ir.verbs|
      ensures p.Some? ==> p == ir.verbs[j].parent
    {
      if j in detached then None else ir.verbs[j].parent
    }

    /** The variable name a verb holds, `''` for none (and for `verb=None`). */
    function VarOf(j: Option<nat>): string
      reads this`variableNames
    {
      if j.Some? && j.value < |variableNames| && variableNames[j.value].Some? then variableNames[j.value].value else ""
    }

    /**
     * `variable_for_verb`: `''` for no verb; a verb's own name when it has one;
     * otherwise the styled base name, or the base followed by 2, 3, ..., whichever
     * comes first that has not been handed out; that name is given to the verb and
     * recorded as handed out.
     */
    method VariableForVerb(verb: Option<nat>) returns (name: string)
      requires verb.Some? ==> verb.value < |ir.verbs| == |variableNames| && ir.verbs[verb.value].name != []
      requires NamesOk()
      modifies this`variableNames, ir`generatedVariablesNames
      ensures NamesOk() && KeepsNamed(variableNames, old(variableNames))
      ensures variableNames == Give(old(variableNames), verb, name)
      ensures verb.None? ==> name == "" && ir.generatedVariablesNames == old(ir.generatedVariablesNames)
      ensures verb.Some? ==> name != ""
      ensures verb.Some? && Named(old(variableNames[verb.value])) ==>
                name == old(variableNames[verb.value]).value
                && variableNames == old(variableNames)
                && ir.generatedVariablesNames == old(ir.generatedVariablesNames)
      ensures verb.Some? && !Named(old(variableNames[verb.value])) ==>
                name == FreshName(Styled(spec.variableNameStyle, ir.verbs[verb.value].name), old(ir.generatedVariablesNames))
                && ir.generatedVariablesNames == old(ir.generatedVariablesNames) + {name}
    {
      if verb.None? {
        return "";
      }
      var j := verb.value;
      if Named(variableNames[j]) {
        name := variableNames[j].value;
        assert variableNames[j := Some(name)] == variableNames;
        return;
      }
      var base := Styled(spec.variableNameStyle, ir.verbs[j].name);
      name := FirstFreeName(base, ir.generatedVariablesNames);
      assert name == Candidate(base, FreshAttempt(base, ir.generatedVariablesNames, 1));
      assert |name| >= |base|;
      variableNames := variableNames[j := Some(name)];
      ir.generatedVariablesNames := ir.generatedVariablesNames + {name};
    }
    /**
     * `quote_text_for_verb`: the verb's text quoted for the language (see
     * `QuotedVerbText`); a text `' '` is left on the verb as `''`.
     */
    method QuoteTextForVerb(j: nat) returns (text: string)
      requires Distinct() && TextsOk() && j < |ir.verbs|
      modifies ir.verbs`text
      ensures TextsOk()
      ensures text == QuotedVerbText(spec, old(ir.verbs[j].text), |ir.verbs[j].attributes| > 0)
      ensures ir.verbs[j].text == WrittenBack(old(ir.verbs[j].text))
      ensures forall i :: 0 <= i < |ir.verbs| && i != j ==> ir.verbs[i].text == old(ir.verbs[i].text)
    {
      var v := ir.verbs[j];
      if !Truthy(v.text) {
        return "";
      }
      if v.text == Str(" ") {
        v.text := Str("");
      }
      text := QuoteText(spec, v.text.s, |v.attributes| > 0);
    }

    /**
     * `build_attributes_for_verb`: one formatted entry per attribute, in the dict's
     * order; the imports of the `attributes_map` hits go to `specific_imports`.
     */
    method BuildAttributesForVerb(j: nat) returns (built: seq<string>)
      requires j < |ir.verbs| && NamedAttrs(ir.verbs[j].attributes)
      modifies this`specificImports
      ensures built == Entries(spec, ir.verbs[j].attributes)
      ensures specificImports == old(specificImports) + EntryImports(spec, ir.verbs[j].attributes)
    {
      var imports;
      built, imports := BuildEntries(spec, ir.verbs[j].attributes);
      specificImports := specificImports + imports;
    }

    /** `join_attributes_for_verb`: `''` without attributes, else the joined entries in their wrapper. */
    method JoinAttributesForVerb(j: nat) returns (joined: string)
      requires j < |ir.verbs| && NamedAttrs(ir.verbs[j].attributes)
      modifies this`specificImports
      ensures joined == JoinAttributes(spec, ir.verbs[j].attributes)
      ensures specificImports == old(specificImports) + EntryImports(spec, ir.verbs[j].attributes)
    {
      if |ir.verbs[j].attributes| > 0 {
        var built := BuildAttributesForVerb(j);
        joined := spec.attributesWrapperFormat(Join(spec.attributeJoin, built));
      } else {
        joined := "";
      }
    }

    /** `indent_for_verb`. */
    function Indent(j: nat): string
      reads ir`verbs
      requires j < |ir.verbs|
    {
      IndentForVerb(spec, ir.verbs[j].depth)
    }

    /** `class_for_verb`: the class for the verb's current name and the document's kind. */
    function Klass(j: nat): string
      reads ir`verbs, ir`isVoiceResponse, ir.verbs`name
      requires j < |ir.verbs|
    {
      ClassForVerbName(spec, ir.verbs[j].name, ir.isVoiceResponse)
    }

    /**
     * `class_for_verb` over the IR's verbs: the root `Response` gets the response
     * class of the document's kind; every other verb whose tag does not pascalize to
     * `Response` gets its `pascalize`-style name, wrapped by `new_klass` when the spec
     * has one, whatever the kind.
     */
    lemma KlassOfVerbs()
      requires Arena() && ir.verbs[0].name == "Response"
      ensures Klass(0) == if ir.isVoiceResponse then spec.voiceClass else spec.messagingClass
      ensures forall j :: 0 < j < |ir.verbs| && Inflection.Pascalize(ir.verbs[j].name) != "Response" ==>
                Klass(j) == if spec.newKlass.Some? then spec.newKlass.value(Styled(PascalStyle, ir.verbs[j].name))
                            else Styled(PascalStyle, ir.verbs[j].name)
    {
      var names := seq(|ir.verbs|, j requires 0 <= j < |ir.verbs| reads ir, ir.verbs => ir.verbs[j].name);
      ClassesOfVerbs(spec, names, ir.isVoiceResponse);
      assert forall j :: 0 <= j < |ir.verbs| ==> Klass(j) == ClassForVerbName(spec, names[j], ir.isVoiceResponse);
    }

    /** `method_for_verb`. */
    function MethodFor(j: nat): string
      reads ir`verbs, ir.verbs`name
      requires j < |ir.verbs| && ir.verbs[j].name != []
    {
      Styled(spec.methodNameStyle, ir.verbs[j].name)
    }

    /**
     * `output_new_text`: the text after the verb's closing tag, right-stripped, added
     * to the verb's parent (none once the Java branch of `join_appends` dropped it),
     * which is named now if it had no name.
     */
    method OutputNewText(j: nat) returns (line: string)
      requires j < |ir.verbs| == |variableNames| && ir.verbs[j].tail.Some?
      requires ParentOf(j).Some? ==> ParentOf(j).value < |ir.verbs| && ir.verbs[ParentOf(j).value].name != []
      requires NamesOk()
      modifies this`variableNames, ir`generatedVariablesNames
      ensures NamesOk() && KeepsNamed(variableNames, old(variableNames))
      ensures line == spec.newText(Args("", VarOf(ParentOf(j)), "", "", RStrip(ir.verbs[j].tail.value), "", old(Indent(j)), ""))
      ensures variableNames == Give(old(variableNames), ParentOf(j), VarOf(ParentOf(j)))
      ensures ParentOf(j).Some? ==> (VarOf(ParentOf(j)) != "" &&
                (Named(old(variableNames[ParentOf(j).value])) ==> variableNames == old(variableNames)))
    {
      var parent := VariableForVerb(ParentOf(j));
      line := spec.newText(Args("", parent, "", "", RStrip(ir.verbs[j].tail.value), "", Indent(j), ""));
    }

    /** `output_append`: the line that adds a finished verb with children to its parent. */
    method OutputAppend(j: nat) returns (line: string)
      requires Arena() && j < |ir.verbs| == |variableNames|
      requires NamesOk()
      modifies this`variableNames, ir`generatedVariablesNames
      ensures NamesOk() && KeepsNamed(variableNames, old(variableNames))
      ensures line == spec.append(Args(VarOf(Some(j)), VarOf(ParentOf(j)), old(Klass(j)), "", "", "", old(Indent(j)), ""))
      ensures variableNames == Give(Give(old(variableNames), ParentOf(j), VarOf(ParentOf(j))), Some(j), VarOf(Some(j)))
      ensures VarOf(Some(j)) != "" && (ParentOf(j).Some? ==> VarOf(ParentOf(j)) != "")
    {
      var parent := VariableForVerb(ParentOf(j));
      var variable := VariableForVerb(Some(j));
      line := spec.append(Args(variable, parent, Klass(j), "", "", "", Indent(j), ""));
    }

    /**
     * The parent, text and attribute parts of `output_new_leaf`, in its order: the
     * parent is named first if it has no name, then the text is quoted and the
     * attributes are joined.
     */
    method LeafContent(j: nat) returns (parent: string, text: string, attributes: string)
      requires Emittable(j) && |variableNames| == |ir.verbs|
      requires NamesOk()
      modifies this`variableNames, ir`generatedVariablesNames, ir.verbs`text, this`specificImports
      ensures NamesOk() && KeepsNamed(variableNames, old(variableNames))
      ensures TextsOk() && |variableNames| == |ir.verbs|
      ensures parent == VarOf(ParentOf(j)) && variableNames == Give(old(variableNames), ParentOf(j), parent)
      ensures ParentOf(j).Some? ==> parent != ""
      ensures text == QuotedVerbText(spec, old(ir.verbs[j].text), |ir.verbs[j].attributes| > 0)
      ensures attributes == JoinAttributes(spec, ir.verbs[j].attributes)
      ensures ir.verbs[j].text == WrittenBack(old(ir.verbs[j].text))
      ensures forall i :: 0 <= i < |ir.verbs| && i != j ==> ir.verbs[i].text == old(ir.verbs[i].text)
      ensures specificImports == old(specificImports) + EntryImports(spec, ir.verbs[j].attributes)
    {
      parent := VariableForVerb(ParentOf(j));
      text := QuoteTextForVerb(j);
      attributes := JoinAttributesForVerb(j);
    }

    /**
     * `output_new_leaf`: the line that adds a childless verb to its parent, with its
     * method, quoted text, attributes, class and variable name. The parent is named
     * first, then the text and the attributes are built, then the verb is named.
     */
    method OutputNewLeaf(j: nat) returns (line: string)
      requires Emittable(j) && |variableNames| == |ir.verbs|
      requires NamesOk()
      modifies this`variableNames, ir`generatedVariablesNames, ir.verbs`text, this`specificImports
      ensures NamesOk() && KeepsNamed(variableNames, old(variableNames))
      ensures TextsOk()
      ensures line == spec.newLeaf(Args(VarOf(Some(j)), VarOf(ParentOf(j)), old(Klass(j)),
                                        old(JoinAttributes(spec, ir.verbs[j].attributes)),
                                        old(QuotedVerbText(spec, ir.verbs[j].text, |ir.verbs[j].attributes| > 0)),
                                        "", old(Indent(j)), old(MethodFor(j))))
      ensures variableNames == Give(Give(old(variableNames), ParentOf(j), VarOf(ParentOf(j))), Some(j), VarOf(Some(j)))
      ensures VarOf(Some(j)) != "" && (ParentOf(j).Some? ==> VarOf(ParentOf(j)) != "")
      ensures ir.verbs[j].text == WrittenBack(old(ir.verbs[j].text))
      ensures forall i :: 0 <= i < |ir.verbs| && i != j ==> ir.verbs[i].text == old(ir.verbs[i].text)
      ensures specificImports == old(specificImports + EntryImports(spec, ir.verbs[j].attributes))
    {
      var methodName, klass := MethodFor(j), Klass(j);
      var parent, text, attributes := LeafContent(j);
      var variable := VariableForVerb(Some(j));
      line := spec.newLeaf(Args(variable, parent, klass, attributes, text, "", Indent(j), methodName));
    }

    /**
     * What `join_appends` adds for the child `c`: the chained call that appends it,
     * followed, when its tail is shown, by the text line for that tail.
     */
    ghost function AppendPiece(c: nat): string
      reads this`detached, this`variableNames, ir`verbs, ir.verbs`name
      requires c < |ir.verbs| && ir.verbs[c].name != [] && spec.chainedAppend.Some?
    {
      PieceText(spec, Piece(VarOf(Some(c)), MethodFor(c), ir.verbs[c].tail, VarOf(ParentOf(c)), Indent(c)))
    }

    /** The pieces of the children `cs`, one after the other. */
    ghost function Chain(cs: seq<nat>): string
      reads this`detached, this`variableNames, ir`verbs, ir.verbs`name
      requires spec.chainedAppend.Some?
      requires forall k :: 0 <= k < |cs| ==> cs[k] < |ir.verbs| && ir.verbs[cs[k]].name != []
    {
      if cs == [] then "" else Chain(cs[..|cs| - 1]) + AppendPiece(Last(cs))
    }

    /** The chain is the text of pieces that agree with the children's pieces. */
    lemma {:induction false} ChainIsPieces(cs: seq<nat>, ps: seq<Piece>)
      requires spec.chainedAppend.Some?
      requires forall k :: 0 <= k < |cs| ==> cs[k] < |ir.verbs| && ir.verbs[cs[k]].name != []
      requires |ps| == |cs| && forall k :: 0 <= k < |cs| ==> PieceText(spec, ps[k]) == AppendPiece(cs[k])
      ensures Chain(cs) == Pieces(spec, ps)
      decreases |cs|
    {
      if cs != [] {
        ChainIsPieces(cs[..|cs| - 1], ps[..|ps| - 1]);
      }
    }

    /** The method names of the verbs `cs`. */
    ghost function MethodsOf(cs: seq<nat>): (r: seq<string>)
      reads ir`verbs, ir.verbs`name
      requires forall k :: 0 <= k < |cs| ==> cs[k] < |ir.verbs| && ir.verbs[cs[k]].name != []
      ensures |r| == |cs|
    {
      if cs == [] then [] else MethodsOf(cs[..|cs| - 1]) + [MethodFor(Last(cs))]
    }

    lemma {:induction false} MethodsOfAt(cs: seq<nat>, k: nat)
      requires forall k :: 0 <= k < |cs| ==> cs[k] < |ir.verbs| && ir.verbs[cs[k]].name != []
      requires k < |cs|
      ensures MethodsOf(cs)[k] == MethodFor(cs[k])
      decreases |cs|
    {
      if k < |cs| - 1 {
        MethodsOfAt(cs[..|cs| - 1], k);
      }
    }

    /** The indentations of the verbs `cs`. */
    ghost function IndentsOf(cs: seq<nat>): (r: seq<string>)
      reads ir`verbs
      requires forall k :: 0 <= k < |cs| ==> cs[k] < |ir.verbs|
      ensures |r| == |cs|
    {
      if cs == [] then [] else IndentsOf(cs[..|cs| - 1]) + [Indent(Last(cs))]
    }

    lemma {:induction false} IndentsOfAt(cs: seq<nat>, k: nat)
      requires forall k :: 0 <= k < |cs| ==> cs[k] < |ir.verbs|
      requires k < |cs|
      ensures IndentsOf(cs)[k] == Indent(cs[k])
      decreases |cs|
    {
      if k < |cs| - 1 {
        IndentsOfAt(cs[..|cs| - 1], k);
      }
    }

    /**
     * What stays fixed while `join_appends` runs on `j`: its children `cs` and their
     * tails, methods and indentations.
     */
    ghost predicate JoinFixed(j: nat, cs: seq<nat>, tails: seq<Option<string>>, methods: seq<string>, indents: seq<string>)
      reads ir`verbs, ir`children, ir.verbs`name
    {
      ChildrenOk(j) && cs == ir.children[j]
      && tails == TailsOf(ir.verbs) && methods == MethodsOf(cs) && indents == IndentsOf(cs)
    }

    /** One turn of the loop of `join_appends`: the piece for the child `c` of `j`. */
    method AppendChild(j: nat, c: nat) returns (piece: string, variable: string)
      requires j < c < |ir.verbs| == |variableNames| && ir.verbs[c].parent == Some(j)
      requires ir.verbs[j].name != [] && ir.verbs[c].name != [] && Named(variableNames[j]) && spec.chainedAppend.Some?
      requires NamesOk()
      modifies this`variableNames, ir`generatedVariablesNames, this`detached
      ensures NamesOk() && KeepsNamed(variableNames, old(variableNames))
      ensures variable != "" && variableNames == old(variableNames)[c := Some(variable)]
      ensures detached == old(detached) + (if spec.language == "java" && TailShown(ir.verbs[c].tail) then {c} else {})
      ensures piece == PieceText(spec, Piece(variable, old(MethodFor(c)), old(ir.verbs[c].tail),
                                             if c in detached then "" else old(variableNames[j].value), old(Indent(c))))
    {
      variable := VariableForVerb(Some(c));
      piece := spec.chainedAppend.value(Args(variable, "", "", "", "", "", "", MethodFor(c)));
      if TailShown(ir.verbs[c].tail) {
        if spec.language == "java" {
          detached := detached + {c};
        }
        var text := OutputNewText(c);
        piece := piece + text;
      }
    }

    /** One turn of the loop of `join_appends`, as `Joined` describes it: the piece of the child `i` is added. */
    method JoinTurn(j: nat, i: nat, appends: string, cs: seq<nat>, ghost names0: seq<Option<string>>,
                    ghost det0: set<nat>, ghost tails: seq<Option<string>>, ghost methods: seq<string>,
                    ghost indents: seq<string>, ghost parentName: string, ghost ps: seq<Piece>)
      returns (appends': string, ghost ps': seq<Piece>)
      requires JoinFixed(j, cs, tails, methods, indents) && i < |cs| && spec.chainedAppend.Some?
      requires j < |ir.verbs| == |names0| == |variableNames| && variableNames[j] == Some(parentName) && parentName != ""
      requires appends == Pieces(spec, ps)
      requires Joined(variableNames, detached, names0, det0, spec.language == "java", cs, tails, methods, indents, parentName, i, ps)
      requires NamesOk()
      modifies this`variableNames, ir`generatedVariablesNames, this`detached
      ensures NamesOk() && KeepsNamed(variableNames, old(variableNames))
      ensures |variableNames| == |names0| && variableNames[j] == Some(parentName) && appends' == Pieces(spec, ps')
      ensures Joined(variableNames, detached, names0, det0, spec.language == "java", cs, tails, methods, indents, parentName,
                     i + 1, ps')
    {
      assert forall k :: 0 <= k < i ==> cs[k] < cs[i];
      ghost var names, det := variableNames, detached;
      MethodsOfAt(cs, i);
      IndentsOfAt(cs, i);
      var piece, variable := AppendChild(j, cs[i]);
      ghost var p := Piece(variable, methods[i], tails[cs[i]], if cs[i] in detached then "" else parentName, indents[i]);
      JoinedStep(names, det, names0, det0, spec.language == "java", cs, tails, methods, indents, parentName, i, ps,
                 variable, detached);
      PiecesSnoc(spec, ps, p);
      ps' := ps + [p];
      appends' := appends + piece;
    }

    /**
     * `join_appends`: without `chained_append`, nothing; otherwise the pieces of the
     * verb's children in order, naming each child. In Java, a child whose tail is
     * shown loses its parent before its text line is made.
     */
    method JoinAppends(j: nat) returns (appends: string)
      requires ChildrenOk(j) && j < |ir.verbs| == |variableNames| && Named(variableNames[j])
      requires NamesOk()
      modifies this`variableNames, ir`generatedVariablesNames, this`detached
      ensures NamesOk() && KeepsNamed(variableNames, old(variableNames))
      ensures spec.chainedAppend.None? ==> appends == "" && detached == old(detached) && variableNames == old(variableNames)
      ensures spec.chainedAppend.Some? ==>
                appends == Chain(ir.children[j])
                && Renamed(variableNames, detached, old(variableNames), old(detached), spec.language == "java", ir.children[j],
                           TailsOf(ir.verbs))
    {
      if spec.chainedAppend.None? {
        return "";
      }
      appends := JoinChildren(j, ir.children[j]);
    }

    /** The loop of `join_appends` over the children `cs` of `j`, when the language chains its appends. */
    method JoinChildren(j: nat, cs: seq<nat>) returns (appends: string)
      requires ChildrenOk(j) && cs == ir.children[j] && j < |ir.verbs| == |variableNames| && Named(variableNames[j])
      requires spec.chainedAppend.Some?
      requires NamesOk()
      modifies this`variableNames, ir`generatedVariablesNames, this`detached
      ensures NamesOk() && KeepsNamed(variableNames, old(variableNames))
      ensures appends == Chain(cs)
      ensures Renamed(variableNames, detached, old(variableNames), old(detached), spec.language == "java", cs, TailsOf(ir.verbs))
    {
      ghost var tails := TailsOf(ir.verbs);
      ghost var parentName := variableNames[j].value;
      ghost var methods, indents := MethodsOf(cs), IndentsOf(cs);
      ghost var ps;
      appends, ps := JoinLoop(j, cs, tails, methods, indents, parentName);
      JoinedChain(j, cs, old(variableNames), old(detached), tails, methods, indents, parentName, ps);
    }

    /** The turns of that loop, one per child, as `Joined` describes them. */
    method JoinLoop(j: nat, cs: seq<nat>, ghost tails: seq<Option<string>>, ghost methods: seq<string>,
                    ghost indents: seq<string>, ghost parentName: string)
      returns (appends: string, ghost ps: seq<Piece>)
      requires JoinFixed(j, cs, tails, methods, indents) && spec.chainedAppend.Some?
      requires j < |ir.verbs| == |variableNames| && variableNames[j] == Some(parentName) && parentName != ""
      requires NamesOk()
      modifies this`variableNames, ir`generatedVariablesNames, this`detached
      ensures NamesOk() && KeepsNamed(variableNames, old(variableNames))
      ensures |variableNames| == |old(variableNames)| && variableNames[j] == Some(parentName) && appends == Pieces(spec, ps)
      ensures Joined(variableNames, detached, old(variableNames), old(detached), spec.language == "java", cs, tails, methods,
                     indents, parentName, |cs|, ps)
    {
      ghost var names0, det0 := variableNames, detached;
      appends := "";
      ps := [];
      for i := 0 to |cs|
        invariant |variableNames| == |names0| && variableNames[j] == Some(parentName)
        invariant NamesOk() && KeepsNamed(variableNames, names0)
        invariant appends == Pieces(spec, ps)
        invariant Joined(variableNames, detached, names0, det0, spec.language == "java", cs, tails, methods, indents,
                         parentName, i, ps)
      {
        ghost var names := variableNames;
        appends, ps := JoinTurn(j, i, appends, cs, names0, det0, tails, methods, indents, parentName, ps);
        KeepsNamedTrans(variableNames, names, names0);
      }
    }

    /** After the last child, the pieces make the chain and the names and detached set are as `join_appends` leaves them. */
    lemma JoinedChain(j: nat, cs: seq<nat>, names0: seq<Option<string>>, det0: set<nat>, tails: seq<Option<string>>,
                      methods: seq<string>, indents: seq<string>, parentName: string, ps: seq<Piece>)
      requires JoinFixed(j, cs, tails, methods, indents) && spec.chainedAppend.Some?
      requires j < |ir.verbs| == |names0| == |variableNames| && variableNames[j] == Some(parentName)
      requires Joined(variableNames, detached, names0, det0, spec.language == "java", cs, tails, methods, indents,
                      parentName, |cs|, ps)
      ensures Chain(cs) == Pieces(spec, ps)
      ensures Renamed(variableNames, detached, names0, det0, spec.language == "java", cs, tails)
    {
      assert cs[..|cs|] == cs;
      forall k | 0 <= k < |cs|
        ensures PieceText(spec, ps[k]) == AppendPiece(cs[k])
      {
        MethodsOfAt(cs, k);
        IndentsOfAt(cs, k);
      }
      ChainIsPieces(cs, ps);
    }

    /** What `Ready` gives the output methods for one verb. */
    lemma ReadyParts(j: nat)
      requires Ready() && j < |ir.verbs|
      ensures ChildrenOk(j) && Emittable(j)
    {
    }

    /**
     * The line `output_new_variable` makes from its parts: `new_block` for a verb with
     * a parent when the language has that template, else `new_variable` (whose
     * parent field is left empty).
     */
    function NewVariableText(block: bool, a: Args): string
    {
      if block && spec.newBlock.Some? then spec.newBlock.value(a) else spec.newVariable(a)
    }

    /**
     * `output_new_variable`: the line that creates a verb that will hold others, with
     * its variable name, class, attributes, quoted text, the chained appends of its
     * children and its indentation; with `new_block`, the parent's variable too. The
     * verb is named first, then its parent, then the attributes are joined, the text
     * quoted and the children chained.
     */
    method OutputNewVariable(j: nat) returns (line: string, ghost appends: string)
      requires Emittable(j) && ChildrenOk(j) && |variableNames| == |ir.verbs| && NamesOk()
      modifies this`variableNames, ir`generatedVariablesNames, ir.verbs`text, this`specificImports, this`detached
      ensures line == NewVariableText(old(ParentOf(j)).Some?,
                                      Args(VarOf(Some(j)), if spec.newBlock.Some? then VarOf(old(ParentOf(j))) else "", old(Klass(j)),
                                           old(JoinAttributes(spec, ir.verbs[j].attributes)),
                                           old(QuotedVerbText(spec, ir.verbs[j].text, |ir.verbs[j].attributes| > 0)),
                                           appends, old(Indent(j)), ""))
      ensures appends == if spec.chainedAppend.Some? then Chain(ir.children[j]) else ""
      ensures NamesOk() && TextsOk() && KeepsNamed(variableNames, old(variableNames)) && Named(variableNames[j])
      ensures spec.newBlock.Some? && old(ParentOf(j)).Some? ==> VarOf(old(ParentOf(j))) != ""
      ensures ir.verbs[j].text == WrittenBack(old(ir.verbs[j].text))
      ensures forall i :: 0 <= i < |ir.verbs| && i != j ==> ir.verbs[i].text == old(ir.verbs[i].text)
      ensures specificImports == old(specificImports + EntryImports(spec, ir.verbs[j].attributes))
      ensures old(detached) <= detached && (spec.chainedAppend.None? ==> detached == old(detached))
      ensures DetachedWithin(old(detached), detached, ir.children[j])
    {
      var klass := Klass(j);
      var p := ParentOf(j);
      var indent := Indent(j);
      var variable, parent := NameVariable(j);
      ghost var names := variableNames;
      line, appends := VariableLine(j, p.Some?, variable, parent, klass, indent);
      KeepsNamedTrans(variableNames, names, old(variableNames));
    }

    /** The rest of `output_new_variable`, once the names are handed out. */
    method VariableLine(j: nat, block: bool, variable: string, parent: string, klass: string, indent: string)
      returns (line: string, ghost appends: string)
      requires Emittable(j) && ChildrenOk(j) && |variableNames| == |ir.verbs| && Named(variableNames[j]) && NamesOk()
      modifies this`variableNames, ir`generatedVariablesNames, ir.verbs`text, this`specificImports, this`detached
      ensures line == NewVariableText(block, Args(variable, parent, klass, old(JoinAttributes(spec, ir.verbs[j].attributes)),
                                                  old(QuotedVerbText(spec, ir.verbs[j].text, |ir.verbs[j].attributes| > 0)),
                                                  appends, indent, ""))
      ensures appends == if spec.chainedAppend.Some? then Chain(ir.children[j]) else ""
      ensures NamesOk() && TextsOk() && KeepsNamed(variableNames, old(variableNames)) && old(detached) <= detached
      ensures variableNames[j] == old(variableNames[j]) && ParentOf(j) == old(ParentOf(j))
      ensures ParentOf(j).Some? ==> variableNames[ParentOf(j).value] == old(variableNames[ParentOf(j).value])
      ensures ir.verbs[j].text == WrittenBack(old(ir.verbs[j].text))
      ensures forall i :: 0 <= i < |ir.verbs| && i != j ==> ir.verbs[i].text == old(ir.verbs[i].text)
      ensures specificImports == old(specificImports + EntryImports(spec, ir.verbs[j].attributes))
      ensures spec.chainedAppend.None? ==> detached == old(detached)
      ensures DetachedWithin(old(detached), detached, ir.children[j])
    {
      var attributes, text, chain := VariableContent(j);
      appends := chain;
      line := NewVariableText(block, Args(variable, parent, klass, attributes, text, chain, indent, ""));
    }

    /**
     * The names `output_new_variable` hands out before anything else: the verb's, then,
     * for `new_block`, its parent's.
     */
    method NameVariable(j: nat) returns (variable: string, parent: string)
      requires Emittable(j) && |variableNames| == |ir.verbs| && NamesOk()
      modifies this`variableNames, ir`generatedVariablesNames
      ensures NamesOk() && KeepsNamed(variableNames, old(variableNames))
      ensures variable != "" && variable == VarOf(Some(j)) && Named(variableNames[j])
      ensures parent == (if spec.newBlock.Some? then VarOf(ParentOf(j)) else "")
      ensures ParentOf(j).Some? && spec.newBlock.Some? ==> parent != ""
      ensures variableNames == Give(Give(old(variableNames), Some(j), variable),
                                    if spec.newBlock.Some? then ParentOf(j) else None, parent)
      ensures Emittable(j) == old(Emittable(j)) && ChildrenOk(j) == old(ChildrenOk(j))
    {
      variable := VariableForVerb(Some(j));
      parent := "";
      if ParentOf(j).Some? && spec.newBlock.Some? {
        ghost var names := variableNames;
        parent := VariableForVerb(ParentOf(j));
        KeepsNamedTrans(variableNames, names, old(variableNames));
      }
    }

    /**
     * The attribute, text and appends parts of `output_new_variable`, in its order:
     * the attributes are joined, the text is quoted, then the children are chained.
     */
    method VariableContent(j: nat) returns (attributes: string, text: string, appends: string)
      requires Emittable(j) && ChildrenOk(j) && |variableNames| == |ir.verbs| && Named(variableNames[j]) && NamesOk()
      modifies this`variableNames, ir`generatedVariablesNames, ir.verbs`text, this`specificImports, this`detached
      ensures NamesOk() && TextsOk() && KeepsNamed(variableNames, old(variableNames)) && old(detached) <= detached
      ensures variableNames[j] == old(variableNames[j]) && ParentOf(j) == old(ParentOf(j))
      ensures ParentOf(j).Some? ==> variableNames[ParentOf(j).value] == old(variableNames[ParentOf(j).value])
      ensures attributes == JoinAttributes(spec, ir.verbs[j].attributes)
      ensures text == QuotedVerbText(spec, old(ir.verbs[j].text), |ir.verbs[j].attributes| > 0)
      ensures ir.verbs[j].text == WrittenBack(old(ir.verbs[j].text))
      ensures forall i :: 0 <= i < |ir.verbs| && i != j ==> ir.verbs[i].text == old(ir.verbs[i].text)
      ensures specificImports == old(specificImports) + EntryImports(spec, ir.verbs[j].attributes)
      ensures spec.chainedAppend.None? ==> appends == "" && detached == old(detached) && variableNames == old(variableNames)
      ensures spec.chainedAppend.Some? ==>
                appends == Chain(ir.children[j])
                && Renamed(variableNames, detached, old(variableNames), old(detached), spec.language == "java", ir.children[j],
                           TailsOf(ir.verbs))
    {
      attributes := JoinAttributesForVerb(j);
      text := QuoteTextForVerb(j);
      appends := ChainChildren(j);
    }

    /** `join_appends` for a verb, and what it leaves alone: the verb's and its parent's names. */
    method ChainChildren(j: nat) returns (appends: string)
      requires ChildrenOk(j) && j < |ir.verbs| == |variableNames| && Named(variableNames[j])
      requires NamesOk() && (ir.verbs[j].parent.Some? ==> ir.verbs[j].parent.value < j)
      modifies this`variableNames, ir`generatedVariablesNames, this`detached
      ensures NamesOk() && KeepsNamed(variableNames, old(variableNames)) && old(detached) <= detached
      ensures variableNames[j] == old(variableNames[j]) && ParentOf(j) == old(ParentOf(j))
      ensures ParentOf(j).Some? ==> variableNames[ParentOf(j).value] == old(variableNames[ParentOf(j).value])
      ensures spec.chainedAppend.None? ==> appends == "" && detached == old(detached) && variableNames == old(variableNames)
      ensures spec.chainedAppend.Some? ==>
                appends == Chain(ir.children[j])
                && Renamed(variableNames, detached, old(variableNames), old(detached), spec.language == "java", ir.children[j],
                           TailsOf(ir.verbs))
    {
      ghost var names, det, p := variableNames, detached, ParentOf(j);
      appends := JoinAppends(j);
      if spec.chainedAppend.Some? {
        ghost var cs, java, tails := ir.children[j], spec.language == "java", TailsOf(ir.verbs);
        assert j !in cs;
        RenamedOutside(variableNames, detached, names, det, java, cs, tails, j);
        RenamedStays(variableNames, detached, names, det, java, cs, tails);
        if p.Some? {
          assert p.value < j && p.value !in cs;
          RenamedOutside(variableNames, detached, names, det, java, cs, tails, p.value);
        }
      }
    }

    /**
     * The line the output method behind `x` makes from the arguments `a`;
     * `output_new_variable` takes `new_block` when `block` holds and the language has it.
     */
    function Template(x: Line, a: Args, block: bool): string
    {
      match x
      case VariableLine(_) => NewVariableText(block, a)
      case LeafLine(_) => spec.newLeaf(a)
      case AppendLine(_) => spec.append(a)
      case TextLine(_) => spec.newText(a)
    }

    /**
     * The IR holds the verbs of the document `d`, with the same names, attributes,
     * tails, parents and depths and the same kind; only texts and variable names may
     * differ.
     */
    ghost predicate Agrees(d: Doc)
      reads ir`verbs, ir`isVoiceResponse, ir.verbs`name, ir.verbs`attributes
    {
      |d.verbs| == |ir.verbs| && d.isVoiceResponse == ir.isVoiceResponse
      && forall v :: 0 <= v < |d.verbs| ==>
           d.verbs[v].name == ir.verbs[v].name && d.verbs[v].attributes == ir.verbs[v].attributes
           && d.verbs[v].tail == ir.verbs[v].tail && d.verbs[v].parent == ir.verbs[v].parent
           && d.verbs[v].depth == ir.verbs[v].depth
    }

    /**
     * The arguments of a line that creates the verb `v` of the document `d`: its name
     * in `names`, its class, its joined attributes and its text in `d`, quoted.
     */
    ghost predicate CreatedWith(d: Doc, v: nat, a: Args, names: seq<Option<string>>)
      requires v < |d.verbs|
    {
      v < |names| && a.variable != "" && names[v] == Some(a.variable)
      && a.klass == ClassForVerbName(spec, d.verbs[v].name, d.isVoiceResponse)
      && NamedAttrs(d.verbs[v].attributes) && a.attributes == JoinAttributes(spec, d.verbs[v].attributes)
      && (d.verbs[v].text.Null? || d.verbs[v].text.Str?)
      && a.text == QuotedVerbText(spec, d.verbs[v].text, |d.verbs[v].attributes| > 0)
    }

    /**
     * The parent argument `p` of a line about the verb `v` of `d`: `''` for the root,
     * and the name of `v`'s parent in `names` when `v` is not among the detached verbs
     * `det`.
     */
    ghost predicate ParentArg(d: Doc, v: nat, p: string, names: seq<Option<string>>, det: set<nat>)
      requires v < |d.verbs|
    {
      (d.verbs[v].parent.None? ==> p == "")
      && (d.verbs[v].parent.Some? && v !in det ==>
            p != "" && d.verbs[v].parent.value < |names| && names[d.verbs[v].parent.value] == Some(p))
    }

    /**
     * What the arguments `a` of the line `x` hold for its verb `v` of the document
     * `d` as it was before the build, given the names `names` and detached verbs `det`
     * after it:
     * - every line: `v`'s indentation;
     * - `output_new_variable`: `CreatedWith`, no method; the parent only with
     *   `new_block`, which is taken (`block`) only for a verb with a parent and always
     *   for one that was never detached;
     * - `output_new_leaf`: `CreatedWith`, the parent, `v`'s method, no appends;
     * - `output_append`: `v`'s name and class and its parent's name, nothing else;
     * - `output_new_text`: `v`'s tail right-stripped and the parent, nothing else.
     * What the chained appends of a variable line hold is left to `OutputNewVariable`.
     */
    ghost predicate ArgsFor(d: Doc, x: Line, a: Args, block: bool, names: seq<Option<string>>, det: set<nat>)
      requires x.v < |d.verbs|
    {
      var v := x.v;
      a.indent == IndentForVerb(spec, d.verbs[v].depth)
      && match x
         case VariableLine(_) =>
           CreatedWith(d, v, a, names) && a.methodName == ""
           && (if spec.newBlock.Some? then ParentArg(d, v, a.parent, names, det) else a.parent == "")
           && (block ==> d.verbs[v].parent.Some?) && (d.verbs[v].parent.Some? && v !in det ==> block)
         case LeafLine(_) =>
           CreatedWith(d, v, a, names) && ParentArg(d, v, a.parent, names, det)
           && d.verbs[v].name != [] && a.methodName == Styled(spec.methodNameStyle, d.verbs[v].name) && a.appends == ""
         case AppendLine(_) =>
           v < |names| && a.variable != "" && names[v] == Some(a.variable)
           && a.klass == ClassForVerbName(spec, d.verbs[v].name, d.isVoiceResponse)
           && d.verbs[v].parent.Some? && ParentArg(d, v, a.parent, names, {})
           && a.attributes == "" && a.text == "" && a.appends == "" && a.methodName == ""
         case TextLine(_) =>
           d.verbs[v].tail.Some? && a.text == RStrip(d.verbs[v].tail.value) && ParentArg(d, v, a.parent, names, det)
           && a.variable == "" && a.klass == "" && a.attributes == "" && a.appends == "" && a.methodName == ""
    }

    /**
     * The lines `lines` are, one by one, the lines `kinds` made from the arguments
     * `args` (and `blocks`), each then passed `drops` times through
     * `replace('()', '')`, which only a language with `optional_parentheses` does; the
     * arguments hold what `ArgsFor` says.
     */
    ghost predicate LinesMade(d: Doc, lines: seq<string>, kinds: seq<Line>, args: seq<Args>, blocks: seq<bool>,
                              drops: seq<nat>, names: seq<Option<string>>, det: set<nat>)
    {
      |lines| == |kinds| == |args| == |blocks| == |drops|
      && forall i {:trigger LineMade(d, lines[i], kinds[i], args[i], blocks[i], drops[i], names, det)} ::
           0 <= i < |lines| ==> LineMade(d, lines[i], kinds[i], args[i], blocks[i], drops[i], names, det)
    }

    /** One line of `LinesMade`. */
    ghost predicate LineMade(d: Doc, line: string, x: Line, a: Args, block: bool, drop: nat,
                             names: seq<Option<string>>, det: set<nat>)
    {
      x.v < |d.verbs| && line == DropN(Template(x, a, block), drop) && (!spec.optionalParentheses ==> drop == 0)
      && ArgsFor(d, x, a, block, names, det)
    }

    /** What `ArgsFor` says stays true while names are kept and more verbs are detached. */
    lemma ArgsForKept(d: Doc, x: Line, a: Args, block: bool, names: seq<Option<string>>, names': seq<Option<string>>,
                      det: set<nat>, det': set<nat>)
      requires x.v < |d.verbs| && ArgsFor(d, x, a, block, names, det)
      requires KeepsNamed(names', names) && det <= det'
      ensures ArgsFor(d, x, a, block, names', det')
    {
      var v := x.v;
      if x.VariableLine? || x.LeafLine? || x.AppendLine? {
        assert Named(names[v]);
      }
      if d.verbs[v].parent.Some? {
        var p := d.verbs[v].parent.value;
        if p < |names| && Named(names[p]) {
          assert names'[p] == names[p];
        }
      }
    }

    /** Lines made earlier, then more lines: together, they are lines made. */
    lemma LinesGrow(d: Doc, lines: seq<string>, kinds: seq<Line>, args: seq<Args>, blocks: seq<bool>, drops: seq<nat>,
                    names: seq<Option<string>>, det: set<nat>,
                    out: seq<string>, kinds': seq<Line>, args': seq<Args>, blocks': seq<bool>,
                    names': seq<Option<string>>, det': set<nat>)
      requires LinesMade(d, lines, kinds, args, blocks, drops, names, det)
      requires LinesMade(d, out, kinds', args', blocks', Zeros(|out|), names', det')
      requires KeepsNamed(names', names) && det <= det'
      ensures LinesMade(d, lines + out, kinds + kinds', args + args', blocks + blocks', drops + Zeros(|out|), names', det')
    {
      var n := |lines|;
      forall i | 0 <= i < n + |out|
        ensures LineMade(d, (lines + out)[i], (kinds + kinds')[i], (args + args')[i], (blocks + blocks')[i],
                         (drops + Zeros(|out|))[i], names', det')
      {
        if i < n {
          assert LineMade(d, lines[i], kinds[i], args[i], blocks[i], drops[i], names, det);
          ArgsForKept(d, kinds[i], args[i], blocks[i], names, names', det, det');
        } else {
          assert LineMade(d, out[i - n], kinds'[i - n], args'[i - n], blocks'[i - n], Zeros(|out|)[i - n], names', det');
        }
      }
    }

    /** One line made is lines made. */
    lemma OneLine(d: Doc, line: string, x: Line, a: Args, block: bool, names: seq<Option<string>>, det: set<nat>)
      requires LineMade(d, line, x, a, block, 0, names, det)
      ensures LinesMade(d, [line], [x], [a], [block], Zeros(1), names, det)
    {
    }

    /** `lines[-1] = lines[-1].replace('()', '')` adds one pass to the last line. */
    lemma LinesDrop(d: Doc, lines: seq<string>, kinds: seq<Line>, args: seq<Args>, blocks: seq<bool>, drops: seq<nat>,
                    names: seq<Option<string>>, det: set<nat>)
      requires LinesMade(d, lines, kinds, args, blocks, drops, names, det) && lines != [] && spec.optionalParentheses
      ensures LinesMade(d, DropParentheses(lines), kinds, args, blocks, drops[|drops| - 1 := drops[|drops| - 1] + 1],
                        names, det)
    {
      var n := |lines| - 1;
      forall i | 0 <= i <= n
        ensures LineMade(d, DropParentheses(lines)[i], kinds[i], args[i], blocks[i],
                         drops[n := drops[n] + 1][i], names, det)
      {
        assert LineMade(d, lines[i], kinds[i], args[i], blocks[i], drops[i], names, det);
      }
    }

    /**
     * The `start` line of a verb: `output_new_variable`, made from arguments `a` that
     * hold what `ArgsFor` says of the verb in `d`, whose text the verb still holds.
     */
    method EmitStart(v: nat, ghost d: Doc) returns (line: string, ghost a: Args, ghost block: bool)
      requires Ready() && NamesOk() && Agrees(d) && v < |ir.verbs| == |variableNames| && ir.verbs[v].text == d.verbs[v].text
      modifies this`variableNames, ir`generatedVariablesNames, ir.verbs`text, this`specificImports, this`detached
      ensures TextsOk()
      ensures NamesOk() && KeepsNamed(variableNames, old(variableNames)) && old(detached) <= detached
      ensures Named(variableNames[v]) && DetachedWithin(old(detached), detached, ir.children[v])
      ensures forall i :: 0 <= i < |ir.verbs| && i != v ==> ir.verbs[i].text == old(ir.verbs[i].text)
      ensures LinesMade(d, [line], [Line.VariableLine(v)], [a], [block], Zeros(1), variableNames, detached)
    {
      ReadyParts(v);
      ghost var verb, p := d.verbs[v], ParentOf(v);
      AgreesAt(d, v);
      ghost var klass, attributes := ClassForVerbName(spec, verb.name, d.isVoiceResponse), JoinAttributes(spec, verb.attributes);
      ghost var text, indent := QuotedVerbText(spec, verb.text, |verb.attributes| > 0), IndentForVerb(spec, verb.depth);
      ghost var appends;
      line, appends := OutputNewVariable(v);
      block := p.Some?;
      a := Args(VarOf(Some(v)), if spec.newBlock.Some? then VarOf(p) else "", klass, attributes, text, appends, indent, "");
      OneLine(d, line, Line.VariableLine(v), a, block, variableNames, detached);
    }

    /**
     * What the verb `v` of the IR shares with the verb `v` of `d`, whose text it
     * still holds: class, indentation, method, attributes, joined attributes, quoted
     * text and, unless detached, parent.
     */
    lemma AgreesAt(d: Doc, v: nat)
      requires Arena() && TextsOk() && Agrees(d) && v < |ir.verbs| && ir.verbs[v].text == d.verbs[v].text
      ensures Klass(v) == ClassForVerbName(spec, d.verbs[v].name, d.isVoiceResponse)
      ensures Indent(v) == IndentForVerb(spec, d.verbs[v].depth) && d.verbs[v].name != []
      ensures MethodFor(v) == Styled(spec.methodNameStyle, d.verbs[v].name)
      ensures ir.verbs[v].attributes == d.verbs[v].attributes && NamedAttrs(d.verbs[v].attributes)
      ensures JoinAttributes(spec, ir.verbs[v].attributes) == JoinAttributes(spec, d.verbs[v].attributes)
      ensures (d.verbs[v].text.Null? || d.verbs[v].text.Str?) && QuotedVerbText(spec, ir.verbs[v].text, |ir.verbs[v].attributes| > 0)
              == QuotedVerbText(spec, d.verbs[v].text, |d.verbs[v].attributes| > 0)
      ensures ParentOf(v) == if v in detached then None else d.verbs[v].parent
    {
    }

    /**
     * The `leaf` line of a verb: `output_new_leaf`, made from arguments `a` that hold
     * what `ArgsFor` says of the verb in `d`, whose text the verb still holds.
     */
    method EmitLeaf(v: nat, ghost d: Doc) returns (line: string, ghost a: Args)
      requires Ready() && NamesOk() && Agrees(d) && v < |ir.verbs| == |variableNames| && ir.verbs[v].text == d.verbs[v].text
      modifies this`variableNames, ir`generatedVariablesNames, ir.verbs`text, this`specificImports
      ensures TextsOk()
      ensures NamesOk() && KeepsNamed(variableNames, old(variableNames))
      ensures Named(variableNames[v])
      ensures forall i :: 0 <= i < |ir.verbs| && i != v ==> ir.verbs[i].text == old(ir.verbs[i].text)
      ensures LinesMade(d, [line], [LeafLine(v)], [a], [false], Zeros(1), variableNames, detached)
    {
      ReadyParts(v);
      ghost var p := ParentOf(v);
      ghost var verb := d.verbs[v];
      AgreesAt(d, v);
      line := OutputNewLeaf(v);
      a := Args(VarOf(Some(v)), VarOf(p), ClassForVerbName(spec, verb.name, d.isVoiceResponse),
                JoinAttributes(spec, verb.attributes), QuotedVerbText(spec, verb.text, |verb.attributes| > 0), "",
                IndentForVerb(spec, verb.depth), Styled(spec.methodNameStyle, verb.name));
      OneLine(d, line, LeafLine(v), a, false, variableNames, detached);
    }

    /**
     * The `end` line of a verb that still has a parent: `output_append`, kept when it
     * is not empty (`now`), made from arguments that hold what `ArgsFor` says.
     */
    method EmitEnd(v: nat, ghost d: Doc) returns (out: seq<string>, ghost now: bool, ghost kinds: seq<Line>,
                                                  ghost args: seq<Args>, ghost blocks: seq<bool>)
      requires Ready() && NamesOk() && Agrees(d) && v < |ir.verbs| == |variableNames|
      modifies this`variableNames, ir`generatedVariablesNames
      ensures NamesOk() && KeepsNamed(variableNames, old(variableNames))
      ensures EndRule(spec, d, End(v), detached, variableNames, now)
      ensures kinds == if now then [AppendLine(v)] else []
      ensures LinesMade(d, out, kinds, args, blocks, Zeros(|out|), variableNames, detached)
    {
      out, now, kinds, args, blocks := [], false, [], [], [];
      ghost var verb, p := d.verbs[v], ParentOf(v);
      if ParentOf(v).Some? {
        ghost var klass, indent := ClassForVerbName(spec, verb.name, d.isVoiceResponse), IndentForVerb(spec, verb.depth);
        assert Klass(v) == klass && Indent(v) == indent && p == verb.parent;
        var line := OutputAppend(v);
        assert line == AppendText(spec, d, v, variableNames);
        if line != "" {
          ghost var a := Args(VarOf(Some(v)), VarOf(p), klass, "", "", "", indent, "");
          out, now := [line], true;
          kinds, args, blocks := [AppendLine(v)], [a], [false];
          OneLine(d, line, AppendLine(v), a, false, variableNames, detached);
        }
      }
    }

    /**
     * The `output_new_text` line `__repr__` adds after any event of a verb whose tail
     * is shown, made from arguments that hold what `ArgsFor` says.
     */
    method EmitText(v: nat, ghost d: Doc) returns (out: seq<string>, ghost kinds: seq<Line>, ghost args: seq<Args>,
                                                   ghost blocks: seq<bool>)
      requires Arena() && NamesOk() && Agrees(d) && v < |ir.verbs| == |variableNames|
      modifies this`variableNames, ir`generatedVariablesNames
      ensures NamesOk() && KeepsNamed(variableNames, old(variableNames))
      ensures kinds == if TailShown(ir.verbs[v].tail) then [TextLine(v)] else []
      ensures LinesMade(d, out, kinds, args, blocks, Zeros(|out|), variableNames, detached)
    {
      out, kinds, args, blocks := [], [], [], [];
      if TailShown(ir.verbs[v].tail) {
        ghost var verb, p := d.verbs[v], ParentOf(v);
        ghost var indent := IndentForVerb(spec, verb.depth);
        assert Indent(v) == indent && ir.verbs[v].tail == verb.tail && (p.Some? || v !in detached ==> p == verb.parent);
        var text := OutputNewText(v);
        ghost var a := Args("", VarOf(p), "", "", RStrip(verb.tail.value), "", indent, "");
        out, kinds, args, blocks := [text], [TextLine(v)], [a], [false];
        OneLine(d, text, TextLine(v), a, false, variableNames, detached);
      }
    }

    /** The line for the kind of the event `e`: `EmitStart`, `EmitLeaf` or `EmitEnd`. */
    method EmitMain(e: Event, ghost d: Doc)
      returns (out: seq<string>, ghost now: bool, ghost kinds: seq<Line>, ghost args: seq<Args>, ghost blocks: seq<bool>)
      requires Ready() && NamesOk() && Agrees(d) && e.v < |ir.verbs| == |variableNames|
      requires !e.End? ==> ir.verbs[e.v].text == d.verbs[e.v].text
      modifies this`variableNames, ir`generatedVariablesNames, ir.verbs`text, this`specificImports, this`detached
      ensures TextsOk()
      ensures NamesOk() && KeepsNamed(variableNames, old(variableNames)) && old(detached) <= detached
      ensures !e.End? ==> Named(variableNames[e.v])
      ensures EndRule(spec, d, e, old(detached), variableNames, now)
      ensures DetachedWithin(old(detached), detached, if e.Start? then ir.children[e.v] else [])
      ensures forall i :: 0 <= i < |ir.verbs| && (i != e.v || e.End?) ==> ir.verbs[i].text == old(ir.verbs[i].text)
      ensures kinds == MainLines(e, if now then {e.v} else {})
      ensures LinesMade(d, out, kinds, args, blocks, Zeros(|out|), variableNames, detached)
    {
      match e {
        case Start(v) =>
          var line;
          ghost var a, block;
          line, a, block := EmitStart(v, d);
          out, now, kinds, args, blocks := [line], false, [Line.VariableLine(v)], [a], [block];
        case Leaf(v) =>
          var line;
          ghost var a;
          line, a := EmitLeaf(v, d);
          out, now, kinds, args, blocks := [line], false, [LeafLine(v)], [a], [false];
        case End(v) =>
          out, now, kinds, args, blocks := EmitEnd(v, d);
      }
    }

    /**
     * One turn of the loop of `__repr__`: the line for the event's kind, then the
     * `output_new_text` line when the verb's tail is shown; `kinds` says which line
     * is which, and each is made from arguments that hold what `ArgsFor` says of the
     * verb in `d`.
     */
    method EmitEvent(e: Event, ghost d: Doc)
      returns (out: seq<string>, ghost now: bool, ghost kinds: seq<Line>, ghost args: seq<Args>, ghost blocks: seq<bool>)
      requires Ready() && NamesOk() && Agrees(d) && e.v < |ir.verbs| == |variableNames|
      requires !e.End? ==> ir.verbs[e.v].text == d.verbs[e.v].text
      modifies this`variableNames, ir`generatedVariablesNames, ir.verbs`text, this`specificImports, this`detached
      ensures TextsOk() && Arena() == old(Arena())
      ensures NamesOk() && KeepsNamed(variableNames, old(variableNames)) && old(detached) <= detached
      ensures !e.End? ==> Named(variableNames[e.v])
      ensures EndRule(spec, d, e, old(detached), variableNames, now)
      ensures DetachedWithin(old(detached), detached, if e.Start? then ir.children[e.v] else [])
      ensures forall i :: 0 <= i < |ir.verbs| && (i != e.v || e.End?) ==> ir.verbs[i].text == old(ir.verbs[i].text)
      ensures kinds == MainLines(e, if now then {e.v} else {}) + TailLines(e, TailsOf(ir.verbs), false)
      ensures LinesMade(d, out, kinds, args, blocks, Zeros(|out|), variableNames, detached)
    {
      var main;
      ghost var k1, a1, b1;
      main, now, k1, a1, b1 := EmitMain(e, d);
      ghost var names, det := variableNames, detached;
      var text;
      ghost var k2, a2, b2;
      text, k2, a2, b2 := EmitText(e.v, d);
      KeepsNamedTrans(variableNames, names, old(variableNames));
      EndRuleKept(spec, d, e, old(detached), names, variableNames, now);
      LinesGrow(d, main, k1, a1, b1, Zeros(|main|), names, det, text, k2, a2, b2, variableNames, detached);
      ZerosJoin(|main|, |text|);
      out, kinds, args, blocks := main + text, k1 + k2, a1 + a2, b1 + b2;
    }

    /**
     * `__repr__`: the lines of the reverse build when the language asks for it
     * (`reverse_build`), else those of the forward build. Either way `kinds` lists
     * which output method made each line and for which verb, as `ReverseLines` or
     * `ForwardLines` says, and each line is its template filled with arguments that
     * hold what `ArgsFor` says of the verb in the document as it was before; every
     * verb ends up named.
     */
    method Repr() returns (lines: seq<string>, ghost appended: set<nat>, ghost order: seq<nat>, ghost kinds: seq<Line>,
                           ghost args: seq<Args>, ghost blocks: seq<bool>, ghost drops: seq<nat>)
      requires ir.Valid() && Ready() && NamesOk() && |variableNames| == |ir.verbs|
      modifies this`variableNames, ir`generatedVariablesNames, ir.verbs`text, this`specificImports, this`detached
      ensures Ready() && NamesOk() && |variableNames| == |ir.verbs|
      ensures forall v :: 0 <= v < |variableNames| ==> Named(variableNames[v])
      ensures spec.reverseBuild ==>
                NoDup(order) && (forall v: nat :: v in order <==> v < |ir.verbs|) && ChildrenFirst(old(ir.Shape()), order)
                && (forall i :: 0 <= i < |order| ==> order[i] < |ir.verbs|)
                && kinds == ReverseLines(old(ir.Shape()), order) && drops == Zeros(|lines|)
      ensures !spec.reverseBuild ==>
                InRange(Fwd(old(ir.Shape())), |ir.verbs|)
                && kinds == ForwardLines(Fwd(old(ir.Shape())), appended, TailsOf(ir.verbs), false)
      ensures LinesMade(old(ir.Abstract()), lines, kinds, args, blocks, drops, variableNames, detached)
      ensures !spec.reverseBuild ==>
                (forall v :: v in appended <==>
                   0 < v < |ir.verbs| && !IsLeaf(old(ir.Shape()), v) && v !in detached
                   && AppendText(spec, old(ir.Abstract()), v, variableNames) != "")
                && (forall i :: 0 <= i < |kinds| && kinds[i].AppendLine? ==> Template(kinds[i], args[i], blocks[i]) != "")
    {
      if spec.reverseBuild {
        lines, order, kinds, args, blocks := ReverseRepr();
        appended, drops := {}, Zeros(|lines|);
      } else {
        lines, appended, kinds, args, blocks, drops := ForwardRepr();
        order := [];
      }
    }

    /**
     * `__repr__` without `reverse_build`: for each event of the traversal, the line
     * for its kind and the text line for a shown tail, the last line losing its `()`
     * after every event when the language has `optional_parentheses`. `kinds` is
     * `ForwardLines` for the verbs whose append line was kept (`appended`): exactly
     * the verbs with children and a parent that are not detached and whose append
     * line, made from the names they end up with, is not empty; so no kept append
     * line is empty. Line by line, `lines` are the templates of `kinds` filled with
     * arguments that hold what `ArgsFor` says of the verb in the document as it was
     * before. Every verb ends up named.
     */
    method ForwardRepr() returns (lines: seq<string>, ghost appended: set<nat>, ghost kinds: seq<Line>,
                                  ghost args: seq<Args>, ghost blocks: seq<bool>, ghost drops: seq<nat>)
      requires ir.Valid() && Ready() && NamesOk() && |variableNames| == |ir.verbs|
      modifies this`variableNames, ir`generatedVariablesNames, ir.verbs`text, this`specificImports, this`detached
      ensures Ready() && NamesOk() && |variableNames| == |ir.verbs|
      ensures forall v :: 0 <= v < |variableNames| ==> Named(variableNames[v])
      ensures InRange(Fwd(old(ir.Shape())), |ir.verbs|)
      ensures kinds == ForwardLines(Fwd(old(ir.Shape())), appended, TailsOf(ir.verbs), false)
      ensures LinesMade(old(ir.Abstract()), lines, kinds, args, blocks, drops, variableNames, detached)
      ensures forall v :: v in appended <==>
                0 < v < |ir.verbs| && !IsLeaf(old(ir.Shape()), v) && v !in detached
                && AppendText(spec, old(ir.Abstract()), v, variableNames) != ""
      ensures forall i :: 0 <= i < |kinds| && kinds[i].AppendLine? ==> Template(kinds[i], args[i], blocks[i]) != ""
    {
      ghost var t := ir.Shape();
      ghost var d := ir.Abstract();
      FwdInRange(t);
      FwdCreatesOnce(t);
      var events := ir.Iter();
      assert events == Fwd(t);
      FwdChildEndsLate(t);
      assert ChildEndsLate(events, d);
      lines, appended, kinds, args, blocks, drops := EmitEvents(events, d);
      ForwardFacts(t, events, appended, detached, spec, d, variableNames, TailsOf(ir.verbs));
      AppendLinesShown(t, d, lines, kinds, args, blocks, drops, appended, variableNames, detached, TailsOf(ir.verbs));
    }

    /** The arguments of an append line make exactly the line `AppendText` gives for its verb. */
    lemma AppendLineText(d: Doc, line: string, v: nat, a: Args, block: bool, drop: nat,
                         names: seq<Option<string>>, det: set<nat>)
      requires LineMade(d, line, AppendLine(v), a, block, drop, names, det)
      ensures Template(AppendLine(v), a, block) == AppendText(spec, d, v, names)
    {
      var p := d.verbs[v].parent.value;
      assert a == Args(NameIn(names, v), NameIn(names, p), ClassForVerbName(spec, d.verbs[v].name, d.isVoiceResponse),
                       "", "", "", IndentForVerb(spec, d.verbs[v].depth), "");
    }

    /** When every appended verb's append line is not empty, no append line of the forward build is. */
    lemma AppendLinesShown(t: seq<Node>, d: Doc, lines: seq<string>, kinds: seq<Line>, args: seq<Args>, blocks: seq<bool>,
                           drops: seq<nat>, appended: set<nat>, names: seq<Option<string>>, det: set<nat>,
                           tails: seq<Option<string>>)
      requires WellFormed(t) && |tails| == |t| == |d.verbs| && InRange(Fwd(t), |tails|)
      requires kinds == ForwardLines(Fwd(t), appended, tails, false)
      requires LinesMade(d, lines, kinds, args, blocks, drops, names, det)
      requires forall v :: v in appended ==> v < |d.verbs| && AppendText(spec, d, v, names) != ""
      ensures forall i :: 0 <= i < |kinds| && kinds[i].AppendLine? ==> Template(kinds[i], args[i], blocks[i]) != ""
    {
      forall i | 0 <= i < |kinds| && kinds[i].AppendLine?
        ensures Template(kinds[i], args[i], blocks[i]) != ""
      {
        var v := kinds[i].v;
        assert LineMade(d, lines[i], kinds[i], args[i], blocks[i], drops[i], names, det);
        AppendLinesCount(t, appended, tails, false, v);
        assert kinds[i] in multiset(kinds);
        AppendLineText(d, lines[i], v, args[i], blocks[i], drops[i], names, det);
      }
    }

    /** The state the loop of `__repr__` keeps: the IR usable and named, and no verb reattached since `det0`. */
    ghost predicate Emitting(det0: set<nat>)
      reads this`variableNames, this`detached, ir`generatedVariablesNames
      reads ir`verbs, ir`children, ir.verbs`name, ir.verbs`attributes, ir.verbs`text
    {
      Ready() && NamesOk() && |variableNames| == |ir.verbs| && det0 <= detached
    }

    /**
     * What holds after the first `k` events of `evs`: `kinds` lists the lines
     * `ForwardLines` gives for them, `lines` are made as `LinesMade` says, the verbs
     * not created yet still hold their text in `d`, and `Progress` holds.
     */
    ghost predicate TurnInv(evs: seq<Event>, k: nat, d: Doc, tails: seq<Option<string>>,
                    lines: seq<string>, appended: set<nat>, kinds: seq<Line>,
                    args: seq<Args>, blocks: seq<bool>, drops: seq<nat>)
      reads this`variableNames, this`detached, ir`verbs, ir.verbs`text
    {
      InRange(evs, |tails|) && k <= |evs| && |d.verbs| == |ir.verbs|
      && kinds == LinesSoFar(evs, k, appended, tails) && (k > 0 ==> lines != [])
      && LinesMade(d, lines, kinds, args, blocks, drops, variableNames, detached)
      && (forall v :: 0 <= v < |ir.verbs| && v !in CreatedIn(evs, k) ==> ir.verbs[v].text == d.verbs[v].text)
      && Progress(evs, k, appended, detached, spec, d, variableNames)
    }

    /**
     * The loop of `__repr__` over the events `evs` of the traversal: after each event,
     * its lines, the last one losing its `()` when the language has
     * `optional_parentheses`; `kinds` says which line is which, and `d` is the
     * document before the loop.
     */
    method EmitEvents(evs: seq<Event>, ghost d: Doc)
      returns (lines: seq<string>, ghost appended: set<nat>, ghost kinds: seq<Line>, ghost args: seq<Args>,
               ghost blocks: seq<bool>, ghost drops: seq<nat>)
      requires Ready() && NamesOk() && Agrees(d) && |variableNames| == |ir.verbs|
      requires forall v :: 0 <= v < |ir.verbs| ==> ir.verbs[v].text == d.verbs[v].text
      requires InRange(evs, |ir.verbs|) && NoDup(evs) && CreatesOnce(evs) && (evs != [] ==> !evs[0].End?)
      requires ChildEndsLate(evs, d)
      modifies this`variableNames, ir`generatedVariablesNames, ir.verbs`text, this`specificImports, this`detached
      ensures Ready() && NamesOk() && |variableNames| == |ir.verbs| && old(detached) <= detached
      ensures kinds == LinesSoFar(evs, |evs|, appended, TailsOf(ir.verbs))
      ensures LinesMade(d, lines, kinds, args, blocks, drops, variableNames, detached)
      ensures Progress(evs, |evs|, appended, detached, spec, d, variableNames)
    {
      ghost var tails, det0 := TailsOf(ir.verbs), detached;
      lines, appended := [], {};
      kinds, args, blocks, drops := [], [], [], [];
      TraversalOf(evs, d);
      var k := 0;
      while k < |evs|
        invariant k <= |evs|
        invariant Emitting(det0)
        invariant TurnInv(evs, k, d, tails, lines, appended, kinds, args, blocks, drops)
      {
        k, lines, appended, kinds, args, blocks, drops := EmitTurn(evs, k, d, tails, det0, lines, appended, kinds, args, blocks, drops);
      }
    }

    /** The turn of the loop of `EmitEvents` for the `k`-th event, keeping what the loop holds. */
    method EmitTurn(evs: seq<Event>, k: nat, ghost d: Doc, ghost tails: seq<Option<string>>, ghost det0: set<nat>,
                    lines: seq<string>, ghost appended: set<nat>, ghost kinds: seq<Line>,
                    ghost args: seq<Args>, ghost blocks: seq<bool>, ghost drops: seq<nat>)
      returns (k': nat, lines': seq<string>, ghost appended': set<nat>, ghost kinds': seq<Line>, ghost args': seq<Args>,
               ghost blocks': seq<bool>, ghost drops': seq<nat>)
      requires Agrees(d) && tails == TailsOf(ir.verbs) && Traversal(evs, d) && k < |evs|
      requires Emitting(det0) && TurnInv(evs, k, d, tails, lines, appended, kinds, args, blocks, drops)
      modifies this`variableNames, ir`generatedVariablesNames, ir.verbs`text, this`specificImports, this`detached
      ensures k' == k + 1 && Emitting(det0)
      ensures TurnInv(evs, k', d, tails, lines', appended', kinds', args', blocks', drops')
    {
      ghost var det, names, cs := detached, variableNames, ir.children[evs[k].v];
      ChildrenOf(d, evs[k].v, cs);
      assert FirstTime(evs, k);
      ghost var now;
      lines', now, kinds', args', blocks', drops' := EmitStep(evs[k], d, lines, kinds, args, blocks, drops);
      appended' := if now then appended + {evs[k].v} else appended;
      ProgressStep(evs, k, appended, appended', now, tails, det, detached, spec, d, cs, names, variableNames);
      CreatedStep(evs, k);
      k' := k + 1;
    }

    /** The children lists of the IR name children of their verb in `d`. */
    lemma ChildrenOf(d: Doc, u: nat, cs: seq<nat>)
      requires Arena() && Agrees(d) && u < |ir.verbs| && cs == ir.children[u]
      ensures forall c :: c in cs ==> c < |d.verbs| && d.verbs[c].parent == Some(u)
    {
      forall c | c in cs
        ensures c < |d.verbs| && d.verbs[c].parent == Some(u)
      {
        var m :| 0 <= m < |cs| && cs[m] == c;
      }
    }

    /**
     * One turn of the loop of `__repr__` after the lines `lines`: the lines of the
     * event `e`, then, when the language has `optional_parentheses`, the last line
     * loses its `()`.
     */
    method EmitStep(e: Event, ghost d: Doc, lines: seq<string>, ghost kinds: seq<Line>, ghost args: seq<Args>,
                    ghost blocks: seq<bool>, ghost drops: seq<nat>)
      returns (lines': seq<string>, ghost now: bool, ghost kinds': seq<Line>, ghost args': seq<Args>,
               ghost blocks': seq<bool>, ghost drops': seq<nat>)
      requires Ready() && NamesOk() && Agrees(d) && e.v < |ir.verbs| == |variableNames|
      requires !e.End? ==> ir.verbs[e.v].text == d.verbs[e.v].text
      requires LinesMade(d, lines, kinds, args, blocks, drops, variableNames, detached) && (lines != [] || !e.End?)
      modifies this`variableNames, ir`generatedVariablesNames, ir.verbs`text, this`specificImports, this`detached
      ensures Emitting(old(detached)) && Arena() == old(Arena()) && KeepsNamed(variableNames, old(variableNames))
      ensures !e.End? ==> Named(variableNames[e.v])
      ensures EndRule(spec, d, e, old(detached), variableNames, now)
      ensures DetachedWithin(old(detached), detached, if e.Start? then ir.children[e.v] else [])
      ensures forall i :: 0 <= i < |ir.verbs| && (i != e.v || e.End?) ==> ir.verbs[i].text == old(ir.verbs[i].text)
      ensures kinds' == kinds + (MainLines(e, if now then {e.v} else {}) + TailLines(e, TailsOf(ir.verbs), false))
      ensures LinesMade(d, lines', kinds', args', blocks', drops', variableNames, detached) && lines' != []
    {
      ghost var names, det := variableNames, detached;
      var out;
      ghost var k1, a1, b1;
      out, now, k1, a1, b1 := EmitEvent(e, d);
      LinesGrow(d, lines, kinds, args, blocks, drops, names, det, out, k1, a1, b1, variableNames, detached);
      lines', kinds', args', blocks', drops' := lines + out, kinds + k1, args + a1, blocks + b1, drops + Zeros(|out|);
      if spec.optionalParentheses {
        LinesDrop(d, lines', kinds', args', blocks', drops', variableNames, detached);
        lines' := DropParentheses(lines');
        drops' := drops'[|drops'| - 1 := drops'[|drops'| - 1] + 1];
      }
    }

    /**
     * `__reverse_repr__`: one line per verb in the order of `reverse_iter`, children
     * before their parent: `output_new_leaf` for a verb without children,
     * `output_new_variable` for the others, as `ReverseLines` lists them in `kinds`;
     * each line is its template filled with arguments that hold what `ArgsFor` says
     * of the verb in the document as it was before. Every verb ends up named.
     */
    method ReverseRepr() returns (lines: seq<string>, ghost order: seq<nat>, ghost kinds: seq<Line>, ghost args: seq<Args>,
                                  ghost blocks: seq<bool>)
      requires ir.Valid() && Ready() && NamesOk() && |variableNames| == |ir.verbs|
      modifies this`variableNames, ir`generatedVariablesNames, ir.verbs`text, this`specificImports, this`detached
      ensures Ready() && NamesOk() && |variableNames| == |ir.verbs|
      ensures forall v :: 0 <= v < |variableNames| ==> Named(variableNames[v])
      ensures NoDup(order) && (forall v: nat :: v in order <==> v < |ir.verbs|) && ChildrenFirst(old(ir.Shape()), order)
      ensures (forall i :: 0 <= i < |order| ==> order[i] < |ir.verbs|) && kinds == ReverseLines(old(ir.Shape()), order)
      ensures LinesMade(old(ir.Abstract()), lines, kinds, args, blocks, Zeros(|lines|), variableNames, detached)
    {
      ghost var t := ir.Shape();
      ghost var d := ir.Abstract();
      var verbs := ir.ReverseIter();
      order := verbs;
      assert ChildrenFirst(t, order);
      ReverseOrderFacts(order, |ir.verbs|);
      lines, kinds, args, blocks := EmitReverse(verbs, t, d);
      forall v | 0 <= v < |variableNames|
        ensures Named(variableNames[v])
      {
        assert v in order;
        var m :| 0 <= m < |order| && order[m] == v;
      }
    }

    /**
     * The line `__reverse_repr__` makes for the verb `v`, the `v`-th of the tree shape
     * `t` of the document `d`: `output_new_leaf` when it has no children, else
     * `output_new_variable`, made from arguments that hold what `ArgsFor` says.
     */
    method EmitOne(v: nat, ghost t: seq<Node>, ghost d: Doc) returns (line: string, ghost x: Line, ghost a: Args, ghost block: bool)
      requires Ready() && NamesOk() && Agrees(d) && v < |ir.verbs| == |variableNames| == |t|
      requires ir.verbs[v].text == d.verbs[v].text && (IsLeaf(t, v) <==> |ir.children[v]| == 0)
      modifies this`variableNames, ir`generatedVariablesNames, ir.verbs`text, this`specificImports, this`detached
      ensures TextsOk()
      ensures NamesOk() && KeepsNamed(variableNames, old(variableNames)) && old(detached) <= detached
      ensures Named(variableNames[v])
      ensures forall i :: 0 <= i < |ir.verbs| && i != v ==> ir.verbs[i].text == old(ir.verbs[i].text)
      ensures x == if IsLeaf(t, v) then LeafLine(v) else Line.VariableLine(v)
      ensures LinesMade(d, [line], [x], [a], [block], Zeros(1), variableNames, detached)
    {
      if |ir.children[v]| == 0 {
        line, a := EmitLeaf(v, d);
        block, x := false, LeafLine(v);
      } else {
        line, a, block := EmitStart(v, d);
        x := Line.VariableLine(v);
      }
    }

    /**
     * What holds after the first `i` verbs of `order`: they are named, `kinds` lists
     * the lines `ReverseLines` gives for them, `lines` are made as `LinesMade` says,
     * and the other verbs still hold their text in `d`.
     */
    ghost predicate ReverseSoFar(order: seq<nat>, i: nat, t: seq<Node>, d: Doc, lines: seq<string>, kinds: seq<Line>,
                                 args: seq<Args>, blocks: seq<bool>)
      reads this`variableNames, this`detached, ir`verbs, ir.verbs`text
      requires i <= |order| && (forall m :: 0 <= m < |order| ==> order[m] < |variableNames|)
      requires |t| == |variableNames| && |d.verbs| == |ir.verbs|
    {
      (forall m :: 0 <= m < i ==> Named(variableNames[order[m]]))
      && kinds == ReverseLines(t, order[..i])
      && LinesMade(d, lines, kinds, args, blocks, Zeros(|lines|), variableNames, detached)
      && (forall v :: 0 <= v < |ir.verbs| && v !in order[..i] ==> ir.verbs[v].text == d.verbs[v].text)
    }

    /**
     * The loop of `__reverse_repr__` over the verbs of `order`, for the tree shape `t`
     * of the document `d`.
     */
    method EmitReverse(order: seq<nat>, ghost t: seq<Node>, ghost d: Doc)
      returns (lines: seq<string>, ghost kinds: seq<Line>, ghost args: seq<Args>, ghost blocks: seq<bool>)
      requires Ready() && NamesOk() && Agrees(d) && |variableNames| == |ir.verbs| == |t|
      requires forall v :: 0 <= v < |ir.verbs| ==> ir.verbs[v].text == d.verbs[v].text
      requires forall v :: 0 <= v < |ir.verbs| ==> (IsLeaf(t, v) <==> |ir.children[v]| == 0)
      requires NoDup(order) && forall i :: 0 <= i < |order| ==> order[i] < |ir.verbs|
      modifies this`variableNames, ir`generatedVariablesNames, ir.verbs`text, this`specificImports, this`detached
      ensures Ready() && NamesOk() && |variableNames| == |ir.verbs|
      ensures forall m :: 0 <= m < |order| ==> Named(variableNames[order[m]])
      ensures kinds == ReverseLines(t, order)
      ensures LinesMade(d, lines, kinds, args, blocks, Zeros(|lines|), variableNames, detached)
    {
      lines, kinds, args, blocks := [], [], [], [];
      for i := 0 to |order|
        invariant Ready() && NamesOk() && |variableNames| == |ir.verbs|
        invariant ReverseSoFar(order, i, t, d, lines, kinds, args, blocks)
      {
        lines, kinds, args, blocks := ReverseTurn(order, i, t, d, lines, kinds, args, blocks);
      }
      assert order[..|order|] == order;
    }

    /** One turn of the loop of `__reverse_repr__`: the line for the verb `order[i]`. */
    method ReverseTurn(order: seq<nat>, i: nat, ghost t: seq<Node>, ghost d: Doc, lines: seq<string>, ghost kinds: seq<Line>,
                       ghost args: seq<Args>, ghost blocks: seq<bool>)
      returns (lines': seq<string>, ghost kinds': seq<Line>, ghost args': seq<Args>, ghost blocks': seq<bool>)
      requires Ready() && NamesOk() && Agrees(d) && |variableNames| == |ir.verbs| == |t|
      requires forall v :: 0 <= v < |ir.verbs| ==> (IsLeaf(t, v) <==> |ir.children[v]| == 0)
      requires NoDup(order) && (forall m :: 0 <= m < |order| ==> order[m] < |ir.verbs|) && i < |order|
      requires ReverseSoFar(order, i, t, d, lines, kinds, args, blocks)
      modifies this`variableNames, ir`generatedVariablesNames, ir.verbs`text, this`specificImports, this`detached
      ensures Ready() && NamesOk() && |variableNames| == |ir.verbs|
      ensures ReverseSoFar(order, i + 1, t, d, lines', kinds', args', blocks')
    {
      assert order[i] !in order[..i];
      ghost var names, det := variableNames, detached;
      var line;
      ghost var x, a, block;
      line, x, a, block := EmitOne(order[i], t, d);
      LinesGrow(d, lines, kinds, args, blocks, Zeros(|lines|), names, det, [line], [x], [a], [block],
                variableNames, detached);
      assert Zeros(|lines|) + Zeros(1) == Zeros(|lines| + 1);
      lines', kinds', args', blocks' := lines + [line], kinds + [x], args + [a], blocks + [block];
      assert order[..i + 1][..i] == order[..i];
    }
  }
}
