/**
 The `let`/`pipeline` form of `$lookup`, whose leading `$match` reads the bound
 variables: the fast path against testing the whole filter on every pair.

 A clause answers true, false, or that it could not be evaluated.  In a conjunction a
 false clause decides whatever the others say; otherwise the first clause in order
 that could not be evaluated is the answer.
 */
module Conjunctions {
  import opened Outcomes

  /** A deferrable error is about one value and may be outranked by a false clause; any
      other ends the evaluation where it is met. */
  datatype Error = Error(message: string, deferrable: bool)

  datatype Truth = Known(b: bool) | Failed(e: Error)

  /** The scan of a conjunction, with the first deferrable error met so far. */
  function Decide(held: Option<Error>, ts: seq<Truth>): Truth
    decreases ts
  {
    if ts == [] then (if held.Some? then Failed(held.value) else Known(true))
    else
      match ts[0]
      case Known(true) => Decide(held, ts[1..])
      case Known(false) => Known(false)
      case Failed(e) =>
        if !e.deferrable then Failed(e)
        else Decide(if held.Some? then held else Some(e), ts[1..])
  }

  /** A filter: conjunctions over clauses that are not conjunctions. */
  datatype Filter<C> = AlwaysTrue | And(branches: seq<Filter<C>>) | Leaf(clause: C)

  function Evaluate<C>(f: Filter<C>, t: C -> Truth): Truth {
    match f
    case AlwaysTrue => Known(true)
    case And(branches) => Decide(None, EvaluateAll(branches, t))
    case Leaf(c) => t(c)
  }

  function EvaluateAll<C>(fs: seq<Filter<C>>, t: C -> Truth): (ts: seq<Truth>)
    ensures |ts| == |fs|
  {
    if fs == [] then [] else [Evaluate(fs[0], t)] + EvaluateAll(fs[1..], t)
  }

  /** The clauses in evaluation order. */
  function Flatten<C>(f: Filter<C>): seq<C> {
    match f
    case AlwaysTrue => []
    case And(branches) => FlattenAll(branches)
    case Leaf(c) => [c]
  }

  function FlattenAll<C>(fs: seq<Filter<C>>): seq<C> {
    if fs == [] then [] else Flatten(fs[0]) + FlattenAll(fs[1..])
  }

  /** The clause stands somewhere in the filter. */
  ghost predicate Occurs<C>(c: C, f: Filter<C>)
    decreases f
  {
    match f
    case AlwaysTrue => false
    case And(branches) => exists i :: 0 <= i < |branches| && Occurs(c, branches[i])
    case Leaf(clause) => clause == c
  }

  /** The clauses of a filter are those that stand in it. */
  lemma {:induction false} FlattenMeaning<C>(f: Filter<C>, c: C)
    ensures c in Flatten(f) <==> Occurs(c, f)
    decreases f
  {
    if f.And? { FlattenAllMeaning(f.branches, c); }
  }

  lemma {:induction false} FlattenAllMeaning<C>(fs: seq<Filter<C>>, c: C)
    ensures c in FlattenAll(fs) <==> exists i :: 0 <= i < |fs| && Occurs(c, fs[i])
    decreases fs
  {
    if fs == [] {
    } else {
      FlattenMeaning(fs[0], c);
      FlattenAllMeaning(fs[1..], c);
      if i :| 0 <= i < |fs| && Occurs(c, fs[i]) && i > 0 { assert fs[1..][i - 1] == fs[i]; }
      if i :| 0 <= i < |fs[1..]| && Occurs(c, fs[1..][i]) { assert fs[i + 1] == fs[1..][i]; }
    }
  }

  /** Those of one branch come before those of the branches after it. */
  lemma {:induction false} FlattenInOrder<C>(a: seq<Filter<C>>, b: seq<Filter<C>>)
    ensures Flatten(And(a + b)) == Flatten(And(a)) + Flatten(And(b))
  {
    if a == [] {
      assert a + b == b;
    } else {
      assert (a + b)[1..] == a[1..] + b;
      FlattenInOrder(a[1..], b);
    }
  }

  // ---------------------------------------------------------------------------
  // What a conjunction means
  // ---------------------------------------------------------------------------

  /** False outranks an error, an error outranks true, the earlier error wins. */
  function Meet(a: Truth, b: Truth): Truth {
    if a == Known(false) || b == Known(false) then Known(false)
    else if a.Failed? then a
    else b
  }

  function Conjunction<C>(cs: seq<C>, t: C -> Truth): Truth {
    if cs == [] then Known(true) else Meet(t(cs[0]), Conjunction(cs[1..], t))
  }

  predicate Deferrable(a: Truth) { a.Failed? ==> a.e.deferrable }

  lemma {:induction false} ConjunctionAppend<C>(a: seq<C>, b: seq<C>, t: C -> Truth)
    ensures Conjunction(a + b, t) == Meet(Conjunction(a, t), Conjunction(b, t))
  {
    if a == [] {
      assert a + b == b;
    } else {
      assert (a + b)[1..] == a[1..] + b;
      ConjunctionAppend(a[1..], b, t);
    }
  }

  lemma {:induction false} DecideHeld(held: Option<Error>, ts: seq<Truth>)
    requires forall i :: 0 <= i < |ts| ==> Deferrable(ts[i])
    ensures Decide(held, ts) == Meet(if held.Some? then Failed(held.value) else Known(true), Decide(None, ts))
    decreases ts
  {
    if ts == [] {
    } else {
      DecideHeld(held, ts[1..]);
      if ts[0].Failed? { DecideHeld(Some(ts[0].e), ts[1..]); }
    }
  }

  lemma DecideSplits(a: Truth, ts: seq<Truth>)
    requires Deferrable(a) && forall i :: 0 <= i < |ts| ==> Deferrable(ts[i])
    ensures Decide(None, [a] + ts) == Meet(a, Decide(None, ts))
  {
    assert ([a] + ts)[1..] == ts;
    if a.Failed? { DecideHeld(Some(a.e), ts); }
  }

  /** However conjunctions are nested, a filter means the conjunction of its clauses. */
  lemma {:induction false} EvaluateIsConjunction<C>(f: Filter<C>, t: C -> Truth)
    requires forall c :: c in Flatten(f) ==> Deferrable(t(c))
    ensures Evaluate(f, t) == Conjunction(Flatten(f), t) && Deferrable(Evaluate(f, t))
    decreases f
  {
    match f
    case AlwaysTrue =>
    case Leaf(c) =>
    case And(branches) => EvaluateAllIsConjunction(branches, t);
  }

  lemma {:induction false} EvaluateAllIsConjunction<C>(fs: seq<Filter<C>>, t: C -> Truth)
    requires forall c :: c in FlattenAll(fs) ==> Deferrable(t(c))
    ensures Decide(None, EvaluateAll(fs, t)) == Conjunction(FlattenAll(fs), t)
    ensures forall i :: 0 <= i < |fs| ==> Deferrable(EvaluateAll(fs, t)[i])
    ensures Deferrable(Conjunction(FlattenAll(fs), t))
    decreases fs
  {
    if fs == [] {
    } else {
      EvaluateIsConjunction(fs[0], t);
      EvaluateAllIsConjunction(fs[1..], t);
      DecideSplits(Evaluate(fs[0], t), EvaluateAll(fs[1..], t));
      ConjunctionAppend(Flatten(fs[0]), FlattenAll(fs[1..]), t);
    }
  }

  /** A conjunction is false exactly when a clause is, and true exactly when all are. */
  lemma {:induction false} ConjunctionMeaning<C>(cs: seq<C>, t: C -> Truth)
    ensures Conjunction(cs, t) == Known(false) <==> exists c :: c in cs && t(c) == Known(false)
    ensures Conjunction(cs, t) == Known(true) <==> forall c :: c in cs ==> t(c) == Known(true)
  {
    if cs == [] {
    } else {
      ConjunctionMeaning(cs[1..], t);
      assert cs == [cs[0]] + cs[1..];
    }
  }

  /** What the clauses say together: no, if one of them does; yes, if all do; and otherwise the
      error of the first that fails. */
  ghost predicate Says<C>(cs: seq<C>, t: C -> Truth, verdict: Truth) {
    match verdict
    case Known(false) => exists c :: c in cs && t(c) == Known(false)
    case Known(true) => forall c :: c in cs ==> t(c) == Known(true)
    case Failed(e) =>
      && (forall c :: c in cs ==> t(c) != Known(false))
      && exists i :: 0 <= i < |cs| && t(cs[i]) == Failed(e) && forall j :: 0 <= j < i ==> !t(cs[j]).Failed?
  }

  /** They say one thing. */
  lemma SaysIsUnique<C>(cs: seq<C>, t: C -> Truth, a: Truth, b: Truth)
    requires Says(cs, t, a) && Says(cs, t, b)
    ensures a == b
  {
  }

  lemma ConjunctionSays<C>(cs: seq<C>, t: C -> Truth)
    ensures Says(cs, t, Conjunction(cs, t))
  {
    ConjunctionMeaning(cs, t);
    if Conjunction(cs, t).Failed? { var i := ConjunctionFails(cs, t); }
  }

  /** Otherwise it fails with the error of the first clause that fails. */
  lemma {:induction false} ConjunctionFails<C>(cs: seq<C>, t: C -> Truth) returns (i: nat)
    requires Conjunction(cs, t).Failed?
    ensures i < |cs| && Conjunction(cs, t) == t(cs[i])
    ensures forall j :: 0 <= j < i ==> t(cs[j]) == Known(true)
  {
    if t(cs[0]).Failed? {
      i := 0;
    } else {
      var k := ConjunctionFails(cs[1..], t);
      i := k + 1;
    }
  }
}

module LookupJoin {
  import opened Outcomes
  import opened Conjunctions
  import Places
  import opened Tallies

  // ---------------------------------------------------------------------------
  // Scanning documents with a filter
  // ---------------------------------------------------------------------------

  /** The documents a test accepts, in order, or the error of the first document it
      cannot decide: the nested loop for one input document. */
  function Scan<D>(docs: seq<D>, test: D -> Truth): Result<seq<D>, Error> {
    if docs == [] then Ok([])
    else
      var front, last := Scan(docs[..|docs| - 1], test), docs[|docs| - 1];
      if front.Err? then front
      else
        match test(last)
        case Failed(e) => Err(e)
        case Known(true) => Ok(front.value + [last])
        case Known(false) => front
  }

  lemma ScanSnoc<D>(docs: seq<D>, d: D, test: D -> Truth)
    ensures Scan(docs + [d], test) ==
            var front := Scan(docs, test);
            if front.Err? then front
            else match test(d)
                 case Failed(e) => Err(e)
                 case Known(true) => Ok(front.value + [d])
                 case Known(false) => front
  {
    assert (docs + [d])[..|docs|] == docs;
  }

  lemma ScanNext<D>(docs: seq<D>, i: nat, test: D -> Truth, kept: seq<D>)
    requires i < |docs| && Scan(docs[..i], test) == Ok(kept)
    ensures match test(docs[i])
            case Failed(e) => Scan(docs, test) == Err(e)
            case Known(b) => Scan(docs[..i + 1], test) == Ok(if b then kept + [docs[i]] else kept)
  {
    assert docs[..i + 1] == docs[..i] + [docs[i]];
    ScanSnoc(docs[..i], docs[i], test);
    if test(docs[i]).Failed? { ScanStops(docs, i + 1, test); }
  }

  method ScanLoop<D>(docs: seq<D>, test: D -> Truth) returns (r: Result<seq<D>, Error>)
    ensures r == Scan(docs, test)
  {
    var kept: seq<D> := [];
    for i := 0 to |docs|
      invariant Scan(docs[..i], test) == Ok(kept)
    {
      ScanNext(docs, i, test, kept);
      match test(docs[i]) {
        case Failed(e) => return Err(e);
        case Known(b) =>
          if b { kept := kept + [docs[i]]; }
      }
    }
    assert docs[..|docs|] == docs;
    return Ok(kept);
  }

  lemma {:induction false} ScanStops<D>(docs: seq<D>, k: nat, test: D -> Truth)
    requires k <= |docs| && Scan(docs[..k], test).Err?
    ensures Scan(docs, test) == Scan(docs[..k], test)
    decreases |docs|
  {
    if k == |docs| {
      assert docs[..k] == docs;
    } else {
      assert docs[..|docs| - 1][..k] == docs[..k];
      ScanStops(docs[..|docs| - 1], k, test);
    }
  }

  lemma {:induction false} ScanAgrees<D>(docs: seq<D>, a: D -> Truth, b: D -> Truth)
    requires forall d :: d in docs ==> a(d) == b(d)
    ensures Scan(docs, a) == Scan(docs, b)
  {
    if docs == [] {
    } else {
      ScanAgrees(docs[..|docs| - 1], a, b);
    }
  }

  /** Dropping documents a test rejects changes nothing of what it accepts. */
  lemma {:induction false} ScanOfScan<D>(docs: seq<D>, first: D -> Truth, kept: seq<D>, test: D -> Truth)
    requires Scan(docs, first) == Ok(kept)
    requires forall d :: d in docs && first(d) == Known(false) ==> test(d) == Known(false)
    ensures Scan(docs, test) == Scan(kept, test)
    ensures forall d :: d in kept ==> d in docs && first(d) == Known(true)
  {
    if docs == [] {
    } else {
      var n := |docs| - 1;
      var front := Scan(docs[..n], first);
      ScanOfScan(docs[..n], first, front.value, test);
      if first(docs[n]) == Known(true) {
        assert kept[..|kept| - 1] == front.value;
      }
    }
  }

  /** By the verdicts on the documents: those that pass, in order, or the error of the first that
      cannot be decided, naming the document. */
  ghost predicate KeptBy<D>(docs: seq<D>, verdicts: seq<Truth>, report: (Error, D) -> Error,
                            r: Result<seq<D>, Error>)
    requires |verdicts| == |docs|
  {
    match r
    case Ok(kept) =>
      && (forall i :: 0 <= i < |docs| ==> verdicts[i].Known?)
      && exists at: seq<nat> :: PassAt(verdicts, at) && Places.StandAt(docs, at, kept)
    case Err(e) =>
      exists i :: 0 <= i < |docs| && verdicts[i].Failed? && e == report(verdicts[i].e, docs[i])
                  && forall j :: 0 <= j < i ==> verdicts[j].Known?
  }

  lemma FirstFailureIsKept<D>(docs: seq<D>, verdicts: seq<Truth>, report: (Error, D) -> Error,
                              r: Result<seq<D>, Error>, i: nat)
    requires |verdicts| == |docs| && KeptBy(docs, verdicts, report, r)
    requires i < |docs| && verdicts[i].Failed? && forall j :: 0 <= j < i ==> verdicts[j].Known?
    ensures r == Err(report(verdicts[i].e, docs[i]))
  {
  }

  /** The places, ascending, of the verdicts that are yes. */
  ghost predicate PassAt(verdicts: seq<Truth>, at: seq<nat>) {
    && Places.Ascending(at) && (forall i :: 0 <= i < |at| ==> at[i] < |verdicts| && verdicts[at[i]] == Known(true))
    && forall k :: 0 <= k < |verdicts| && verdicts[k] == Known(true) ==> k in at
  }

  /** The places of the passing verdicts are determined. */
  lemma PassAtIsUnique(verdicts: seq<Truth>, places: seq<nat>, at: seq<nat>)
    requires PassAt(verdicts, places) && Places.Ascending(at) && forall j :: 0 <= j < |at| ==> at[j] < |verdicts|
    requires forall j :: 0 <= j < |verdicts| ==> verdicts[j] == Known(j in at)
    ensures places == at
  {
    forall k: nat ensures k in places <==> k in at {
      if k in places { var j :| 0 <= j < |places| && places[j] == k; }
      if k in at { var j :| 0 <= j < |at| && at[j] == k; }
    }
    Places.AscendingIsUnique(places, at);
  }

  lemma PassesAreKept<D>(docs: seq<D>, verdicts: seq<Truth>, report: (Error, D) -> Error, r: Result<seq<D>, Error>,
                         at: seq<nat>)
    requires |verdicts| == |docs| && KeptBy(docs, verdicts, report, r)
    requires Places.Ascending(at) && forall j :: 0 <= j < |at| ==> at[j] < |docs|
    requires forall j :: 0 <= j < |docs| ==> verdicts[j] == Known(j in at)
    ensures r == Ok(Places.DocsAt(docs, at))
  {
    assert r.Ok?;
    var places: seq<nat> :| PassAt(verdicts, places) && Places.StandAt(docs, places, r.value);
    PassAtIsUnique(verdicts, places, at);
    assert r.value == Places.DocsAt(docs, at);
  }

  /** The verdict named in an error. */
  function Naming<D>(verdict: Truth, report: (Error, D) -> Error, d: D): Truth {
    if verdict.Failed? then Failed(report(verdict.e, d)) else verdict
  }

  lemma {:induction false} ScanMeaning<D>(docs: seq<D>, test: D -> Truth, verdicts: seq<Truth>,
                                          report: (Error, D) -> Error)
    requires |verdicts| == |docs|
    requires forall i :: 0 <= i < |docs| ==> test(docs[i]) == Naming(verdicts[i], report, docs[i])
    ensures KeptBy(docs, verdicts, report, Scan(docs, test))
  {
    if docs == [] {
      assert PassAt(verdicts, []);
    } else {
      var n := |docs| - 1;
      ScanMeaning(docs[..n], test, verdicts[..n], report);
      var front := Scan(docs[..n], test);
      if front.Err? {
        KeptRefused(docs, verdicts, report, front.error);
      } else {
        KeptNext(docs, verdicts, report, front.value);
      }
    }
  }

  lemma KeptRefused<D>(docs: seq<D>, verdicts: seq<Truth>, report: (Error, D) -> Error, e: Error)
    requires |verdicts| == |docs| && docs != []
    requires KeptBy(docs[..|docs| - 1], verdicts[..|docs| - 1], report, Err(e))
    ensures KeptBy(docs, verdicts, report, Err(e))
  {
    var n := |docs| - 1;
    var i :| 0 <= i < n && verdicts[..n][i].Failed? && e == report(verdicts[..n][i].e, docs[..n][i])
             && forall j :: 0 <= j < i ==> verdicts[..n][j].Known?;
    forall j | 0 <= j < i ensures verdicts[j].Known? { assert verdicts[..n][j] == verdicts[j]; }
    assert verdicts[i].Failed?;
  }

  lemma PassNext(verdicts: seq<Truth>, at: seq<nat>)
    requires verdicts != [] && PassAt(verdicts[..|verdicts| - 1], at)
    ensures var n := |verdicts| - 1; PassAt(verdicts, if verdicts[n] == Known(true) then at + [n] else at)
  {
    var n := |verdicts| - 1;
    var more := if verdicts[n] == Known(true) then at + [n] else at;
    forall k | 0 <= k < |verdicts| && verdicts[k] == Known(true) ensures k in more {
      if k < n { assert verdicts[..n][k] == verdicts[k]; }
    }
  }

  lemma KeptFails<D>(docs: seq<D>, verdicts: seq<Truth>, report: (Error, D) -> Error)
    requires |verdicts| == |docs| && docs != [] && verdicts[|docs| - 1].Failed?
    requires forall i :: 0 <= i < |docs| - 1 ==> verdicts[i].Known?
    ensures KeptBy(docs, verdicts, report, Err(report(verdicts[|docs| - 1].e, docs[|docs| - 1])))
  {
  }

  lemma KeptGoesOn<D>(docs: seq<D>, verdicts: seq<Truth>, report: (Error, D) -> Error, front: seq<D>, at: seq<nat>)
    requires |verdicts| == |docs| && docs != [] && forall i :: 0 <= i < |docs| ==> verdicts[i].Known?
    requires PassAt(verdicts[..|docs| - 1], at) && Places.StandAt(docs[..|docs| - 1], at, front)
    ensures var n := |docs| - 1;
            KeptBy(docs, verdicts, report, Ok(if verdicts[n].b then front + [docs[n]] else front))
  {
    PassNext(verdicts, at);
    Places.StandFurther(docs, |docs| - 1, at, front);
  }

  lemma KeptNext<D>(docs: seq<D>, verdicts: seq<Truth>, report: (Error, D) -> Error, front: seq<D>)
    requires |verdicts| == |docs| && docs != []
    requires KeptBy(docs[..|docs| - 1], verdicts[..|docs| - 1], report, Ok(front))
    ensures var n := |docs| - 1;
            match verdicts[n]
            case Failed(e) => KeptBy(docs, verdicts, report, Err(report(e, docs[n])))
            case Known(b) => KeptBy(docs, verdicts, report, Ok(if b then front + [docs[n]] else front))
  {
    var n := |docs| - 1;
    forall i | 0 <= i < n ensures verdicts[i].Known? { assert verdicts[..n][i] == verdicts[i]; }
    if verdicts[n].Failed? {
      KeptFails(docs, verdicts, report);
    } else {
      var at: seq<nat> :| PassAt(verdicts[..n], at) && Places.StandAt(docs[..n], at, front);
      KeptGoesOn(docs, verdicts, report, front, at);
    }
  }

  // ---------------------------------------------------------------------------
  // Taking the filter apart
  // ---------------------------------------------------------------------------

  function Keep<C>(cs: seq<C>, p: C -> bool): seq<C> {
    if cs == [] then [] else (if p(cs[0]) then [cs[0]] else []) + Keep(cs[1..], p)
  }

  function All<C>(cs: seq<C>): Filter<C> {
    if cs == [] then AlwaysTrue else And(seq(|cs|, i requires 0 <= i < |cs| => Leaf(cs[i])))
  }

  /** Where the first clause that can be hashed on stands; `|cs|` when there is none. */
  function KeyAt<C>(cs: seq<C>, isKey: C -> bool): (at: nat)
    ensures at <= |cs| && (at < |cs| ==> isKey(cs[at]))
  {
    if cs == [] || isKey(cs[0]) then 0 else 1 + KeyAt(cs[1..], isKey)
  }

  datatype Lead<C> = Lead(independent: Filter<C>, variable: Filter<C>, key: Option<C>, residual: Filter<C>)

  function Analyze<C>(whole: Filter<C>, varies: C -> bool, isKey: C -> bool): Lead<C> {
    var leaves := Flatten(whole);
    var variable := Keep(leaves, varies);
    var at := KeyAt(variable, isKey);
    Lead(All(Keep(leaves, c => !varies(c))), All(variable),
         if at < |variable| then Some(variable[at]) else None,
         All(if at < |variable| then variable[..at] + variable[at + 1..] else variable))
  }

  lemma {:induction false} FlattenLeaves<C>(fs: seq<Filter<C>>, cs: seq<C>)
    requires |fs| == |cs| && forall i :: 0 <= i < |fs| ==> fs[i] == Leaf(cs[i])
    ensures FlattenAll(fs) == cs
  {
    if fs == [] {
    } else {
      FlattenLeaves(fs[1..], cs[1..]);
    }
  }

  lemma FlattenOfAll<C>(cs: seq<C>)
    ensures Flatten(All(cs)) == cs
  {
    if cs != [] { FlattenLeaves(All(cs).branches, cs); }
  }

  /** Once the independent clauses hold, the variable ones decide; once an independent
      clause is false, so is the whole. */
  lemma {:induction false} SplitDecides<C>(cs: seq<C>, varies: C -> bool, t: C -> Truth)
    ensures var independent := Conjunction(Keep(cs, c => !varies(c)), t);
            && (independent == Known(true) ==> Conjunction(cs, t) == Conjunction(Keep(cs, varies), t))
            && (independent == Known(false) ==> Conjunction(cs, t) == Known(false))
  {
    if cs == [] {
    } else {
      SplitDecides(cs[1..], varies, t);
      var rest, variable := Keep(cs[1..], c => !varies(c)), Keep(cs[1..], varies);
      if varies(cs[0]) {
        assert Keep(cs, varies) == [cs[0]] + variable && Keep(cs, c => !varies(c)) == rest;
        assert ([cs[0]] + variable)[1..] == variable;
      } else {
        assert Keep(cs, varies) == variable && Keep(cs, c => !varies(c)) == [cs[0]] + rest;
        assert ([cs[0]] + rest)[1..] == rest;
      }
    }
  }

  /** Likewise for one clause among others. */
  lemma KeyDecides<C>(cs: seq<C>, at: nat, t: C -> Truth)
    requires at < |cs| && t(cs[at]).Known?
    ensures Conjunction(cs, t) ==
            if t(cs[at]).b then Conjunction(cs[..at] + cs[at + 1..], t) else Known(false)
  {
    assert cs == cs[..at] + ([cs[at]] + cs[at + 1..]);
    ConjunctionAppend(cs[..at], [cs[at]] + cs[at + 1..], t);
    assert ([cs[at]] + cs[at + 1..])[1..] == cs[at + 1..];
    ConjunctionAppend(cs[..at], cs[at + 1..], t);
  }

  // ---------------------------------------------------------------------------
  // What the executor is given
  // ---------------------------------------------------------------------------

  /** Clauses `C`, foreign documents `D`, bound variables `V`, encoded keys `K`.

      `test` is a clause on a pair, `plain` a clause with no variable bound.  For an
      equality that can be hashed on, `foreign` and `local` evaluate and encode its two
      sides, and are `None` when either step fails. `report` names the document in an
      error. */
  datatype Semantics<!C(!new), !D(!new), !V(!new), !K(!new)> = Semantics(
    test: (C, D, V) -> Truth,
    plain: (C, D) -> Truth,
    varies: C -> bool,
    isKey: C -> bool,
    foreign: (C, D) -> Option<K>,
    local: (C, V) -> Option<K>,
    report: (Error, D) -> Error)
  {
    /** What the source guarantees of them: evaluating a document raises deferrable
        errors only, a clause that reads no variable does not depend on them, and equal
        keys are equal values. */
    ghost predicate Valid() {
      && (forall c, d, v :: Deferrable(test(c, d, v)))
      && (forall c, d, v :: !varies(c) ==> test(c, d, v) == plain(c, d))
      && forall c, d, v :: isKey(c) && foreign(c, d).Some? && local(c, v).Some? ==>
           test(c, d, v) == Known(foreign(c, d).value == local(c, v).value)
    }

    /** The clauses on one pair, and on a foreign document alone. */
    function On(d: D, v: V): C -> Truth { (c: C) => test(c, d, v) }

    function PlainOn(d: D): C -> Truth { (c: C) => plain(c, d) }

    function Matches(f: Filter<C>, v: V): D -> Truth { (d: D) => Naming(Evaluate(f, On(d, v)), report, d) }

    function MatchesPlain(f: Filter<C>): D -> Truth { (d: D) => Naming(Evaluate(f, PlainOn(d)), report, d) }
  }

  /** A filter on a pair, as a conjunction of clauses. */
  lemma MatchesIsConjunction<C(!new), D(!new), V(!new), K(!new)>(sem: Semantics<C, D, V, K>, f: Filter<C>, d: D, v: V)
    requires sem.Valid()
    ensures sem.Matches(f, v)(d) == Naming(Conjunction(Flatten(f), sem.On(d, v)), sem.report, d)
  {
    EvaluateIsConjunction(f, sem.On(d, v));
  }

  /** What the clauses of a filter say of each foreign document. */
  ghost predicate Judged<C(!new), D(!new), V(!new), K(!new)>(sem: Semantics<C, D, V, K>, f: Filter<C>, foreign: seq<D>,
                                                             v: V, verdicts: seq<Truth>)
  {
    && |verdicts| == |foreign|
    && forall i :: 0 <= i < |foreign| ==> Says(Flatten(f), sem.On(foreign[i], v), verdicts[i])
  }

  /** What a filter keeps for one binding, from its clauses on the pairs: the documents of which
      every clause is true, in scan order; or, at the first document of which no clause is false
      and one cannot be evaluated, the first such clause's error, naming the document. */
  ghost predicate IsKept<C(!new), D(!new), V(!new), K(!new)>(sem: Semantics<C, D, V, K>, f: Filter<C>, foreign: seq<D>,
                                                             v: V, r: Result<seq<D>, Error>)
  {
    exists verdicts :: Judged(sem, f, foreign, v, verdicts) && KeptBy(foreign, verdicts, sem.report, r)
  }

  lemma ScanIsKept<C(!new), D(!new), V(!new), K(!new)>(sem: Semantics<C, D, V, K>, f: Filter<C>, foreign: seq<D>, v: V)
    requires sem.Valid()
    ensures IsKept(sem, f, foreign, v, Scan(foreign, sem.Matches(f, v)))
  {
    var verdicts := seq(|foreign|, i requires 0 <= i < |foreign| =>
                                     Conjunction(Flatten(f), sem.On(foreign[i], v)));
    forall i | 0 <= i < |foreign|
      ensures Says(Flatten(f), sem.On(foreign[i], v), verdicts[i])
      ensures sem.Matches(f, v)(foreign[i]) == Naming(verdicts[i], sem.report, foreign[i])
    {
      EvaluateIsConjunction(f, sem.On(foreign[i], v));
      ConjunctionSays(Flatten(f), sem.On(foreign[i], v));
    }
    ScanMeaning(foreign, sem.Matches(f, v), verdicts, sem.report);
    assert Judged(sem, f, foreign, v, verdicts);
  }

  // ---------------------------------------------------------------------------
  // The hash table
  // ---------------------------------------------------------------------------

  datatype JoinTable<K> = NotBuilt | Built(buckets: map<K, seq<nat>>) | Declined

  function HasKey<D, K(==)>(key: D -> Option<K>, k: K): D -> bool { (d: D) => key(d) == Some(k) }

  /** The places, ascending, of the documents filed under `k`. */
  function Bucket<D, K(==)>(base: seq<D>, key: D -> Option<K>, k: K): (r: seq<nat>)
    ensures forall i :: 0 <= i < |r| ==> r[i] < |base|
  {
    Places.Accepted(base, HasKey(key, k))
  }

  lemma BucketNext<D, K>(base: seq<D>, i: nat, key: D -> Option<K>, k: K)
    requires i < |base|
    ensures Bucket(base[..i + 1], key, k) == Bucket(base[..i], key, k) + if key(base[i]) == Some(k) then [i] else []
  {
    assert base[..i + 1][..i] == base[..i];
  }

  ghost predicate Files<D, K(!new)>(buckets: map<K, seq<nat>>, base: seq<D>, key: D -> Option<K>) {
    && (forall d :: d in base ==> key(d).Some?)
    && forall k :: Places.Under(buckets, k) == Bucket(base, key, k)
  }

  lemma FilesNext<D, K(!new)>(buckets: map<K, seq<nat>>, base: seq<D>, i: nat, key: D -> Option<K>)
    requires i < |base| && Files(buckets, base[..i], key) && key(base[i]).Some?
    ensures var k := key(base[i]).value; Files(buckets[k := Places.Under(buckets, k) + [i]], base[..i + 1], key)
  {
    var k := key(base[i]).value;
    var more := buckets[k := Places.Under(buckets, k) + [i]];
    assert base[..i + 1] == base[..i] + [base[i]];
    forall q ensures Places.Under(more, q) == Bucket(base[..i + 1], key, q) {
      BucketNext(base, i, key, q);
      assert Places.Under(buckets, q) == Bucket(base[..i], key, q);
    }
  }

  method BuildTable<D, K(==, !new)>(base: seq<D>, key: D -> Option<K>) returns (table: JoinTable<K>)
    ensures table.Built? ==> Files(table.buckets, base, key)
    ensures table.Declined? <==> exists d :: d in base && key(d).None?
    ensures !table.NotBuilt?
  {
    var buckets: map<K, seq<nat>> := map[];
    for i := 0 to |base|
      invariant Files(buckets, base[..i], key)
    {
      if key(base[i]).None? { return Declined; }
      var k := key(base[i]).value;
      FilesNext(buckets, base, i, key);
      buckets := buckets[k := Places.Under(buckets, k) + [i]];
    }
    assert base[..|base|] == base;
    return Built(buckets);
  }

  /** When a test rejects whatever is not filed under `k`, the bucket is all there is
      to scan. */
  lemma {:induction false} ScanOfBucket<D, K>(base: seq<D>, key: D -> Option<K>, k: K, test: D -> Truth)
    requires forall d :: d in base && key(d) != Some(k) ==> test(d) == Known(false)
    ensures Scan(base, test) == Scan(Places.DocsAt(base, Bucket(base, key, k)), test)
  {
    if base == [] {
    } else {
      var n := |base| - 1;
      ScanOfBucket(base[..n], key, k, test);
      var front := Bucket(base[..n], key, k);
      assert Places.DocsAt(base[..n], front) == Places.DocsAt(base, front);
      if key(base[n]) == Some(k) {
        assert Places.DocsAt(base, Bucket(base, key, k)) == Places.DocsAt(base, front) + [base[n]];
        ScanSnoc(Places.DocsAt(base, front), base[n], test);
      } else {
        assert Bucket(base, key, k) == front;
      }
    }
  }

  /** The documents of one bucket that pass the remaining clauses; `None` exactly when the
      local side has no key or one of the bucket's documents cannot be decided. */
  method Probe<D, K(==)>(buckets: map<K, seq<nat>>, base: seq<D>, key: D -> Option<K>, local: Option<K>,
                         residual: D -> Truth)
    returns (found: Option<seq<D>>)
    requires forall k :: Places.Under(buckets, k) == Bucket(base, key, k)
    ensures local.None? ==> found.None?
    ensures local.Some? ==>
              var bucket := Scan(Places.DocsAt(base, Bucket(base, key, local.value)), residual);
              found == if bucket.Ok? then Some(bucket.value) else None
  {
    if local.None? { return None; }
    var places := Places.Under(buckets, local.value);
    assert places == Bucket(base, key, local.value);
    ghost var docs := Places.DocsAt(base, places);
    var kept: seq<D> := [];
    for i := 0 to |places|
      invariant Scan(docs[..i], residual) == Ok(kept)
    {
      ScanNext(docs, i, residual, kept);
      match residual(base[places[i]]) {
        case Failed(_) => return None;
        case Known(b) =>
          if b { kept := kept + [base[places[i]]]; }
      }
    }
    assert docs[..|places|] == docs;
    return Some(kept);
  }

  // ---------------------------------------------------------------------------
  // The fast path answers as the nested loop does
  // ---------------------------------------------------------------------------

  /** One document, by the key clause: not under the local key, it is rejected; under
      it, the remaining clauses decide. */
  lemma KeyClauseDecides<C(!new), D(!new), V(!new), K(!new)>(sem: Semantics<C, D, V, K>, whole: Filter<C>, d: D, v: V)
    requires sem.Valid()
    requires var key := Analyze(whole, sem.varies, sem.isKey).key;
             key.Some? && sem.foreign(key.value, d).Some? && sem.local(key.value, v).Some?
    ensures var lead := Analyze(whole, sem.varies, sem.isKey);
            sem.Matches(lead.variable, v)(d) ==
            if sem.foreign(lead.key.value, d) == sem.local(lead.key.value, v) then sem.Matches(lead.residual, v)(d)
            else Known(false)
  {
    var lead := Analyze(whole, sem.varies, sem.isKey);
    var variable := Keep(Flatten(whole), sem.varies);
    var at := KeyAt(variable, sem.isKey);
    var t := sem.On(d, v);
    FlattenOfAll(variable);
    FlattenOfAll(variable[..at] + variable[at + 1..]);
    MatchesIsConjunction(sem, lead.variable, d, v);
    MatchesIsConjunction(sem, lead.residual, d, v);
    KeyDecides(variable, at, t);
  }

  /** Probing the table gives what scanning with the variable clauses gives. */
  lemma ProbeIsScan<C(!new), D(!new), V(!new), K(!new)>(sem: Semantics<C, D, V, K>, whole: Filter<C>, base: seq<D>,
                                                        v: V, found: seq<D>)
    requires sem.Valid()
    requires var lead := Analyze(whole, sem.varies, sem.isKey);
             && lead.key.Some? && sem.local(lead.key.value, v).Some?
             && (forall d :: d in base ==> sem.foreign(lead.key.value, d).Some?)
             && Scan(Places.DocsAt(base, Bucket(base, (d: D) => sem.foreign(lead.key.value, d),
                                                sem.local(lead.key.value, v).value)),
                     sem.Matches(lead.residual, v)) == Ok(found)
    ensures Scan(base, sem.Matches(Analyze(whole, sem.varies, sem.isKey).variable, v)) == Ok(found)
  {
    var lead := Analyze(whole, sem.varies, sem.isKey);
    var key := (d: D) => sem.foreign(lead.key.value, d);
    var k := sem.local(lead.key.value, v).value;
    var places := Bucket(base, key, k);
    var bucket := Places.DocsAt(base, places);
    forall d | d in base
      ensures sem.Matches(lead.variable, v)(d) ==
              if key(d) == Some(k) then sem.Matches(lead.residual, v)(d) else Known(false)
    {
      KeyClauseDecides(sem, whole, d, v);
    }
    ScanOfBucket(base, key, k, sem.Matches(lead.variable, v));
    BucketHasKey(base, key, k);
    ScanAgrees(bucket, sem.Matches(lead.variable, v), sem.Matches(lead.residual, v));
  }

  lemma BucketHasKey<D, K>(base: seq<D>, key: D -> Option<K>, k: K)
    ensures forall i :: 0 <= i < |Bucket(base, key, k)| ==> key(base[Bucket(base, key, k)[i]]) == Some(k)
  {
    Places.AcceptedHolds(base, HasKey(key, k));
    forall i | 0 <= i < |Bucket(base, key, k)| ensures key(base[Bucket(base, key, k)[i]]) == Some(k) {
      assert Bucket(base, key, k)[i] in Bucket(base, key, k);
    }
  }

  /** Hoisting: what the independent clauses keep, the variable clauses decide exactly
      as the whole filter decides the whole foreign side. */
  lemma HoistIsExact<C(!new), D(!new), V(!new), K(!new)>(sem: Semantics<C, D, V, K>, whole: Filter<C>, foreign: seq<D>,
                                                         base: seq<D>, v: V)
    requires sem.Valid()
    requires Scan(foreign, sem.MatchesPlain(Analyze(whole, sem.varies, sem.isKey).independent)) == Ok(base)
    ensures Scan(foreign, sem.Matches(whole, v)) ==
            Scan(base, sem.Matches(Analyze(whole, sem.varies, sem.isKey).variable, v))
  {
    var lead := Analyze(whole, sem.varies, sem.isKey);
    forall d: D
      ensures sem.MatchesPlain(lead.independent)(d) == Known(false) ==> sem.Matches(whole, v)(d) == Known(false)
      ensures sem.MatchesPlain(lead.independent)(d) == Known(true) ==>
                sem.Matches(whole, v)(d) == sem.Matches(lead.variable, v)(d)
    {
      SplitOfWhole(sem, whole, d, v);
    }
    ScanOfScan(foreign, sem.MatchesPlain(lead.independent), base, sem.Matches(whole, v));
    ScanAgrees(base, sem.Matches(whole, v), sem.Matches(lead.variable, v));
  }

  lemma SplitOfWhole<C(!new), D(!new), V(!new), K(!new)>(sem: Semantics<C, D, V, K>, whole: Filter<C>, d: D, v: V)
    requires sem.Valid()
    ensures var lead := Analyze(whole, sem.varies, sem.isKey);
            && (sem.MatchesPlain(lead.independent)(d) == Known(false) ==> sem.Matches(whole, v)(d) == Known(false))
            && (sem.MatchesPlain(lead.independent)(d) == Known(true) ==>
                  sem.Matches(whole, v)(d) == sem.Matches(lead.variable, v)(d))
  {
    var lead := Analyze(whole, sem.varies, sem.isKey);
    var leaves := Flatten(whole);
    var t := sem.On(d, v);
    var plain := sem.PlainOn(d);
    var independent := Keep(leaves, c => !sem.varies(c));
    SplitDecides(leaves, sem.varies, t);
    FlattenOfAll(independent);
    FlattenOfAll(Keep(leaves, sem.varies));
    MatchesIsConjunction(sem, whole, d, v);
    MatchesIsConjunction(sem, lead.variable, d, v);
    PlainIsTest(sem, leaves, d, v);
    KeepKeeps(leaves, c => !sem.varies(c));
    forall c | c in independent ensures Deferrable(plain(c)) { assert Deferrable(t(c)); }
    EvaluateIsConjunction(lead.independent, plain);
  }

  lemma {:induction false} KeepKeeps<C>(cs: seq<C>, p: C -> bool)
    ensures forall c :: c in Keep(cs, p) ==> p(c)
  {
    if cs == [] {
    } else {
      KeepKeeps(cs[1..], p);
    }
  }

  /** The independent clauses do not see the variables. */
  lemma {:induction false} PlainIsTest<C(!new), D(!new), V(!new), K(!new)>(sem: Semantics<C, D, V, K>, cs: seq<C>,
      d: D, v: V)
    requires sem.Valid()
    ensures Conjunction(Keep(cs, c => !sem.varies(c)), sem.PlainOn(d)) ==
            Conjunction(Keep(cs, c => !sem.varies(c)), sem.On(d, v))
  {
    if cs == [] {
    } else {
      PlainIsTest(sem, cs[1..], d, v);
      var rest := Keep(cs[1..], c => !sem.varies(c));
      if !sem.varies(cs[0]) {
        assert Keep(cs, c => !sem.varies(c)) == [cs[0]] + rest;
        assert ([cs[0]] + rest)[1..] == rest;
      } else {
        assert Keep(cs, c => !sem.varies(c)) == rest;
      }
    }
  }

  // ---------------------------------------------------------------------------
  // The stage
  // ---------------------------------------------------------------------------

  /** One execution of the stage: the foreign side as held for the loop, and the table
      once a second input document has asked for one. */
  class LookupStage<C(!new), D(!new), V(!new), K(==, !new)> {
    const sem: Semantics<C, D, V, K>
    const whole: Filter<C>
    const lead: Lead<C>
    const foreign: seq<D>
    var hoisted: bool
    var base: seq<D>
    var table: JoinTable<K>

    ghost predicate Valid()
      reads this
    {
      && sem.Valid() && lead == Analyze(whole, sem.varies, sem.isKey)
      && (hoisted ==> Scan(foreign, sem.MatchesPlain(lead.independent)) == Ok(base))
      && (!hoisted ==> base == foreign)
      && (table.Built? ==> lead.key.Some? && Files(table.buckets, base, (d: D) => sem.foreign(lead.key.value, d)))
    }

    /** The independent clauses are applied once; any error abandons the attempt. */
    constructor (sem: Semantics<C, D, V, K>, whole: Filter<C>, foreign: seq<D>)
      requires sem.Valid()
      ensures Valid() && this.sem == sem && this.whole == whole && this.foreign == foreign
    {
      var lead := Analyze(whole, sem.varies, sem.isKey);
      this.sem, this.whole, this.lead, this.foreign := sem, whole, lead, foreign;
      this.table := NotBuilt;
      var kept := ScanLoop(foreign, sem.MatchesPlain(lead.independent));
      if kept.Ok? {
        this.hoisted, this.base := true, kept.value;
      } else {
        this.hoisted, this.base := false, foreign;
      }
    }

    /** The documents kept for input document `n` by way of the table; nothing when there is no
        table, or it cannot tell. */
    method Probed(n: nat, v: V) returns (found: Option<seq<D>>)
      requires Valid()
      modifies this`table
      ensures Valid()
      ensures found.Some? ==> Scan(foreign, sem.Matches(whole, v)) == Ok(found.value)
    {
      found := None;
      if n >= 1 && hoisted && base != [] && lead.key.Some? {
        var key := lead.key.value;
        if table.NotBuilt? {
          table := BuildTable(base, (d: D) => sem.foreign(key, d));
        }
        if table.Built? {
          found := Probe(table.buckets, base, (d: D) => sem.foreign(key, d), sem.local(key, v),
                         sem.Matches(lead.residual, v));
          if found.Some? {
            HoistIsExact(sem, whole, foreign, base, v);
            ProbeIsScan(sem, whole, base, v, found.value);
          }
        }
      }
    }

    /** The documents kept for input document `n`, or the first error, exactly as
        testing the whole filter on every foreign document gives them. */
    method MatchedForInput(n: nat, v: V) returns (r: Result<seq<D>, Error>)
      requires Valid()
      modifies this`table
      ensures Valid()
      ensures r == Scan(foreign, sem.Matches(whole, v)) && IsKept(sem, whole, foreign, v, r)
    {
      ScanIsKept(sem, whole, foreign, v);
      var found := Probed(n, v);
      if found.Some? { return Ok(found.value); }
      if hoisted { HoistIsExact(sem, whole, foreign, base, v); }
      r := ScanLoop(base, sem.Matches(if hoisted then lead.variable else whole, v));
    }
  }

  /** The sub-pipeline's first stage, if it is a `$match`: one that reads no variable is
      applied once, and its errors are the request's; one that does is applied to every pair. */
  datatype Leading<C> = NoMatch | PlainMatch(filter: Filter<C>) | VariableMatch(filter: Filter<C>)

  /** What is done with an input document besides its leading `$match`: its variables are
      bound, the rest of the sub-pipeline runs over what the match kept, what comes out is
      counted against the ceiling, and the array is charged and attached. */
  datatype Stage<!I, !D, !V> = Stage(
    bind: I -> Result<V, Error>,
    rest: (seq<D>, V) -> Result<seq<D>, Error>,
    max: nat,
    tooMany: Error,
    attach: (nat, (I, seq<D>)) -> Result<nat, Error>)

  /** What the leading `$match` keeps for one input document, tested pair by pair. */
  function Kept<C(!new), D(!new), V(!new), K(!new)>(sem: Semantics<C, D, V, K>, whole: Option<Filter<C>>,
                                                    foreign: seq<D>, v: V)
    : Result<seq<D>, Error>
  {
    match whole
    case None => Ok(foreign)
    case Some(filter) => Scan(foreign, sem.Matches(filter, v))
  }

  /** What one input document gets. */
  function JoinedTo<C(!new), I, D(!new), V(!new), K(!new)>(
      sem: Semantics<C, D, V, K>, whole: Option<Filter<C>>, foreign: seq<D>, stage: Stage<I, D, V>, input: I)
    : Result<seq<D>, Error>
  {
    match stage.bind(input)
    case Err(e) => Err(e)
    case Ok(v) =>
      match Kept(sem, whole, foreign, v)
      case Err(e) => Err(e)
      case Ok(docs) => stage.rest(docs, v)
  }

  /** The arrays attached so far, and what is charged for them. */
  datatype Progress<D> = Progress(joined: seq<seq<D>>, account: nat)

  /** One more input document. */
  function Attached<I, D, V>(before: Progress<D>, stage: Stage<I, D, V>, input: I, docs: seq<D>)
    : Result<Progress<D>, Error>
  {
    var joined := before.joined + [docs];
    if Total(joined) > stage.max then Err(stage.tooMany)
    else
      match stage.attach(before.account, (input, docs))
      case Err(e) => Err(e)
      case Ok(account) => Ok(Progress(joined, account))
  }

  /** The stage without its fast path: each input document against every foreign one, up to
      the first error or refusal. */
  function NestedLoop<C(!new), I, D(!new), V(!new), K(!new)>(
      sem: Semantics<C, D, V, K>, whole: Option<Filter<C>>, foreign: seq<D>, stage: Stage<I, D, V>, inputs: seq<I>,
      start: nat)
    : Result<Progress<D>, Error>
  {
    if inputs == [] then Ok(Progress([], start))
    else
      var before, input := NestedLoop(sem, whole, foreign, stage, inputs[..|inputs| - 1], start), inputs[|inputs| - 1];
      if before.Err? then before
      else
        match JoinedTo(sem, whole, foreign, stage, input)
        case Err(e) => Err(e)
        case Ok(docs) => Attached(before.value, stage, input, docs)
  }

  /** The whole stage.  With no input document the foreign side is not part of the answer,
      and its `$match` cannot fail it. */
  function Answer<C(!new), I, D(!new), V(!new), K(!new)>(
      sem: Semantics<C, D, V, K>, leading: Leading<C>, foreign: seq<D>, stage: Stage<I, D, V>, inputs: seq<I>,
      start: nat)
    : Result<Progress<D>, Error>
  {
    if inputs == [] then Ok(Progress([], start))
    else
      match leading
      case NoMatch => NestedLoop(sem, None, foreign, stage, inputs, start)
      case VariableMatch(filter) => NestedLoop(sem, Some(filter), foreign, stage, inputs, start)
      case PlainMatch(filter) =>
        match Scan(foreign, sem.MatchesPlain(filter))
        case Err(e) => Err(e)
        case Ok(base) => NestedLoop(sem, None, base, stage, inputs, start)
  }

  // The same, from the documents alone: no function below calls `Scan`, `JoinedTo` or
  // `NestedLoop`.

  /** What one input document gets, or why it gets nothing. */
  ghost predicate Gets<C(!new), I, D(!new), V(!new), K(!new)>(
      sem: Semantics<C, D, V, K>, whole: Option<Filter<C>>, foreign: seq<D>, stage: Stage<I, D, V>, input: I,
      r: Result<seq<D>, Error>)
  {
    match stage.bind(input)
    case Err(e) => r == Err(e)
    case Ok(v) =>
      if whole.None? then r == stage.rest(foreign, v)
      else
        || (exists kept :: IsKept(sem, whole.value, foreign, v, Ok(kept)) && r == stage.rest(kept, v))
        || (r.Err? && IsKept(sem, whole.value, foreign, v, r))
  }

  /** One input document gets `docs`, all together are `total`, and the account moves on. */
  ghost predicate Joins<C(!new), I, D(!new), V(!new), K(!new)>(
      sem: Semantics<C, D, V, K>, whole: Option<Filter<C>>, foreign: seq<D>, stage: Stage<I, D, V>, input: I,
      docs: seq<D>, total: nat, before: nat, after: nat)
  {
    && Gets(sem, whole, foreign, stage, input, Ok(docs)) && total <= stage.max
    && stage.attach(before, (input, docs)) == Ok(after)
  }

  /** The first input documents have got `joined`, within the ceiling, and `accounts` says what
      is charged before each and after the last. */
  ghost predicate Advances<C(!new), I, D(!new), V(!new), K(!new)>(
      sem: Semantics<C, D, V, K>, whole: Option<Filter<C>>, foreign: seq<D>, stage: Stage<I, D, V>, inputs: seq<I>,
      start: nat, joined: seq<seq<D>>, accounts: seq<nat>)
  {
    && |joined| <= |inputs| && |accounts| == |joined| + 1 && accounts[0] == start
    && forall i :: 0 <= i < |joined| ==>
         Joins(sem, whole, foreign, stage, inputs[i], joined[i], Total(joined[..i + 1]), accounts[i], accounts[i + 1])
  }

  /** An input document gets `docs`, and that ends the request. */
  ghost predicate Refuses<C(!new), I, D(!new), V(!new), K(!new)>(
      sem: Semantics<C, D, V, K>, whole: Option<Filter<C>>, foreign: seq<D>, stage: Stage<I, D, V>, input: I,
      docs: seq<D>, total: nat, account: nat, e: Error)
  {
    && Gets(sem, whole, foreign, stage, input, Ok(docs))
    && if total > stage.max then e == stage.tooMany else stage.attach(account, (input, docs)) == Err(e)
  }

  /** Why the next input document ends the request. */
  ghost predicate Stops<C(!new), I, D(!new), V(!new), K(!new)>(
      sem: Semantics<C, D, V, K>, whole: Option<Filter<C>>, foreign: seq<D>, stage: Stage<I, D, V>, input: I,
      joined: seq<seq<D>>, account: nat, e: Error)
  {
    || Gets(sem, whole, foreign, stage, input, Err(e))
    || exists docs :: Refuses(sem, whole, foreign, stage, input, docs, Total(joined + [docs]), account, e)
  }

  /** Every input document in turn, to the last or to the first that ends the request. */
  ghost predicate IsRun<C(!new), I, D(!new), V(!new), K(!new)>(
      sem: Semantics<C, D, V, K>, whole: Option<Filter<C>>, foreign: seq<D>, stage: Stage<I, D, V>, inputs: seq<I>,
      start: nat, r: Result<Progress<D>, Error>, joined: seq<seq<D>>, accounts: seq<nat>)
  {
    && Advances(sem, whole, foreign, stage, inputs, start, joined, accounts)
    && match r
       case Ok(progress) => |joined| == |inputs| && progress == Progress(joined, accounts[|joined|])
       case Err(e) =>
         |joined| < |inputs| && Stops(sem, whole, foreign, stage, inputs[|joined|], joined, accounts[|joined|], e)
  }

  lemma JoinedIsGot<C(!new), I, D(!new), V(!new), K(!new)>(
      sem: Semantics<C, D, V, K>, whole: Option<Filter<C>>, foreign: seq<D>, stage: Stage<I, D, V>, input: I)
    requires sem.Valid()
    ensures Gets(sem, whole, foreign, stage, input, JoinedTo(sem, whole, foreign, stage, input))
  {
    if whole.Some? && stage.bind(input).Ok? { ScanIsKept(sem, whole.value, foreign, stage.bind(input).value); }
  }

  lemma AdvancesNext<C(!new), I, D(!new), V(!new), K(!new)>(
      sem: Semantics<C, D, V, K>, whole: Option<Filter<C>>, foreign: seq<D>, stage: Stage<I, D, V>, inputs: seq<I>,
      start: nat, joined: seq<seq<D>>, accounts: seq<nat>, docs: seq<D>, account: nat)
    requires Advances(sem, whole, foreign, stage, inputs, start, joined, accounts) && |joined| < |inputs|
    requires var n := |joined|;
             Joins(sem, whole, foreign, stage, inputs[n], docs, Total(joined + [docs]), accounts[n], account)
    ensures Advances(sem, whole, foreign, stage, inputs, start, joined + [docs], accounts + [account])
  {
    var more, stands, n := joined + [docs], accounts + [account], |joined|;
    forall i | 0 <= i < n
      ensures Joins(sem, whole, foreign, stage, inputs[i], more[i], Total(more[..i + 1]), stands[i], stands[i + 1])
    {
      assert more[..i + 1] == joined[..i + 1];
      assert Joins(sem, whole, foreign, stage, inputs[i], joined[i], Total(joined[..i + 1]), accounts[i],
                   accounts[i + 1]);
    }
    assert more[..n + 1] == more;
    assert Joins(sem, whole, foreign, stage, inputs[n], more[n], Total(more[..n + 1]), stands[n], stands[n + 1]);
  }

  lemma AdvancesFurther<C(!new), I, D(!new), V(!new), K(!new)>(
      sem: Semantics<C, D, V, K>, whole: Option<Filter<C>>, foreign: seq<D>, stage: Stage<I, D, V>, inputs: seq<I>,
      n: nat, start: nat, joined: seq<seq<D>>, accounts: seq<nat>)
    requires n <= |inputs| && Advances(sem, whole, foreign, stage, inputs[..n], start, joined, accounts)
    ensures Advances(sem, whole, foreign, stage, inputs, start, joined, accounts)
  {
    forall i | 0 <= i < |joined| ensures inputs[..n][i] == inputs[i] {}
  }

  /** The nested loop takes the input documents in turn. */
  lemma {:induction false} NestedLoopMeaning<C(!new), I, D(!new), V(!new), K(!new)>(
      sem: Semantics<C, D, V, K>, whole: Option<Filter<C>>, foreign: seq<D>, stage: Stage<I, D, V>, inputs: seq<I>,
      start: nat)
    returns (joined: seq<seq<D>>, accounts: seq<nat>)
    requires sem.Valid()
    ensures IsRun(sem, whole, foreign, stage, inputs, start, NestedLoop(sem, whole, foreign, stage, inputs, start),
                  joined, accounts)
  {
    if inputs == [] {
      joined, accounts := [], [start];
    } else {
      var n := |inputs| - 1;
      joined, accounts := NestedLoopMeaning(sem, whole, foreign, stage, inputs[..n], start);
      AdvancesFurther(sem, whole, foreign, stage, inputs, n, start, joined, accounts);
      if |joined| < n {
        assert inputs[..n][|joined|] == inputs[|joined|];
      } else {
        var got := JoinedTo(sem, whole, foreign, stage, inputs[n]);
        JoinedIsGot(sem, whole, foreign, stage, inputs[n]);
        if got.Ok? {
          var next := Attached(Progress(joined, accounts[n]), stage, inputs[n], got.value);
          if next.Err? {
            assert Refuses(sem, whole, foreign, stage, inputs[n], got.value, Total(joined + [got.value]), accounts[n],
                           next.error);
          } else {
            AdvancesNext(sem, whole, foreign, stage, inputs, start, joined, accounts, got.value, next.value.account);
            joined, accounts := joined + [got.value], accounts + [next.value.account];
          }
        }
      }
    }
  }

  /** Every clause is true of the pair, or one is false of it. */
  ghost predicate IsDecided<C(!new), D(!new), V(!new), K(!new)>(sem: Semantics<C, D, V, K>, f: Filter<C>, d: D, v: V) {
    Says(Flatten(f), sem.On(d, v), Known(true)) || Says(Flatten(f), sem.On(d, v), Known(false))
  }

  /** The first foreign document that is not decided fails the input document, with the error of
      its first clause that fails. */
  lemma UndecidedFailsInput<C(!new), I, D(!new), V(!new), K(!new)>(
      sem: Semantics<C, D, V, K>, f: Filter<C>, foreign: seq<D>, stage: Stage<I, D, V>, input: I, v: V, i: nat,
      e: Error)
    requires sem.Valid() && stage.bind(input) == Ok(v) && i < |foreign|
    requires forall j :: 0 <= j < i ==> IsDecided(sem, f, foreign[j], v)
    requires Says(Flatten(f), sem.On(foreign[i], v), Failed(e))
    ensures JoinedTo(sem, Some(f), foreign, stage, input) == Err(sem.report(e, foreign[i]))
  {
    ScanIsKept(sem, f, foreign, v);
    var verdicts: seq<Truth> :| Judged(sem, f, foreign, v, verdicts)
                                && KeptBy(foreign, verdicts, sem.report, Scan(foreign, sem.Matches(f, v)));
    forall j | 0 <= j < i ensures verdicts[j].Known? { DecidedIsKnown(sem, f, foreign[j], v, verdicts[j]); }
    SaysIsUnique(Flatten(f), sem.On(foreign[i], v), verdicts[i], Failed(e));
    FirstFailureIsKept(foreign, verdicts, sem.report, Scan(foreign, sem.Matches(f, v)), i);
  }

  lemma DecidedIsKnown<C(!new), D(!new), V(!new), K(!new)>(sem: Semantics<C, D, V, K>, f: Filter<C>, d: D, v: V,
                                                           verdict: Truth)
    requires IsDecided(sem, f, d, v) && Says(Flatten(f), sem.On(d, v), verdict)
    ensures verdict == Known(Says(Flatten(f), sem.On(d, v), Known(true)))
  {
    if Says(Flatten(f), sem.On(d, v), Known(true)) {
      SaysIsUnique(Flatten(f), sem.On(d, v), verdict, Known(true));
    } else {
      SaysIsUnique(Flatten(f), sem.On(d, v), verdict, Known(false));
    }
  }

  /** When every foreign document is decided, exactly those of which every clause is true reach
      the rest of the sub-pipeline, in scan order. */
  lemma DecidedReachRest<C(!new), I, D(!new), V(!new), K(!new)>(
      sem: Semantics<C, D, V, K>, f: Filter<C>, foreign: seq<D>, stage: Stage<I, D, V>, input: I, v: V, at: seq<nat>)
    requires sem.Valid() && stage.bind(input) == Ok(v)
    requires forall j :: 0 <= j < |foreign| ==> IsDecided(sem, f, foreign[j], v)
    requires Places.Ascending(at)
    requires forall k: nat :: k in at <==> k < |foreign| && Says(Flatten(f), sem.On(foreign[k], v), Known(true))
    ensures (forall j :: 0 <= j < |at| ==> at[j] < |foreign|)
    ensures JoinedTo(sem, Some(f), foreign, stage, input) == stage.rest(Places.DocsAt(foreign, at), v)
  {
    ScanIsKept(sem, f, foreign, v);
    var verdicts: seq<Truth> :| Judged(sem, f, foreign, v, verdicts)
                                && KeptBy(foreign, verdicts, sem.report, Scan(foreign, sem.Matches(f, v)));
    forall j | 0 <= j < |foreign| ensures verdicts[j] == Known(j in at) {
      DecidedIsKnown(sem, f, foreign[j], v, verdicts[j]);
    }
    forall j | 0 <= j < |at| ensures at[j] < |foreign| { assert at[j] in at; }
    PassesAreKept(foreign, verdicts, sem.report, Scan(foreign, sem.Matches(f, v)), at);
  }

  /** What a filter that reads no variable says of each foreign document. */
  function PlainVerdicts<C(!new), D(!new), V(!new), K(!new)>(sem: Semantics<C, D, V, K>, f: Filter<C>, foreign: seq<D>)
    : (r: seq<Truth>)
    ensures |r| == |foreign| && forall i :: 0 <= i < |foreign| ==> r[i] == Evaluate(f, sem.PlainOn(foreign[i]))
  {
    seq(|foreign|, i requires 0 <= i < |foreign| => Evaluate(f, sem.PlainOn(foreign[i])))
  }

  lemma ScanIsKeptPlain<C(!new), D(!new), V(!new), K(!new)>(sem: Semantics<C, D, V, K>, f: Filter<C>, foreign: seq<D>)
    ensures KeptBy(foreign, PlainVerdicts(sem, f, foreign), sem.report, Scan(foreign, sem.MatchesPlain(f)))
  {
    ScanMeaning(foreign, sem.MatchesPlain(f), PlainVerdicts(sem, f, foreign), sem.report);
  }

  ghost predicate RunsTo<C(!new), I, D(!new), V(!new), K(!new)>(
      sem: Semantics<C, D, V, K>, whole: Option<Filter<C>>, foreign: seq<D>, stage: Stage<I, D, V>, inputs: seq<I>,
      start: nat, r: Result<Progress<D>, Error>)
  {
    exists joined, accounts :: IsRun(sem, whole, foreign, stage, inputs, start, r, joined, accounts)
  }

  /** The whole stage, from the documents alone. */
  ghost predicate IsAnswer<C(!new), I, D(!new), V(!new), K(!new)>(
      sem: Semantics<C, D, V, K>, leading: Leading<C>, foreign: seq<D>, stage: Stage<I, D, V>, inputs: seq<I>,
      start: nat, r: Result<Progress<D>, Error>)
  {
    if inputs == [] then r == Ok(Progress([], start))
    else
      match leading
      case NoMatch => RunsTo(sem, None, foreign, stage, inputs, start, r)
      case VariableMatch(filter) => RunsTo(sem, Some(filter), foreign, stage, inputs, start, r)
      case PlainMatch(filter) =>
        var verdicts := PlainVerdicts(sem, filter, foreign);
        || (r.Err? && KeptBy(foreign, verdicts, sem.report, Err(r.error)))
        || exists base ::
             KeptBy(foreign, verdicts, sem.report, Ok(base)) && RunsTo(sem, None, base, stage, inputs, start, r)
  }

  lemma AnswerMeaning<C(!new), I, D(!new), V(!new), K(!new)>(
      sem: Semantics<C, D, V, K>, leading: Leading<C>, foreign: seq<D>, stage: Stage<I, D, V>, inputs: seq<I>,
      start: nat)
    requires sem.Valid()
    ensures IsAnswer(sem, leading, foreign, stage, inputs, start, Answer(sem, leading, foreign, stage, inputs, start))
  {
    match leading
    case NoMatch => var joined, accounts := NestedLoopMeaning(sem, None, foreign, stage, inputs, start);
    case VariableMatch(f) => var joined, accounts := NestedLoopMeaning(sem, Some(f), foreign, stage, inputs, start);
    case PlainMatch(f) =>
      ScanIsKeptPlain(sem, f, foreign);
      var base := Scan(foreign, sem.MatchesPlain(f));
      if base.Ok? { var joined, accounts := NestedLoopMeaning(sem, None, base.value, stage, inputs, start); }
  }

  lemma {:induction false} NestedLoopStops<C(!new), I, D(!new), V(!new), K(!new)>(
      sem: Semantics<C, D, V, K>, whole: Option<Filter<C>>, foreign: seq<D>, stage: Stage<I, D, V>, inputs: seq<I>,
      start: nat, k: nat)
    requires k <= |inputs| && NestedLoop(sem, whole, foreign, stage, inputs[..k], start).Err?
    ensures NestedLoop(sem, whole, foreign, stage, inputs, start) ==
            NestedLoop(sem, whole, foreign, stage, inputs[..k], start)
    decreases |inputs|
  {
    if k == |inputs| {
      assert inputs[..k] == inputs;
    } else {
      assert inputs[..|inputs| - 1][..k] == inputs[..k];
      NestedLoopStops(sem, whole, foreign, stage, inputs[..|inputs| - 1], start, k);
    }
  }

  lemma NestedLoopNext<C(!new), I, D(!new), V(!new), K(!new)>(
      sem: Semantics<C, D, V, K>, whole: Option<Filter<C>>, foreign: seq<D>, stage: Stage<I, D, V>, inputs: seq<I>,
      start: nat, i: nat, before: Progress<D>)
    requires i < |inputs| && NestedLoop(sem, whole, foreign, stage, inputs[..i], start) == Ok(before)
    ensures var joined := JoinedTo(sem, whole, foreign, stage, inputs[i]);
            var next := if joined.Err? then Err(joined.error) else Attached(before, stage, inputs[i], joined.value);
            && NestedLoop(sem, whole, foreign, stage, inputs[..i + 1], start) == next
            && (next.Err? ==> NestedLoop(sem, whole, foreign, stage, inputs, start) == next)
  {
    assert inputs[..i + 1][..i] == inputs[..i];
    if NestedLoop(sem, whole, foreign, stage, inputs[..i + 1], start).Err? {
      NestedLoopStops(sem, whole, foreign, stage, inputs, start, i + 1);
    }
  }

  /** One input document, through the table if there is one. */
  method JoinOne<C(!new), I, D(!new), V(!new), K(==, !new)>(
      sem: Semantics<C, D, V, K>, whole: Option<Filter<C>>, foreign: seq<D>, stage: Stage<I, D, V>,
      lookup: LookupStage?<C, D, V, K>, n: nat, input: I)
    returns (r: Result<seq<D>, Error>)
    requires whole.Some? <==> lookup != null
    requires lookup != null ==>
               lookup.Valid() && lookup.sem == sem && lookup.whole == whole.value && lookup.foreign == foreign
    modifies if lookup != null then {lookup} else {}
    ensures lookup != null ==> lookup.Valid()
    ensures r == JoinedTo(sem, whole, foreign, stage, input)
  {
    var bound := stage.bind(input);
    if bound.Err? { return Err(bound.error); }
    if lookup == null { return stage.rest(foreign, bound.value); }
    var matched := lookup.MatchedForInput(n, bound.value);
    if matched.Err? { return Err(matched.error); }
    return stage.rest(matched.value, bound.value);
  }

  method JoinEach<C(!new), I, D(!new), V(!new), K(==, !new)>(
      sem: Semantics<C, D, V, K>, whole: Option<Filter<C>>, foreign: seq<D>, stage: Stage<I, D, V>, inputs: seq<I>,
      start: nat)
    returns (r: Result<Progress<D>, Error>)
    requires sem.Valid()
    ensures r == NestedLoop(sem, whole, foreign, stage, inputs, start)
  {
    var lookup: LookupStage?<C, D, V, K> := null;
    if whole.Some? { lookup := new LookupStage(sem, whole.value, foreign); }
    var progress := Progress([], start);
    var count := 0;
    for i := 0 to |inputs|
      invariant (whole.Some? <==> lookup != null) && (lookup != null ==> fresh(lookup) && lookup.Valid())
      invariant lookup != null ==> lookup.sem == sem && lookup.whole == whole.value && lookup.foreign == foreign
      invariant NestedLoop(sem, whole, foreign, stage, inputs[..i], start) == Ok(progress)
      invariant count == Total(progress.joined)
    {
      NestedLoopNext(sem, whole, foreign, stage, inputs, start, i, progress);
      var docs := JoinOne(sem, whole, foreign, stage, lookup, i, inputs[i]);
      if docs.Err? { return Err(docs.error); }
      TotalSnoc(progress.joined, docs.value);
      count := count + |docs.value|;
      if count > stage.max { return Err(stage.tooMany); }
      var account := stage.attach(progress.account, (inputs[i], docs.value));
      if account.Err? { return Err(account.error); }
      progress := Progress(progress.joined + [docs.value], account.value);
    }
    assert inputs[..|inputs|] == inputs;
    return Ok(progress);
  }

  /** The stage answers as the nested loop does, errors and refusals included, and whichever
      of them comes first. */
  method LookupPipeline<C(!new), I, D(!new), V(!new), K(==, !new)>(
      sem: Semantics<C, D, V, K>, leading: Leading<C>, foreign: seq<D>, stage: Stage<I, D, V>, inputs: seq<I>,
      start: nat)
    returns (r: Result<Progress<D>, Error>)
    requires sem.Valid()
    ensures r == Answer(sem, leading, foreign, stage, inputs, start)
    ensures IsAnswer(sem, leading, foreign, stage, inputs, start, r)
  {
    AnswerMeaning(sem, leading, foreign, stage, inputs, start);
    if inputs == [] { return Ok(Progress([], start)); }
    match leading {
      case NoMatch => r := JoinEach(sem, None, foreign, stage, inputs, start);
      case VariableMatch(filter) => r := JoinEach(sem, Some(filter), foreign, stage, inputs, start);
      case PlainMatch(filter) =>
        var base := ScanLoop(foreign, sem.MatchesPlain(filter));
        if base.Err? { return Err(base.error); }
        r := JoinEach(sem, None, base.value, stage, inputs, start);
    }
  }

  /** Were evaluation to raise an error that is not deferrable, hoisting would not be
      exact: a clause written first ends the whole conjunction, while the independent
      clause after it, applied first, would have dropped the document. */
  lemma NonDeferrableErrorsBreakHoisting(internal: Error)
    requires !internal.deferrable
    ensures var varies := (c: int) => c == 0;
            var t := (c: int) => if varies(c) then Failed(internal) else Known(false);
            var whole := And([Leaf(0), Leaf(1)]);
            && Evaluate(whole, t) == Failed(internal)
            && Evaluate(Analyze(whole, varies, varies).independent, t) == Known(false)
  {
    var varies := (c: int) => c == 0;
    var t := (c: int) => if varies(c) then Failed(internal) else Known(false);
    var both: seq<Filter<int>> := [Leaf(0), Leaf(1)];
    assert both[1..] == [Leaf(1)] && [Leaf(1)][1..] == [];
    assert EvaluateAll(both, t)[0] == Failed(internal);
    assert Flatten(And(both)) == [0, 1] by {
      assert FlattenAll(both) == [0] + FlattenAll([Leaf(1)]);
      assert FlattenAll([Leaf(1)]) == [1] + FlattenAll<int>([]);
    }
    assert Keep([0, 1], c => !varies(c)) == [1] by {
      assert [0, 1][1..] == [1] && [1][1..] == [];
      assert Keep([1], c => !varies(c)) == [1];
    }
    var one := All([1]);
    assert one == And([Leaf(1)]);
    assert EvaluateAll([Leaf(1)], t) == [Known(false)];
  }
}
