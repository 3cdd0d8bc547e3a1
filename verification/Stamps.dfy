/**
 Hybrid logical clocks, stamps and version vectors.

 A clock value is a pair of a 64-bit wall clock and a 16-bit counter, ordered
 lexicographically.  Everything that consumes one only compares it or takes its
 predecessor, so the rest of the model works on its rank in that order, a
 natural number; `RankPreservesOrder` and `RankOfPredecessor` justify that.
 */
module HybridClock {
  const COUNTERS: nat := 0x1_0000

  datatype Timestamp = Timestamp(wallMs: nat, counter: nat) {
    predicate Valid() { wallMs < 0x1_0000_0000_0000_0000 && counter < COUNTERS }

    predicate Less(other: Timestamp) {
      wallMs < other.wallMs || (wallMs == other.wallMs && counter < other.counter)
    }

    function Predecessor(): Timestamp {
      if counter > 0 then Timestamp(wallMs, counter - 1)
      else if wallMs == 0 then Timestamp(0, 0)
      else Timestamp(wallMs - 1, COUNTERS - 1)
    }

    function Rank(): nat { wallMs * COUNTERS + counter }
  }

  lemma RankPreservesOrder(a: Timestamp, b: Timestamp)
    requires a.Valid() && b.Valid()
    ensures a.Less(b) <==> a.Rank() < b.Rank()
  {}

  lemma RankOfPredecessor(a: Timestamp)
    requires a.Valid()
    ensures a.Predecessor().Valid()
    ensures a.Predecessor().Rank() == if a.Rank() == 0 then 0 else a.Rank() - 1
  {}
}

module Stamps {
  import opened Outcomes

  /** The rank of a clock value; see `HybridClock`. */
  type Hlc = nat
  type NodeId = nat

  function Predecessor(h: Hlc): Hlc { if h == 0 then 0 else h - 1 }

  /** When a write happened and at which node: the oplog's sort key. */
  datatype Stamp = Stamp(hlc: Hlc, node: NodeId)

  predicate Before(a: Stamp, b: Stamp) {
    a.hlc < b.hlc || (a.hlc == b.hlc && a.node < b.node)
  }

  /** Per originating node, how far it is covered; an absent node is at zero. */
  type VersionVector = map<NodeId, Hlc>

  function Get(v: VersionVector, n: NodeId): Hlc { if n in v then v[n] else 0 }

  predicate CoveredBy(v: VersionVector, s: Stamp) { s.hlc <= Get(v, s.node) }

  /** Nothing that `a` covers is uncovered in `b`. */
  ghost predicate AtMost(a: VersionVector, b: VersionVector) {
    forall n :: Get(a, n) <= Get(b, n)
  }

  function Observe(v: VersionVector, s: Stamp): VersionVector {
    v[s.node := Max(Get(v, s.node), s.hlc)]
  }

  function ObserveAll(v: VersionVector, ss: seq<Stamp>): VersionVector {
    if ss == [] then v
    else Observe(ObserveAll(v, ss[..|ss| - 1]), ss[|ss| - 1])
  }

  function Merge(a: VersionVector, b: VersionVector): VersionVector {
    map n | n in a.Keys + b.Keys :: Max(Get(a, n), Get(b, n))
  }

  /** `theirs` names origin `n` further on than `mine` does. */
  predicate Trails(mine: VersionVector, theirs: VersionVector, n: NodeId) {
    Get(mine, n) < Get(theirs, n)
  }

  /** `from` is the lowest position at which `mine` trails `theirs`. */
  ghost predicate IsBehind(mine: VersionVector, theirs: VersionVector, from: Hlc) {
    && (exists n :: Trails(mine, theirs, n) && Get(mine, n) == from)
    && forall n :: Trails(mine, theirs, n) ==> from <= Get(mine, n)
  }

  /** The lowest position `mine` must be served from to catch up with `theirs`. */
  method Behind(mine: VersionVector, theirs: VersionVector) returns (r: Option<Hlc>)
    ensures r.None? <==> AtMost(theirs, mine)
    ensures r.Some? ==> IsBehind(mine, theirs, r.value)
  {
    var todo := theirs.Keys;
    r := None;
    ghost var at: NodeId := 0;
    while todo != {}
      invariant todo <= theirs.Keys
      invariant forall n :: n in theirs && n !in todo && Trails(mine, theirs, n) ==>
                  r.Some? && r.value <= Get(mine, n)
      invariant r.Some? ==> Trails(mine, theirs, at) && Get(mine, at) == r.value
      decreases todo
    {
      var n :| n in todo;
      todo := todo - {n};
      if Trails(mine, theirs, n) && (r.None? || Get(mine, n) < r.value) {
        r := Some(Get(mine, n));
        at := n;
      }
    }
  }

  /** What observing a list of stamps covers: what was covered, and what is at or
      below one of the stamps of its own origin. */
  lemma {:induction false} ObserveAllCovers(v: VersionVector, ss: seq<Stamp>, s: Stamp)
    ensures CoveredBy(ObserveAll(v, ss), s) <==>
            CoveredBy(v, s) || exists o :: o in ss && o.node == s.node && s.hlc <= o.hlc
  {
    if ss == [] {
    } else {
      var last := ss[|ss| - 1];
      ObserveAllCovers(v, ss[..|ss| - 1], s);
      assert ss == ss[..|ss| - 1] + [last];
      if last.node == s.node && s.hlc <= last.hlc { assert last in ss; }
    }
  }

  /** Where a scanned or served window of the oplog ended. */
  datatype WindowEnd = Exhausted | Through(last: Stamp) | Until(stop: Stamp)

  /** Whether a window that ended at `end` went past `s`. */
  predicate Examined(end: WindowEnd, s: Stamp) {
    match end
    case Exhausted => true
    case Through(last) => !Before(last, s)
    case Until(stop) => Before(s, stop)
  }

  /** How far into origin `n` a window reached. */
  function Reached(end: WindowEnd, n: NodeId, whole: Hlc): Hlc {
    match end
    case Exhausted => whole
    case Through(last) => Min(whole, if n <= last.node then last.hlc else Predecessor(last.hlc))
    case Until(stop) => Min(whole, if n < stop.node then stop.hlc else Predecessor(stop.hlc))
  }

  function CoverageUpTo(theirs: VersionVector, end: WindowEnd): VersionVector {
    map n | n in theirs :: Reached(end, n, theirs[n])
  }

  /** The per-origin position is exact: it covers a stamp exactly when the peer's
      vector does and the window went past it in (clock, node) order. */
  lemma CoverageIsStampOrder(theirs: VersionVector, end: WindowEnd, s: Stamp)
    requires s.hlc > 0
    ensures CoveredBy(CoverageUpTo(theirs, end), s) <==> CoveredBy(theirs, s) && Examined(end, s)
  {}
}
