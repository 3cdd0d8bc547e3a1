/**
 The one read scan behind `find` and `count`, over its three access paths, and the
 cursor that pages through it.

 A collection is its rows in ascending key order.  The filter answers true, false, or
 that it could not be evaluated, which fails the read.
 */
module Reads {
  import opened Outcomes
  import opened Conjunctions
  import Places

  /** The rank of an encoded document key among all keys. */
  type Key = nat

  datatype Row<+D> = Row(key: Key, doc: D)

  ghost predicate Ascending<D>(rows: seq<Row<D>>) {
    forall i, j :: 0 <= i < j < |rows| ==> rows[i].key < rows[j].key
  }

  predicate Past(key: Key, after: Option<Key>) { after.None? || after.value < key }

  /** The rows whose keys `p` accepts. */
  function RowsIn<D>(rows: seq<Row<D>>, p: Key -> bool): seq<Row<D>> {
    if rows == [] then []
    else RowsIn(rows[..|rows| - 1], p) + (if p(rows[|rows| - 1].key) then [rows[|rows| - 1]] else [])
  }

  lemma RowsInSnoc<D>(rows: seq<Row<D>>, p: Key -> bool)
    requires rows != []
    ensures var n := |rows| - 1;
            RowsIn(rows, p) == if p(rows[n].key) then RowsIn(rows[..n], p) + [rows[n]] else RowsIn(rows[..n], p)
  {}

  /** The rows strictly after a cursor's key. */
  function Beyond<D>(rows: seq<Row<D>>, after: Option<Key>): seq<Row<D>> {
    RowsIn(rows, (k: Key) => Past(k, after))
  }

  /** The rows past a key are the rows from some place on: those before it are at or under the
      key, and those from it on are above. */
  ghost predicate Starts<D>(rows: seq<Row<D>>, after: Option<Key>, k: nat) {
    && k <= |rows| && (after.None? ==> k == 0)
    && (after.Some? ==> forall i :: 0 <= i < |rows| ==> (rows[i].key <= after.value <==> i < k))
  }

  lemma {:induction false} StartSomewhere<D>(rows: seq<Row<D>>, after: Option<Key>) returns (k: nat)
    requires Ascending(rows)
    ensures Starts(rows, after, k)
  {
    if rows == [] || after.None? {
      k := 0;
    } else if rows[|rows| - 1].key <= after.value {
      k := |rows|;
    } else {
      k := StartSomewhere(rows[..|rows| - 1], after);
      forall i | 0 <= i < |rows| - 1 ensures rows[..|rows| - 1][i] == rows[i] {}
    }
  }

  lemma StartsFront<D>(rows: seq<Row<D>>, after: Option<Key>, k: nat)
    requires Starts(rows, after, k) && k < |rows|
    ensures Starts(rows[..|rows| - 1], after, k) && Past(rows[|rows| - 1].key, after)
  {
    forall i | 0 <= i < |rows| - 1 ensures rows[..|rows| - 1][i] == rows[i] {}
  }

  lemma {:induction false} BeyondFrom<D>(rows: seq<Row<D>>, after: Option<Key>, k: nat)
    requires Starts(rows, after, k)
    ensures Beyond(rows, after) == rows[k..]
    decreases |rows|
  {
    if k == |rows| {
      RowsInNone(rows, (key: Key) => Past(key, after));
    } else {
      var n := |rows| - 1;
      StartsFront(rows, after, k);
      BeyondFrom(rows[..n], after, k);
      RowsInSnoc(rows, (key: Key) => Past(key, after));
      assert rows[k..] == rows[..n][k..] + [rows[n]];
    }
  }

  lemma BeyondMeaning<D>(rows: seq<Row<D>>, after: Option<Key>) returns (k: nat)
    requires Ascending(rows)
    ensures Starts(rows, after, k) && Beyond(rows, after) == rows[k..]
  {
    k := StartSomewhere(rows, after);
    BeyondFrom(rows, after, k);
  }

  lemma {:induction false} RowsInAscends<D>(rows: seq<Row<D>>, p: Key -> bool)
    requires Ascending(rows)
    ensures Ascending(RowsIn(rows, p))
    ensures forall i :: 0 <= i < |RowsIn(rows, p)| ==> RowsIn(rows, p)[i] in rows && p(RowsIn(rows, p)[i].key)
    ensures |RowsIn(rows, p)| <= |rows|
  {
    if rows == [] {
    } else {
      var n := |rows| - 1;
      RowsInAscends(rows[..n], p);
      var front := RowsIn(rows[..n], p);
      forall i | 0 <= i < |front| ensures front[i] in rows && front[i].key < rows[n].key {
        LastIsLargest(rows, front[i]);
      }
      assert rows[n] in rows;
      if p(rows[n].key) { AscendingSnoc(front, rows[n]); }
    }
  }

  lemma LastIsLargest<D>(rows: seq<Row<D>>, row: Row<D>)
    requires Ascending(rows) && rows != [] && row in rows[..|rows| - 1]
    ensures row in rows && row.key < rows[|rows| - 1].key
  {
    var j :| 0 <= j < |rows| - 1 && rows[..|rows| - 1][j] == row;
    assert rows[j] == row;
  }

  lemma AscendingSnoc<D>(rows: seq<Row<D>>, last: Row<D>)
    requires Ascending(rows) && forall i :: 0 <= i < |rows| ==> rows[i].key < last.key
    ensures Ascending(rows + [last])
  {
  }

  lemma {:induction false} RowsInAgrees<D>(rows: seq<Row<D>>, p: Key -> bool, q: Key -> bool)
    requires forall i :: 0 <= i < |rows| ==> p(rows[i].key) == q(rows[i].key)
    ensures RowsIn(rows, p) == RowsIn(rows, q)
  {
    if rows == [] {
    } else {
      RowsInAgrees(rows[..|rows| - 1], p, q);
    }
  }

  lemma {:induction false} RowsInTwice<D>(rows: seq<Row<D>>, p: Key -> bool, q: Key -> bool)
    ensures RowsIn(RowsIn(rows, p), q) == RowsIn(rows, (k: Key) => p(k) && q(k))
  {
    if rows == [] {
    } else {
      var n := |rows| - 1;
      RowsInTwice(rows[..n], p, q);
      RowsInSnoc(rows, p);
      if p(rows[n].key) { RowsInSnoc(RowsIn(rows[..n], p) + [rows[n]], q); }
    }
  }

  // ---------------------------------------------------------------------------
  // The recheck
  // ---------------------------------------------------------------------------

  /** One more candidate after `front` was visited. */
  function Examine<D>(front: Result<seq<Row<D>>, Error>, row: Row<D>, matches: D -> Truth, stop: Option<nat>)
    : Result<seq<Row<D>>, Error>
  {
    if front.Err? || stop == Some(|front.value|) then front
    else
      match matches(row.doc)
      case Failed(e) => Err(e)
      case Known(true) => Ok(front.value + [row])
      case Known(false) => front
  }

  /** What a scan visits: the accepted rows in order, up to the bound, or the first
      filter error met before the bound. */
  function Visit<D>(rows: seq<Row<D>>, matches: D -> Truth, stop: Option<nat>): Result<seq<Row<D>>, Error> {
    if rows == [] then Ok([])
    else Examine(Visit(rows[..|rows| - 1], matches, stop), rows[|rows| - 1], matches, stop)
  }

  /** `at` are the places, ascending, of the rows among the first `upTo` that the filter accepts;
      it rejects the others, and fails on none. */
  ghost predicate Lists<D>(rows: seq<Row<D>>, matches: D -> Truth, at: seq<nat>, upTo: nat) {
    && upTo <= |rows|
    && Places.Ascending(at) && (forall i :: 0 <= i < |at| ==> at[i] < upTo)
    && forall k: nat :: k < upTo ==> matches(rows[k].doc) == Known(k in at)
  }

  /** What a visit found, by the places of the rows: the first so many that the filter accepts,
      or the first row it fails on, unless the bound is reached before that. */
  ghost predicate IsVisit<D>(rows: seq<Row<D>>, matches: D -> Truth, stop: Option<nat>,
                             r: Result<seq<Row<D>>, Error>, at: seq<nat>, upTo: nat)
  {
    && Lists(rows, matches, at, upTo) && (stop.Some? ==> |at| <= stop.value)
    && match r
       case Ok(visited) => Places.StandAt(rows, at, visited) && (upTo == |rows| || stop == Some(|at|))
       case Err(e) => stop != Some(|at|) && upTo < |rows| && matches(rows[upTo].doc) == Failed(e)
  }

  lemma ListsNext<D>(rows: seq<Row<D>>, matches: D -> Truth, at: seq<nat>, n: nat)
    requires n < |rows| && Lists(rows[..n], matches, at, n) && matches(rows[n].doc).Known?
    ensures Lists(rows, matches, if matches(rows[n].doc).b then at + [n] else at, n + 1)
  {
    var more := if matches(rows[n].doc).b then at + [n] else at;
    forall k: nat | k < n + 1 ensures matches(rows[k].doc) == Known(k in more) {
      if k < n { assert rows[..n][k] == rows[k]; }
    }
  }

  lemma ListsFurther<D>(rows: seq<Row<D>>, matches: D -> Truth, at: seq<nat>, upTo: nat, n: nat)
    requires n <= |rows| && Lists(rows[..n], matches, at, upTo)
    ensures Lists(rows, matches, at, upTo)
  {
    forall k: nat | k < upTo ensures matches(rows[k].doc) == Known(k in at) { assert rows[..n][k] == rows[k]; }
  }

  /** The last row is not looked at, or fails the visit. */
  lemma VisitEnds<D>(rows: seq<Row<D>>, matches: D -> Truth, stop: Option<nat>, front: Result<seq<Row<D>>, Error>,
                     at: seq<nat>, upTo: nat)
    requires rows != [] && IsVisit(rows[..|rows| - 1], matches, stop, front, at, upTo)
    requires front.Err? || stop == Some(|front.value|) || matches(rows[|rows| - 1].doc).Failed?
    ensures IsVisit(rows, matches, stop, Examine(front, rows[|rows| - 1], matches, stop), at, upTo)
  {
    var n := |rows| - 1;
    ListsFurther(rows, matches, at, upTo, n);
    if front.Ok? { Places.StandFurther(rows, n, at, front.value); }
  }

  /** The last row is accepted or rejected. */
  lemma VisitGoesOn<D>(rows: seq<Row<D>>, matches: D -> Truth, stop: Option<nat>, front: seq<Row<D>>, at: seq<nat>)
    requires rows != [] && Lists(rows[..|rows| - 1], matches, at, |rows| - 1)
    requires Places.StandAt(rows[..|rows| - 1], at, front)
    requires (stop.Some? ==> |at| < stop.value) && matches(rows[|rows| - 1].doc).Known?
    ensures var n := |rows| - 1;
            if matches(rows[n].doc).b then IsVisit(rows, matches, stop, Ok(front + [rows[n]]), at + [n], n + 1)
            else IsVisit(rows, matches, stop, Ok(front), at, n + 1)
  {
    ListsNext(rows, matches, at, |rows| - 1);
    Places.StandFurther(rows, |rows| - 1, at, front);
  }

  lemma {:induction false} VisitMeaning<D>(rows: seq<Row<D>>, matches: D -> Truth, stop: Option<nat>)
    returns (at: seq<nat>, upTo: nat)
    ensures IsVisit(rows, matches, stop, Visit(rows, matches, stop), at, upTo)
  {
    if rows == [] {
      at, upTo := [], 0;
    } else {
      var n := |rows| - 1;
      at, upTo := VisitMeaning(rows[..n], matches, stop);
      var front := Visit(rows[..n], matches, stop);
      if front.Err? || stop == Some(|front.value|) || matches(rows[n].doc).Failed? {
        VisitEnds(rows, matches, stop, front, at, upTo);
      } else {
        VisitGoesOn(rows, matches, stop, front.value, at);
        at, upTo := if matches(rows[n].doc).b then at + [n] else at, n + 1;
      }
    }
  }

  lemma VisitSnoc<D>(rows: seq<Row<D>>, row: Row<D>, matches: D -> Truth, stop: Option<nat>)
    ensures Visit(rows + [row], matches, stop) == Examine(Visit(rows, matches, stop), row, matches, stop)
  {
    assert (rows + [row])[..|rows|] == rows;
  }

  lemma TakeStep<D>(seen: seq<Row<D>>, visited: seq<Row<D>>, row: Row<D>, matches: D -> Truth, stop: Option<nat>)
    requires Visit(seen, matches, stop) == Ok(visited)
    ensures var next := Visit(seen + [row], matches, stop);
            if stop == Some(|visited|) then next == Ok(visited)
            else if matches(row.doc).Failed? then next == Err(matches(row.doc).e)
            else next == Ok(if matches(row.doc).b then visited + [row] else visited)
  {
    VisitSnoc(seen, row, matches, stop);
  }

  /** Examines the candidates of whichever path feeds it. */
  class Recheck<D(!new)> {
    const matches: D -> Truth
    const stop: Option<nat>
    var visited: seq<Row<D>>
    ghost var seen: seq<Row<D>>

    /** `seen` is what the path has offered so far. */
    ghost predicate Valid()
      reads this
    {
      && Visit(seen, matches, stop) == Ok(visited)
      && (stop.Some? ==> |visited| <= stop.value)
    }

    constructor (matches: D -> Truth, stop: Option<nat>)
      ensures Valid() && this.matches == matches && this.stop == stop && seen == []
    {
      this.matches, this.stop := matches, stop;
      visited, seen := [], [];
    }

    /** Whether the scan goes on.  The bound is looked at before the candidate. */
    method Take(row: Row<D>) returns (r: Result<bool, Error>)
      requires Valid()
      modifies this
      ensures seen == old(seen) + [row]
      ensures r.Ok? ==> Valid() && (r.value <==> stop != Some(|visited|))
      ensures r.Err? ==> Visit(seen, matches, stop) == Err(r.error)
    {
      TakeStep(seen, visited, row, matches, stop);
      seen := seen + [row];
      if stop == Some(|visited|) { return Ok(false); }
      var verdict := matches(row.doc);
      if verdict.Failed? { return Err(verdict.e); }
      if verdict.b { visited := visited + [row]; }
      return Ok(!(stop.Some? && stop.value <= |visited|));
    }
  }

  /** Once the bound is reached, or an error met, the rest is not looked at. */
  lemma {:induction false} VisitStops<D>(rows: seq<Row<D>>, k: nat, matches: D -> Truth, stop: Option<nat>)
    requires k <= |rows|
    requires var front := Visit(rows[..k], matches, stop); front.Err? || stop == Some(|front.value|)
    ensures Visit(rows, matches, stop) == Visit(rows[..k], matches, stop)
    decreases |rows|
  {
    if k == |rows| {
      assert rows[..k] == rows;
    } else {
      assert rows[..|rows| - 1][..k] == rows[..k];
      VisitStops(rows[..|rows| - 1], k, matches, stop);
    }
  }

  /** Candidates in order, through one recheck. */
  method VisitRows<D(!new)>(rows: seq<Row<D>>, matches: D -> Truth, stop: Option<nat>)
    returns (r: Result<seq<Row<D>>, Error>)
    ensures r == Visit(rows, matches, stop)
  {
    var recheck := new Recheck(matches, stop);
    for i := 0 to |rows|
      invariant fresh(recheck) && recheck.Valid() && recheck.matches == matches && recheck.stop == stop
      invariant recheck.seen == rows[..i]
    {
      var on := recheck.Take(rows[i]);
      assert recheck.seen == rows[..i + 1];
      if on.Err? {
        VisitStops(rows, i + 1, matches, stop);
        return Err(on.error);
      }
      if !on.value {
        VisitStops(rows, i + 1, matches, stop);
        return Ok(recheck.visited);
      }
    }
    assert rows[..|rows|] == rows;
    return Ok(recheck.visited);
  }

  /** Rows the filter rejects can be left out. */
  lemma {:induction false} VisitOfCandidates<D>(rows: seq<Row<D>>, p: Key -> bool, matches: D -> Truth,
                                                stop: Option<nat>)
    requires forall i :: 0 <= i < |rows| && !p(rows[i].key) ==> matches(rows[i].doc) == Known(false)
    ensures Visit(RowsIn(rows, p), matches, stop) == Visit(rows, matches, stop)
  {
    if rows == [] {
    } else {
      var n := |rows| - 1;
      VisitOfCandidates(rows[..n], p, matches, stop);
      RowsInSnoc(rows, p);
      VisitSnoc(RowsIn(rows[..n], p), rows[n], matches, stop);
    }
  }

  // ---------------------------------------------------------------------------
  // The three access paths
  // ---------------------------------------------------------------------------

  /** How a filter is answered.  An index may be found changed under the plan, and then
      yields no candidates. */
  datatype Access<D> =
    | IdLookup(keys: seq<Key>)
    | Index(candidates: Option<seq<Row<D>>>)
    | Scan

  ghost predicate AscendingKeys(keys: seq<Key>) { forall i, j :: 0 <= i < j < |keys| ==> keys[i] < keys[j] }

  /** What the planner and the engine promise: probed keys are sorted and distinct and
      include every row the filter does not reject outright; so do an index's candidates,
      which come in key order from the rows past the cursor. */
  ghost predicate Sound<D>(access: Access<D>, rows: seq<Row<D>>, after: Option<Key>, matches: D -> Truth) {
    match access
    case IdLookup(keys) =>
      && AscendingKeys(keys)
      && forall i :: 0 <= i < |rows| && rows[i].key !in keys ==> matches(rows[i].doc) == Known(false)
    case Index(candidates) =>
      candidates.Some? ==>
        exists p: Key -> bool :: candidates.value == RowsIn(Beyond(rows, after), p)
          && forall i :: 0 <= i < |rows| && !p(rows[i].key) ==> matches(rows[i].doc) == Known(false)
    case Scan => true
  }

  function Lookup<D>(rows: seq<Row<D>>, key: Key): (r: Option<Row<D>>)
    ensures r.Some? ==> r.value in rows && r.value.key == key
    ensures r.None? ==> forall i :: 0 <= i < |rows| ==> rows[i].key != key
  {
    if rows == [] then None
    else if rows[|rows| - 1].key == key then Some(rows[|rows| - 1])
    else
      assert rows == rows[..|rows| - 1] + [rows[|rows| - 1]];
      Lookup(rows[..|rows| - 1], key)
  }

  /** Adding a key above all the others appends its row, if there is one. */
  lemma {:induction false} ProbeOneMore<D>(rows: seq<Row<D>>, p: Key -> bool, key: Key)
    requires Ascending(rows) && forall k: Key :: p(k) ==> k < key
    ensures RowsIn(rows, (k: Key) => p(k) || k == key) ==
            RowsIn(rows, p) + (match Lookup(rows, key) case Some(row) => [row] case None => [])
  {
    var q := (k: Key) => p(k) || k == key;
    if rows != [] {
      var n := |rows| - 1;
      if rows[n].key == key {
        RowsInAgrees(rows[..n], p, q);
      } else if rows[n].key < key {
        forall i | 0 <= i < |rows| ensures rows[i].key < key {}
        RowsInAgrees(rows, p, q);
        assert Lookup(rows, key).None?;
      } else {
        ProbeOneMore(rows[..n], p, key);
        assert RowsIn(rows, p) == RowsIn(rows[..n], p);
      }
    }
  }

  /** The rows under the probed keys, past the cursor; a key nothing is stored under is
      an ordinary miss. */
  method ProbeKeys<D(!new)>(rows: seq<Row<D>>, keys: seq<Key>, after: Option<Key>) returns (found: seq<Row<D>>)
    requires Ascending(rows) && AscendingKeys(keys)
    ensures found == RowsIn(rows, (k: Key) => k in keys && Past(k, after))
  {
    found := [];
    ghost var p := (ks: seq<Key>) => (k: Key) => k in ks && Past(k, after);
    RowsInNone(rows, p([]));
    for i := 0 to |keys|
      invariant found == RowsIn(rows, p(keys[..i]))
    {
      ghost var more := (k: Key) => p(keys[..i])(k) || (k == keys[i] && Past(k, after));
      assert keys[..i + 1] == keys[..i] + [keys[i]];
      RowsInAgrees(rows, p(keys[..i + 1]), more);
      if !Past(keys[i], after) {
        RowsInAgrees(rows, p(keys[..i]), more);
        continue;
      }
      ProbeOneMore(rows, p(keys[..i]), keys[i]);
      RowsInAgrees(rows, (k: Key) => p(keys[..i])(k) || k == keys[i], more);
      var row := Lookup(rows, keys[i]);
      if row.Some? { found := found + [row.value]; }
    }
    assert keys[..|keys|] == keys;
    RowsInAgrees(rows, p(keys), (k: Key) => k in keys && Past(k, after));
  }

  lemma {:induction false} RowsInNone<D>(rows: seq<Row<D>>, p: Key -> bool)
    requires forall i :: 0 <= i < |rows| ==> !p(rows[i].key)
    ensures RowsIn(rows, p) == []
  {
    if rows == [] {
    } else {
      RowsInNone(rows[..|rows| - 1], p);
    }
  }

  /** Whichever path answers, the read visits what scanning the collection in key order
      from the cursor visits, errors and bounds included. */
  method VisitMatching<D(!new)>(rows: seq<Row<D>>, access: Access<D>, after: Option<Key>, matches: D -> Truth,
                                stop: Option<nat>)
    returns (r: Result<seq<Row<D>>, Error>)
    requires Ascending(rows) && Sound(access, rows, after, matches)
    ensures r == Visit(Beyond(rows, after), matches, stop)
  {
    if access.IdLookup? {
      var found := ProbeKeys(rows, access.keys, after);
      r := VisitRows(found, matches, stop);
      ProbesAreEnough(rows, access.keys, after, matches, stop);
      return;
    }
    if access.Index? && access.candidates.Some? {
      r := VisitRows(access.candidates.value, matches, stop);
      CandidatesAreEnough(rows, access, after, matches, stop);
      return;
    }
    r := VisitRows(Beyond(rows, after), matches, stop);
  }

  lemma ProbesAreEnough<D>(rows: seq<Row<D>>, keys: seq<Key>, after: Option<Key>, matches: D -> Truth,
                           stop: Option<nat>)
    requires Ascending(rows) && Sound(IdLookup(keys), rows, after, matches)
    ensures Visit(RowsIn(rows, (k: Key) => k in keys && Past(k, after)), matches, stop) ==
            Visit(Beyond(rows, after), matches, stop)
  {
    var past, probed := (k: Key) => Past(k, after), (k: Key) => k in keys;
    RowsInTwice(rows, past, probed);
    RowsInAgrees(rows, (k: Key) => past(k) && probed(k), (k: Key) => k in keys && Past(k, after));
    RowsOfBeyond(rows, after, probed, matches);
    VisitOfCandidates(Beyond(rows, after), probed, matches, stop);
  }

  lemma RowsOfBeyond<D>(rows: seq<Row<D>>, after: Option<Key>, p: Key -> bool, matches: D -> Truth)
    requires Ascending(rows) && forall i :: 0 <= i < |rows| && !p(rows[i].key) ==> matches(rows[i].doc) == Known(false)
    ensures forall i :: 0 <= i < |Beyond(rows, after)| && !p(Beyond(rows, after)[i].key) ==>
              matches(Beyond(rows, after)[i].doc) == Known(false)
  {
    RowsInAscends(rows, (k: Key) => Past(k, after));
  }

  lemma CandidatesAreEnough<D>(rows: seq<Row<D>>, access: Access<D>, after: Option<Key>, matches: D -> Truth,
                               stop: Option<nat>)
    requires Ascending(rows) && access.Index? && access.candidates.Some? && Sound(access, rows, after, matches)
    ensures Visit(access.candidates.value, matches, stop) == Visit(Beyond(rows, after), matches, stop)
  {
    var p: Key -> bool :| access.candidates.value == RowsIn(Beyond(rows, after), p)
      && forall i :: 0 <= i < |rows| && !p(rows[i].key) ==> matches(rows[i].doc) == Known(false);
    RowsOfBeyond(rows, after, p, matches);
    VisitOfCandidates(Beyond(rows, after), p, matches, stop);
  }
}
