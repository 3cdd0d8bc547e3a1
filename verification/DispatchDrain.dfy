/**
 Liveness of the dispatcher on one node: with no new writes, deliveries and records
 that succeed and a heartbeat that is due, repeated passes send every wanted entry
 once and come to an end, unless a full window of the oplog fits in two adjacent
 clock values.
 */
module DispatchDrain {
  import opened Outcomes
  import opened Stamps
  import opened DispatchPass
  import opened Dispatcher

  // ---------------------------------------------------------------------------
  // Counting entries
  // ---------------------------------------------------------------------------

  /** Servable entries at one of two adjacent clock values. */
  function AtOrNext(h: Hlc): Entry -> bool {
    (e: Entry) => h <= e.stamp.hlc <= h + 1 && !IsLocalObservation(e.kind)
  }

  /** No two adjacent clock values hold a whole window. */
  ghost predicate Spread(log: seq<Entry>, limit: nat) {
    forall h: Hlc :: |Select(log, AtOrNext(h))| < limit
  }

  function Elements(log: seq<Entry>): set<Entry> { set e | e in log }

  lemma {:induction false} ElementsOfOplog(log: seq<Entry>)
    requires forall i, j :: 0 <= i < j < |log| ==> log[i] != log[j]
    ensures |Elements(log)| == |log|
  {
    if log == [] {
    } else {
      var n := |log| - 1;
      ElementsOfOplog(log[..n]);
      assert log == log[..n] + [log[n]];
      assert Elements(log) == Elements(log[..n]) + {log[n]};
    }
  }

  lemma {:induction false} ElementsAtMost(log: seq<Entry>)
    ensures |Elements(log)| <= |log|
  {
    if log == [] {
    } else {
      var n := |log| - 1;
      ElementsAtMost(log[..n]);
      assert log == log[..n] + [log[n]];
      assert Elements(log) == Elements(log[..n]) + {log[n]};
    }
  }

  lemma ContainedIsNoLonger(a: seq<Entry>, b: seq<Entry>)
    requires IsOplog(a) && forall e :: e in a ==> e in b
    ensures |a| <= |b|
  {
    ElementsOfOplog(a);
    ElementsAtMost(b);
    Subset(Elements(a), Elements(b));
  }

  lemma {:induction false} Subset<T>(a: set<T>, b: set<T>)
    requires a <= b
    ensures |a| <= |b|
    decreases a
  {
    if a != {} {
      var x :| x in a;
      Subset(a - {x}, b - {x});
    }
  }

  lemma WindowWithinTwo(w: OplogWindow, log: seq<Entry>, from: Hlc, limit: nat, e: Entry)
    requires IsOplog(log) && limit > 0 && IsWindow(w, log, from, limit) && !w.exhausted && e in w.entries
    requires w.entries[limit - 1].stamp.hlc < from + 2
    ensures e in Select(log, AtOrNext(from))
  {
    WindowIsOplog(w, log, from, limit);
    var i :| 0 <= i < limit && w.entries[i] == e;
    assert i == limit - 1 || Before(e.stamp, w.entries[limit - 1].stamp);
  }

  /** In a spread oplog a full window ends at least two clock values past its start. */
  lemma FullWindowMovesOn(w: OplogWindow, log: seq<Entry>, from: Hlc, limit: nat)
    requires IsOplog(log) && limit > 0 && Spread(log, limit)
    requires IsWindow(w, log, from, limit) && !w.exhausted
    ensures w.entries[limit - 1].stamp.hlc >= from + 2
  {
    if w.entries[limit - 1].stamp.hlc < from + 2 {
      WindowIsOplog(w, log, from, limit);
      forall e | e in w.entries ensures e in Select(log, AtOrNext(from)) { WindowWithinTwo(w, log, from, limit, e); }
      ContainedIsNoLonger(w.entries, Select(log, AtOrNext(from)));
    }
  }

  // ---------------------------------------------------------------------------
  // The measure
  // ---------------------------------------------------------------------------

  /** Every place of every origin that progress has yet to reach. */
  ghost function Gap(union: VersionVector, position: VersionVector): set<Stamp> {
    set n, h | n in position.Keys && Get(union, n) < h <= position[n] :: Stamp(h, n)
  }

  lemma RaisedGapShrinks(union: VersionVector, raised: VersionVector, position: VersionVector, s: Stamp)
    requires AtMost(union, raised) && !CoveredBy(union, s) && CoveredBy(raised, s) && CoveredBy(position, s)
    ensures Gap(raised, position) < Gap(union, position)
  {
    forall t | t in Gap(raised, position)
      ensures t in Gap(union, position)
    {
      assert Get(union, t.node) <= Get(raised, t.node);
    }
    assert s in Gap(union, position) && s !in Gap(raised, position);
  }

  lemma PassIsMonotone(pass: Pass, log: seq<Entry>)
    requires pass.Valid(log, WINDOW)
    ensures AtMost(pass.union, pass.Progress())
  {
    forall n ensures Get(pass.union, n) <= Get(pass.Progress(), n) {
      PassIsMonotoneAndBounded(pass, log, WINDOW, n);
    }
  }

  // ---------------------------------------------------------------------------
  // Draining
  // ---------------------------------------------------------------------------

  /** `sent` holds exactly the wanted entries that `union` covers and `start` did not. */
  ghost predicate SentSince(sub: Subscription, log: seq<Entry>, start: VersionVector, union: VersionVector,
                            sent: seq<Stamp>)
  {
    && (forall i, j :: 0 <= i < j < |sent| ==> sent[i] != sent[j])
    && (forall s :: s in sent ==> exists e :: e in log && Wanted(sub, e) && e.stamp == s)
    && forall e :: e in log && Wanted(sub, e) ==>
         (e.stamp in sent <==> CoveredBy(union, e.stamp) && !CoveredBy(start, e.stamp))
  }

  lemma SentIsNew(pass: Pass, log: seq<Entry>, i: nat)
    requires pass.Valid(log, WINDOW) && i < pass.taken
    ensures var e := pass.Undelivered()[i];
            e in log && Wanted(pass.sub, e) && !CoveredBy(pass.union, e.stamp) && pass.Sent()[i] == e.stamp
    ensures forall j :: 0 <= j < i ==> pass.Sent()[j] != pass.Sent()[i]
  {
    UndeliveredIsOplog(pass, log, WINDOW);
    WindowIsOplog(pass.window, log, pass.from, WINDOW);
    assert pass.Undelivered()[i] in pass.Undelivered();
  }

  lemma SentIsCovered(pass: Pass, log: seq<Entry>, e: Entry)
    requires pass.Valid(log, WINDOW) && e in log && Wanted(pass.sub, e) && CoveredBy(pass.position, e.stamp)
    ensures CoveredBy(pass.Progress(), e.stamp) <==> CoveredBy(pass.union, e.stamp) || e.stamp in pass.Sent()
    ensures e.stamp in pass.Sent() ==> !CoveredBy(pass.union, e.stamp)
  {
    PassCoversExactly(pass, log, WINDOW, e);
    if !CoveredBy(pass.union, e.stamp) {
      assert Trails(pass.union, pass.position, e.stamp.node);
    } else if e.stamp in pass.Sent() {
      var i :| 0 <= i < pass.taken && pass.Sent()[i] == e.stamp;
      SentIsNew(pass, log, i);
    }
  }

  /** What a pass sends had not been sent. */
  lemma SentIsApart(pass: Pass, log: seq<Entry>, start: VersionVector, sent: seq<Stamp>)
    requires pass.Valid(log, WINDOW) && SentSince(pass.sub, log, start, pass.union, sent)
    ensures var whole := sent + pass.Sent();
            && (forall i, j :: 0 <= i < j < |whole| ==> whole[i] != whole[j])
            && forall s :: s in whole ==> exists e :: e in log && Wanted(pass.sub, e) && e.stamp == s
  {
    var more := pass.Sent();
    forall i | 0 <= i < |more|
      ensures more[i] !in sent && forall j :: 0 <= j < i ==> more[j] != more[i]
      ensures exists e :: e in log && Wanted(pass.sub, e) && e.stamp == more[i]
    {
      SentIsNew(pass, log, i);
    }
  }

  lemma PassKeepsSent(pass: Pass, log: seq<Entry>, start: VersionVector, sent: seq<Stamp>)
    requires pass.Valid(log, WINDOW) && AtMost(start, pass.union)
    requires forall e :: e in log ==> CoveredBy(pass.position, e.stamp)
    requires SentSince(pass.sub, log, start, pass.union, sent)
    ensures SentSince(pass.sub, log, start, pass.Progress(), sent + pass.Sent())
  {
    SentIsApart(pass, log, start, sent);
    forall e | e in log && Wanted(pass.sub, e)
      ensures e.stamp in sent + pass.Sent() <==> CoveredBy(pass.Progress(), e.stamp) && !CoveredBy(start, e.stamp)
    {
      SentIsCovered(pass, log, e);
      assert Get(start, e.stamp.node) <= Get(pass.union, e.stamp.node);
    }
  }

  /** At the end of the oplog with nothing to send, nothing wanted is left. */
  lemma TailIsDone(pass: Pass, log: seq<Entry>, e: Entry)
    requires pass.Valid(log, WINDOW) && pass.window.exhausted && pass.taken == 0
    requires e in log && Wanted(pass.sub, e) && CoveredBy(pass.position, e.stamp)
    ensures CoveredBy(pass.union, e.stamp)
  {
    assert CoveredBy(pass.union, e.stamp) || Trails(pass.union, pass.position, e.stamp.node);
  }

  // ---------------------------------------------------------------------------
  // When passes stop making progress
  // ---------------------------------------------------------------------------

  /** The window holds nothing uncovered, and reaches not even the next place of any origin
      that trails. */
  ghost predicate NothingMoves(pass: Pass) {
    && (forall e :: e in pass.window.entries ==> CoveredBy(pass.union, e.stamp))
    && forall n :: Trails(pass.union, pass.position, n) ==>
         !Examined(EndOf(pass.window), Stamp(Get(pass.union, n) + 1, n))
  }

  lemma ObservedIsCovered(pass: Pass, log: seq<Entry>, i: nat)
    requires pass.Valid(log, WINDOW) && pass.taken == 0 && i < |pass.window.entries|
    ensures CoveredBy(pass.Progress(), pass.window.entries[i].stamp)
  {
    var s := pass.window.entries[i].stamp;
    WindowIsOplog(pass.window, log, pass.from, WINDOW);
    assert pass.window.entries[i] in pass.window.entries && pass.Observed()[i] == s;
    RaiseCovers(pass.union, pass.Observed(), pass.position, pass.Reach(), s);
  }

  lemma ReachedIsCovered(pass: Pass, log: seq<Entry>, n: NodeId)
    requires pass.Valid(log, WINDOW) && pass.taken == 0 && Trails(pass.union, pass.position, n)
    requires Examined(EndOf(pass.window), Stamp(Get(pass.union, n) + 1, n))
    ensures Get(pass.Progress(), n) > Get(pass.union, n)
  {
    RaiseCovers(pass.union, pass.Observed(), pass.position, pass.Reach(), Stamp(Get(pass.union, n) + 1, n));
  }

  lemma StalledMovesNothing(pass: Pass, log: seq<Entry>)
    requires pass.Valid(log, WINDOW) && AtMost(pass.Progress(), pass.union)
    ensures NothingMoves(pass)
  {
    StalledIsIdle(pass, log);
    forall e | e in pass.window.entries ensures CoveredBy(pass.union, e.stamp) {
      var i :| 0 <= i < |pass.window.entries| && pass.window.entries[i] == e;
      ObservedIsCovered(pass, log, i);
      assert Get(pass.Progress(), e.stamp.node) <= Get(pass.union, e.stamp.node);
    }
    forall n | Trails(pass.union, pass.position, n)
      ensures !Examined(EndOf(pass.window), Stamp(Get(pass.union, n) + 1, n))
    {
      assert Get(pass.Progress(), n) <= Get(pass.union, n);
      if Examined(EndOf(pass.window), Stamp(Get(pass.union, n) + 1, n)) { ReachedIsCovered(pass, log, n); }
    }
  }

  /** A pass changes nothing exactly then. */
  lemma StalledExactly(pass: Pass, log: seq<Entry>)
    requires pass.Valid(log, WINDOW)
    ensures AtMost(pass.Progress(), pass.union) <==> NothingMoves(pass)
  {
    if AtMost(pass.Progress(), pass.union) {
      StalledMovesNothing(pass, log);
    } else if (forall e :: e in pass.window.entries ==> CoveredBy(pass.union, e.stamp)) {
      var n :| Get(pass.Progress(), n) > Get(pass.union, n);
      CoveredWindowRaisesByReach(pass, log, n);
    }
  }

  lemma StalledIsIdle(pass: Pass, log: seq<Entry>)
    requires pass.Valid(log, WINDOW) && AtMost(pass.Progress(), pass.union)
    ensures pass.taken == 0 && pass.Undelivered() == []
  {
    if pass.taken > 0 {
      UndeliveredIsOplog(pass, log, WINDOW);
      var e := pass.Undelivered()[0];
      assert e in pass.Undelivered() && pass.Sent()[0] == e.stamp;
      RaiseCovers(pass.union, pass.Observed(), pass.position, pass.Reach(), e.stamp);
    }
  }

  lemma CoveredWindowRaisesByReach(pass: Pass, log: seq<Entry>, n: NodeId)
    requires pass.Valid(log, WINDOW)
    requires forall e :: e in pass.window.entries ==> CoveredBy(pass.union, e.stamp)
    requires Get(pass.Progress(), n) > Get(pass.union, n)
    ensures Trails(pass.union, pass.position, n) && Examined(EndOf(pass.window), Stamp(Get(pass.union, n) + 1, n))
  {
    var s := Stamp(Get(pass.union, n) + 1, n);
    UndeliveredIsOplog(pass, log, WINDOW);
    assert pass.Undelivered() == [];
    RaiseCovers(pass.union, pass.Observed(), pass.position, pass.Reach(), s);
    forall o | o in pass.Observed() ensures CoveredBy(pass.union, o) {
      var i :| 0 <= i < |pass.window.entries| && pass.Observed()[i] == o;
      assert pass.window.entries[i] in pass.window.entries;
    }
  }

  /** The pass stands still short of the oplog's end. */
  ghost predicate Stuck(pass: Pass) { pass.taken == 0 && !pass.window.exhausted && NothingMoves(pass) }

  /** Whatever a pass raises is a place of the gap. */
  lemma RaisedIsInGap(pass: Pass, log: seq<Entry>, n: NodeId)
    requires pass.Valid(log, WINDOW) && Get(pass.Progress(), n) > Get(pass.union, n)
    requires forall e :: e in log ==> CoveredBy(pass.position, e.stamp)
    ensures CoveredBy(pass.position, Stamp(Get(pass.Progress(), n), n))
  {
    PassIsMonotoneAndBounded(pass, log, WINDOW, n);
    if Get(pass.Progress(), n) > Get(pass.position, n) {
      var o :| o in pass.Observed() && o.node == n && Get(pass.Progress(), n) == o.hlc;
      ObservedIsHeld(pass, log, o);
    }
  }

  lemma RaisingShrinksGap(pass: Pass, log: seq<Entry>)
    requires pass.Valid(log, WINDOW) && !AtMost(pass.Progress(), pass.union)
    requires forall e :: e in log ==> CoveredBy(pass.position, e.stamp)
    ensures Gap(pass.Progress(), pass.position) < Gap(pass.union, pass.position)
  {
    var n :| Get(pass.Progress(), n) > Get(pass.union, n);
    PassIsMonotone(pass, log);
    RaisedIsInGap(pass, log, n);
    RaisedGapShrinks(pass.union, pass.Progress(), pass.position, Stamp(Get(pass.Progress(), n), n));
  }

  lemma StandingStillIsStuck(pass: Pass, log: seq<Entry>)
    requires pass.Valid(log, WINDOW) && (pass.taken > 0 || !pass.window.exhausted)
    ensures AtMost(pass.Progress(), pass.union) <==> Stuck(pass)
  {
    StalledExactly(pass, log);
    if AtMost(pass.Progress(), pass.union) { StalledIsIdle(pass, log); }
  }

  lemma SpreadIsNeverStuck(pass: Pass, log: seq<Entry>)
    requires pass.Valid(log, WINDOW) && Spread(log, WINDOW)
    ensures !Stuck(pass)
  {
    if pass.window.exhausted { return; }
    FullWindowMovesOn(pass.window, log, pass.from, WINDOW);
    var n :| Trails(pass.union, pass.position, n) && Get(pass.union, n) == pass.from;
    assert Examined(EndOf(pass.window), Stamp(Get(pass.union, n) + 1, n));
  }

  /** One pass after another, each from the progress the last recorded, from `start` to
      `union`. */
  ghost predicate IsPassRun(passes: seq<Pass>, sub: Subscription, position: VersionVector, log: seq<Entry>,
                            start: VersionVector, union: VersionVector)
    decreases |passes|
  {
    if passes == [] then union == start
    else
      var front, last := passes[..|passes| - 1], passes[|passes| - 1];
      && last.Valid(log, WINDOW) && last.sub == sub && last.position == position
      && IsPassRun(front, sub, position, log, start, last.union) && union == last.Progress()
  }

  lemma PassRunSnoc(passes: seq<Pass>, last: Pass, log: seq<Entry>, start: VersionVector)
    requires last.Valid(log, WINDOW) && IsPassRun(passes, last.sub, last.position, log, start, last.union)
    ensures IsPassRun(passes + [last], last.sub, last.position, log, start, last.Progress())
  {
    assert (passes + [last])[..|passes|] == passes;
  }

  /** Where passes stand: how far progress has come, what has been sent, and by which. */
  ghost predicate Standing(sub: Subscription, log: seq<Entry>, position: VersionVector, start: VersionVector,
                           union: VersionVector, sent: seq<Stamp>, passes: seq<Pass>)
  {
    && AtMost(start, union) && SentSince(sub, log, start, union, sent)
    && IsPassRun(passes, sub, position, log, start, union)
  }

  lemma PassKeepsStanding(pass: Pass, log: seq<Entry>, start: VersionVector, sent: seq<Stamp>, passes: seq<Pass>)
    requires pass.Valid(log, WINDOW) && forall e :: e in log ==> CoveredBy(pass.position, e.stamp)
    requires Standing(pass.sub, log, pass.position, start, pass.union, sent, passes)
    ensures Standing(pass.sub, log, pass.position, start, pass.Progress(), sent + pass.Sent(), passes + [pass])
  {
    PassKeepsSent(pass, log, start, sent);
    PassIsMonotone(pass, log);
    PassRunSnoc(passes, pass, log, start);
  }

  /** The next pass, unless there is nothing left to send. */
  method NextPass(sub: Subscription, id: string, render: Rendering, cap: nat,
                  union: VersionVector, position: VersionVector, log: seq<Entry>) returns (r: Option<Pass>)
    requires IsOplog(log)
    requires forall e :: e in log ==> CoveredBy(position, e.stamp)
    ensures r.None? ==> forall e :: e in log && Wanted(sub, e) ==> CoveredBy(union, e.stamp)
    ensures r.Some? ==>
              && r.value.Valid(log, WINDOW) && (r.value.taken > 0 || !r.value.window.exhausted)
              && r.value.sub == sub && r.value.union == union && r.value.position == position
  {
    var behind := Behind(union, position);
    if behind.None? {
      assert forall e :: e in log ==> CoveredBy(union, e.stamp);
      return None;
    }
    var w := ScanOplog(log, behind.value, WINDOW);
    var pass := Pass(sub, union, position, behind.value, w, 0);
    var undelivered := pass.Undelivered();
    if undelivered != [] {
      var batch := undelivered[..BatchCap(undelivered)];
      var _, stamps := Assemble(id, render, batch, cap);
      return Some(pass.(taken := |stamps|));
    }
    if w.exhausted {
      forall e | e in log && Wanted(sub, e) ensures CoveredBy(union, e.stamp) { TailIsDone(pass, log, e); }
      return None;
    }
    return Some(pass);
  }

  /** Passes repeated while they change something end, whatever the oplog.  What they have
      sent by then is each wanted entry that progress did not cover before and does now,
      once, and nothing else.  Either every wanted entry is covered, or they stand still
      before one; in a spread oplog they do not. */
  method Drain(sub: Subscription, id: string, render: Rendering, cap: nat,
               start: VersionVector, position: VersionVector, log: seq<Entry>)
    returns (union: VersionVector, sent: seq<Stamp>, stuck: Option<Pass>, ghost passes: seq<Pass>)
    requires IsOplog(log)
    requires forall e :: e in log ==> CoveredBy(position, e.stamp)
    ensures AtMost(start, union) && SentSince(sub, log, start, union, sent)
    ensures IsPassRun(passes, sub, position, log, start, union)
    ensures stuck.None? ==> forall e :: e in log && Wanted(sub, e) ==> CoveredBy(union, e.stamp)
    ensures stuck.Some? ==>
              && stuck.value.Valid(log, WINDOW) && Stuck(stuck.value)
              && stuck.value.sub == sub && stuck.value.union == union && stuck.value.position == position
    ensures Spread(log, WINDOW) ==> stuck.None?
  {
    union, sent, passes := start, [], [];
    while true
      invariant Standing(sub, log, position, start, union, sent, passes)
      decreases Gap(union, position)
    {
      var next := NextPass(sub, id, render, cap, union, position, log);
      if next.None? { return union, sent, None, passes; }
      var pass := next.value;
      var progress := RaiseProgress(pass);
      StandingStillIsStuck(pass, log);
      var raised := Behind(union, progress);
      if raised.None? {
        if Spread(log, WINDOW) { SpreadIsNeverStuck(pass, log); }
        return union, sent, Some(pass), passes;
      }
      RaisingShrinksGap(pass, log);
      PassKeepsStanding(pass, log, start, sent, passes);
      union, sent, passes := progress, sent + pass.Sent(), passes + [pass];
    }
  }

  // ---------------------------------------------------------------------------
  // They can stand still
  // ---------------------------------------------------------------------------

  /** An oplog with no more than half a window at any one clock value: nodes 1 to `m`
      wrote at 10 and at 11, and node `m + 1` at 12. */
  function CrowdedLog(m: nat): seq<Entry> {
    seq(2 * m + 1, i requires 0 <= i < 2 * m + 1 =>
      if i < m then Entry(Stamp(10, i + 1), Insert, 7, i)
      else if i < 2 * m then Entry(Stamp(11, i - m + 1), Insert, 7, i)
      else Entry(Stamp(12, m + 1), Insert, 7, i))
  }

  function Uniform(m: nat, h: Hlc): (r: VersionVector)
    ensures forall n :: n in r <==> 1 <= n <= m
    ensures forall n :: n in r ==> r[n] == h
  {
    if m == 0 then map[] else Uniform(m - 1, h)[m := h]
  }

  lemma {:induction false} SelectAll(log: seq<Entry>, p: Entry -> bool)
    requires forall e :: e in log ==> p(e)
    ensures Select(log, p) == log
  {
    if log == [] {
    } else {
      SelectAll(log[..|log| - 1], p);
    }
  }

  function CrowdedPosition(m: nat): VersionVector { Uniform(m, 11)[m + 1 := 12] }

  lemma CrowdedIsOplog(m: nat)
    ensures IsOplog(CrowdedLog(m))
  {
  }

  lemma CrowdedIsServed(m: nat, from: Hlc)
    requires from <= 10
    ensures Servable(CrowdedLog(m), from) == CrowdedLog(m)
  {
    forall e | e in CrowdedLog(m) ensures FromOn(from)(e) {
      var i :| 0 <= i < |CrowdedLog(m)| && CrowdedLog(m)[i] == e;
    }
    SelectAll(CrowdedLog(m), FromOn(from));
  }

  lemma CrowdedIsCovered(m: nat, e: Entry)
    requires e in CrowdedLog(m)
    ensures CoveredBy(CrowdedPosition(m), e.stamp)
  {
    var i :| 0 <= i < |CrowdedLog(m)| && CrowdedLog(m)[i] == e;
  }

  function AtClock(h: Hlc): Entry -> bool { (e: Entry) => e.stamp.hlc == h }

  lemma SelectWithin(log: seq<Entry>, p: Entry -> bool, lo: nat, hi: nat)
    requires IsOplog(log) && lo <= hi <= |log| && forall i :: 0 <= i < |log| && p(log[i]) ==> lo <= i < hi
    ensures |Select(log, p)| <= hi - lo
  {
    SelectIsOplog(log, p);
    forall e | e in Select(log, p) ensures e in log[lo..hi] {
      var i :| 0 <= i < |log| && log[i] == e;
      assert log[lo..hi][i - lo] == e;
    }
    ContainedIsNoLonger(Select(log, p), log[lo..hi]);
  }

  /** Half a window at most at any one clock value. */
  lemma CrowdedPerClock(m: nat, h: Hlc)
    ensures |Select(CrowdedLog(m), AtClock(h))| <= if h == 12 then 1 else m
  {
    var lo := if h == 10 then 0 else if h == 11 then m else if h == 12 then 2 * m else 0;
    CrowdedIsOplog(m);
    SelectWithin(CrowdedLog(m), AtClock(h), lo, if 10 <= h < 12 then lo + m else if h == 12 then lo + 1 else lo);
  }

  /** The window of every pass that has node `m + 1` at 10 or below is all but its write. */
  lemma CrowdedWindow(m: nat, pass: Pass)
    requires 2 * m == WINDOW && pass.Valid(CrowdedLog(m), WINDOW) && pass.position == CrowdedPosition(m)
    requires Get(pass.union, m + 1) <= 10
    ensures !pass.window.exhausted && pass.window.entries == CrowdedLog(m)[..2 * m]
  {
    assert Trails(pass.union, pass.position, m + 1);
    CrowdedIsServed(m, pass.from);
  }

  lemma CrowdedEntry(m: nat, pass: Pass, e: Entry)
    requires 2 * m == WINDOW && pass.Valid(CrowdedLog(m), WINDOW) && pass.position == CrowdedPosition(m)
    requires Get(pass.union, m + 1) <= 10 && e in pass.window.entries
    ensures e.stamp.node <= m && e.stamp.hlc <= 11
  {
    CrowdedWindow(m, pass);
    var i :| 0 <= i < 2 * m && pass.window.entries[i] == e;
    assert e == CrowdedLog(m)[i];
  }

  lemma CrowdedReach(m: nat, pass: Pass)
    requires 2 * m == WINDOW && pass.Valid(CrowdedLog(m), WINDOW) && pass.position == CrowdedPosition(m)
    requires Get(pass.union, m + 1) <= 10
    ensures !Examined(pass.Reach(), Stamp(11, m + 1))
  {
    CrowdedWindow(m, pass);
    UndeliveredIsOplog(pass, CrowdedLog(m), WINDOW);
    var last := if 0 < pass.taken < |pass.Undelivered()| then pass.Undelivered()[pass.taken - 1]
                else pass.window.entries[2 * m - 1];
    assert last in pass.window.entries;
    CrowdedEntry(m, pass, last);
  }

  /** No pass raises node `m + 1` to 11: its window ends at node `m`'s write at 11, before
      which in clock order is 10. */
  lemma CrowdedStaysBelow(m: nat, pass: Pass)
    requires 2 * m == WINDOW && pass.Valid(CrowdedLog(m), WINDOW) && pass.position == CrowdedPosition(m)
    requires Get(pass.union, m + 1) <= 10
    ensures Get(pass.Progress(), m + 1) <= 10
  {
    RaiseCovers(pass.union, pass.Observed(), pass.position, pass.Reach(), Stamp(11, m + 1));
    CrowdedReach(m, pass);
    UndeliveredIsOplog(pass, CrowdedLog(m), WINDOW);
    forall o | o in pass.Observed() ensures o.node <= m {
      var i :| 0 <= i < |pass.Observed()| && pass.Observed()[i] == o;
      var e := if pass.taken == 0 then pass.window.entries[i] else pass.Undelivered()[i];
      assert e in pass.window.entries && e.stamp == o;
      CrowdedEntry(m, pass, e);
    }
  }

  /** Fewer entries than a window at every one clock value is not enough: however many
      passes are made, from any progress that has node `m + 1` at 10 or below, its write at
      12 is never covered. */
  lemma {:induction false} CrowdedWindowStalls(m: nat, passes: seq<Pass>, start: VersionVector, union: VersionVector)
    requires 2 * m == WINDOW && Get(start, m + 1) <= 10
    requires IsPassRun(passes, Subscription(7, []), CrowdedPosition(m), CrowdedLog(m), start, union)
    ensures Get(union, m + 1) <= 10 && !CoveredBy(union, CrowdedLog(m)[WINDOW].stamp)
    ensures forall h :: |Select(CrowdedLog(m), AtClock(h))| < WINDOW
    decreases |passes|
  {
    forall h ensures |Select(CrowdedLog(m), AtClock(h))| < WINDOW { CrowdedPerClock(m, h); }
    if passes == [] {
    } else {
      var front, last := passes[..|passes| - 1], passes[|passes| - 1];
      CrowdedWindowStalls(m, front, start, last.union);
      CrowdedStaysBelow(m, last);
    }
  }

  /** So the passes end standing still, with the write at 12 unsent. */
  method DrainCrowded(m: nat, id: string, render: Rendering, cap: nat)
    returns (union: VersionVector, sent: seq<Stamp>, stuck: Option<Pass>)
    requires 2 * m == WINDOW
    ensures stuck.Some? && Stuck(stuck.value) && stuck.value.union == union
    ensures Wanted(Subscription(7, []), CrowdedLog(m)[WINDOW]) && CrowdedLog(m)[WINDOW].stamp !in sent
  {
    CrowdedIsOplog(m);
    forall e | e in CrowdedLog(m) ensures CoveredBy(CrowdedPosition(m), e.stamp) { CrowdedIsCovered(m, e); }
    ghost var passes;
    union, sent, stuck, passes := Drain(Subscription(7, []), id, render, cap, map[], CrowdedPosition(m), CrowdedLog(m));
    CrowdedWindowStalls(m, passes, map[], union);
    assert CrowdedLog(m)[WINDOW] in CrowdedLog(m);
  }
}
