/**
 One pass of the webhook dispatcher over one subscription.

 A pass knows the union of every node's progress, this node's position as read
 before the scan, and the oplog as it stands at the scan.  It picks the wanted
 entries the union does not cover, and, once they are accepted (or when there are
 none and the heartbeat is due), raises progress.
 */
module DispatchPass {
  import opened Outcomes
  import opened Stamps

  const BATCH: nat := 64
  const WINDOW: nat := BATCH * 4

  datatype Kind = Insert | Update | Replace | Delete | UniqueViolation | UnkeyedDocument | Schema

  /** One write to a document of a collection. */
  datatype Entry = Entry(stamp: Stamp, kind: Kind, collection: nat, document: nat)

  /** The operations are the names a subscriber wrote; none means all. */
  datatype Subscription = Subscription(collection: nat, operations: seq<string>)

  function OperationName(kind: Kind): Option<string> {
    match kind
    case Insert => Some("insert")
    case Update => Some("update")
    case Replace => Some("replace")
    case Delete => Some("delete")
    case _ => None
  }

  predicate Wanted(sub: Subscription, e: Entry) {
    && e.collection == sub.collection
    && OperationName(e.kind).Some?
    && (sub.operations == [] || OperationName(e.kind).value in sub.operations)
  }

  predicate Names(sub: Subscription, name: string) { sub.operations == [] || name in sub.operations }

  /** What a subscriber asks for: changes to documents of one collection, each kind of change
      by its own name. */
  predicate Subscribed(sub: Subscription, e: Entry) {
    && e.collection == sub.collection
    && (|| (e.kind == Insert && Names(sub, "insert"))
        || (e.kind == Update && Names(sub, "update"))
        || (e.kind == Replace && Names(sub, "replace"))
        || (e.kind == Delete && Names(sub, "delete")))
  }

  lemma WantedIsSubscribed(sub: Subscription, e: Entry)
    ensures Wanted(sub, e) <==> Subscribed(sub, e)
  {
  }

  predicate IsLocalObservation(kind: Kind) { kind.UniqueViolation? || kind.UnkeyedDocument? }

  /** An oplog: strictly ascending in stamp order, every clock value past zero. */
  ghost predicate IsOplog(log: seq<Entry>) {
    && (forall i, j :: 0 <= i < j < |log| ==> Before(log[i].stamp, log[j].stamp))
    && forall e :: e in log ==> e.stamp.hlc > 0
  }

  // ---------------------------------------------------------------------------
  // Selecting from an oplog
  // ---------------------------------------------------------------------------

  function Select(log: seq<Entry>, p: Entry -> bool): (r: seq<Entry>)
    ensures forall e :: e in r <==> e in log && p(e)
    ensures |r| <= |log|
  {
    if log == [] then []
    else
      var front := Select(log[..|log| - 1], p);
      if p(log[|log| - 1]) then front + [log[|log| - 1]] else front
  }

  /** What comes before the last entry of an oplog is an oplog, and before it. */
  lemma OplogFront(log: seq<Entry>)
    requires IsOplog(log) && log != []
    ensures var front, last := log[..|log| - 1], log[|log| - 1];
            IsOplog(front) && last.stamp.hlc > 0 && forall e :: e in front ==> Before(e.stamp, last.stamp)
  {
    var front, last := log[..|log| - 1], log[|log| - 1];
    assert last in log;
    forall e | e in front ensures e in log && Before(e.stamp, last.stamp) {
      var i :| 0 <= i < |front| && front[i] == e;
      assert log[i] == e;
    }
  }

  lemma OplogSnoc(front: seq<Entry>, last: Entry)
    requires IsOplog(front) && last.stamp.hlc > 0 && forall e :: e in front ==> Before(e.stamp, last.stamp)
    ensures IsOplog(front + [last])
  {
    var log := front + [last];
    forall i, j | 0 <= i < j < |log| ensures Before(log[i].stamp, log[j].stamp) {
      if j == |front| { assert log[i] in front; }
    }
  }

  lemma {:induction false} SelectIsOplog(log: seq<Entry>, p: Entry -> bool)
    requires IsOplog(log)
    ensures IsOplog(Select(log, p))
  {
    if log == [] {
    } else {
      var front, last := log[..|log| - 1], log[|log| - 1];
      OplogFront(log);
      SelectIsOplog(front, p);
      OplogSnoc(Select(front, p), last);
    }
  }

  lemma {:induction false} SelectOfPrefix(log: seq<Entry>, k: nat, p: Entry -> bool)
    requires k <= |log|
    ensures Select(log[..k], p) <= Select(log, p)
    decreases |log|
  {
    if k == |log| {
      assert log[..k] == log;
    } else {
      var front := log[..|log| - 1];
      assert front[..k] == log[..k];
      SelectOfPrefix(front, k, p);
      assert Select(front, p) <= Select(log, p);
    }
  }

  /** A prefix of an oplog holds everything of it that is not after its last entry. */
  lemma PrefixHoldsAllBefore(log: seq<Entry>, k: nat, e: Entry)
    requires IsOplog(log) && 0 < k <= |log| && e in log
    requires !Before(log[k - 1].stamp, e.stamp)
    ensures e in log[..k]
  {
    var i :| 0 <= i < |log| && log[i] == e;
    assert i < k;
    assert log[..k][i] == e;
  }

  // ---------------------------------------------------------------------------
  // The window scan
  // ---------------------------------------------------------------------------

  datatype OplogWindow = OplogWindow(entries: seq<Entry>, scannedTo: Hlc, exhausted: bool)

  function FromOn(from: Hlc): Entry -> bool {
    (e: Entry) => e.stamp.hlc >= from && !IsLocalObservation(e.kind)
  }

  /** What a peer, or the dispatcher, may be served from `from` on. */
  function Servable(log: seq<Entry>, from: Hlc): seq<Entry> {
    Select(log, FromOn(from))
  }

  /** The first `limit` servable entries; short of the oplog's end exactly when
      there are that many of them, and then examined no further than the last. */
  ghost predicate IsWindow(w: OplogWindow, log: seq<Entry>, from: Hlc, limit: nat) {
    var all := Servable(log, from);
    && (w.exhausted <==> |all| < limit)
    && w.entries == (if w.exhausted then all else all[..limit])
    && (!w.exhausted && limit > 0 ==> w.scannedTo == w.entries[limit - 1].stamp.hlc)
  }

  lemma ServableNext(log: seq<Entry>, i: nat, from: Hlc)
    requires i < |log|
    ensures Servable(log[..i + 1], from) ==
            Servable(log[..i], from) + if FromOn(from)(log[i]) then [log[i]] else []
  {
    assert log[..i + 1][..i] == log[..i];
  }

  /** Stopping at the entry that fills the window leaves a window. */
  lemma FullWindow(log: seq<Entry>, i: nat, from: Hlc, limit: nat)
    requires i < |log| && limit > 0 && FromOn(from)(log[i]) && |Servable(log[..i + 1], from)| == limit
    ensures IsWindow(OplogWindow(Servable(log[..i + 1], from), log[i].stamp.hlc, false), log, from, limit)
  {
    ServableNext(log, i, from);
    SelectOfPrefix(log, i + 1, FromOn(from));
  }

  /** The window in its own terms: the entries at or past `from` that are writes or schema
      changes, and every one of them up to the window's last, or to the oplog's end. */
  lemma WindowMeaning(w: OplogWindow, log: seq<Entry>, from: Hlc, limit: nat)
    requires IsOplog(log) && limit > 0 && IsWindow(w, log, from, limit)
    ensures forall e :: e in w.entries ==>
              e in log && from <= e.stamp.hlc && e.kind != UniqueViolation && e.kind != UnkeyedDocument
    ensures forall e :: e in log && from <= e.stamp.hlc && e.kind != UniqueViolation && e.kind != UnkeyedDocument ==>
              e in w.entries || (|w.entries| == limit && Before(w.entries[limit - 1].stamp, e.stamp))
    ensures IsOplog(w.entries) && |w.entries| <= limit && (w.exhausted <==> |w.entries| < limit)
  {
    var all := Servable(log, from);
    SelectIsOplog(log, FromOn(from));
    forall e | e in w.entries ensures e in all {
      var i :| 0 <= i < |w.entries| && w.entries[i] == e;
      assert all[i] == e;
    }
    if !w.exhausted {
      forall e | e in all ensures e in w.entries || Before(w.entries[limit - 1].stamp, e.stamp) {
        if !Before(all[limit - 1].stamp, e.stamp) { PrefixHoldsAllBefore(all, limit, e); }
      }
    }
  }

  method ScanOplog(log: seq<Entry>, from: Hlc, limit: nat) returns (w: OplogWindow)
    requires limit > 0
    ensures IsWindow(w, log, from, limit)
  {
    var entries: seq<Entry>, scannedTo := [], 0;
    for i := 0 to |log|
      invariant entries == Servable(log[..i], from) && |entries| < limit
    {
      var e := log[i];
      ServableNext(log, i, from);
      if from <= e.stamp.hlc {
        scannedTo := e.stamp.hlc;
        if !IsLocalObservation(e.kind) {
          entries := entries + [e];
          if |entries| >= limit {
            FullWindow(log, i, from, limit);
            return OplogWindow(entries, scannedTo, false);
          }
        }
      }
    }
    assert log[..|log|] == log;
    return OplogWindow(entries, scannedTo, true);
  }

  function EndOf(w: OplogWindow): WindowEnd {
    if w.exhausted then Exhausted
    else if w.entries == [] then Until(Stamp(0, 0))
    else
      var last := w.entries[|w.entries| - 1].stamp;
      if last.hlc <= w.scannedTo then Through(last) else Through(Stamp(w.scannedTo, last.node))
  }

  /** The window holds every servable entry its end claims to have examined. */
  lemma WindowHoldsExamined(w: OplogWindow, log: seq<Entry>, from: Hlc, limit: nat, e: Entry)
    requires IsOplog(log) && limit > 0 && IsWindow(w, log, from, limit)
    requires e in Servable(log, from) && Examined(EndOf(w), e.stamp)
    ensures e in w.entries
  {
    var all := Servable(log, from);
    SelectIsOplog(log, FromOn(from));
    if !w.exhausted {
      PrefixHoldsAllBefore(all, limit, e);
    }
  }

  lemma WindowIsOplog(w: OplogWindow, log: seq<Entry>, from: Hlc, limit: nat)
    requires IsOplog(log) && IsWindow(w, log, from, limit)
    ensures IsOplog(w.entries)
    ensures forall e :: e in w.entries ==> e in log && from <= e.stamp.hlc
  {
    SelectIsOplog(log, FromOn(from));
    forall e | e in w.entries
      ensures e in Servable(log, from)
    {
      var i :| 0 <= i < |w.entries| && w.entries[i] == e;
      assert Servable(log, from)[i] == e;
    }
  }

  // ---------------------------------------------------------------------------
  // Choosing and raising
  // ---------------------------------------------------------------------------

  function NewTo(sub: Subscription, union: VersionVector): Entry -> bool {
    (e: Entry) => Wanted(sub, e) && Get(union, e.stamp.node) < e.stamp.hlc
  }

  function StampsOf(entries: seq<Entry>): (r: seq<Stamp>)
    ensures |r| == |entries| && forall i :: 0 <= i < |r| ==> r[i] == entries[i].stamp
  {
    seq(|entries|, i requires 0 <= i < |entries| => entries[i].stamp)
  }

  /** Progress after a pass that observed `observed` and got through to `end`. */
  function Raise(union: VersionVector, observed: seq<Stamp>, position: VersionVector, end: WindowEnd): VersionVector {
    Merge(ObserveAll(union, observed), CoverageUpTo(position, end))
  }

  /** Progress after a raise, stamp by stamp. */
  lemma RaiseCovers(union: VersionVector, observed: seq<Stamp>, position: VersionVector, end: WindowEnd, s: Stamp)
    requires s.hlc > 0
    ensures CoveredBy(Raise(union, observed, position, end), s) <==>
            || CoveredBy(union, s)
            || (exists o :: o in observed && o.node == s.node && s.hlc <= o.hlc)
            || (CoveredBy(position, s) && Examined(end, s))
  {
    ObserveAllCovers(union, observed, s);
    CoverageIsStampOrder(position, end, s);
  }

  /** What a pass has read, and how many of the undelivered entries of its window the
      batch size and the payload cap let through.  `taken` is zero exactly for a pass
      that found its whole window unwanted and moves progress on the heartbeat. */
  datatype Pass = Pass(sub: Subscription, union: VersionVector, position: VersionVector,
                       from: Hlc, window: OplogWindow, taken: nat) {
    /** The wanted entries of the window that the union does not cover. */
    function Undelivered(): seq<Entry> { Select(window.entries, NewTo(sub, union)) }

    /** The stamps delivered. */
    function Sent(): seq<Stamp>
      requires taken <= |Undelivered()|
    {
      StampsOf(Undelivered()[..taken])
    }

    /** The stamps whose origins progress is raised to outright. */
    function Observed(): seq<Stamp>
      requires taken <= |Undelivered()|
    {
      if taken == 0 then StampsOf(window.entries) else Sent()
    }

    /** How far through the window the pass got: all of it when it takes every
        undelivered entry, otherwise through the last it takes. */
    function Reach(): WindowEnd
      requires taken <= |Undelivered()|
    {
      if 0 < taken < |Undelivered()| then Through(Undelivered()[taken - 1].stamp) else EndOf(window)
    }

    /** What the pass records once the batch is accepted. */
    function Progress(): VersionVector
      requires taken <= |Undelivered()|
    {
      Raise(union, Observed(), position, Reach())
    }

    ghost predicate Valid(log: seq<Entry>, limit: nat) {
      && IsOplog(log) && limit > 0
      && IsBehind(union, position, from)
      && IsWindow(window, log, from, limit)
      && (if Undelivered() == [] then taken == 0 else 0 < taken <= |Undelivered()|)
    }

    /** The pass looked at this entry of its window and not only past it. */
    ghost predicate Decided(e: Entry)
      requires taken <= |Undelivered()|
    {
      && e in window.entries
      && (taken == |Undelivered()| || (0 < taken && !Before(Undelivered()[taken - 1].stamp, e.stamp)))
    }

    /** The entry lies under the scan's start, uncovered, while a later entry of the
        same origin was observed: progress is raised over it unseen. */
    ghost predicate StepsOver(e: Entry)
      requires taken <= |Undelivered()|
    {
      && !CoveredBy(union, e.stamp)
      && e.stamp.hlc < from
      && exists o :: o in Observed() && o.node == e.stamp.node && e.stamp.hlc <= o.hlc
    }
  }

  // ---------------------------------------------------------------------------
  // What a pass covers
  // ---------------------------------------------------------------------------

  /** The window holds every servable entry that is not after one it holds. */
  lemma WindowHoldsAllBefore(w: OplogWindow, log: seq<Entry>, from: Hlc, limit: nat, held: Entry, e: Entry)
    requires IsOplog(log) && limit > 0 && IsWindow(w, log, from, limit)
    requires held in w.entries && e in Servable(log, from) && !Before(held.stamp, e.stamp)
    ensures e in w.entries
  {
    SelectIsOplog(log, FromOn(from));
    if !w.exhausted {
      var all := Servable(log, from);
      var i :| 0 <= i < limit && w.entries[i] == held;
      var j :| 0 <= j < |all| && all[j] == e;
      assert all[i] == held;
      assert j <= i;
      assert w.entries[j] == e;
    }
  }

  /** Whatever of the subscription a pass decided is covered already or sent. */
  lemma DecidedIsSent(p: Pass, log: seq<Entry>, limit: nat, e: Entry)
    requires p.Valid(log, limit) && p.Decided(e) && Wanted(p.sub, e)
    ensures CoveredBy(p.union, e.stamp) || e.stamp in p.Sent()
  {
    var u := p.Undelivered();
    if !CoveredBy(p.union, e.stamp) {
      assert e in u;
      if p.taken == |u| {
        assert u[..p.taken] == u;
      } else {
        UndeliveredIsOplog(p, log, limit);
        PrefixHoldsAllBefore(u, p.taken, e);
      }
      var i :| 0 <= i < p.taken && u[..p.taken][i] == e;
      assert p.Sent()[i] == e.stamp;
    }
  }

  lemma UndeliveredIsOplog(p: Pass, log: seq<Entry>, limit: nat)
    requires p.Valid(log, limit)
    ensures IsOplog(p.Undelivered())
    ensures forall e :: e in p.Undelivered() ==> e in p.window.entries
  {
    WindowIsOplog(p.window, log, p.from, limit);
    SelectIsOplog(p.window.entries, NewTo(p.sub, p.union));
  }

  lemma SeenIsDecided(p: Pass, log: seq<Entry>, limit: nat, e: Entry, j: nat)
    requires p.Valid(log, limit) && e in Servable(log, p.from) && p.taken == 0
    requires j < |p.window.entries| && !Before(p.window.entries[j].stamp, e.stamp)
    ensures p.Decided(e)
  {
    WindowHoldsAllBefore(p.window, log, p.from, limit, p.window.entries[j], e);
  }

  lemma SentIsDecided(p: Pass, log: seq<Entry>, limit: nat, e: Entry, j: nat)
    requires p.Valid(log, limit) && e in Servable(log, p.from)
    requires j < p.taken && !Before(p.Undelivered()[j].stamp, e.stamp)
    ensures p.Decided(e)
  {
    UndeliveredIsOplog(p, log, limit);
    var u := p.Undelivered();
    assert u[j] in u;
    WindowHoldsAllBefore(p.window, log, p.from, limit, u[j], e);
    assert j == p.taken - 1 || Before(u[j].stamp, u[p.taken - 1].stamp);
  }

  /** Everything in range at or before an observed stamp was decided. */
  lemma ObservedIsDecided(p: Pass, log: seq<Entry>, limit: nat, e: Entry, o: Stamp)
    requires p.Valid(log, limit) && e in Servable(log, p.from)
    requires o in p.Observed() && !Before(o, e.stamp)
    ensures p.Decided(e)
  {
    var j :| 0 <= j < |p.Observed()| && p.Observed()[j] == o;
    if p.taken == 0 {
      SeenIsDecided(p, log, limit, e, j);
    } else {
      SentIsDecided(p, log, limit, e, j);
    }
  }

  /** Everything in range that the pass claims to have got through was decided. */
  lemma ExaminedIsDecided(p: Pass, log: seq<Entry>, limit: nat, e: Entry)
    requires p.Valid(log, limit) && e in Servable(log, p.from)
    requires Examined(p.Reach(), e.stamp)
    ensures p.Decided(e)
  {
    var u := p.Undelivered();
    if 0 < p.taken < |u| {
      UndeliveredIsOplog(p, log, limit);
      assert u[p.taken - 1] in u;
      WindowHoldsAllBefore(p.window, log, p.from, limit, u[p.taken - 1], e);
    } else {
      WindowHoldsExamined(p.window, log, p.from, limit, e);
    }
  }

  /** The exact effect of a pass: of the wanted entries the oplog holds, progress
      afterwards covers those the union covered, those the pass sends, and those
      it steps over, and no others. */
  lemma PassCoversExactly(p: Pass, log: seq<Entry>, limit: nat, e: Entry)
    requires p.Valid(log, limit) && e in log && Wanted(p.sub, e)
    ensures CoveredBy(p.Progress(), e.stamp) <==>
            CoveredBy(p.union, e.stamp) || e.stamp in p.Sent() || p.StepsOver(e)
  {
    RaiseCovers(p.union, p.Observed(), p.position, p.Reach(), e.stamp);
    if CoveredBy(p.Progress(), e.stamp) && !CoveredBy(p.union, e.stamp) && !p.StepsOver(e) {
      CoveredIsSent(p, log, limit, e);
    }
    if e.stamp in p.Sent() { assert p.taken > 0 && e.stamp in p.Observed(); }
  }

  lemma WantedIsServable(sub: Subscription, e: Entry, from: Hlc)
    requires Wanted(sub, e) && from <= e.stamp.hlc
    ensures FromOn(from)(e)
  {
  }

  /** Past the union, what a pass covers and does not step over it sends. */
  lemma CoveredIsSent(p: Pass, log: seq<Entry>, limit: nat, e: Entry)
    requires p.Valid(log, limit) && e in log && Wanted(p.sub, e)
    requires CoveredBy(p.Progress(), e.stamp) && !CoveredBy(p.union, e.stamp) && !p.StepsOver(e)
    ensures e.stamp in p.Sent()
  {
    RaiseCovers(p.union, p.Observed(), p.position, p.Reach(), e.stamp);
    if o :| o in p.Observed() && o.node == e.stamp.node && e.stamp.hlc <= o.hlc {
      WantedIsServable(p.sub, e, p.from);
      ObservedIsDecided(p, log, limit, e, o);
    } else {
      assert Trails(p.union, p.position, e.stamp.node);
      WantedIsServable(p.sub, e, p.from);
      ExaminedIsDecided(p, log, limit, e);
    }
    DecidedIsSent(p, log, limit, e);
  }

  /** The last entry a pass got through to is at or past `s`. */
  ghost predicate GotPast(entries: seq<Entry>, s: Stamp) {
    entries != [] && !Before(entries[|entries| - 1].stamp, s)
  }

  lemma EndMeaning(w: OplogWindow, log: seq<Entry>, from: Hlc, limit: nat, s: Stamp)
    requires limit > 0 && IsWindow(w, log, from, limit)
    ensures Examined(EndOf(w), s) <==> w.exhausted || GotPast(w.entries, s)
  {
    if !w.exhausted { assert |w.entries| == limit; }
  }

  /** How far through its window a pass got. */
  lemma ReachMeaning(p: Pass, log: seq<Entry>, limit: nat, s: Stamp)
    requires limit > 0 && IsWindow(p.window, log, p.from, limit)
    requires p.taken <= |p.Undelivered()| && (p.taken == 0 ==> p.Undelivered() == [])
    ensures Examined(p.Reach(), s) <==>
            if p.taken < |p.Undelivered()| then GotPast(p.Undelivered()[..p.taken], s)
            else p.window.exhausted || GotPast(p.window.entries, s)
  {
    EndMeaning(p.window, log, p.from, limit, s);
    var all := p.Undelivered();
    if p.taken < |all| { assert p.Reach() == Through(all[..p.taken][p.taken - 1].stamp); }
  }

  /** Progress after a pass in terms of what it read.  A pass that sends something observes what
      it sends, and carries the position forward to the last it sends, or through the window
      when it sends all that is wanted of it; a pass that sends nothing observes its whole
      window and carries the position through it. */
  lemma ProgressMeaning(p: Pass, log: seq<Entry>, limit: nat, s: Stamp)
    requires p.Valid(log, limit) && s.hlc > 0
    ensures var sent := p.Undelivered()[..p.taken];
            var seen := if p.taken == 0 then p.window.entries else sent;
            CoveredBy(p.Progress(), s) <==>
            || CoveredBy(p.union, s)
            || (exists e :: e in seen && e.stamp.node == s.node && s.hlc <= e.stamp.hlc)
            || (CoveredBy(p.position, s)
                && if p.taken < |p.Undelivered()| then GotPast(sent, s)
                   else p.window.exhausted || GotPast(p.window.entries, s))
  {
    var sent := p.Undelivered()[..p.taken];
    var seen := if p.taken == 0 then p.window.entries else sent;
    assert p.Observed() == StampsOf(seen);
    StampsCover(seen, s);
    ReachMeaning(p, log, limit, s);
    RaiseCovers(p.union, p.Observed(), p.position, p.Reach(), s);
  }

  lemma StampsCover(entries: seq<Entry>, s: Stamp)
    ensures (exists o :: o in StampsOf(entries) && o.node == s.node && s.hlc <= o.hlc) <==>
            exists e :: e in entries && e.stamp.node == s.node && s.hlc <= e.stamp.hlc
  {
    if e :| e in entries && e.stamp.node == s.node && s.hlc <= e.stamp.hlc {
      var i :| 0 <= i < |entries| && entries[i] == e;
      assert StampsOf(entries)[i] == e.stamp;
    }
  }

  /** Progress never moves back, and no origin is raised past both this node's
      position for it, read before the scan, and every stamp of it observed. */
  lemma PassIsMonotoneAndBounded(p: Pass, log: seq<Entry>, limit: nat, n: NodeId)
    requires p.Valid(log, limit)
    ensures Get(p.union, n) <= Get(p.Progress(), n)
    ensures || Get(p.Progress(), n) == Get(p.union, n)
            || Get(p.Progress(), n) <= Get(p.position, n)
            || exists o :: o in p.Observed() && o.node == n && Get(p.Progress(), n) == o.hlc
  {
    var before, after := Get(p.union, n), Get(p.Progress(), n);
    if before > 0 { RaiseCovers(p.union, p.Observed(), p.position, p.Reach(), Stamp(before, n)); }
    if after > before {
      RaiseCovers(p.union, p.Observed(), p.position, p.Reach(), Stamp(after, n));
      if o :| o in p.Observed() && o.node == n && after <= o.hlc {
        RaiseCovers(p.union, p.Observed(), p.position, p.Reach(), o);
      }
    }
  }

  /** Whatever a pass observes is an entry of the oplog. */
  lemma ObservedIsHeld(pass: Pass, log: seq<Entry>, o: Stamp)
    requires pass.Valid(log, WINDOW) && o in pass.Observed()
    ensures exists e :: e in log && e.stamp == o
  {
    WindowIsOplog(pass.window, log, pass.from, WINDOW);
    UndeliveredIsOplog(pass, log, WINDOW);
    var i :| 0 <= i < |pass.Observed()| && pass.Observed()[i] == o;
    var e := if pass.taken == 0 then pass.window.entries[i] else pass.Undelivered()[i];
    assert e in pass.window.entries && e.stamp == o;
  }
}
