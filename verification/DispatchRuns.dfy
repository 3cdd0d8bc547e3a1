/** Passes small enough to be followed by hand. */
module SmallPasses {
  import opened Stamps
  import opened DispatchPass
  import opened DispatchCluster

  const SUB := Subscription(7, [])

  lemma SelectOne(a: Entry, p: Entry -> bool)
    ensures Select([a], p) == if p(a) then [a] else []
  {
    assert [a][..0] == [];
  }

  lemma SelectTwo(a: Entry, b: Entry, p: Entry -> bool)
    ensures Select([a, b], p) == (if p(a) then [a] else []) + if p(b) then [b] else []
  {
    SelectOne(a, p);
    assert [a, b][..1] == [a];
  }

  lemma SelectThree(a: Entry, b: Entry, c: Entry, p: Entry -> bool)
    ensures Select([a, b], p) == (if p(a) then [a] else []) + if p(b) then [b] else []
    ensures Select([a, b, c], p) == Select([a, b], p) + if p(c) then [c] else []
  {
    SelectTwo(a, b, p);
    assert [a, b, c][..2] == [a, b];
  }

  /** A pass that scans to the end of the oplog and sends all it finds. */
  lemma WholePass(pass: Pass, log: seq<Entry>, all: seq<Entry>, wanted: seq<Entry>)
    requires IsOplog(log) && IsBehind(pass.union, pass.position, pass.from)
    requires Servable(log, pass.from) == all && |all| < WINDOW && pass.window.entries == all && pass.window.exhausted
    requires Select(all, NewTo(pass.sub, pass.union)) == wanted && wanted != [] && pass.taken == |wanted|
    ensures pass.Valid(log, WINDOW) && pass.Sent() == StampsOf(wanted)
    ensures pass.Progress() == Raise(pass.union, StampsOf(wanted), pass.position, Exhausted)
  {
    assert wanted[..pass.taken] == wanted;
  }

  /** Every insert into the collection is wanted, and served from its clock value on. */
  lemma InsertIsWanted(e: Entry, from: Hlc, union: VersionVector)
    requires e.kind == Insert && e.collection == 7
    ensures FromOn(from)(e) <==> from <= e.stamp.hlc
    ensures NewTo(SUB, union)(e) <==> !CoveredBy(union, e.stamp)
  {
  }

  lemma OneIsOplog(e: Entry)
    requires e.stamp.hlc > 0
    ensures IsOplog([e])
  {
  }

  /** A completed pass that covers an unanswered wanted write without sending it. */
  lemma PublishedOver(c: Cluster, n: NodeId, pass: Pass, e: Entry, strict: bool)
    requires n in c.nodes && pass.taken <= |pass.Undelivered()|
    requires e in c.written && Wanted(c.sub, e) && CoveredBy(pass.Progress(), e.stamp)
    requires !Answered(c, e, strict) && e.stamp !in pass.Sent()
    ensures !Safe(Completed(c, n, pass), strict)
  {
    var after := Completed(c, n, pass);
    assert pass.Progress() in after.published && !Answered(after, e, strict);
  }
}

/**
 A run that breaks the protocol.

 Node 2 owns the subscription and has delivered its own write at 100.  It makes
 another at 200 and begins a pass: the union says 100 for it, its position 200, and
 both say nothing of node 1.  Before it scans, two older writes of node 1 arrive, at
 50 and 150.  The scan starts at 100, so it sees the second of them only; once that
 is delivered, progress for node 1 is raised to 150, over the write at 50.
 */
module LateArrival {
  import opened Stamps
  import opened DispatchPass
  import opened DispatchCluster
  import opened SmallPasses

  const P1 := Entry(Stamp(100, 2), Insert, 7, 1)
  const P2 := Entry(Stamp(200, 2), Insert, 7, 2)
  const O1 := Entry(Stamp(50, 1), Insert, 7, 3)
  const O2 := Entry(Stamp(150, 1), Insert, 7, 4)

  const ONE: VersionVector := map[2 := 100]
  const TWO: VersionVector := map[2 := 200]
  const BOTH: VersionVector := map[1 := 150, 2 := 200]

  function At(one: Node, two: Node, written: set<Entry>, published: set<VersionVector>, accepted: set<Stamp>): Cluster {
    Cluster(SUB, map[1 := one, 2 := two], written, published, accepted, {})
  }

  const QUIET := Node({}, {}, map[], map[], Idle)

  const FIRST := Pass(SUB, map[], ONE, 0, OplogWindow([P1], 100, true), 1)
  const SECOND := Pass(SUB, ONE, TWO, 100, OplogWindow([P1, O2, P2], 200, true), 2)

  lemma FirstWindow()
    ensures IsOplog([P1]) && Servable([P1], 0) == [P1] && Select([P1], NewTo(SUB, map[])) == [P1]
  {
    OneIsOplog(P1);
    InsertIsWanted(P1, 0, map[]);
    SelectOne(P1, FromOn(0));
    SelectOne(P1, NewTo(SUB, map[]));
  }

  lemma FirstPass()
    ensures FIRST.Valid([P1], WINDOW) && FIRST.Sent() == [P1.stamp] && FIRST.Progress() == ONE
  {
    FirstWindow();
    FirstBehind();
    WholePass(FIRST, [P1], [P1], [P1]);
    assert StampsOf([P1]) == [P1.stamp];
    FirstProgress();
  }

  lemma FirstBehind()
    ensures IsBehind(map[], ONE, 0)
  {
    assert Trails(map[], ONE, 2);
  }

  lemma SecondBehind()
    ensures IsBehind(ONE, TWO, 100)
  {
    assert Trails(ONE, TWO, 2);
  }

  lemma FirstProgress()
    ensures Raise(map[], [P1.stamp], ONE, Exhausted) == ONE
  {
    assert [P1.stamp][..0] == [];
    assert ObserveAll(map[], [P1.stamp]) == ONE;
  }

  lemma SecondIsOplog()
    ensures IsOplog([O1, P1, O2, P2])
  {
  }

  lemma SecondWindow()
    ensures Servable([O1, P1, O2, P2], 100) == [P1, O2, P2]
  {
    forall e | e in [O1, P1, O2, P2] { InsertIsWanted(e, 100, ONE); }
    SelectThree(O1, P1, O2, FromOn(100));
    assert [O1, P1, O2, P2][..3] == [O1, P1, O2];
  }

  lemma SecondIsWanted()
    ensures Select([P1, O2, P2], NewTo(SUB, ONE)) == [O2, P2]
  {
    forall e | e in [P1, O2, P2] { InsertIsWanted(e, 100, ONE); }
    SelectThree(P1, O2, P2, NewTo(SUB, ONE));
  }

  lemma SecondPass()
    ensures SECOND.Valid([O1, P1, O2, P2], WINDOW)
    ensures SECOND.Sent() == [O2.stamp, P2.stamp] && SECOND.Progress() == BOTH
  {
    SecondIsOplog();
    SecondWindow();
    SecondIsWanted();
    SecondBehind();
    WholePass(SECOND, [O1, P1, O2, P2], [P1, O2, P2], [O2, P2]);
    assert StampsOf([O2, P2]) == [O2.stamp, P2.stamp];
    SecondProgress();
  }

  lemma SecondProgress()
    ensures Raise(ONE, [O2.stamp, P2.stamp], TWO, Exhausted) == BOTH
  {
    var sent := [O2.stamp, P2.stamp];
    assert sent[..1] == [O2.stamp] && [O2.stamp][..0] == [];
    assert ObserveAll(ONE, [O2.stamp]) == map[1 := 150, 2 := 100];
    assert ObserveAll(ONE, sent) == BOTH;
  }

  const READING := Node({P1}, {}, ONE, map[], ReadPosition(map[], ONE))
  const DELIVERED := Node({P1}, {}, ONE, ONE, Idle)
  const READING_AGAIN := Node({P1, P2}, {}, TWO, ONE, ReadPosition(ONE, TWO))
  const LATE := Node({O1, O2}, {}, map[1 := 150], map[], Idle)
  const ALL := {P1, P2, O1, O2}

  /** Node 2 writes and begins its first pass. */
  lemma ReadsOnce()
    ensures Reachable(At(QUIET, READING, {P1}, {}, {}))
  {
    var c0 := At(QUIET, QUIET, {}, {}, {});
    assert IsRun([c0], []);
    var c1 := At(QUIET, Node({P1}, {}, ONE, map[], Idle), {P1}, {}, {});
    assert Append(QUIET, P1) == c1.nodes[2];
    Extend(c0, Write(2, P1), c1);
    var c2 := At(QUIET, Node({P1}, {}, ONE, map[], ReadUnion(map[])), {P1}, {}, {});
    Extend(c1, ReadRecords(2, {}, map[]), c2);
    Extend(c2, TakePosition(2), At(QUIET, READING, {P1}, {}, {}));
  }

  lemma FirstCompletes(c: Cluster)
    requires c == At(QUIET, READING, {P1}, {}, {})
    requires FIRST.taken <= |FIRST.Undelivered()| && FIRST.Sent() == [P1.stamp] && FIRST.Progress() == ONE
    ensures Completed(c, 2, FIRST) == At(QUIET, DELIVERED, {P1}, {ONE}, {P1.stamp})
  {
  }

  lemma DeliversOnce()
    ensures Reachable(At(QUIET, DELIVERED, {P1}, {ONE}, {P1.stamp}))
  {
    ReadsOnce();
    FirstPass();
    var c := At(QUIET, READING, {P1}, {}, {});
    CompletePass(c, 2, [P1], FIRST);
    FirstCompletes(c);
  }

  /** Node 2 writes again and reads the union and its position. */
  lemma ReadsAgain()
    ensures Reachable(At(QUIET, READING_AGAIN, {P1, P2}, {ONE}, {P1.stamp}))
  {
    DeliversOnce();
    var c7 := At(QUIET, Node({P1, P2}, {}, TWO, ONE, Idle), {P1, P2}, {ONE}, {P1.stamp});
    assert Append(DELIVERED, P2) == c7.nodes[2];
    Extend(At(QUIET, DELIVERED, {P1}, {ONE}, {P1.stamp}), Write(2, P2), c7);
    var c8 := At(QUIET, Node({P1, P2}, {}, TWO, ONE, ReadUnion(ONE)), {P1, P2}, {ONE}, {P1.stamp});
    assert IsUnion(ONE, {ONE});
    Extend(c7, ReadRecords(2, {ONE}, ONE), c8);
    Extend(c8, TakePosition(2), At(QUIET, READING_AGAIN, {P1, P2}, {ONE}, {P1.stamp}));
  }

  /** Two writes of node 1 land before the scan. */
  lemma TwoLand()
    ensures Reachable(At(LATE, READING_AGAIN.(oplog := ALL, position := BOTH), ALL, {ONE}, {P1.stamp}))
  {
    ReadsAgain();
    var c0 := At(QUIET, READING_AGAIN, {P1, P2}, {ONE}, {P1.stamp});
    var c1 := At(Node({O1}, {}, map[1 := 50], map[], Idle), READING_AGAIN, {P1, P2, O1}, {ONE}, {P1.stamp});
    assert Append(QUIET, O1) == c1.nodes[1] && c0.written + {O1} == c1.written;
    Extend(c0, Write(1, O1), c1);
    var c2 := At(LATE, READING_AGAIN, ALL, {ONE}, {P1.stamp});
    assert Append(c1.nodes[1], O2) == LATE && c1.written + {O2} == ALL;
    Extend(c1, Write(1, O2), c2);
    TwoReplicate(c2);
  }

  lemma TwoReplicate(c2: Cluster)
    requires c2 == At(LATE, READING_AGAIN, ALL, {ONE}, {P1.stamp}) && Reachable(c2)
    ensures Reachable(At(LATE, READING_AGAIN.(oplog := ALL, position := BOTH), ALL, {ONE}, {P1.stamp}))
  {
    var two := READING_AGAIN.(oplog := {P1, P2, O1}, position := map[1 := 50, 2 := 200]);
    var c3 := At(LATE, two, ALL, {ONE}, {P1.stamp});
    assert Append(c2.nodes[2], O1) == two;
    Extend(c2, Replicate(2, O1), c3);
    OneMoreReplicates(two, c3);
  }

  lemma OneMoreReplicates(two: Node, c3: Cluster)
    requires two == READING_AGAIN.(oplog := {P1, P2, O1}, position := map[1 := 50, 2 := 200])
    requires c3 == At(LATE, two, ALL, {ONE}, {P1.stamp}) && Reachable(c3)
    ensures Reachable(At(LATE, READING_AGAIN.(oplog := ALL, position := BOTH), ALL, {ONE}, {P1.stamp}))
  {
    var c4 := At(LATE, READING_AGAIN.(oplog := ALL, position := BOTH), ALL, {ONE}, {P1.stamp});
    assert Append(two, O2) == c4.nodes[2];
    Extend(c3, Replicate(2, O2), c4);
  }

  lemma SecondPassIsReady(c: Cluster)
    requires c == At(LATE, READING_AGAIN.(oplog := ALL, position := BOTH), ALL, {ONE}, {P1.stamp})
    ensures c.nodes.Keys == {1, 2} && c.sub == SUB && c.written == ALL
    ensures c.nodes[2].phase == ReadPosition(SECOND.union, SECOND.position)
    ensures Lists([O1, P1, O2, P2], c.nodes[2].oplog)
    ensures c.accepted == {P1.stamp} && c.superseded == {} && O1 in c.written && Wanted(c.sub, O1)
  {}

  /** The write at 50 is covered by what the second pass records, and not sent. */
  lemma SecondPassSkips(c: Cluster)
    requires c.accepted == {P1.stamp} && c.written == ALL && c.superseded == {}
    requires SECOND.taken <= |SECOND.Undelivered()|
    requires SECOND.Sent() == [O2.stamp, P2.stamp] && SECOND.Progress() == BOTH
    ensures CoveredBy(SECOND.Progress(), O1.stamp) && O1.stamp !in SECOND.Sent()
    ensures O1.stamp !in c.accepted && !Replaced(c, O1)
  {
  }

  /** The protocol as written is not safe: a reachable cluster, in which nothing was ever
      lost, has published progress over a wanted write that nobody sent. */
  lemma ARunCoversAnUnsentEvent() returns (c: Cluster)
    ensures Reachable(c) && c.superseded == {} && !Safe(c, false)
  {
    TwoLand();
    SecondPass();
    var before := At(LATE, READING_AGAIN.(oplog := ALL, position := BOTH), ALL, {ONE}, {P1.stamp});
    SecondPassIsReady(before);
    SecondPassSkips(before);
    CompletePass(before, 2, [O1, P1, O2, P2], SECOND);
    c := Completed(before, 2, SECOND);
    PublishedOver(before, 2, SECOND, O1, false);
  }
}

/**
 A run in which nothing lands late and a wanted write is still never sent.

 Node 1 writes document 3 at 50 and document 4 at 150, and node 2 writes document 3 at
 100.  The write at 50 reaches node 2 after that and loses there; the one at 150 joins its
 oplog.  One complete pass of node 2 sends the writes at 100 and 150 and records 150 for
 node 1, over the write at 50.
 */
module LostWrite {
  import opened Stamps
  import opened DispatchPass
  import opened DispatchCluster
  import opened SmallPasses

  const O1 := Entry(Stamp(50, 1), Insert, 7, 3)
  const O2 := Entry(Stamp(150, 1), Insert, 7, 4)
  const P1 := Entry(Stamp(100, 2), Insert, 7, 3)

  const ONE: VersionVector := map[1 := 150]
  const TWO: VersionVector := map[2 := 100]
  const BOTH: VersionVector := map[1 := 150, 2 := 100]
  const ALL := {O1, O2, P1}

  function At(one: Node, two: Node, written: set<Entry>, superseded: set<Stamp>): Cluster {
    Cluster(SUB, map[1 := one, 2 := two], written, {}, {}, superseded)
  }

  const QUIET := Node({}, {}, map[], map[], Idle)
  const WRITER := Node({O1, O2}, {}, ONE, map[], Idle)
  const OWNER := Node({P1, O2}, {O1.stamp}, BOTH, map[], Idle)

  const PASS := Pass(SUB, map[], BOTH, 0, OplogWindow([P1, O2], 150, true), 2)

  lemma AllWritten()
    ensures Reachable(At(WRITER, Node({P1}, {}, TWO, map[], Idle), ALL, {}))
  {
    var c0 := At(QUIET, QUIET, {}, {});
    assert IsRun([c0], []);
    var c1 := At(Node({O1}, {}, map[1 := 50], map[], Idle), QUIET, {O1}, {});
    assert Append(QUIET, O1) == c1.nodes[1];
    Extend(c0, Write(1, O1), c1);
    var c2 := At(WRITER, QUIET, {O1, O2}, {});
    assert Append(c1.nodes[1], O2) == WRITER && c1.written + {O2} == c2.written;
    Extend(c1, Write(1, O2), c2);
    var c3 := At(WRITER, Node({P1}, {}, TWO, map[], Idle), ALL, {});
    assert Append(QUIET, P1) == c3.nodes[2] && c2.written + {P1} == ALL;
    Extend(c2, Write(2, P1), c3);
  }

  lemma OneLoses()
    ensures Reachable(At(WRITER, Node({P1}, {O1.stamp}, TWO, map[], Idle), ALL, {O1.stamp}))
  {
    AllWritten();
    var two := Node({P1}, {}, TWO, map[], Idle);
    var c3 := At(WRITER, two, ALL, {});
    var c4 := At(WRITER, Node({P1}, {O1.stamp}, TWO, map[], Idle), ALL, {O1.stamp});
    assert P1 in c3.nodes[2].oplog && Replaces(P1, O1);
    assert {} + {O1.stamp} == {O1.stamp};
    assert SupersedeStep(c3, 2, O1, c4);
    Extend(c3, Supersede(2, O1), c4);
  }

  lemma OneIsLost()
    ensures Reachable(At(WRITER, OWNER, ALL, {O1.stamp}))
  {
    OneLoses();
    var two := Node({P1}, {O1.stamp}, TWO, map[], Idle);
    var c4, c5 := At(WRITER, two, ALL, {O1.stamp}), At(WRITER, OWNER, ALL, {O1.stamp});
    assert {P1} + {O2} == {P1, O2} && Observe(TWO, O2.stamp) == BOTH;
    assert Append(two, O2) == OWNER;
    assert ReplicateStep(c4, 2, O2, c5);
    Extend(c4, Replicate(2, O2), c5);
  }

  lemma PassBegins()
    ensures Reachable(At(WRITER, OWNER.(phase := ReadPosition(map[], BOTH)), ALL, {O1.stamp}))
  {
    OneIsLost();
    var c5 := At(WRITER, OWNER, ALL, {O1.stamp});
    var c6 := At(WRITER, OWNER.(phase := ReadUnion(map[])), ALL, {O1.stamp});
    Extend(c5, ReadRecords(2, {}, map[]), c6);
    Extend(c6, TakePosition(2), At(WRITER, OWNER.(phase := ReadPosition(map[], BOTH)), ALL, {O1.stamp}));
  }

  lemma PassIsOplog()
    ensures IsOplog([P1, O2])
  {
  }

  lemma PassWindow()
    ensures Servable([P1, O2], 0) == [P1, O2]
  {
    InsertIsWanted(P1, 0, map[]);
    InsertIsWanted(O2, 0, map[]);
    SelectTwo(P1, O2, FromOn(0));
  }

  lemma PassIsWanted()
    ensures Select([P1, O2], NewTo(SUB, map[])) == [P1, O2]
  {
    InsertIsWanted(P1, 0, map[]);
    InsertIsWanted(O2, 0, map[]);
    SelectTwo(P1, O2, NewTo(SUB, map[]));
  }

  lemma PassProgress()
    ensures Raise(map[], [P1.stamp, O2.stamp], BOTH, Exhausted) == BOTH
  {
    var sent := [P1.stamp, O2.stamp];
    assert sent[..1] == [P1.stamp] && [P1.stamp][..0] == [];
    assert ObserveAll(map[], [P1.stamp]) == TWO;
    assert ObserveAll(map[], sent) == BOTH;
  }

  lemma PassIsWhole()
    ensures PASS.Valid([P1, O2], WINDOW) && PASS.Sent() == [P1.stamp, O2.stamp] && PASS.Progress() == BOTH
  {
    PassIsOplog();
    PassWindow();
    PassIsWanted();
    assert Trails(map[], BOTH, 2);
    WholePass(PASS, [P1, O2], [P1, O2], [P1, O2]);
    assert StampsOf([P1, O2]) == [P1.stamp, O2.stamp];
    PassProgress();
  }

  /** What the cluster is once the pass is over. */
  lemma AfterPass(before: Cluster)
    requires before == At(WRITER, OWNER.(phase := ReadPosition(map[], BOTH)), ALL, {O1.stamp})
    requires PASS.taken <= |PASS.Undelivered()| && PASS.Sent() == [P1.stamp, O2.stamp] && PASS.Progress() == BOTH
    ensures IsAfter(Completed(before, 2, PASS))
  {
  }

  ghost predicate IsAfter(c: Cluster) {
    && c.sub == SUB && c.published == {BOTH} && c.written == ALL
    && c.accepted == {P1.stamp, O2.stamp} && c.superseded == {O1.stamp}
  }

  lemma LossIsTheOnlyGap(c: Cluster)
    requires IsAfter(c)
    ensures Safe(c, false) && !Safe(c, true)
  {
    assert O1 in c.written && Wanted(c.sub, O1) && CoveredBy(BOTH, O1.stamp) && !Answered(c, O1, true);
    assert BOTH in c.published && !SafeVector(c, BOTH, true);
  }

  lemma PassIsReady(before: Cluster)
    requires before == At(WRITER, OWNER.(phase := ReadPosition(map[], BOTH)), ALL, {O1.stamp})
    requires PASS.Valid([P1, O2], WINDOW)
    ensures 2 in before.nodes && ScanStep(before, 2, [P1, O2], PASS, Scanned(before, 2, PASS))
  {
    assert Lists([P1, O2], before.nodes[2].oplog);
  }

  lemma PassCompletes(before: Cluster)
    requires before == At(WRITER, OWNER.(phase := ReadPosition(map[], BOTH)), ALL, {O1.stamp}) && Reachable(before)
    ensures PASS.taken <= |PASS.Undelivered()|
    ensures Reachable(Completed(before, 2, PASS)) && IsAfter(Completed(before, 2, PASS))
  {
    PassIsWhole();
    PassIsReady(before);
    CompletePass(before, 2, [P1, O2], PASS);
    AfterPass(before);
  }

  /** Nothing is stepped over, so the cluster is safe as far as losing is an excuse; yet
      progress covers a wanted write that the endpoint never accepted. */
  lemma ARunCoversALostWrite() returns (c: Cluster)
    ensures Reachable(c) && Safe(c, false) && !Safe(c, true)
  {
    PassBegins();
    var before := At(WRITER, OWNER.(phase := ReadPosition(map[], BOTH)), ALL, {O1.stamp});
    PassCompletes(before);
    c := Completed(before, 2, PASS);
    LossIsTheOnlyGap(c);
  }
}
