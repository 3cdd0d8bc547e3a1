/**
 The dispatcher's progress protocol in a whole cluster, as a step system for one
 subscription.

 Any node may run a pass at any time, so two owners at once and every failover
 are among the runs.  A pass reads some of the records other nodes have published
 (replication may lag), then this node's position, then scans; appends may fall
 between any two of these.  A delivery may fail, may be accepted with the answer
 lost, a record may fail, and a node may crash at any point of a pass.
 */
module DispatchCluster {
  import opened Stamps
  import opened DispatchPass

  /** Where a node's pass stands. */
  datatype Phase =
    | Idle
    | ReadUnion(union: VersionVector)
    | ReadPosition(union: VersionVector, position: VersionVector)
    | Planned(pass: Pass)
    | Landed(pass: Pass)

  /** `lost` are the writes that arrived, lost last-writer-wins to a newer write of their
      document that is already here, and so never joined the oplog. */
  datatype Node = Node(oplog: set<Entry>, lost: set<Stamp>, position: VersionVector, record: VersionVector,
                       phase: Phase)

  /** `written` is every write ever made, `published` every progress record ever
      committed, `accepted` what the endpoint took, and `superseded` the writes that were
      lost at some node. */
  datatype Cluster = Cluster(
    sub: Subscription,
    nodes: map<NodeId, Node>,
    written: set<Entry>,
    published: set<VersionVector>,
    accepted: set<Stamp>,
    superseded: set<Stamp>)

  predicate Init(c: Cluster) {
    && c.written == {} && c.published == {} && c.accepted == {} && c.superseded == {}
    && forall n :: n in c.nodes ==> c.nodes[n] == Node({}, {}, map[], map[], Idle)
  }

  datatype Step =
    | Write(n: NodeId, e: Entry)
    | Supersede(n: NodeId, e: Entry)
    | Replicate(n: NodeId, e: Entry)
    | ReadRecords(n: NodeId, seen: set<VersionVector>, union: VersionVector)
    | TakePosition(n: NodeId)
    | Scan(n: NodeId, log: seq<Entry>, pass: Pass)
    | Deliver(n: NodeId, accepted: bool, acknowledged: bool)
    | Record(n: NodeId, committed: bool)
    | Crash(n: NodeId)

  /** `union` covers what some vector of `seen` covers, and nothing else. */
  ghost predicate IsUnion(union: VersionVector, seen: set<VersionVector>) {
    forall s: Stamp :: s.hlc > 0 ==> (CoveredBy(union, s) <==> exists v :: v in seen && CoveredBy(v, s))
  }

  /** `log` is the node's oplog in stamp order. */
  ghost predicate Lists(log: seq<Entry>, oplog: set<Entry>) {
    IsOplog(log) && forall e :: e in log <==> e in oplog
  }

  function Append(node: Node, e: Entry): Node {
    node.(oplog := node.oplog + {e}, position := Observe(node.position, e.stamp))
  }

  ghost predicate WriteStep(c: Cluster, n: NodeId, e: Entry, d: Cluster)
    requires n in c.nodes
  {
    && e.stamp.node == n && e.stamp.hlc > Get(c.nodes[n].position, n)
    && d == c.(written := c.written + {e}, nodes := c.nodes[n := Append(c.nodes[n], e)])
  }

  /** `w` is a newer write of the document that `e` wrote. */
  predicate Replaces(w: Entry, e: Entry) {
    w.collection == e.collection && w.document == e.document && Before(e.stamp, w.stamp)
  }

  /** A write of another node arrives where a newer write of its document is. */
  ghost predicate SupersedeStep(c: Cluster, n: NodeId, e: Entry, d: Cluster)
    requires n in c.nodes
  {
    var node := c.nodes[n];
    && e in c.written && e.stamp.node != n && e !in node.oplog && (exists w :: w in node.oplog && Replaces(w, e))
    && d == c.(superseded := c.superseded + {e.stamp}, nodes := c.nodes[n := node.(lost := node.lost + {e.stamp})])
  }

  /** A write of another node arrives and is the newest of its document here.  Each origin's
      writes reach a node in order: the earlier ones have been appended there, or lost there. */
  ghost predicate ReplicateStep(c: Cluster, n: NodeId, e: Entry, d: Cluster)
    requires n in c.nodes
  {
    && e in c.written && e.stamp.node != n && e.stamp.hlc > Get(c.nodes[n].position, e.stamp.node)
    && (forall b :: b in c.written && b.stamp.node == e.stamp.node && b.stamp.hlc < e.stamp.hlc ==>
          b in c.nodes[n].oplog || b.stamp in c.nodes[n].lost)
    && e.stamp !in c.nodes[n].lost && (forall w :: w in c.nodes[n].oplog ==> !Replaces(w, e))
    && d == c.(nodes := c.nodes[n := Append(c.nodes[n], e)])
  }

  /** A step of the pass that changes nothing but where the pass is. */
  function Moved(c: Cluster, n: NodeId, phase: Phase): Cluster
    requires n in c.nodes
  {
    c.(nodes := c.nodes[n := c.nodes[n].(phase := phase)])
  }

  /** A pass with nothing to send goes straight to recording. */
  ghost predicate ScanStep(c: Cluster, n: NodeId, log: seq<Entry>, pass: Pass, d: Cluster)
    requires n in c.nodes
  {
    var node := c.nodes[n];
    && node.phase.ReadPosition? && Lists(log, node.oplog)
    && pass.sub == c.sub && pass.union == node.phase.union && pass.position == node.phase.position
    && pass.Valid(log, WINDOW) && pass.taken <= BATCH
    && d == Moved(c, n, if pass.taken == 0 then Landed(pass) else Planned(pass))
  }

  ghost predicate DeliverStep(c: Cluster, n: NodeId, accepted: bool, acknowledged: bool, d: Cluster)
    requires n in c.nodes
  {
    var phase := c.nodes[n].phase;
    && phase.Planned? && (acknowledged ==> accepted)
    && phase.pass.taken <= |phase.pass.Undelivered()|
    && d == Moved(c.(accepted := c.accepted + (if accepted then (set s | s in phase.pass.Sent()) else {})),
                  n, if acknowledged then Landed(phase.pass) else Idle)
  }

  ghost predicate RecordStep(c: Cluster, n: NodeId, committed: bool, d: Cluster)
    requires n in c.nodes
  {
    var node := c.nodes[n];
    && node.phase.Landed?
    && node.phase.pass.taken <= |node.phase.pass.Undelivered()|
    && d == (if committed then
               var progress := node.phase.pass.Progress();
               c.(published := c.published + {progress},
                  nodes := c.nodes[n := node.(phase := Idle, record := progress)])
             else Moved(c, n, Idle))
  }

  ghost predicate Next(c: Cluster, step: Step, d: Cluster) {
    && step.n in c.nodes
    && match step
       case Write(n, e) => WriteStep(c, n, e, d)
       case Supersede(n, e) => SupersedeStep(c, n, e, d)
       case Replicate(n, e) => ReplicateStep(c, n, e, d)
       case ReadRecords(n, seen, union) =>
         && c.nodes[n].phase.Idle? && seen <= c.published && IsUnion(union, seen + {c.nodes[n].record})
         && d == Moved(c, n, ReadUnion(union))
       case TakePosition(n) =>
         c.nodes[n].phase.ReadUnion? && d == Moved(c, n, ReadPosition(c.nodes[n].phase.union, c.nodes[n].position))
       case Scan(n, log, pass) => ScanStep(c, n, log, pass, d)
       case Deliver(n, accepted, acknowledged) => DeliverStep(c, n, accepted, acknowledged, d)
       case Record(n, committed) => RecordStep(c, n, committed, d)
       case Crash(n) => d == Moved(c, n, Idle)
  }

  // ---------------------------------------------------------------------------
  // Safety
  // ---------------------------------------------------------------------------

  /** Where a wanted write may stand once progress covers it.  Strictly, the endpoint has
      accepted it; otherwise it may also have been lost at some node. */
  ghost predicate Answered(c: Cluster, e: Entry, strict: bool) {
    e.stamp in c.accepted || (!strict && e.stamp in c.superseded)
  }

  ghost predicate SafeVector(c: Cluster, v: VersionVector, strict: bool) {
    forall e :: e in c.written && Wanted(c.sub, e) && CoveredBy(v, e.stamp) ==> Answered(c, e, strict)
  }

  /** No record ever committed covers a wanted write that is not answered. */
  ghost predicate Safe(c: Cluster, strict: bool) {
    forall v :: v in c.published ==> SafeVector(c, v, strict)
  }

  /** A newer write of the same document has been made. */
  ghost predicate Replaced(c: Cluster, e: Entry) { exists w :: w in c.written && Replaces(w, e) }

  /** What being lost means: the write was made, and so was a newer one of its document. */
  ghost predicate LosersAreReplaced(c: Cluster) {
    forall s :: s in c.superseded ==> exists e :: e in c.written && e.stamp == s && Replaced(c, e)
  }

  lemma LosersStayReplaced(c: Cluster, d: Cluster)
    requires LosersAreReplaced(c) && c.written <= d.written && d.superseded <= c.superseded
    ensures LosersAreReplaced(d)
  {
    forall s | s in d.superseded ensures exists e :: e in d.written && e.stamp == s && Replaced(d, e) {
      var e :| e in c.written && e.stamp == s && Replaced(c, e);
      assert Replaced(d, e);
    }
  }

  /** `v` names no write of a member that the member has not made. */
  ghost predicate Known(c: Cluster, v: VersionVector) {
    forall n :: n in c.nodes ==> Get(v, n) <= Get(c.nodes[n].position, n)
  }

  ghost predicate Fine(c: Cluster, v: VersionVector, strict: bool) { SafeVector(c, v, strict) && Known(c, v) }

  /** The position of a node is a coverage claim over what it holds and what was lost to it. */
  ghost predicate PositionClaims(c: Cluster, node: Node) {
    forall e :: e in c.written && CoveredBy(node.position, e.stamp) ==> e in node.oplog || e.stamp in node.lost
  }

  /** Once its batch is accepted, what the pass records is safe. */
  ghost predicate SafeOnceSent(c: Cluster, pass: Pass, strict: bool)
    requires pass.taken <= |pass.Undelivered()|
  {
    forall e :: e in c.written && Wanted(c.sub, e) && CoveredBy(pass.Progress(), e.stamp) ==>
      Answered(c, e, strict) || (pass.taken > 0 && e.stamp in pass.Sent())
  }

  ghost predicate PhaseHolds(c: Cluster, node: Node, strict: bool) {
    match node.phase
    case Idle => true
    case ReadUnion(union) => Fine(c, union, strict)
    case ReadPosition(union, position) => Fine(c, union, strict) && AtMost(position, node.position)
    case Planned(pass) =>
      pass.taken <= |pass.Undelivered()| && SafeOnceSent(c, pass, strict) && Known(c, pass.Progress())
    case Landed(pass) => pass.taken <= |pass.Undelivered()| && Fine(c, pass.Progress(), strict)
  }

  ghost predicate NodeHolds(c: Cluster, n: NodeId, node: Node, strict: bool) {
    && node.oplog <= c.written
    && (forall e :: e in node.oplog ==> CoveredBy(node.position, e.stamp))
    && (forall e :: e in c.written && e.stamp.node == n ==> e in node.oplog)
    && PositionClaims(c, node)
    && node.lost <= c.superseded && (forall e :: e in node.oplog ==> e.stamp !in node.lost)
    && Known(c, node.position)
    && Fine(c, node.record, strict)
    && PhaseHolds(c, node, strict)
  }

  ghost predicate Inv(c: Cluster, strict: bool) {
    && (forall e :: e in c.written ==> e.stamp.hlc > 0 && e.stamp.node in c.nodes)
    && (forall a, b :: a in c.written && b in c.written && a.stamp == b.stamp ==> a == b)
    && (forall v :: v in c.published ==> Fine(c, v, strict))
    && LosersAreReplaced(c)
    && forall n :: n in c.nodes ==> NodeHolds(c, n, c.nodes[n], strict)
  }

  /** A stamp the pass's raise goes over: at or below an observed one of its origin, or in
      the position and gone past. */
  ghost predicate Passed(pass: Pass, s: Stamp)
    requires pass.taken <= |pass.Undelivered()|
  {
    || (exists o :: o in pass.Observed() && o.node == s.node && s.hlc <= o.hlc)
    || (CoveredBy(pass.position, s) && Examined(pass.Reach(), s))
  }

  /** A wanted write lost at this node that the pass goes over, uncovered and not accepted. */
  ghost predicate DropsLost(c: Cluster, n: NodeId, pass: Pass, e: Entry)
    requires n in c.nodes && pass.taken <= |pass.Undelivered()|
  {
    && e in c.written && Wanted(c.sub, e) && e.stamp in c.nodes[n].lost && e.stamp !in c.accepted
    && !CoveredBy(pass.union, e.stamp) && Passed(pass, e.stamp)
  }

  /** The two things that can break the protocol: a scan that raises progress over an
      unanswered wanted entry of this oplog that lies under its start, and, when losing is
      no excuse, one that raises progress over a wanted write lost at this node. */
  ghost predicate ScanDrops(c: Cluster, step: Step, strict: bool) {
    && step.Scan? && step.n in c.nodes && step.pass.taken <= |step.pass.Undelivered()|
    && (|| (exists e :: e in step.log && Wanted(c.sub, e) && step.pass.StepsOver(e) && !Answered(c, e, strict))
        || (strict && exists e :: DropsLost(c, step.n, step.pass, e)))
  }

  // ---------------------------------------------------------------------------
  // What every step leaves alone
  // ---------------------------------------------------------------------------

  /** Writes, acceptances and losses accumulate; each new write is past everything
      its origin wrote before. */
  ghost predicate Grows(c: Cluster, d: Cluster) {
    && d.sub == c.sub && d.nodes.Keys == c.nodes.Keys
    && c.written <= d.written && c.accepted <= d.accepted && c.superseded <= d.superseded
    && (forall n :: n in c.nodes ==> Get(c.nodes[n].position, n) <= Get(d.nodes[n].position, n))
    && forall e :: e in d.written && e !in c.written ==>
         e.stamp.node in c.nodes && Get(c.nodes[e.stamp.node].position, e.stamp.node) < e.stamp.hlc
  }

  lemma FineGrows(c: Cluster, d: Cluster, v: VersionVector, strict: bool)
    requires Grows(c, d) && Fine(c, v, strict)
    ensures Fine(d, v, strict)
  {
    forall e | e in d.written && Wanted(d.sub, e) && CoveredBy(v, e.stamp)
      ensures Answered(d, e, strict)
    {
      assert e in c.written;
    }
  }

  lemma SafeOnceSentGrows(c: Cluster, d: Cluster, pass: Pass, strict: bool)
    requires pass.taken <= |pass.Undelivered()|
    requires Grows(c, d) && SafeOnceSent(c, pass, strict) && Known(c, pass.Progress())
    ensures SafeOnceSent(d, pass, strict)
  {
    forall e | e in d.written && Wanted(d.sub, e) && CoveredBy(pass.Progress(), e.stamp)
      ensures Answered(d, e, strict) || (pass.taken > 0 && e.stamp in pass.Sent())
    {
      assert e in c.written;
    }
  }

  lemma PhaseGrows(c: Cluster, d: Cluster, node: Node, strict: bool)
    requires Grows(c, d) && PhaseHolds(c, node, strict)
    ensures PhaseHolds(d, node, strict)
  {
    match node.phase
    case Idle =>
    case ReadUnion(union) => FineGrows(c, d, union, strict);
    case ReadPosition(union, _) => FineGrows(c, d, union, strict);
    case Planned(pass) => SafeOnceSentGrows(c, d, pass, strict);
    case Landed(pass) => FineGrows(c, d, pass.Progress(), strict);
  }

  lemma NodeGrows(c: Cluster, d: Cluster, n: NodeId, node: Node, strict: bool)
    requires Grows(c, d) && NodeHolds(c, n, node, strict)
    requires forall e :: e in d.written && e !in c.written ==> e.stamp.node != n
    ensures NodeHolds(d, n, node, strict)
  {
    forall e | e in d.written && CoveredBy(node.position, e.stamp)
      ensures e in node.oplog || e.stamp in node.lost
    {
      assert e in c.written;
    }
    FineGrows(c, d, node.record, strict);
    PhaseGrows(c, d, node, strict);
  }

  /** The invariant is kept when the cluster grows, one node changes and holds, and
      what is newly published is fine. */
  lemma InvGrows(c: Cluster, d: Cluster, n: NodeId, strict: bool)
    requires Inv(c, strict) && Grows(c, d) && n in c.nodes
    requires forall m :: m in c.nodes && m != n ==> d.nodes[m] == c.nodes[m]
    requires forall e :: e in d.written && e !in c.written ==> e.stamp.node == n
    requires forall a, b :: a in d.written && b in d.written && a.stamp == b.stamp ==> a == b
    requires NodeHolds(d, n, d.nodes[n], strict)
    requires forall v :: v in d.published && v !in c.published ==> Fine(d, v, strict)
    requires d.superseded == c.superseded || LosersAreReplaced(d)
    ensures Inv(d, strict)
  {
    if d.superseded == c.superseded { LosersStayReplaced(c, d); }
    forall m | m in d.nodes
      ensures NodeHolds(d, m, d.nodes[m], strict)
    {
      if m != n { NodeGrows(c, d, m, c.nodes[m], strict); }
    }
    forall v | v in d.published
      ensures Fine(d, v, strict)
    {
      if v in c.published { FineGrows(c, d, v, strict); }
    }
  }

  // ---------------------------------------------------------------------------
  // Every step keeps the invariant
  // ---------------------------------------------------------------------------

  lemma InitHolds(c: Cluster, strict: bool)
    requires Init(c)
    ensures Inv(c, strict)
  {}

  /** A node that appends an entry holds if its position is still a coverage claim. */
  lemma AppendHolds(c: Cluster, n: NodeId, e: Entry, d: Cluster, strict: bool)
    requires n in c.nodes && NodeHolds(c, n, c.nodes[n], strict) && Grows(c, d) && d.nodes[n] == Append(c.nodes[n], e)
    requires e in d.written && forall b :: b in d.written && b !in c.written ==> b == e
    requires e.stamp !in c.nodes[n].lost
    requires PositionClaims(d, d.nodes[n]) && Known(d, d.nodes[n].position)
    ensures NodeHolds(d, n, d.nodes[n], strict)
  {
    FineGrows(c, d, c.nodes[n].record, strict);
    PhaseGrows(c, d, c.nodes[n], strict);
    assert AtMost(c.nodes[n].position, d.nodes[n].position);
    PhaseFollows(d, c.nodes[n], d.nodes[n], strict);
  }

  lemma PhaseFollows(c: Cluster, node: Node, later: Node, strict: bool)
    requires PhaseHolds(c, node, strict) && later.phase == node.phase && AtMost(node.position, later.position)
    ensures PhaseHolds(c, later, strict)
  {
  }

  lemma WriteGrows(c: Cluster, n: NodeId, e: Entry, d: Cluster, strict: bool)
    requires Inv(c, strict) && n in c.nodes && WriteStep(c, n, e, d)
    ensures Grows(c, d) && PositionClaims(d, d.nodes[n]) && Known(d, d.nodes[n].position)
  {
    var node := c.nodes[n];
    assert NodeHolds(c, n, node, strict);
    forall b | b in d.written && CoveredBy(d.nodes[n].position, b.stamp)
      ensures b in d.nodes[n].oplog || b.stamp in d.nodes[n].lost
    {
      if b != e && b.stamp.node != n { assert CoveredBy(node.position, b.stamp); }
    }
  }

  lemma WriteHolds(c: Cluster, n: NodeId, e: Entry, d: Cluster, strict: bool)
    requires Inv(c, strict) && n in c.nodes && WriteStep(c, n, e, d)
    ensures Inv(d, strict)
  {
    assert NodeHolds(c, n, c.nodes[n], strict);
    NewWriteIsUnique(c, n, e, strict);
    WriteGrows(c, n, e, d, strict);
    AppendHolds(c, n, e, d, strict);
    InvGrows(c, d, n, strict);
  }

  lemma NewWriteIsUnique(c: Cluster, n: NodeId, e: Entry, strict: bool)
    requires Inv(c, strict) && n in c.nodes && e.stamp.node == n && e.stamp.hlc > Get(c.nodes[n].position, n)
    ensures (forall b :: b in c.written ==> b.stamp != e.stamp) && e.stamp !in c.superseded
  {
    assert NodeHolds(c, n, c.nodes[n], strict);
  }

  lemma SupersedeHolds(c: Cluster, n: NodeId, e: Entry, d: Cluster, strict: bool)
    requires Inv(c, strict) && n in c.nodes && SupersedeStep(c, n, e, d)
    ensures Inv(d, strict)
  {
    SupersededNodeHolds(c, n, e, d, strict);
    SupersededIsReplaced(c, n, e, d, strict);
    InvGrows(c, d, n, strict);
  }

  lemma SupersededIsReplaced(c: Cluster, n: NodeId, e: Entry, d: Cluster, strict: bool)
    requires Inv(c, strict) && n in c.nodes && SupersedeStep(c, n, e, d)
    ensures LosersAreReplaced(d)
  {
    var w :| w in c.nodes[n].oplog && Replaces(w, e);
    assert NodeHolds(c, n, c.nodes[n], strict);
    LoserIsReplaced(c, e, w, d);
  }

  lemma SupersededNodeHolds(c: Cluster, n: NodeId, e: Entry, d: Cluster, strict: bool)
    requires Inv(c, strict) && n in c.nodes && SupersedeStep(c, n, e, d)
    ensures Grows(c, d) && NodeHolds(d, n, d.nodes[n], strict)
  {
    assert NodeHolds(c, n, c.nodes[n], strict);
    PhaseGrows(c, d, c.nodes[n], strict);
    PhaseFollows(d, c.nodes[n], d.nodes[n], strict);
    IdleNodeGrows(c, d, n, d.nodes[n], strict);
  }

  lemma LoserIsReplaced(c: Cluster, e: Entry, w: Entry, d: Cluster)
    requires LosersAreReplaced(c) && e in c.written && w in c.written && Replaces(w, e)
    requires d.written == c.written && d.superseded == c.superseded + {e.stamp}
    ensures LosersAreReplaced(d)
  {
    assert Replaced(d, e);
    forall s | s in d.superseded ensures exists b :: b in d.written && b.stamp == s && Replaced(d, b) {
      if s != e.stamp {
        var b :| b in c.written && b.stamp == s && Replaced(c, b);
        assert Replaced(d, b);
      }
    }
  }

  lemma ReplicateHolds(c: Cluster, n: NodeId, e: Entry, d: Cluster, strict: bool)
    requires Inv(c, strict) && n in c.nodes && ReplicateStep(c, n, e, d)
    ensures Inv(d, strict)
  {
    assert NodeHolds(c, n, c.nodes[n], strict);
    ReplicateClaims(c, n, e, d, strict);
    assert Get(c.nodes[n].position, n) == Get(d.nodes[n].position, n);
    AppendHolds(c, n, e, d, strict);
    InvGrows(c, d, n, strict);
  }

  /** Arriving in order, an entry extends the coverage claim over its origin. */
  lemma ReplicateClaims(c: Cluster, n: NodeId, e: Entry, d: Cluster, strict: bool)
    requires Inv(c, strict) && n in c.nodes && ReplicateStep(c, n, e, d)
    ensures PositionClaims(d, d.nodes[n])
    ensures Known(d, d.nodes[n].position)
  {
    var node := c.nodes[n];
    var o := e.stamp.node;
    assert NodeHolds(c, n, node, strict) && NodeHolds(c, o, c.nodes[o], strict);
    forall b | b in d.written && CoveredBy(d.nodes[n].position, b.stamp)
      ensures b in d.nodes[n].oplog || b.stamp in d.nodes[n].lost
    {
      if b.stamp.node != o {
        assert CoveredBy(node.position, b.stamp);
      } else if b.stamp.hlc == e.stamp.hlc {
        assert b.stamp == e.stamp;
      }
    }
  }

  lemma ReadRecordsHolds(c: Cluster, n: NodeId, seen: set<VersionVector>, union: VersionVector, d: Cluster,
                         strict: bool)
    requires Inv(c, strict) && n in c.nodes && seen <= c.published && IsUnion(union, seen + {c.nodes[n].record})
    requires d == Moved(c, n, ReadUnion(union))
    ensures Inv(d, strict)
  {
    var node := c.nodes[n];
    assert NodeHolds(c, n, node, strict);
    UnionIsFine(c, union, seen + {node.record}, strict);
    PhaseChangeHolds(c, n, ReadUnion(union), d, strict);
  }

  /** Joining records by pointwise maximum keeps what every record keeps. */
  lemma UnionIsFine(c: Cluster, union: VersionVector, seen: set<VersionVector>, strict: bool)
    requires forall e :: e in c.written ==> e.stamp.hlc > 0
    requires IsUnion(union, seen) && forall v :: v in seen ==> Fine(c, v, strict)
    ensures Fine(c, union, strict)
  {
    forall n | n in c.nodes
      ensures Get(union, n) <= Get(c.nodes[n].position, n)
    {
      if Get(union, n) > 0 { assert CoveredBy(union, Stamp(Get(union, n), n)); }
    }
    forall e | e in c.written && Wanted(c.sub, e) && CoveredBy(union, e.stamp)
      ensures Answered(c, e, strict)
    {
      var v :| v in seen && CoveredBy(v, e.stamp);
    }
  }

  lemma TakePositionHolds(c: Cluster, n: NodeId, d: Cluster, strict: bool)
    requires Inv(c, strict) && n in c.nodes && c.nodes[n].phase.ReadUnion?
    requires d == Moved(c, n, ReadPosition(c.nodes[n].phase.union, c.nodes[n].position))
    ensures Inv(d, strict)
  {
    var node := c.nodes[n];
    assert NodeHolds(c, n, node, strict);
    PhaseChangeHolds(c, n, ReadPosition(node.phase.union, node.position), d, strict);
  }

  /** A pass that drops nothing is safe once it has sent its batch. */
  lemma PassIsSafeOnceSent(c: Cluster, n: NodeId, log: seq<Entry>, pass: Pass, strict: bool)
    requires Inv(c, strict) && n in c.nodes && c.nodes[n].phase.ReadPosition? && Lists(log, c.nodes[n].oplog)
    requires pass.sub == c.sub && pass.Valid(log, WINDOW)
    requires pass.union == c.nodes[n].phase.union && pass.position == c.nodes[n].phase.position
    requires !ScanDrops(c, Scan(n, log, pass), strict)
    ensures SafeOnceSent(c, pass, strict)
  {
    var node := c.nodes[n];
    assert NodeHolds(c, n, node, strict);
    forall e | e in c.written && Wanted(c.sub, e) && CoveredBy(pass.Progress(), e.stamp)
      ensures Answered(c, e, strict) || (pass.taken > 0 && e.stamp in pass.Sent())
    {
      if e in log {
        PassCoversExactly(pass, log, WINDOW, e);
      } else if !CoveredBy(pass.union, e.stamp) {
        ProgressStaysInOplog(pass, log, node.position, e.stamp);
        RaiseCovers(pass.union, pass.Observed(), pass.position, pass.Reach(), e.stamp);
        assert Passed(pass, e.stamp) && e.stamp in node.lost;
        if strict { assert !DropsLost(c, n, pass, e); }
      }
    }
  }

  /** Past the union, a pass covers nothing that the node's position does not. */
  lemma ProgressStaysInOplog(pass: Pass, log: seq<Entry>, position: VersionVector, s: Stamp)
    requires pass.Valid(log, WINDOW) && s.hlc > 0
    requires AtMost(pass.position, position) && forall e :: e in log ==> CoveredBy(position, e.stamp)
    requires CoveredBy(pass.Progress(), s) && !CoveredBy(pass.union, s)
    ensures CoveredBy(position, s)
  {
    RaiseCovers(pass.union, pass.Observed(), pass.position, pass.Reach(), s);
    if o :| o in pass.Observed() && o.node == s.node && s.hlc <= o.hlc {
      ObservedIsHeld(pass, log, o);
    }
  }

  lemma ProgressIsKnown(c: Cluster, n: NodeId, log: seq<Entry>, pass: Pass, strict: bool)
    requires Inv(c, strict) && n in c.nodes && Lists(log, c.nodes[n].oplog) && pass.Valid(log, WINDOW)
    requires Known(c, pass.union) && AtMost(pass.position, c.nodes[n].position)
    ensures Known(c, pass.Progress())
  {
    assert NodeHolds(c, n, c.nodes[n], strict);
    forall m | m in c.nodes
      ensures Get(pass.Progress(), m) <= Get(c.nodes[m].position, m)
    {
      var s := Stamp(Get(pass.Progress(), m), m);
      if s.hlc > 0 && !CoveredBy(pass.union, s) {
        ProgressStaysInOplog(pass, log, c.nodes[n].position, s);
      }
    }
  }

  /** A node that only moves on to another phase still holds. */
  lemma PhaseChangeHolds(c: Cluster, n: NodeId, phase: Phase, d: Cluster, strict: bool)
    requires Inv(c, strict) && n in c.nodes && d == Moved(c, n, phase)
    requires PhaseHolds(c, c.nodes[n].(phase := phase), strict)
    ensures Inv(d, strict)
  {
    assert NodeHolds(c, n, c.nodes[n], strict);
    NodeGrows(c, d, n, c.nodes[n].(phase := phase), strict);
    InvGrows(c, d, n, strict);
  }

  lemma ScanHolds(c: Cluster, n: NodeId, log: seq<Entry>, pass: Pass, d: Cluster, strict: bool)
    requires Inv(c, strict) && n in c.nodes && ScanStep(c, n, log, pass, d) && !ScanDrops(c, Scan(n, log, pass), strict)
    ensures Inv(d, strict)
  {
    assert NodeHolds(c, n, c.nodes[n], strict);
    PassIsSafeOnceSent(c, n, log, pass, strict);
    ProgressIsKnown(c, n, log, pass, strict);
    PhaseChangeHolds(c, n, if pass.taken == 0 then Landed(pass) else Planned(pass), d, strict);
  }

  /** An accepted batch is answered from then on. */
  lemma DeliveredIsFine(c: Cluster, n: NodeId, accepted: bool, acknowledged: bool, d: Cluster, strict: bool)
    requires Inv(c, strict) && n in c.nodes && DeliverStep(c, n, accepted, acknowledged, d)
    ensures Grows(c, d) && PhaseHolds(d, d.nodes[n], strict)
  {
    assert NodeHolds(c, n, c.nodes[n], strict);
    SafeOnceSentGrows(c, d, c.nodes[n].phase.pass, strict);
  }

  lemma DeliverHolds(c: Cluster, n: NodeId, accepted: bool, acknowledged: bool, d: Cluster, strict: bool)
    requires Inv(c, strict) && n in c.nodes && DeliverStep(c, n, accepted, acknowledged, d)
    ensures Inv(d, strict)
  {
    assert NodeHolds(c, n, c.nodes[n], strict);
    DeliveredIsFine(c, n, accepted, acknowledged, d, strict);
    IdleNodeGrows(c, d, n, d.nodes[n], strict);
    InvGrows(c, d, n, strict);
  }

  /** A node that keeps its oplog and position holds if its record and phase do. */
  lemma IdleNodeGrows(c: Cluster, d: Cluster, n: NodeId, node: Node, strict: bool)
    requires n in c.nodes && Grows(c, d) && NodeHolds(c, n, c.nodes[n], strict) && d.written == c.written
    requires node.oplog == c.nodes[n].oplog && node.position == c.nodes[n].position
    requires c.nodes[n].lost <= node.lost <= d.superseded && forall e :: e in node.oplog ==> e.stamp !in node.lost
    requires PhaseHolds(d, node, strict) && (node.record == c.nodes[n].record || Fine(d, node.record, strict))
    ensures NodeHolds(d, n, node, strict)
  {
    FineGrows(c, d, c.nodes[n].record, strict);
  }

  lemma CommitHolds(c: Cluster, n: NodeId, progress: VersionVector, d: Cluster, strict: bool)
    requires Inv(c, strict) && n in c.nodes && Fine(c, progress, strict)
    requires d == c.(published := c.published + {progress},
                     nodes := c.nodes[n := c.nodes[n].(phase := Idle, record := progress)])
    ensures Inv(d, strict)
  {
    assert NodeHolds(c, n, c.nodes[n], strict);
    FineGrows(c, d, progress, strict);
    IdleNodeGrows(c, d, n, d.nodes[n], strict);
    InvGrows(c, d, n, strict);
  }

  lemma RecordHolds(c: Cluster, n: NodeId, committed: bool, d: Cluster, strict: bool)
    requires Inv(c, strict) && n in c.nodes && RecordStep(c, n, committed, d)
    ensures Inv(d, strict)
  {
    assert NodeHolds(c, n, c.nodes[n], strict);
    var progress := c.nodes[n].phase.pass.Progress();
    if committed {
      CommitHolds(c, n, progress, d, strict);
    } else {
      PhaseChangeHolds(c, n, Idle, d, strict);
    }
  }

  lemma StepHolds(c: Cluster, step: Step, d: Cluster, strict: bool)
    requires Inv(c, strict) && Next(c, step, d) && !ScanDrops(c, step, strict)
    ensures Inv(d, strict)
  {
    match step
    case Write(n, e) => WriteHolds(c, n, e, d, strict);
    case Supersede(n, e) => SupersedeHolds(c, n, e, d, strict);
    case Replicate(n, e) => ReplicateHolds(c, n, e, d, strict);
    case ReadRecords(n, seen, union) => ReadRecordsHolds(c, n, seen, union, d, strict);
    case TakePosition(n) => TakePositionHolds(c, n, d, strict);
    case Scan(n, log, pass) => ScanHolds(c, n, log, pass, d, strict);
    case Deliver(n, accepted, acknowledged) => DeliverHolds(c, n, accepted, acknowledged, d, strict);
    case Record(n, committed) => RecordHolds(c, n, committed, d, strict);
    case Crash(n) => PhaseChangeHolds(c, n, Idle, d, strict);
  }

  // ---------------------------------------------------------------------------
  // Runs
  // ---------------------------------------------------------------------------

  /** `states[0]` is an initial cluster and `steps[i]` leads from `states[i]` on. */
  ghost predicate IsRun(states: seq<Cluster>, steps: seq<Step>) {
    && |states| == |steps| + 1 && Init(states[0])
    && forall i :: 0 <= i < |steps| ==> Next(states[i], steps[i], states[i + 1])
  }

  lemma {:induction false} RunKeepsInv(states: seq<Cluster>, steps: seq<Step>, k: nat, strict: bool)
    requires IsRun(states, steps) && k <= |steps|
    requires forall i :: 0 <= i < k ==> !ScanDrops(states[i], steps[i], strict)
    ensures Inv(states[k], strict)
  {
    if k == 0 {
      InitHolds(states[0], strict);
    } else {
      RunKeepsInv(states, steps, k - 1, strict);
      StepHolds(states[k - 1], steps[k - 1], states[k], strict);
    }
  }

  /** In every run in which no scan drops an entry, no record committed at any time covers a
      wanted write that is not answered: strictly, that the endpoint has not accepted;
      otherwise, that it has not accepted and that was not lost at some node to a newer
      write of its document. */
  lemma RunIsSafe(states: seq<Cluster>, steps: seq<Step>, strict: bool)
    requires IsRun(states, steps)
    requires forall i :: 0 <= i < |steps| ==> !ScanDrops(states[i], steps[i], strict)
    ensures forall i :: 0 <= i < |states| ==> Safe(states[i], strict) && LosersAreReplaced(states[i])
  {
    forall i | 0 <= i < |states| ensures Safe(states[i], strict) && LosersAreReplaced(states[i]) {
      RunKeepsInv(states, steps, i, strict);
    }
  }

  /** No wanted write has been lost anywhere. */
  ghost predicate NoWantedLost(c: Cluster) {
    forall e :: e in c.written && Wanted(c.sub, e) ==> e.stamp !in c.superseded
  }

  /** The step loses a wanted write. */
  predicate LosesWanted(sub: Subscription, step: Step) { step.Supersede? && Wanted(sub, step.e) }

  lemma StepKeepsWanted(c: Cluster, step: Step, d: Cluster)
    requires Inv(c, false) && Next(c, step, d) && NoWantedLost(c) && !LosesWanted(c.sub, step)
    ensures NoWantedLost(d) && d.sub == c.sub
  {
    if step.Write? { NewWriteIsUnique(c, step.n, step.e, false); }
    if step.Supersede? {
      forall e | e in d.written && Wanted(d.sub, e) ensures e.stamp !in d.superseded {
        assert e != step.e && e.stamp != step.e.stamp;
      }
    }
  }

  lemma InitLosesNothing(c: Cluster)
    requires Init(c)
    ensures NoWantedLost(c)
  {
  }

  /** With no wanted loss, losing excuses nothing. */
  lemma StrictIsNoStricter(c: Cluster, step: Step)
    requires Inv(c, false) && NoWantedLost(c) && ScanDrops(c, step, true)
    requires step.Scan? && Lists(step.log, c.nodes[step.n].oplog)
    ensures ScanDrops(c, step, false)
  {
    assert NodeHolds(c, step.n, c.nodes[step.n], false);
    if e :| e in step.log && Wanted(c.sub, e) && step.pass.StepsOver(e) && !Answered(c, e, true) {
      assert e in c.written;
      assert !Answered(c, e, false);
    }
  }

  lemma {:induction false} RunKeepsWanted(states: seq<Cluster>, steps: seq<Step>, k: nat)
    requires IsRun(states, steps) && k <= |steps|
    requires forall i :: 0 <= i < k ==> !ScanDrops(states[i], steps[i], false)
    requires forall i :: 0 <= i < k ==> !LosesWanted(states[0].sub, steps[i])
    ensures NoWantedLost(states[k]) && states[k].sub == states[0].sub
  {
    if k == 0 {
      InitLosesNothing(states[0]);
    } else {
      RunKeepsWanted(states, steps, k - 1);
      RunKeepsInv(states, steps, k - 1, false);
      var before, step, after := states[k - 1], steps[k - 1], states[k];
      assert Next(before, step, after) && !LosesWanted(before.sub, step);
      StepKeepsWanted(before, step, after);
    }
  }

  /** So a run in which no wanted write is lost, and no scan steps over one, is strictly
      safe: whatever progress covers, the endpoint has accepted. */
  lemma RunWithoutLossesIsStrictlySafe(states: seq<Cluster>, steps: seq<Step>)
    requires IsRun(states, steps)
    requires forall i :: 0 <= i < |steps| ==> !ScanDrops(states[i], steps[i], false)
    requires forall i :: 0 <= i < |steps| ==> !LosesWanted(states[0].sub, steps[i])
    ensures forall i :: 0 <= i < |states| ==> Safe(states[i], true)
  {
    forall i | 0 <= i < |steps| ensures !ScanDrops(states[i], steps[i], true) {
      RunKeepsWanted(states, steps, i);
      RunKeepsInv(states, steps, i, false);
      assert Next(states[i], steps[i], states[i + 1]);
      if ScanDrops(states[i], steps[i], true) { StrictIsNoStricter(states[i], steps[i]); }
    }
    RunIsSafe(states, steps, true);
  }

  // ---------------------------------------------------------------------------
  // The condition is exact, and it can fail
  // ---------------------------------------------------------------------------

  lemma SentIsInWindow(pass: Pass, log: seq<Entry>, s: Stamp)
    requires pass.Valid(log, WINDOW)
    ensures s in pass.Sent() ==> pass.from <= s.hlc
  {
    if s in pass.Sent() {
      WindowIsOplog(pass.window, log, pass.from, WINDOW);
      UndeliveredIsOplog(pass, log, WINDOW);
      var i :| 0 <= i < pass.taken && pass.Sent()[i] == s;
      assert pass.Undelivered()[i] in pass.Undelivered();
    }
  }

  /** A write lost at the node is not among what its pass sends. */
  lemma LostIsNotSent(c: Cluster, n: NodeId, log: seq<Entry>, pass: Pass, s: Stamp, strict: bool)
    requires Inv(c, strict) && n in c.nodes && Lists(log, c.nodes[n].oplog) && pass.Valid(log, WINDOW)
    requires s in c.nodes[n].lost && pass.taken > 0
    ensures s !in pass.Sent()
  {
    assert NodeHolds(c, n, c.nodes[n], strict);
    if s in pass.Sent() {
      ObservedIsHeld(pass, log, s);
    }
  }

  lemma DroppedIsUnsafe(c: Cluster, n: NodeId, log: seq<Entry>, pass: Pass, d: Cluster, strict: bool)
    requires Inv(c, strict) && n in c.nodes && ScanStep(c, n, log, pass, d) && ScanDrops(c, Scan(n, log, pass), strict)
    ensures !SafeOnceSent(c, pass, strict)
  {
    assert NodeHolds(c, n, c.nodes[n], strict);
    if e :| e in log && Wanted(c.sub, e) && pass.StepsOver(e) && !Answered(c, e, strict) {
      PassCoversExactly(pass, log, WINDOW, e);
      SentIsInWindow(pass, log, e.stamp);
    } else {
      var e :| DropsLost(c, n, pass, e);
      RaiseCovers(pass.union, pass.Observed(), pass.position, pass.Reach(), e.stamp);
      if pass.taken > 0 { LostIsNotSent(c, n, log, pass, e.stamp, strict); }
    }
  }

  /** What the scan decides: the record the pass will commit after its batch is
      accepted is safe exactly when the scan drops nothing. */
  lemma ScanIsSafeExactly(c: Cluster, n: NodeId, log: seq<Entry>, pass: Pass, d: Cluster, strict: bool)
    requires Inv(c, strict) && n in c.nodes && ScanStep(c, n, log, pass, d)
    ensures SafeOnceSent(c, pass, strict) <==> !ScanDrops(c, Scan(n, log, pass), strict)
  {
    if ScanDrops(c, Scan(n, log, pass), strict) {
      DroppedIsUnsafe(c, n, log, pass, d, strict);
    } else {
      PassIsSafeOnceSent(c, n, log, pass, strict);
    }
  }

  ghost predicate NoneUnderStart(pass: Pass, log: seq<Entry>) {
    || (forall b :: b in log && b.stamp.hlc < pass.from ==> CoveredBy(pass.union, b.stamp))
    || (forall b :: b in log ==> CoveredBy(pass.position, b.stamp))
  }

  /** Nothing is stepped over when nothing uncovered lies under the scan's start, and
      in particular when nothing landed between the position and the scan. */
  lemma NothingUnderTheStart(pass: Pass, log: seq<Entry>, e: Entry)
    requires pass.Valid(log, WINDOW) && e in log && NoneUnderStart(pass, log)
    ensures !pass.StepsOver(e)
  {}

  /** So a cluster is safe throughout every run in which no scan finds an uncovered
      entry under its start. */
  lemma RunWithoutLateArrivalsIsSafe(states: seq<Cluster>, steps: seq<Step>)
    requires IsRun(states, steps)
    requires forall i :: 0 <= i < |steps| && steps[i].Scan? ==> NoneUnderStart(steps[i].pass, steps[i].log)
    ensures forall i :: 0 <= i < |states| ==> Safe(states[i], false)
  {
    forall i | 0 <= i < |steps|
      ensures !ScanDrops(states[i], steps[i], false)
    {
      assert Next(states[i], steps[i], states[i + 1]);
    }
    RunIsSafe(states, steps, false);
  }

  /** An entry that lands after the scan is above everything of its origin this node
      held, so the pass leaves it uncovered. */
  lemma LaterEntryStaysUncovered(pass: Pass, log: seq<Entry>, held: VersionVector, s: Stamp)
    requires pass.Valid(log, WINDOW) && s.hlc > 0
    requires AtMost(pass.position, held) && forall e :: e in log ==> CoveredBy(held, e.stamp)
    requires !CoveredBy(held, s) && !CoveredBy(pass.union, s)
    ensures !CoveredBy(pass.Progress(), s)
  {
    if CoveredBy(pass.Progress(), s) { ProgressStaysInOplog(pass, log, held, s); }
  }

  /** And a pass whose position does include it looks for it from below, and covers
      it exactly by sending it. */
  lemma HeldEntryIsCoveredBySending(pass: Pass, log: seq<Entry>, e: Entry)
    requires pass.Valid(log, WINDOW) && e in log && Wanted(pass.sub, e)
    requires CoveredBy(pass.position, e.stamp) && !CoveredBy(pass.union, e.stamp)
    ensures e in Servable(log, pass.from)
    ensures CoveredBy(pass.Progress(), e.stamp) <==> e.stamp in pass.Sent()
  {
    assert Trails(pass.union, pass.position, e.stamp.node);
    WantedIsServable(pass.sub, e, pass.from);
    PassCoversExactly(pass, log, WINDOW, e);
  }

  ghost predicate Reachable(c: Cluster) {
    exists states, steps :: IsRun(states, steps) && states[|steps|] == c
  }

  lemma Extend(c: Cluster, step: Step, d: Cluster)
    requires Reachable(c) && Next(c, step, d)
    ensures Reachable(d)
  {
    var states, steps :| IsRun(states, steps) && states[|steps|] == c;
    RunExtends(states, steps, step, d);
  }

  lemma RunExtends(states: seq<Cluster>, steps: seq<Step>, step: Step, d: Cluster)
    requires IsRun(states, steps) && Next(states[|steps|], step, d)
    ensures IsRun(states + [d], steps + [step])
  {
    var longer, more := states + [d], steps + [step];
    forall i | 0 <= i < |more| ensures Next(longer[i], more[i], longer[i + 1]) {
      if i < |steps| { assert Next(states[i], steps[i], states[i + 1]); }
    }
  }

  function Scanned(c: Cluster, n: NodeId, pass: Pass): Cluster
    requires n in c.nodes
  {
    Moved(c, n, if pass.taken == 0 then Landed(pass) else Planned(pass))
  }

  /** The batch is accepted and acknowledged. */
  function Delivered(c: Cluster, n: NodeId, pass: Pass): Cluster
    requires n in c.nodes && pass.taken <= |pass.Undelivered()|
  {
    Moved(c.(accepted := c.accepted + (set s | s in pass.Sent())), n, Landed(pass))
  }

  function Recorded(c: Cluster, n: NodeId, pass: Pass): Cluster
    requires n in c.nodes && pass.taken <= |pass.Undelivered()|
  {
    c.(published := c.published + {pass.Progress()},
       nodes := c.nodes[n := c.nodes[n].(phase := Idle, record := pass.Progress())])
  }

  lemma DeliverExtends(c: Cluster, n: NodeId, pass: Pass)
    requires Reachable(c) && n in c.nodes && c.nodes[n].phase == Planned(pass) && pass.taken <= |pass.Undelivered()|
    ensures Reachable(Delivered(c, n, pass))
  {
    assert DeliverStep(c, n, true, true, Delivered(c, n, pass));
    Extend(c, Deliver(n, true, true), Delivered(c, n, pass));
  }

  lemma RecordExtends(c: Cluster, n: NodeId, pass: Pass)
    requires Reachable(c) && n in c.nodes && c.nodes[n].phase == Landed(pass) && pass.taken <= |pass.Undelivered()|
    ensures Reachable(Recorded(c, n, pass))
  {
    assert RecordStep(c, n, true, Recorded(c, n, pass));
    Extend(c, Record(n, true), Recorded(c, n, pass));
  }

  /** The cluster once a pass has scanned, delivered and recorded without a fault. */
  function Completed(c: Cluster, n: NodeId, pass: Pass): Cluster
    requires n in c.nodes && pass.taken <= |pass.Undelivered()|
  {
    c.(accepted := c.accepted + (set s | s in pass.Sent()), published := c.published + {pass.Progress()},
       nodes := c.nodes[n := c.nodes[n].(phase := Idle, record := pass.Progress())])
  }

  lemma CompletedInSteps(c: Cluster, n: NodeId, pass: Pass)
    requires n in c.nodes && pass.taken <= |pass.Undelivered()|
    ensures pass.taken > 0 ==> Recorded(Delivered(Scanned(c, n, pass), n, pass), n, pass) == Completed(c, n, pass)
    ensures pass.taken == 0 ==> Recorded(Scanned(c, n, pass), n, pass) == Completed(c, n, pass)
  {
    if pass.taken == 0 { assert pass.Sent() == []; }
  }

  lemma CompletePass(c: Cluster, n: NodeId, log: seq<Entry>, pass: Pass)
    requires Reachable(c) && n in c.nodes && ScanStep(c, n, log, pass, Scanned(c, n, pass))
    ensures pass.taken <= |pass.Undelivered()| && Reachable(Completed(c, n, pass))
  {
    var scanned := Scanned(c, n, pass);
    Extend(c, Scan(n, log, pass), scanned);
    CompletedInSteps(c, n, pass);
    if pass.taken == 0 {
      RecordExtends(scanned, n, pass);
    } else {
      DeliverExtends(scanned, n, pass);
      RecordExtends(Delivered(scanned, n, pass), n, pass);
    }
  }

  /** And the condition is needed: a scan that drops an entry, delivered and recorded without
      a fault, publishes progress that is not safe. */
  lemma DroppedIsPublished(c: Cluster, n: NodeId, log: seq<Entry>, pass: Pass, strict: bool)
    requires Reachable(c) && Inv(c, strict) && n in c.nodes && ScanStep(c, n, log, pass, Scanned(c, n, pass))
    requires ScanDrops(c, Scan(n, log, pass), strict)
    ensures Reachable(Completed(c, n, pass)) && !Safe(Completed(c, n, pass), strict)
  {
    DroppedIsUnsafe(c, n, log, pass, Scanned(c, n, pass), strict);
    CompletePass(c, n, log, pass);
    UnsafeOnceCompleted(c, n, pass, strict);
  }

  lemma UnsafeOnceCompleted(c: Cluster, n: NodeId, pass: Pass, strict: bool)
    requires n in c.nodes && pass.taken <= |pass.Undelivered()| && !SafeOnceSent(c, pass, strict)
    ensures !Safe(Completed(c, n, pass), strict)
  {
    var e :| && e in c.written && Wanted(c.sub, e) && CoveredBy(pass.Progress(), e.stamp)
             && !Answered(c, e, strict) && !(pass.taken > 0 && e.stamp in pass.Sent());
    var after := Completed(c, n, pass);
    assert pass.taken == 0 ==> pass.Sent() == [];
    assert pass.Progress() in after.published && !Answered(after, e, strict);
  }
}
