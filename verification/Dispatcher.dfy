/**
 The dispatcher's loops: reading the union of the progress records, fitting a
 batch under the payload cap, and planning one subscription.
 */
module Dispatcher {
  import opened Outcomes
  import HybridClock
  import opened Stamps
  import opened DispatchPass
  import opened JsonText

  // ---------------------------------------------------------------------------
  // The union of the progress records
  // ---------------------------------------------------------------------------

  /** One field of a stored progress record: a position, or something that does not
      parse as one and is passed over. */
  datatype Coverage = Position(node: NodeId, hlc: Hlc) | Unreadable

  /** Joining records: nothing is covered that no record covers. */
  method UnionProgress(records: seq<seq<Coverage>>) returns (union: VersionVector)
    ensures forall s: Stamp :: s.hlc > 0 ==>
              (CoveredBy(union, s) <==>
               exists r, f :: r in records && f in r && f.Position? && f.node == s.node && s.hlc <= f.hlc)
  {
    union := map[];
    for i := 0 to |records|
      invariant forall s: Stamp :: s.hlc > 0 ==>
                  (CoveredBy(union, s) <==>
                   exists r, f :: r in records[..i] && f in r && f.Position? && f.node == s.node && s.hlc <= f.hlc)
    {
      union := MergeRecord(union, records[i]);
      assert records[..i + 1] == records[..i] + [records[i]];
    }
    assert records[..|records|] == records;
  }

  method MergeRecord(before: VersionVector, record: seq<Coverage>) returns (union: VersionVector)
    ensures forall s: Stamp :: s.hlc > 0 ==>
              (CoveredBy(union, s) <==>
               CoveredBy(before, s) || exists f :: f in record && f.Position? && f.node == s.node && s.hlc <= f.hlc)
  {
    union := before;
    for i := 0 to |record|
      invariant forall s: Stamp :: s.hlc > 0 ==>
                  (CoveredBy(union, s) <==>
                   || CoveredBy(before, s)
                   || exists f :: f in record[..i] && f.Position? && f.node == s.node && s.hlc <= f.hlc)
    {
      if record[i].Position? {
        union := Merge(union, map[record[i].node := record[i].hlc]);
      }
      assert record[..i + 1] == record[..i] + [record[i]];
    }
    assert record[..|record|] == record;
  }

  // ---------------------------------------------------------------------------
  // Fitting a batch under the payload cap
  // ---------------------------------------------------------------------------

  /** The body as it goes on the wire; `subscription` is the id as JSON text. */
  function Envelope(subscription: string, events: seq<string>): string {
    "{\"subscription\":" + subscription + ",\"events\":[" + Join(events) + "]}"
  }

  /** It is the text of an object of the two. */
  lemma EnvelopeText(style: Style, subscription: string, events: seq<Json>)
    requires style.quote("subscription") == "\"subscription\"" && style.quote("events") == "\"events\""
    ensures Envelope(style.quote(subscription), ItemTexts(style, events)) ==
            Text(style, Obj([Field("subscription", Str(subscription)), Field("events", Arr(events))]))
  {
    TwoFields(style, Field("subscription", Str(subscription)), Field("events", Arr(events)));
    Bracket(style.quote("subscription"), style.quote(subscription), style.quote("events"),
            Join(ItemTexts(style, events)));
    assert "{" + style.quote("subscription") + ":" == "{\"subscription\":";
    assert "," + style.quote("events") + ":[" == ",\"events\":[";
  }

  lemma Bracket(name: string, id: string, list: string, inner: string)
    ensures "{" + (name + ":" + id) + "," + (list + ":" + ("[" + inner + "]")) + "}" ==
            ("{" + name + ":") + id + ("," + list + ":[") + inner + "]}"
  {
  }

  /** How one entry is written, with its document and without. */
  datatype Rendering = Rendering(full: Entry -> string, stripped: Entry -> string)

  function Rendered(render: Rendering, entries: seq<Entry>): seq<string> {
    seq(|entries|, i requires 0 <= i < |entries| => render.full(entries[i]))
  }

  /** The first `k` entries fit under the cap as they are. */
  predicate Fits(subscription: string, render: Rendering, entries: seq<Entry>, k: nat, cap: nat)
    requires k <= |entries|
  {
    |Envelope(subscription, Rendered(render, entries[..k]))| <= cap
  }

  lemma EnvelopeGrows(subscription: string, render: Rendering, entries: seq<Entry>, k: nat)
    requires k < |entries|
    ensures |Envelope(subscription, Rendered(render, entries[..k + 1]))| ==
            |Envelope(subscription, Rendered(render, entries[..k]))|
            + |render.full(entries[k])| + (if k == 0 then 0 else 1)
  {
    var all := Rendered(render, entries[..k + 1]);
    assert all[..k] == Rendered(render, entries[..k]);
  }

  lemma {:induction false} ShorterFits(subscription: string, render: Rendering, entries: seq<Entry>, j: nat, k: nat,
                                       cap: nat)
    requires j <= k <= |entries| && Fits(subscription, render, entries, k, cap)
    ensures Fits(subscription, render, entries, j, cap)
    decreases k
  {
    if j < k {
      EnvelopeGrows(subscription, render, entries, k - 1);
      ShorterFits(subscription, render, entries, j, k - 1, cap);
    }
  }

  function BatchCap(entries: seq<Entry>): nat { if |entries| < BATCH then |entries| else BATCH }

  /** Takes the longest prefix, up to the batch size, that fits under the cap; when
      not even the first entry does, sends that one alone without its document. */
  method Assemble(subscription: string, render: Rendering, entries: seq<Entry>, cap: nat)
    returns (body: string, stamps: seq<Stamp>)
    ensures |stamps| <= BatchCap(entries) && (entries != [] ==> stamps != [])
    ensures stamps == StampsOf(entries[..|stamps|])
    ensures entries != [] && !Fits(subscription, render, entries, 1, cap) ==>
              |stamps| == 1 && body == Envelope(subscription, [render.stripped(entries[0])])
    ensures entries != [] && Fits(subscription, render, entries, 1, cap) ==>
              && body == Envelope(subscription, Rendered(render, entries[..|stamps|])) && |body| <= cap
              && forall j :: 0 < j <= BatchCap(entries) ==>
                   (Fits(subscription, render, entries, j, cap) <==> j <= |stamps|)
  {
    var events: seq<string> := [];
    var used := |Envelope(subscription, [])|;
    stamps := [];
    var k := 0;
    while k < BatchCap(entries)
      invariant k <= BatchCap(entries)
      invariant events == Rendered(render, entries[..k]) && stamps == StampsOf(entries[..k])
      invariant used == |Envelope(subscription, events)| && (k > 0 ==> used <= cap)
    {
      var candidate := render.full(entries[k]);
      var cost := |candidate| + if events == [] then 0 else 1;
      EnvelopeGrows(subscription, render, entries, k);
      assert entries[..k + 1] == entries[..k] + [entries[k]];
      if used + cost > cap {
        if events == [] {
          stamps := [entries[k].stamp];
          assert stamps == StampsOf(entries[..1]);
          return Envelope(subscription, [render.stripped(entries[k])]), stamps;
        }
        break;
      }
      used := used + cost;
      events := events + [candidate];
      stamps := stamps + [entries[k].stamp];
      k := k + 1;
    }
    body := Envelope(subscription, events);
    forall j | 0 < j <= BatchCap(entries)
      ensures Fits(subscription, render, entries, j, cap) <==> j <= k
    {
      if j <= k {
        ShorterFits(subscription, render, entries, j, k, cap);
      } else if Fits(subscription, render, entries, j, cap) {
        ShorterFits(subscription, render, entries, k + 1, j, cap);
      }
    }
  }

  // ---------------------------------------------------------------------------
  // Raising progress
  // ---------------------------------------------------------------------------

  /** Observes what the pass delivered, or the whole window if it had nothing to deliver,
      and carries every origin forward as far as the pass got. */
  method RaiseProgress(pass: Pass) returns (progress: VersionVector)
    requires pass.taken <= |pass.Undelivered()|
    ensures progress == pass.Progress()
  {
    var observed := pass.Observed();
    progress := pass.union;
    for i := 0 to |observed|
      invariant progress == ObserveAll(pass.union, observed[..i])
    {
      progress := Observe(progress, observed[i]);
      assert observed[..i + 1][..i] == observed[..i];
    }
    assert observed[..|observed|] == observed;
    progress := Merge(progress, CoverageUpTo(pass.position, pass.Reach()));
  }

  // ---------------------------------------------------------------------------
  // Planning one subscription
  // ---------------------------------------------------------------------------

  /** Clock and retention facts a plan depends on. */
  datatype Moment = Moment(nowMs: nat, heartbeatMs: nat, wroteWithin: bool, ready: bool, collectedThrough: Hlc)

  datatype Planned =
    | UpToDate
    | BackingOff
    | Invalidated
    | NotDue(pass: Pass)
    | Record(pass: Pass)
    | Deliver(body: string, pass: Pass)

  function WallMs(h: Hlc): nat { h / 0x1_0000 }

  /** The milliseconds of a clock value, from its rank. */
  lemma WallMsOfRank(t: HybridClock.Timestamp)
    requires t.Valid()
    ensures WallMs(t.Rank()) == t.wallMs
  {
  }

  /** Old enough to be written forward: past the heartbeat, and not by a write that would
      only chase the entry the last one made. */
  predicate Stale(moment: Moment, pass: Pass) {
    && WallMs(pass.from) + moment.heartbeatMs <= Max(moment.nowMs, WallMs(pass.from))
    && !(pass.window.exhausted && moment.wroteWithin)
  }

  /** Some origin must be resumed from before what the oplog still holds. */
  ghost predicate FellBehind(union: VersionVector, position: VersionVector, horizon: Hlc) {
    exists n :: Trails(union, position, n) && Get(union, n) < horizon
  }

  /** The batch is the longest that fits under the cap, or one entry without its document. */
  ghost predicate LongestFitting(id: string, render: Rendering, cap: nat, pass: Pass, body: string)
    requires 0 < pass.taken <= |pass.Undelivered()|
  {
    var wanted := pass.Undelivered();
    if !Fits(id, render, wanted, 1, cap) then pass.taken == 1 && body == Envelope(id, [render.stripped(wanted[0])])
    else
      && body == Envelope(id, Rendered(render, wanted[..pass.taken])) && |body| <= cap
      && forall j :: 0 < j <= BatchCap(wanted) ==> (Fits(id, render, wanted, j, cap) <==> j <= pass.taken)
  }

  /** Everything the subscriber asks for that the window holds and the union does not cover
      is sent, or comes after the last that is. */
  ghost predicate SendsInTurn(sub: Subscription, pass: Pass, sent: seq<Entry>) {
    && (forall e :: e in sent ==>
          e in pass.window.entries && Subscribed(sub, e) && Get(pass.union, e.stamp.node) < e.stamp.hlc)
    && forall e :: e in pass.window.entries && Subscribed(sub, e) && Get(pass.union, e.stamp.node) < e.stamp.hlc ==>
         e in sent || (sent != [] && Before(sent[|sent| - 1].stamp, e.stamp))
  }

  lemma UndeliveredIsSubscribed(pass: Pass, e: Entry)
    ensures e in pass.Undelivered() <==>
            e in pass.window.entries && Subscribed(pass.sub, e) && Get(pass.union, e.stamp.node) < e.stamp.hlc
  {
    WantedIsSubscribed(pass.sub, e);
  }

  /** A prefix of an oplog holds what is not after its last entry. */
  lemma PrefixInTurn(log: seq<Entry>, k: nat, e: Entry)
    requires IsOplog(log) && k <= |log| && (k == 0 ==> log == [])
    ensures e in log[..k] ==> e in log
    ensures e in log ==> e in log[..k] || (k > 0 && Before(log[k - 1].stamp, e.stamp))
  {
    if e in log && !Before(log[k - 1].stamp, e.stamp) { PrefixHoldsAllBefore(log, k, e); }
  }

  /** What a pass takes is what its subscriber asks for, in turn. */
  lemma TakenIsSubscribed(pass: Pass, log: seq<Entry>)
    requires pass.Valid(log, WINDOW)
    ensures SendsInTurn(pass.sub, pass, pass.Undelivered()[..pass.taken]) && IsOplog(pass.Undelivered()[..pass.taken])
  {
    UndeliveredIsOplog(pass, log, WINDOW);
    forall e: Entry
      ensures e in pass.Undelivered() <==>
              e in pass.window.entries && Subscribed(pass.sub, e) && Get(pass.union, e.stamp.node) < e.stamp.hlc
      ensures e in pass.Undelivered()[..pass.taken] ==> e in pass.Undelivered()
      ensures e in pass.Undelivered() ==>
                || e in pass.Undelivered()[..pass.taken]
                || (pass.taken > 0 && Before(pass.Undelivered()[pass.taken - 1].stamp, e.stamp))
    {
      UndeliveredIsSubscribed(pass, e);
      PrefixInTurn(pass.Undelivered(), pass.taken, e);
    }
  }

  /** Plans one subscription.  Every plan that moves progress is a pass over a real
      window of the oplog, so everything proved of `Pass` holds of it. */
  method PlanSubscription(sub: Subscription, id: string, render: Rendering, cap: nat, moment: Moment,
                          union: VersionVector, position: VersionVector, log: seq<Entry>) returns (r: Planned)
    requires IsOplog(log)
    ensures r.UpToDate? <==> AtMost(position, union)
    ensures r.BackingOff? <==> !AtMost(position, union) && !moment.ready
    ensures r.Invalidated? <==>
              !AtMost(position, union) && moment.ready && FellBehind(union, position, moment.collectedThrough)
    ensures r.NotDue? || r.Record? || r.Deliver? ==>
              r.pass.Valid(log, WINDOW) && r.pass.sub == sub && r.pass.union == union && r.pass.position == position
    ensures r.NotDue? || r.Record? ==> r.pass.taken == 0 && (r.Record? <==> Stale(moment, r.pass))
    ensures r.Deliver? ==>
              0 < r.pass.taken <= BatchCap(r.pass.Undelivered()) && LongestFitting(id, render, cap, r.pass, r.body)
    ensures r.Deliver? ==>
              var sent := r.pass.Undelivered()[..r.pass.taken];
              SendsInTurn(sub, r.pass, sent) && IsOplog(sent) && forall e :: e in sent ==> e in log
    ensures r.NotDue? || r.Record? ==>
              forall e :: e in r.pass.window.entries && Subscribed(sub, e) ==> e.stamp.hlc <= Get(union, e.stamp.node)
  {
    var behind := Behind(union, position);
    if behind.None? { return UpToDate; }
    var from := behind.value;
    if !moment.ready { return BackingOff; }
    if moment.collectedThrough > 0 && from < moment.collectedThrough { return Invalidated; }
    var w := ScanOplog(log, from, WINDOW);
    var pass := Pass(sub, union, position, from, w, 0);
    var undelivered := pass.Undelivered();
    var batch := undelivered[..BatchCap(undelivered)];
    if batch == [] {
      var age := if WallMs(from) < moment.nowMs then moment.nowMs - WallMs(from) else 0;
      var stale := age >= moment.heartbeatMs && !(w.exhausted && moment.wroteWithin);
      TakenIsSubscribed(pass, log);
      return if stale then Record(pass) else NotDue(pass);
    }
    var body, stamps := Assemble(id, render, batch, cap);
    BatchFits(id, render, undelivered, cap);
    TakenIsSubscribed(pass.(taken := |stamps|), log);
    WindowMeaning(w, log, from, WINDOW);
    return Deliver(body, pass.(taken := |stamps|));
  }

  /** What fits of the batch is what fits of everything undelivered. */
  lemma BatchFits(id: string, render: Rendering, undelivered: seq<Entry>, cap: nat)
    ensures var batch := undelivered[..BatchCap(undelivered)];
            && BatchCap(batch) == BatchCap(undelivered)
            && forall j :: 0 <= j <= |batch| ==>
                 && batch[..j] == undelivered[..j]
                 && (Fits(id, render, batch, j, cap) <==> Fits(id, render, undelivered, j, cap))
  {
    var batch := undelivered[..BatchCap(undelivered)];
    forall j | 0 <= j <= |batch| ensures batch[..j] == undelivered[..j] {}
  }
}
