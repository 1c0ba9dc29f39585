/** When samples time out, make room and come too late, said of the run alone: by the clock reading at which a sample
    was opened, by how many are buffered, and by what has been finished before. */
module AssemblyTimeouts {
  import opened Basics
  import opened Telemetry
  import opened TelemetryEvents
  import opened Assembly
  import opened AssemblyConservation
  import opened AssemblyOrder
  import opened AssemblyContent
  import opened Pipeline

  // --- timeouts --------------------------------------------------------------------------------------

  /** The operation that opened the slot of (`a`, `t`) last. */
  ghost function OpenedAt(lim: Limits, ops: seq<Op>, a: AssetId, t: Timestamp): (i: int)
    requires lim.Valid() && OpsValid(ops)
    ensures -1 <= i < |ops|
    ensures i >= 0 ==> ops[i].Take? && ops[i].event.assetId == a && ops[i].event.timestamp == t
  {
    if ops == [] then -1
    else
      var n := |ops| - 1;
      if OpensSample(After(lim, ops[..n]), ops[n], a, t) then n else OpenedAt(lim, ops[..n], a, t)
  }

  lemma BufferIngestKeepsOpening(b: AssetBuffer, e: Event, now: real, maxBuffered: nat, t: Timestamp)
    requires KeysMatch(b)
    ensures var after := BufferIngest(b, e, now, maxBuffered).0;
            t in after.pending ==>
              if t in b.pending then after.pending[t].firstSeen == b.pending[t].firstSeen
              else t == e.timestamp && !IsLate(b, e) && after.pending[t].firstSeen == now
  {
    hide HasAllRequired; hide Identified; hide Distinct;
  }

  /** A buffered sample remembers the clock reading of the operation that opened it. */
  lemma {:induction false} OpenedWhenFirstSeen(lim: Limits, ops: seq<Op>, a: AssetId, t: Timestamp)
    requires lim.Valid() && OpsValid(ops) && IsBuffered(After(lim, ops), a, t)
    ensures var i := OpenedAt(lim, ops, a, t);
            i >= 0 && After(lim, ops).buffers[a].pending[t].firstSeen == ops[i].now
  {
    hide Ingest; hide Valid; hide BufferIngest; hide BufferValid; hide BufferSweep; hide Expired;
    var n := |ops| - 1;
    var s := After(lim, ops[..n]);
    assert OpValid(ops[n]);
    if IsBuffered(s, a, t) {
      OpenedWhenFirstSeen(lim, ops[..n], a, t);
    }
    match ops[n]
    case SweepAt(now) => SweepIsExact(lim, s, now, a, t);
    case Take(e, now) =>
      IngestIsLocal(lim, s, e, now);
      if a == e.assetId {
        BufferIngestKeepsOpening(OwnBuffer(s, a, now), e, now, lim.maxBuffered, t);
      }
  }

  /** A sweep reports what it drops. */
  lemma {:induction false} SweepReports(lim: Limits, order: seq<AssetId>, buffers: map<AssetId, AssetBuffer>, now: real,
                                        a: AssetId, t: Timestamp)
    requires forall x :: x in order ==> x in buffers && KeysMatch(buffers[x])
    ensures Rejected(a, t, IncompleteTimeout) in SweepOutcomes(lim, order, buffers, now) <==>
            a in order && t in buffers[a].pending && Expired(buffers[a].pending[t], now, lim.timeout)
  {
    if order != [] {
      var n := |order| - 1;
      var last := order[n];
      assert order == order[..n] + [last] && last in order;
      SweepReports(lim, order[..n], buffers, now, a, t);
      var expired := Partition(buffers[last].order, buffers[last].pending, now, lim.timeout, false);
      RejectionsReport(last, expired, a, t);
    }
  }

  lemma RejectionsReport(asset: AssetId, ts: seq<Timestamp>, a: AssetId, t: Timestamp)
    ensures Rejected(a, t, IncompleteTimeout) in Rejections(asset, ts) <==> a == asset && t in ts
  {
    if t in ts {
      var i := IndexOf(ts, t);
      assert Rejections(asset, ts)[i] == Rejected(asset, t, IncompleteTimeout);
    }
  }

  /** Timeouts over every run: a sweep at `now` keeps a sample if and only if it is buffered and was opened less than
      the timeout before `now`; and it reports as timed out exactly the other buffered ones. */
  lemma TimeoutsCountFromOpening(lim: Limits, ops: seq<Op>, a: AssetId, t: Timestamp, now: real)
    requires lim.Valid() && OpsValid(ops)
    ensures var s := After(lim, ops); var i := OpenedAt(lim, ops, a, t);
            var (swept, outs) := Step(lim, s, SweepAt(now));
            && (IsBuffered(s, a, t) ==> i >= 0)
            && (IsBuffered(swept, a, t) <==> IsBuffered(s, a, t) && now - ops[i].now < lim.timeout)
            && (Rejected(a, t, IncompleteTimeout) in outs <==> IsBuffered(s, a, t) && now - ops[i].now >= lim.timeout)
  {
    var s := After(lim, ops);
    MapsMatch(lim, s);
    SweepIsExact(lim, s, now, a, t);
    SweepReports(lim, s.order, s.buffers, now, a, t);
    if IsBuffered(s, a, t) { OpenedWhenFirstSeen(lim, ops, a, t); }
    hide Valid; hide BufferSweep; hide SweepOutcomes; hide OpenedAt;
  }

  // --- making room ---------------------------------------------------------------------------------------

  lemma OrderCounts(b: AssetBuffer)
    requires KeysMatch(b)
    ensures |b.order| == |b.pending|
  {
    forall t ensures t in b.order <==> t in b.pending.Keys { }
    DistinctCount(b.order, b.pending.Keys);
  }

  predicate NeedsRoom(lim: Limits, b: AssetBuffer, e: Event) {
    (b.latest.None? || b.latest.value < e.timestamp) && e.timestamp !in b.pending && |b.pending| >= lim.maxBuffered
  }

  lemma BufferKeepsOthers(lim: Limits, b: AssetBuffer, e: Event, now: real, t: Timestamp)
    requires KeysMatch(b) && !NeedsRoom(lim, b, e) && t in b.pending && t != e.timestamp
    ensures var (after, outs) := BufferIngest(b, e, now, lim.maxBuffered);
            t in after.pending && after.pending[t] == b.pending[t] && |outs| == 1
  {
    OrderCounts(b);
    hide HasAllRequired; hide Identified; hide Distinct;
  }

  /** No sample is given up to make room unless the event is not late, opens a new sample, and as many are buffered as
      may be: otherwise every other sample of its asset stays as it is. */
  lemma RoomIsMadeOnlyWhenFull(lim: Limits, s: State, e: Event, now: real, t: Timestamp)
    requires lim.Valid() && Valid(lim, s) && e.Valid() && IsBuffered(s, e.assetId, t) && t != e.timestamp
    requires !NeedsRoom(lim, s.buffers[e.assetId], e)
    ensures var r := Ingest(lim, s, e, now).0;
            IsBuffered(r, e.assetId, t) && r.buffers[e.assetId].pending[t] == s.buffers[e.assetId].pending[t]
  {
    hide Ingest; hide Valid; hide BufferValid; hide BufferIngest; hide NeedsRoom;
    MapsMatch(lim, s);
    IngestIsLocal(lim, s, e, now);
    BufferKeepsOthers(lim, s.buffers[e.assetId], e, now, t);
  }

  /** And when it is full, under a clock that never goes back, the sample given up is one whose opening the clock puts
      no later than that of any other. */
  lemma EvictsEarliestOpening(lim: Limits, ops: seq<Op>, e: Event, now: real) returns (gone: Timestamp)
    requires lim.Valid() && OpsValid(ops) && Monotonic(ops) && (ops != [] ==> ops[|ops| - 1].now <= now)
    requires e.Valid() && e.assetId in After(lim, ops).buffers && NeedsRoom(lim, After(lim, ops).buffers[e.assetId], e)
    ensures var s := After(lim, ops); var r := Step(lim, s, Take(e, now)).0; var a := e.assetId;
            && IsBuffered(s, a, gone) && !IsBuffered(r, a, gone)
            && forall t :: IsBuffered(s, a, t) && t != gone ==>
                 && OpenedAt(lim, ops, a, gone) >= 0 && OpenedAt(lim, ops, a, t) >= 0
                 && ops[OpenedAt(lim, ops, a, gone)].now <= ops[OpenedAt(lim, ops, a, t)].now && IsBuffered(r, a, t)
  {
    hide Ingest; hide Step; hide Valid; hide OpenedAt; hide After;
    var s, a := After(lim, ops), e.assetId;
    TrackedKeysMatch(lim, s, a);
    OrderCounts(s.buffers[a]);
    gone := EvictsEarliestOpened(lim, ops, e, now);
    StepIsTracked(lim, s, e, now);
    OpenedWhenFirstSeen(lim, ops, a, gone);
    forall t | IsBuffered(s, a, t) && t != gone
      ensures OpenedAt(lim, ops, a, t) >= 0 && ops[OpenedAt(lim, ops, a, gone)].now <= ops[OpenedAt(lim, ops, a, t)].now
    {
      OpenedWhenFirstSeen(lim, ops, a, t);
    }
  }

  lemma StepIsTracked(lim: Limits, s: State, e: Event, now: real)
    requires lim.Valid() && Valid(lim, s) && e.Valid()
    ensures e.assetId in Step(lim, s, Take(e, now)).0.buffers
  {
    hide Ingest; hide BufferIngest;
    IngestIsLocal(lim, s, e, now);
  }

  // --- lateness ------------------------------------------------------------------------------------------

  /** Some sample of `a` with timestamp `t` or later has been finished. */
  ghost predicate FinishedSince(outs: seq<Outcome>, a: AssetId, t: Timestamp) {
    exists i :: 0 <= i < |outs| && Finishes(outs[i]) && outs[i].asset == a && t <= outs[i].timestamp
  }

  lemma FinishedSinceGrows(outs: seq<Outcome>, more: seq<Outcome>, a: AssetId, t: Timestamp)
    ensures FinishedSince(outs + more, a, t) <==> FinishedSince(outs, a, t) || FinishedSince(more, a, t)
  {
    var all := outs + more;
    if FinishedSince(outs, a, t) {
      var i :| 0 <= i < |outs| && Finishes(outs[i]) && outs[i].asset == a && t <= outs[i].timestamp;
      assert all[i] == outs[i];
    }
    if FinishedSince(more, a, t) {
      var i :| 0 <= i < |more| && Finishes(more[i]) && more[i].asset == a && t <= more[i].timestamp;
      assert all[|outs| + i] == more[i];
    }
    if FinishedSince(all, a, t) {
      var i :| 0 <= i < |all| && Finishes(all[i]) && all[i].asset == a && t <= all[i].timestamp;
      assert if i < |outs| then all[i] == outs[i] else all[i] == more[i - |outs|];
    }
  }

  lemma {:induction false} SweepFinishesNothing(lim: Limits, order: seq<AssetId>, buffers: map<AssetId, AssetBuffer>,
                                                now: real)
    requires forall x :: x in order ==> x in buffers && KeysMatch(buffers[x])
    ensures forall i :: 0 <= i < |SweepOutcomes(lim, order, buffers, now)| ==>
              !Finishes(SweepOutcomes(lim, order, buffers, now)[i])
  {
    if order != [] {
      assert order[|order| - 1] in order;
      SweepFinishesNothing(lim, order[..|order| - 1], buffers, now);
    }
  }

  predicate AtOrBefore(t: Timestamp, latest: Option<Timestamp>) { latest.Some? && t <= latest.value }

  /** While the fleet fits, an asset's last finished timestamp is the greatest one that was finished. */
  lemma {:induction false} LatestIsGreatestFinished(lim: Limits, ops: seq<Op>, a: AssetId, t: Timestamp)
    requires lim.Valid() && OpsValid(ops) && !EverEvicts(lim, ops)
    ensures FinishedSince(Reported(lim, ops), a, t) <==> AtOrBefore(t, LatestOf(After(lim, ops), a))
  {
    hide Step; hide Valid; hide EvictsAsset; hide FinishedSince; hide LatestOf; hide Ingest; hide Sweep;
    if ops == [] {
      NothingFinished(a, t);
    } else {
      var n := |ops| - 1;
      var s := After(lim, ops[..n]);
      assert OpValid(ops[n]);
      LatestIsGreatestFinished(lim, ops[..n], a, t);
      FinishedSinceGrows(Reported(lim, ops[..n]), Step(lim, s, ops[n]).1, a, t);
      StepFinishes(lim, s, ops[n], a, t);
    }
  }

  lemma NothingFinished(a: AssetId, t: Timestamp)
    ensures !FinishedSince([], a, t) && LatestOf(EMPTY, a) == None
  {
  }

  lemma StepFinishes(lim: Limits, s: State, op: Op, a: AssetId, t: Timestamp)
    requires lim.Valid() && Valid(lim, s) && OpValid(op) && !EvictsAsset(lim, s, op)
    ensures var (r, outs) := Step(lim, s, op);
            AtOrBefore(t, LatestOf(r, a)) <==> AtOrBefore(t, LatestOf(s, a)) || FinishedSince(outs, a, t)
  {
    hide LatestOf; hide EvictsAsset; hide Valid;
    OthersKeepLatest(lim, s, op);
    MapsMatch(lim, s);
    match op
    case SweepAt(now) =>
      SweepFinishesNothing(lim, s.order, s.buffers, now);
    case Take(e, now) =>
      hide Ingest; hide Step;
      StepTaken(lim, s, e, now);
      IngestLatest(lim, s, e, now);
      var outs := Ingest(lim, s, e, now).1;
      var own := outs[|outs| - 1];
      if Finishes(own) && a == e.assetId && t <= e.timestamp { assert FinishedSince(outs, a, t); }
  }

  lemma StepTaken(lim: Limits, s: State, e: Event, now: real)
    requires lim.Valid() && Valid(lim, s) && e.Valid()
    ensures Step(lim, s, Take(e, now)) == Ingest(lim, s, e, now)
  {
    MapsMatch(lim, s);
  }

  /** While the fleet fits, an event is rejected as late if and only if a sample of its asset with its timestamp or a
      later one has been finished before. */
  lemma LateExactlyAfterFinish(lim: Limits, ops: seq<Op>, e: Event, now: real)
    requires lim.Valid() && OpsValid(ops) && e.Valid() && !EverEvicts(lim, ops)
    ensures var outs := Ingest(lim, After(lim, ops), e, now).1;
            && outs != []
            && (outs[|outs| - 1] == Rejected(e.assetId, e.timestamp, Late) <==>
                FinishedSince(Reported(lim, ops), e.assetId, e.timestamp))
  {
    hide Ingest; hide Valid; hide FinishedSince; hide After; hide Since; hide Consistent; hide FirstReadings;
    hide Reported; hide EverEvicts;
    LatestIsGreatestFinished(lim, ops, e.assetId, e.timestamp);
    MapsMatch(lim, After(lim, ops));
    IngestVerdict(lim, ops, e, now);
    if !LateFor(After(lim, ops), e) { NotLateOtherwise(lim, After(lim, ops), e, now); }
  }

  /** The other verdicts are not lateness. */
  lemma NotLateOtherwise(lim: Limits, s: State, e: Event, now: real)
    requires lim.Valid() && Valid(lim, s) && e.Valid() && !LateFor(s, e)
    ensures var outs := Ingest(lim, s, e, now).1;
            outs != [] && outs[|outs| - 1] != Rejected(e.assetId, e.timestamp, Late)
  {
    hide Ingest; hide Valid; hide BufferIngest; hide BufferValid;
    IngestIsLocal(lim, s, e, now);
    IngestEndsWithOwn(lim, s, e, now);
    OwnIsNotLate(OwnBuffer(s, e.assetId, now), e, now, lim.maxBuffered);
  }

  lemma OwnIsNotLate(b: AssetBuffer, e: Event, now: real, maxBuffered: nat)
    requires KeysMatch(b) && !IsLate(b, e)
    ensures BufferIngest(b, e, now, maxBuffered).1 != []
    ensures Own(b, e, now, maxBuffered) != Rejected(e.assetId, e.timestamp, Late)
  {
    hide HasAllRequired; hide Identified; hide Distinct;
  }
}
