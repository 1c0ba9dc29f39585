/** Conservation: every sample ever opened is closed exactly once or is still buffered. */
module AssemblyConservation {
  import opened Basics
  import opened Telemetry
  import opened TelemetryEvents
  import opened Assembly

  datatype Closing = ByCompletion | ByConflict | ByTimeout | ByAbort

  /** How an outcome closes an open sample, if it does: lateness and waiting close nothing. */
  function ClosedBy(o: Outcome): Option<Closing> {
    match o
    case Waiting(_, _) => None
    case Complete(_, _, _) => Some(ByCompletion)
    case Rejected(_, _, ConflictingDuplicate) => Some(ByConflict)
    case Rejected(_, _, IncompleteTimeout) => Some(ByTimeout)
    case Rejected(_, _, Late) => None
    case Aborted(_, _) => Some(ByAbort)
  }

  function Closes(o: Outcome, k: Closing, a: AssetId, t: Timestamp): nat {
    if o.asset == a && o.timestamp == t && ClosedBy(o) == Some(k) then 1 else 0
  }

  /** Number of outcomes that close sample (`a`, `t`) in way `k`. */
  function Closings(outs: seq<Outcome>, k: Closing, a: AssetId, t: Timestamp): nat {
    if outs == [] then 0
    else Closings(outs[..|outs| - 1], k, a, t) + Closes(outs[|outs| - 1], k, a, t)
  }

  function AllClosings(outs: seq<Outcome>, a: AssetId, t: Timestamp): nat {
    Closings(outs, ByCompletion, a, t) + Closings(outs, ByConflict, a, t) + Closings(outs, ByTimeout, a, t)
    + Closings(outs, ByAbort, a, t)
  }

  predicate IsBuffered(s: State, a: AssetId, t: Timestamp) {
    a in s.buffers && t in s.buffers[a].pending
  }

  function BufferedCount(s: State, a: AssetId, t: Timestamp): nat {
    if IsBuffered(s, a, t) then 1 else 0
  }

  /** Whether `op` opens a new sample (`a`, `t`): an event for it, not late, with no slot yet. */
  predicate OpensSample(s: State, op: Op, a: AssetId, t: Timestamp) {
    && op.Take? && op.event.assetId == a && op.event.timestamp == t
    && !IsBuffered(s, a, t)
    && !(a in s.buffers && IsLate(s.buffers[a], op.event))
  }

  ghost function Openings(lim: Limits, ops: seq<Op>, a: AssetId, t: Timestamp): nat
    requires lim.Valid() && OpsValid(ops)
  {
    if ops == [] then 0
    else
      var n := |ops| - 1;
      Openings(lim, ops[..n], a, t) + if OpensSample(After(lim, ops[..n]), ops[n], a, t) then 1 else 0
  }

  lemma {:induction false} ClosingsConcat(x: seq<Outcome>, y: seq<Outcome>, k: Closing, a: AssetId, t: Timestamp)
    ensures Closings(x + y, k, a, t) == Closings(x, k, a, t) + Closings(y, k, a, t)
  {
    if y == [] {
      assert x + y == x;
    } else {
      var n := |y| - 1;
      assert (x + y)[..|x + y| - 1] == x + y[..n];
      ClosingsConcat(x, y[..n], k, a, t);
    }
  }

  lemma AllClosingsConcat(x: seq<Outcome>, y: seq<Outcome>, a: AssetId, t: Timestamp)
    ensures AllClosings(x + y, a, t) == AllClosings(x, a, t) + AllClosings(y, a, t)
  {
    ClosingsConcat(x, y, ByCompletion, a, t);
    ClosingsConcat(x, y, ByConflict, a, t);
    ClosingsConcat(x, y, ByTimeout, a, t);
    ClosingsConcat(x, y, ByAbort, a, t);
  }

  lemma AllClosingsOne(o: Outcome, a: AssetId, t: Timestamp)
    ensures AllClosings([o], a, t) == if o.asset == a && o.timestamp == t && ClosedBy(o).Some? then 1 else 0
  {
    forall k: Closing ensures Closings([o], k, a, t) == Closes(o, k, a, t) {
      assert [o][..|[o]| - 1] == [];
    }
  }

  /** A batch of timeout rejections closes exactly the listed timestamps of its asset. */
  lemma {:induction false} RejectionsClose(asset: AssetId, ts: seq<Timestamp>, a: AssetId, t: Timestamp)
    requires Distinct(ts)
    ensures AllClosings(Rejections(asset, ts), a, t) == if a == asset && t in ts then 1 else 0
  {
    if ts != [] {
      var n := |ts| - 1;
      var last := Rejected(asset, ts[n], IncompleteTimeout);
      assert ts == ts[..n] + [ts[n]];
      assert ts[n] !in ts[..n];
      assert Rejections(asset, ts) == Rejections(asset, ts[..n]) + [last];
      RejectionsClose(asset, ts[..n], a, t);
      AllClosingsConcat(Rejections(asset, ts[..n]), [last], a, t);
      AllClosingsOne(last, a, t);
    }
  }

  function InBuffer(b: AssetBuffer, t: Timestamp): nat { if t in b.pending then 1 else 0 }

  lemma OpenedConserves(lim: Limits, b: AssetBuffer, asset: AssetId, u: Timestamp, now: real, a: AssetId, t: Timestamp)
    requires BufferValid(lim, b)
    ensures var (open, outs) := Opened(b, asset, u, now, lim.maxBuffered);
            && KeysMatch(open) && u in open.order && u in open.pending
            && AllClosings(outs, a, t) ==
                 if a != asset then 0
                 else InBuffer(b, t) - InBuffer(open, t) + (if t == u && t !in b.pending then 1 else 0)
  {
    var (open, outs) := Opened(b, asset, u, now, lim.maxBuffered);
    if u !in b.pending {
      assert open.order[|open.order| - 1] == u;
      if outs != [] {
        assert outs == [Rejected(asset, b.order[0], IncompleteTimeout)] && b.order[0] in b.pending;
        AllClosingsOne(outs[0], a, t);
      }
    }
  }

  lemma AbsorbedConserves(b: AssetBuffer, e: Event, a: AssetId, t: Timestamp)
    requires KeysMatch(b) && e.timestamp in b.order
    ensures var (after, out) := Absorbed(b, e);
            AllClosings([out], a, t) == if a != e.assetId then 0 else InBuffer(b, t) - InBuffer(after, t)
  {
    AllClosingsOne(Absorbed(b, e).1, a, t);
  }

  lemma BufferIngestConserves(lim: Limits, b: AssetBuffer, e: Event, now: real, a: AssetId, t: Timestamp)
    requires lim.Valid() && BufferValid(lim, b)
    ensures var (after, outs) := BufferIngest(b, e, now, lim.maxBuffered);
            AllClosings(outs, a, t) ==
              if a != e.assetId then 0
              else InBuffer(b, t) - InBuffer(after, t) +
                   (if t == e.timestamp && t !in b.pending && !IsLate(b, e) then 1 else 0)
  {
    var active := b.(lastActive := now);
    if IsLate(b, e) {
      AllClosingsOne(Rejected(e.assetId, e.timestamp, Late), a, t);
    } else {
      OpenedConserves(lim, active, e.assetId, e.timestamp, now, a, t);
      var (open, evicted) := Opened(active, e.assetId, e.timestamp, now, lim.maxBuffered);
      AbsorbedConserves(open, e, a, t);
      AllClosingsConcat(evicted, [Absorbed(open, e).1], a, t);
    }
  }

  lemma BufferSweepConserves(lim: Limits, b: AssetBuffer, asset: AssetId, now: real, a: AssetId, t: Timestamp)
    requires KeysMatch(b)
    ensures var (after, outs) := BufferSweep(b, asset, now, lim.timeout);
            AllClosings(outs, a, t) == if a == asset then InBuffer(b, t) - InBuffer(after, t) else 0
  {
    var gone := Partition(b.order, b.pending, now, lim.timeout, false);
    RejectionsClose(asset, gone, a, t);
  }

  lemma {:induction false} SweepConserves(lim: Limits, order: seq<AssetId>, buffers: map<AssetId, AssetBuffer>,
                                           now: real, a: AssetId, t: Timestamp)
    requires Distinct(order)
    requires forall x :: x in order ==> x in buffers && KeysMatch(buffers[x])
    ensures AllClosings(SweepOutcomes(lim, order, buffers, now), a, t) ==
            if a !in order then 0
            else InBuffer(buffers[a], t) - InBuffer(BufferSweep(buffers[a], a, now, lim.timeout).0, t)
  {
    if order != [] {
      var n := |order| - 1;
      var last := order[n];
      assert order == order[..n] + [last];
      assert last !in order[..n] && last in order;
      SweepConserves(lim, order[..n], buffers, now, a, t);
      AllClosingsConcat(SweepOutcomes(lim, order[..n], buffers, now),
                        BufferSweep(buffers[last], last, now, lim.timeout).1, a, t);
      BufferSweepConserves(lim, buffers[last], last, now, a, t);
    }
  }

  /** The evictions of `_buffer_for` close exactly the samples that leave with the evicted buffer. */
  lemma BufferForConserves(lim: Limits, s: State, asset: AssetId, now: real, a: AssetId, t: Timestamp)
    requires lim.Valid() && Valid(lim, s)
    ensures var (found, outs) := BufferFor(lim, s, asset, now);
            BufferedCount(s, a, t) == AllClosings(outs, a, t) + BufferedCount(found, a, t)
  {
    hide BufferValid; hide AllClosings;
    assert AllClosings([], a, t) == 0 by { NothingClosed(a, t); }
    if asset !in s.buffers && |s.order| >= lim.maxAssets {
      var gone := s.order[0];
      assert gone in s.buffers;
      TrackedKeysMatch(lim, s, gone);
      RejectionsClose(gone, s.buffers[gone].order, a, t);
    }
  }

  lemma NothingClosed(a: AssetId, t: Timestamp)
    ensures AllClosings([], a, t) == 0
  {
  }

  lemma IngestConserves(lim: Limits, s: State, e: Event, now: real, a: AssetId, t: Timestamp)
    requires lim.Valid() && Valid(lim, s) && e.Valid()
    ensures var (after, outs) := Ingest(lim, s, e, now);
            BufferedCount(s, a, t) + (if OpensSample(s, Take(e, now), a, t) then 1 else 0) ==
            AllClosings(outs, a, t) + BufferedCount(after, a, t)
  {
    hide BufferIngest; hide AllClosings; hide BufferFor;
    IngestIsLocal(lim, s, e, now);
    BufferForKeepsValid(lim, s, e.assetId, now);
    BufferForConserves(lim, s, e.assetId, now, a, t);
    FoundBuffer(lim, s, e.assetId, now);
    var (found, evicted) := BufferFor(lim, s, e.assetId, now);
    var own := found.buffers[e.assetId];
    AllClosingsConcat(evicted, BufferIngest(own, e, now, lim.maxBuffered).1, a, t);
    BufferIngestConserves(lim, own, e, now, a, t);
  }

  lemma FoundBuffer(lim: Limits, s: State, asset: AssetId, now: real)
    requires lim.Valid() && Valid(lim, s)
    ensures var found := BufferFor(lim, s, asset, now).0;
            asset in found.buffers && found.buffers[asset] == OwnBuffer(s, asset, now)
  {
  }

  lemma StepConserves(lim: Limits, s: State, op: Op, a: AssetId, t: Timestamp)
    requires lim.Valid() && Valid(lim, s) && OpValid(op)
    ensures BufferedCount(s, a, t) + (if OpensSample(s, op, a, t) then 1 else 0) ==
            AllClosings(Step(lim, s, op).1, a, t) + BufferedCount(Step(lim, s, op).0, a, t)
  {
    match op
    case SweepAt(now) =>
      hide BufferSweep; hide AllClosings;
      SweepConserves(lim, s.order, s.buffers, now, a, t);
    case Take(e, now) =>
      hide Ingest; hide AllClosings; hide BufferValid; hide OpensSample; hide BufferedCount;
      IngestConserves(lim, s, e, now, a, t);
  }

  /** Over every run: openings = completions + conflicts + timeouts (expiry or eviction) + aborted completions + still
      buffered, for each (asset, timestamp) separately. */
  lemma {:induction false} OpeningsAreConserved(lim: Limits, ops: seq<Op>, a: AssetId, t: Timestamp)
    requires lim.Valid() && OpsValid(ops)
    ensures var outs := Reported(lim, ops);
            Openings(lim, ops, a, t) ==
              Closings(outs, ByCompletion, a, t) + Closings(outs, ByConflict, a, t) + Closings(outs, ByTimeout, a, t)
              + Closings(outs, ByAbort, a, t) + BufferedCount(After(lim, ops), a, t)
  {
    if ops != [] {
      var n := |ops| - 1;
      var s := After(lim, ops[..n]);
      OpeningsAreConserved(lim, ops[..n], a, t);
      StepConserves(lim, s, ops[n], a, t);
      AllClosingsConcat(Reported(lim, ops[..n]), Step(lim, s, ops[n]).1, a, t);
    }
  }

  /** Each ingest reports evictions first and then exactly one outcome of its own, about the event's sample; it raises
      instead, with nothing else to report, exactly when it completes a slot in which some event id is empty. */
  lemma IngestReportsOnce(lim: Limits, s: State, e: Event, now: real)
    requires lim.Valid() && Valid(lim, s) && e.Valid()
    ensures var outs := Ingest(lim, s, e, now).1;
            && outs != []
            && (forall i :: 0 <= i < |outs| - 1 ==> outs[i].Rejected? && outs[i].reason == IncompleteTimeout)
            && var own := outs[|outs| - 1];
               && own.asset == e.assetId && own.timestamp == e.timestamp && ClosedBy(own) != Some(ByTimeout)
               && (own.Aborted? <==> CompletedBy(s, e).Some? && !Identified(CompletedBy(s, e).value))
               && (own.Aborted? ==> outs == [own])
  {
    hide BufferIngest; hide KeysMatch; hide CompletedBy; hide Identified;
    FinishesExactly(lim, s, e, now);
    BufferForKeepsValid(lim, s, e.assetId, now);
    IngestIsLocal(lim, s, e, now);
    FoundBuffer(lim, s, e.assetId, now);
    BufferIngestReportsOnce(OwnBuffer(s, e.assetId, now), e, now, lim.maxBuffered);
  }

  lemma BufferIngestReportsOnce(b: AssetBuffer, e: Event, now: real, maxBuffered: nat)
    requires KeysMatch(b)
    ensures var outs := BufferIngest(b, e, now, maxBuffered).1;
            && outs != []
            && (forall i :: 0 <= i < |outs| - 1 ==> outs[i].Rejected? && outs[i].reason == IncompleteTimeout)
            && var own := outs[|outs| - 1];
               own.asset == e.assetId && own.timestamp == e.timestamp && ClosedBy(own) != Some(ByTimeout)
  {
    hide Opened; hide Absorbed; hide Distinct;
    if !IsLate(b, e) {
      var (open, _) := Opened(b.(lastActive := now), e.assetId, e.timestamp, now, maxBuffered);
      OpenedReports(b.(lastActive := now), e.assetId, e.timestamp, now, maxBuffered);
      AbsorbedReports(open, e);
    }
  }

  lemma OpenedReports(b: AssetBuffer, asset: AssetId, t: Timestamp, now: real, maxBuffered: nat)
    requires KeysMatch(b)
    ensures var (open, outs) := Opened(b, asset, t, now, maxBuffered);
            && t in open.order
            && forall i :: 0 <= i < |outs| ==> outs[i].Rejected? && outs[i].reason == IncompleteTimeout
  {
    if t !in b.pending {
      var open := Opened(b, asset, t, now, maxBuffered).0;
      assert open.order[|open.order| - 1] == t;
    }
  }

  lemma AbsorbedReports(b: AssetBuffer, e: Event)
    requires e.timestamp in b.pending && e.timestamp in b.order
    ensures var own := Absorbed(b, e).1;
            own.asset == e.assetId && own.timestamp == e.timestamp && ClosedBy(own) != Some(ByTimeout)
  {
    hide HasAllRequired; hide Identified; hide Removed;
  }

  /** After a sweep nothing expired is left, and everything that was not expired is untouched. */
  lemma SweepIsExact(lim: Limits, s: State, now: real, a: AssetId, t: Timestamp)
    requires lim.Valid() && Valid(lim, s)
    ensures var swept := Sweep(lim, s, now).0;
            IsBuffered(swept, a, t) <==> IsBuffered(s, a, t) && !Expired(s.buffers[a].pending[t], now, lim.timeout)
    ensures var swept := Sweep(lim, s, now).0;
            IsBuffered(swept, a, t) ==> swept.buffers[a].pending[t] == s.buffers[a].pending[t]
  {
    if a in s.buffers {
      var b := s.buffers[a];
      assert t in b.pending <==> t in b.order;
      assert t in Partition(b.order, b.pending, now, lim.timeout, true) <==>
             t in b.order && !Expired(b.pending[t], now, lim.timeout);
    }
  }
}
