/** Assembly and inference together: completed samples are handed to the session of their asset
    (`FaultInferenceManager`), and what the two layers guarantee each other. */
module Pipeline {
  import opened Basics
  import opened Telemetry
  import opened TelemetryEvents
  import opened Assembly
  import opened AssemblyConservation
  import opened AssemblyOrder
  import opened AssemblyIsolation
  import S = InferenceSession

  type Sessions = map<AssetId, S.SessionState>

  ghost predicate SessionsValid(ss: Sessions) { forall a :: a in ss ==> S.StateValid(ss[a]) }

  ghost function SessionFor(ss: Sessions, a: AssetId): S.SessionState {
    if a in ss then ss[a] else S.COLD()
  }

  function LastOf(ss: Sessions, a: AssetId): Option<Timestamp> { if a in ss then ss[a].last else None }

  /** `FaultInferenceManager.ingest`: a session is made on first use, then asked. */
  ghost function Route(sys: S.FaultSystem, ss: Sessions, x: TelemetrySample): (r: (Sessions, S.Reply))
    requires sys.WellFormed() && SessionsValid(ss) && S.Complete(x)
    ensures SessionsValid(r.0)
  {
    var (s, reply) := S.Reacts(sys, x.assetId, SessionFor(ss, x.assetId), S.Offer(x));
    (ss[x.assetId := s], reply)
  }

  datatype Answered = Answered(asset: AssetId, reply: S.Reply)

  /** The samples of the completed outcomes, in order. */
  function SamplesIn(outs: seq<Outcome>): seq<TelemetrySample> {
    if outs == [] then []
    else
      var n := |outs| - 1;
      SamplesIn(outs[..n]) + if outs[n].Complete? then [outs[n].sample] else []
  }

  ghost function Feed(sys: S.FaultSystem, xs: seq<TelemetrySample>): (r: (Sessions, seq<Answered>))
    requires sys.WellFormed() && S.AllComplete(xs)
    ensures SessionsValid(r.0)
    ensures |r.1| == |xs|
  {
    if xs == [] then (map[], [])
    else
      var n := |xs| - 1;
      var (ss, replies) := Feed(sys, xs[..n]);
      var (ss', reply) := Route(sys, ss, xs[n]);
      (ss', replies + [Answered(xs[n].assetId, reply)])
  }

  // --- routing keeps assets apart -----------------------------------------------------------

  function OffersOf(xs: seq<TelemetrySample>, a: AssetId): (r: seq<S.SessionOp>)
    ensures S.AllComplete(xs) ==> S.OpsComplete(r)
  {
    if xs == [] then []
    else
      var n := |xs| - 1;
      OffersOf(xs[..n], a) + if xs[n].assetId == a then [S.Offer(xs[n])] else []
  }

  function RepliesTo(replies: seq<Answered>, a: AssetId): seq<S.Reply> {
    if replies == [] then []
    else
      var n := |replies| - 1;
      RepliesTo(replies[..n], a) + if replies[n].asset == a then [replies[n].reply] else []
  }

  /** What the manager tells asset `a` is what a fresh session fed only `a`'s samples would say. */
  lemma {:induction false} RoutingDoesNotInterfere(sys: S.FaultSystem, xs: seq<TelemetrySample>, a: AssetId)
    requires sys.WellFormed() && S.AllComplete(xs)
    ensures RepliesTo(Feed(sys, xs).1, a) == S.SessionRun(sys, a, OffersOf(xs, a)).1
    ensures SessionFor(Feed(sys, xs).0, a) == S.SessionRun(sys, a, OffersOf(xs, a)).0
  {
    hide S.Reacts; hide S.StateValid;
    if xs != [] {
      var n := |xs| - 1;
      RoutingDoesNotInterfere(sys, xs[..n], a);
      var replies := Feed(sys, xs).1;
      assert replies[..n] == Feed(sys, xs[..n]).1;
      var before := OffersOf(xs[..n], a);
      if xs[n].assetId == a {
        var offers := OffersOf(xs, a);
        assert offers[..|offers| - 1] == before && offers[|offers| - 1] == S.Offer(xs[n]);
      } else {
        assert OffersOf(xs, a) == before;
      }
    }
  }

  // --- every reported sample is one a session can read ------------------------------------------

  predicate SampleFits(o: Outcome) {
    o.Complete? ==> o.sample.assetId == o.asset && o.sample.timestamp == o.timestamp && S.Complete(o.sample)
  }

  lemma BufferIngestLatest(b: AssetBuffer, e: Event, now: real, maxBuffered: nat)
    requires KeysMatch(b)
    ensures var (after, outs) := BufferIngest(b, e, now, maxBuffered);
            && outs != [] && SampleFits(outs[|outs| - 1]) && outs[|outs| - 1].asset == e.assetId
            && (forall i :: 0 <= i < |outs| - 1 ==> outs[i].Rejected?)
            && after.latest == (if Finishes(outs[|outs| - 1]) then Some(e.timestamp) else b.latest)
            && (Finishes(outs[|outs| - 1]) ==>
                  outs[|outs| - 1].timestamp == e.timestamp && (b.latest.None? || b.latest.value < e.timestamp))
  {
    hide Opened; hide Absorbed; hide SampleFits; hide Distinct; hide Finishes;
    NotComplete(e);
    if !IsLate(b, e) {
      var active := b.(lastActive := now);
      OpenedReports(active, e.assetId, e.timestamp, now, maxBuffered);
      OpenedKeepsLatest(active, e.assetId, e.timestamp, now, maxBuffered);
      AbsorbedReports(Opened(active, e.assetId, e.timestamp, now, maxBuffered).0, e);
      AbsorbedLatest(Opened(active, e.assetId, e.timestamp, now, maxBuffered).0, e);
    }
  }

  lemma NotComplete(e: Event)
    ensures var late := Rejected(e.assetId, e.timestamp, Late); SampleFits(late) && !Finishes(late)
  {
  }

  lemma OpenedKeepsLatest(b: AssetBuffer, asset: AssetId, t: Timestamp, now: real, maxBuffered: nat)
    ensures Opened(b, asset, t, now, maxBuffered).0.latest == b.latest
  {
  }

  lemma AbsorbedLatest(b: AssetBuffer, e: Event)
    requires e.timestamp in b.pending && e.timestamp in b.order
    ensures var (after, own) := Absorbed(b, e);
            SampleFits(own) && after.latest == if Finishes(own) then Some(e.timestamp) else b.latest
  {
    hide Identified;
  }

  function LatestOf(s: State, a: AssetId): Option<Timestamp> { if a in s.buffers then s.buffers[a].latest else None }

  /** One event: evictions, then one outcome of its own, which is the only one that can complete. */
  lemma IngestLatest(lim: Limits, s: State, e: Event, now: real)
    requires lim.Valid() && Valid(lim, s) && e.Valid()
    ensures var (after, outs) := Ingest(lim, s, e, now);
            && outs != [] && SampleFits(outs[|outs| - 1]) && outs[|outs| - 1].asset == e.assetId
            && (forall i :: 0 <= i < |outs| - 1 ==> outs[i].Rejected?)
            && LatestOf(after, e.assetId) ==
               (if Finishes(outs[|outs| - 1]) then Some(e.timestamp) else LatestOf(s, e.assetId))
            && (Finishes(outs[|outs| - 1]) ==>
                  && outs[|outs| - 1].timestamp == e.timestamp
                  && (LatestOf(s, e.assetId).None? || LatestOf(s, e.assetId).value < e.timestamp))
  {
    hide BufferIngest; hide BufferValid;
    IngestIsLocal(lim, s, e, now);
    var own := OwnBuffer(s, e.assetId, now);
    BufferIngestLatest(own, e, now, lim.maxBuffered);
    var (found, evicted) := BufferFor(lim, s, e.assetId, now);
    BufferForKeepsValid(lim, s, e.assetId, now);
    assert found.buffers[e.assetId] == own;
  }

  lemma {:induction false} SamplesSnoc(outs: seq<Outcome>)
    requires outs != [] && forall i :: 0 <= i < |outs| - 1 ==> !outs[i].Complete?
    ensures SamplesIn(outs) == if outs[|outs| - 1].Complete? then [outs[|outs| - 1].sample] else []
  {
    SamplesNone(outs[..|outs| - 1]);
  }

  lemma {:induction false} SamplesNone(outs: seq<Outcome>)
    requires forall i :: 0 <= i < |outs| ==> !outs[i].Complete?
    ensures SamplesIn(outs) == []
  {
    if outs != [] { SamplesNone(outs[..|outs| - 1]); }
  }

  lemma {:induction false} SamplesConcat(x: seq<Outcome>, y: seq<Outcome>)
    ensures SamplesIn(x + y) == SamplesIn(x) + SamplesIn(y)
  {
    if y == [] {
      assert x + y == x;
    } else {
      assert (x + y)[..|x + y| - 1] == x + y[..|y| - 1];
      SamplesConcat(x, y[..|y| - 1]);
    }
  }

  lemma {:induction false} SweepCompletesNothing(lim: Limits, order: seq<AssetId>,
                                                 buffers: map<AssetId, AssetBuffer>, now: real)
    requires forall x :: x in order ==> x in buffers && KeysMatch(buffers[x])
    ensures SamplesIn(SweepOutcomes(lim, order, buffers, now)) == []
  {
    if order != [] {
      var n := |order| - 1;
      assert order[n] in order;
      SweepCompletesNothing(lim, order[..n], buffers, now);
      var outs := BufferSweep(buffers[order[n]], order[n], now, lim.timeout).1;
      SamplesNone(outs);
      SamplesConcat(SweepOutcomes(lim, order[..n], buffers, now), outs);
    }
  }

  /** The samples one step of the assembler completes: at most one, and a readable one. */
  lemma StepSamples(lim: Limits, s: State, op: Op)
    requires lim.Valid() && Valid(lim, s) && OpValid(op)
    ensures var xs := SamplesIn(Step(lim, s, op).1);
            && |xs| <= 1 && S.AllComplete(xs)
            && (xs != [] ==> op.Take? && xs[0].assetId == op.event.assetId && xs[0].timestamp == op.event.timestamp)
            && (op.Take? ==> Advances(s, Step(lim, s, op).0, op.event))
            && (op.Take? ==>
                  (xs != [] <==> CompletedBy(s, op.event).Some? && Identified(CompletedBy(s, op.event).value)))
  {
    hide Ingest; hide Valid;
    match op
    case SweepAt(now) =>
      SweepSamples(lim, s, now);
    case Take(e, now) =>
      IngestSamples(lim, s, e, now);
  }

  /** The last finished timestamp of the event's asset moves to the event's, and forward, exactly when the event
      finishes its sample. */
  predicate Advances(s: State, after: State, e: Event) {
    && LatestOf(after, e.assetId) == (if CompletedBy(s, e).Some? then Some(e.timestamp) else LatestOf(s, e.assetId))
    && (CompletedBy(s, e).Some? ==> LatestOf(s, e.assetId).None? || LatestOf(s, e.assetId).value < e.timestamp)
  }

  lemma IngestSamples(lim: Limits, s: State, e: Event, now: real)
    requires lim.Valid() && Valid(lim, s) && e.Valid()
    ensures var (after, outs) := Ingest(lim, s, e, now);
            var xs := SamplesIn(outs);
            && |xs| <= 1 && S.AllComplete(xs) && Advances(s, after, e)
            && (xs != [] <==> CompletedBy(s, e).Some? && Identified(CompletedBy(s, e).value))
            && (xs != [] ==> xs[0].assetId == e.assetId && xs[0].timestamp == e.timestamp)
  {
    hide BufferIngest; hide BufferFor; hide CompletedBy; hide Identified;
    FinishesExactly(lim, s, e, now);
    IngestLatest(lim, s, e, now);
    SamplesSnoc(Ingest(lim, s, e, now).1);
  }

  lemma SweepSamples(lim: Limits, s: State, now: real)
    requires Valid(lim, s)
    ensures SamplesIn(Sweep(lim, s, now).1) == []
    ensures forall a :: LatestOf(Sweep(lim, s, now).0, a) == LatestOf(s, a)
  {
    SweepCompletesNothing(lim, s.order, s.buffers, now);
  }

  /** The completed samples of a run, and the sessions and replies they lead to. */
  ghost function Assembled(lim: Limits, ops: seq<Op>): (xs: seq<TelemetrySample>)
    requires lim.Valid() && OpsValid(ops)
  {
    SamplesIn(Reported(lim, ops))
  }

  lemma {:induction false} AssembledIsReadable(lim: Limits, ops: seq<Op>)
    requires lim.Valid() && OpsValid(ops)
    ensures S.AllComplete(Assembled(lim, ops))
    ensures ops != [] ==>
              Assembled(lim, ops) == Assembled(lim, ops[..|ops| - 1]) +
                                     SamplesIn(Step(lim, After(lim, ops[..|ops| - 1]), ops[|ops| - 1]).1)
  {
    hide Step; hide Valid;
    if ops != [] {
      var n := |ops| - 1;
      AssembledIsReadable(lim, ops[..n]);
      assert OpValid(ops[n]);
      var s := After(lim, ops[..n]);
      StepSamples(lim, s, ops[n]);
      SamplesConcat(Reported(lim, ops[..n]), Step(lim, s, ops[n]).1);
    }
  }

  ghost function Inferred(lim: Limits, sys: S.FaultSystem, ops: seq<Op>): (r: (Sessions, seq<Answered>))
    requires lim.Valid() && sys.WellFormed() && OpsValid(ops)
    ensures SessionsValid(r.0)
  {
    AssembledIsReadable(lim, ops);
    Feed(sys, Assembled(lim, ops))
  }

  // --- cross-layer safety -------------------------------------------------------------------------

  /** No completed sample is refused by its session. */
  ghost predicate Safe(lim: Limits, sys: S.FaultSystem, ops: seq<Op>)
    requires lim.Valid() && sys.WellFormed() && OpsValid(ops)
  {
    var replies := Inferred(lim, sys, ops).1;
    forall i :: 0 <= i < |replies| ==> !replies[i].reply.Refused?
  }

  /** One more operation: the samples it completes are routed after all earlier ones. */
  lemma InferredSnoc(lim: Limits, sys: S.FaultSystem, ops: seq<Op>)
    requires lim.Valid() && sys.WellFormed() && OpsValid(ops) && ops != []
    ensures var n := |ops| - 1;
            var xs := SamplesIn(Step(lim, After(lim, ops[..n]), ops[n]).1);
            var (ss, replies) := Inferred(lim, sys, ops[..n]);
            && S.AllComplete(xs) && |xs| <= 1
            && Inferred(lim, sys, ops) ==
                 if xs == [] then (ss, replies)
                 else (Route(sys, ss, xs[0]).0, replies + [Answered(xs[0].assetId, Route(sys, ss, xs[0]).1)])
  {
    hide Step; hide Valid; hide Route;
    var n := |ops| - 1;
    AssembledIsReadable(lim, ops);
    AssembledIsReadable(lim, ops[..n]);
    assert OpValid(ops[n]);
    StepSamples(lim, After(lim, ops[..n]), ops[n]);
    var xs := SamplesIn(Step(lim, After(lim, ops[..n]), ops[n]).1);
    var all := Assembled(lim, ops);
    if xs == [] {
      assert all == Assembled(lim, ops[..n]);
    } else {
      assert all[..|all| - 1] == Assembled(lim, ops[..n]) && all[|all| - 1] == xs[0];
    }
  }

  lemma RouteLast(sys: S.FaultSystem, ss: Sessions, x: TelemetrySample)
    requires sys.WellFormed() && SessionsValid(ss) && S.Complete(x)
    ensures var (ss', reply) := Route(sys, ss, x);
            var refused := LastOf(ss, x.assetId).Some? && x.timestamp <= LastOf(ss, x.assetId).value;
            && (reply.Refused? <==> refused)
            && LastOf(ss', x.assetId) == (if refused then LastOf(ss, x.assetId) else Some(x.timestamp))
            && (forall a :: a != x.assetId ==> LastOf(ss', a) == LastOf(ss, a))
  {
    hide S.StateValid; hide S.InputsAt; hide S.RowOf; hide S.ResultOf; hide S.Pushed; hide S.Ready;
  }

  /** No session is ahead of the assembler. */
  ghost predicate Behind(ss: Sessions, s: State) {
    forall a :: LastOf(ss, a).Some? ==> LatestOf(s, a).Some? && LastOf(ss, a).value <= LatestOf(s, a).value
  }

  /** Sessions move only to where the assembler has moved. */
  lemma BehindKept(ss: Sessions, s: State, ss': Sessions, r: State, own: Option<AssetId>)
    requires Behind(ss, s)
    requires forall a :: own != Some(a) ==> LatestOf(r, a) == LatestOf(s, a) && LastOf(ss', a) == LastOf(ss, a)
    requires own.Some? ==>
               LastOf(ss', own.value) == LatestOf(r, own.value) || LastOf(ss', own.value) == LastOf(ss, own.value)
    requires own.Some? && LatestOf(s, own.value).Some? ==>
               LatestOf(r, own.value).Some? && LatestOf(s, own.value).value <= LatestOf(r, own.value).value
    ensures Behind(ss', r)
  {
    hide LatestOf; hide LastOf;
  }

  /** While the fleet fits, no session is past its asset's last finished timestamp. */
  lemma {:induction false} SessionsStayBehind(lim: Limits, sys: S.FaultSystem, ops: seq<Op>)
    requires lim.Valid() && sys.WellFormed() && OpsValid(ops) && !EverEvicts(lim, ops)
    ensures Behind(Inferred(lim, sys, ops).0, After(lim, ops))
  {
    hide Step; hide Valid; hide Route; hide EvictsAsset; hide CompletedBy; hide Identified; hide LatestOf; hide LastOf;
    hide S.FaultSystem.WellFormed; hide Inferred; hide Behind;
    if ops == [] {
      NothingInferred(lim, sys);
    } else {
      var n := |ops| - 1;
      var s := After(lim, ops[..n]);
      assert OpValid(ops[n]);
      SessionsStayBehind(lim, sys, ops[..n]);
      InferredSnoc(lim, sys, ops);
      StepSamples(lim, s, ops[n]);
      OthersKeepLatest(lim, s, ops[n]);
      var xs, ss := SamplesIn(Step(lim, s, ops[n]).1), Inferred(lim, sys, ops[..n]).0;
      if xs != [] {
        NextIsNewer(ss, s, xs[0], ops[n].event);
        RouteLast(sys, ss, xs[0]);
      }
      var own := if ops[n].Take? then Some(ops[n].event.assetId) else None;
      BehindKept(ss, s, Inferred(lim, sys, ops).0, After(lim, ops), own);
    }
  }

  /** A sample that finishes now is newer than anything its session has seen. */
  lemma NextIsNewer(ss: Sessions, s: State, x: TelemetrySample, e: Event)
    requires Behind(ss, s) && x.assetId == e.assetId && x.timestamp == e.timestamp
    requires LatestOf(s, e.assetId).None? || LatestOf(s, e.assetId).value < e.timestamp
    ensures LastOf(ss, x.assetId).None? || LastOf(ss, x.assetId).value < x.timestamp
  {
    hide LatestOf; hide LastOf;
  }

  /** While the fleet fits, no session is past its asset's last finished timestamp, so no sample is refused. */
  lemma {:induction false} LayersAgree(lim: Limits, sys: S.FaultSystem, ops: seq<Op>)
    requires lim.Valid() && sys.WellFormed() && OpsValid(ops) && !EverEvicts(lim, ops)
    ensures Safe(lim, sys, ops)
    ensures Behind(Inferred(lim, sys, ops).0, After(lim, ops))
  {
    hide Step; hide Valid; hide Route; hide EvictsAsset; hide CompletedBy; hide Identified; hide LatestOf; hide LastOf;
    hide S.FaultSystem.WellFormed; hide Inferred; hide Behind;
    SessionsStayBehind(lim, sys, ops);
    if ops == [] {
      NothingInferred(lim, sys);
    } else {
      var n := |ops| - 1;
      var s := After(lim, ops[..n]);
      assert OpValid(ops[n]);
      LayersAgree(lim, sys, ops[..n]);
      InferredSnoc(lim, sys, ops);
      StepSamples(lim, s, ops[n]);
      var xs, ss := SamplesIn(Step(lim, s, ops[n]).1), Inferred(lim, sys, ops[..n]).0;
      if xs != [] {
        NextIsNewer(ss, s, xs[0], ops[n].event);
        RouteLast(sys, ss, xs[0]);
      }
    }
  }

  lemma NothingInferred(lim: Limits, sys: S.FaultSystem)
    requires lim.Valid() && sys.WellFormed()
    ensures OpsValid([]) && Inferred(lim, sys, []) == (map[], []) && Behind(map[], EMPTY)
  {
    AssembledIsReadable(lim, []);
    assert Assembled(lim, []) == [];
  }

  /** And if every event has an id, each session's last timestamp is its asset's last finished timestamp. */
  lemma {:induction false} LayersCoincide(lim: Limits, sys: S.FaultSystem, ops: seq<Op>)
    requires lim.Valid() && sys.WellFormed() && OpsValid(ops) && OpsIdentified(ops) && !EverEvicts(lim, ops)
    ensures forall a :: LastOf(Inferred(lim, sys, ops).0, a) == LatestOf(After(lim, ops), a)
  {
    hide Step; hide Valid; hide Route; hide EvictsAsset; hide CompletedBy; hide Identified; hide LatestOf; hide LastOf;
    hide S.FaultSystem.WellFormed; hide Inferred; hide StateIdentified;
    if ops == [] {
      NothingKnown(lim, sys);
    } else {
      var n := |ops| - 1;
      var s := After(lim, ops[..n]);
      assert OpValid(ops[n]) && OpIdentified(ops[n]);
      LayersCoincide(lim, sys, ops[..n]);
      InferredSnoc(lim, sys, ops);
      StepSamples(lim, s, ops[n]);
      OthersKeepLatest(lim, s, ops[n]);
      RunIdentified(lim, ops[..n]);
      StepIdentified(lim, s, ops[n]);
      var xs := SamplesIn(Step(lim, s, ops[n]).1);
      if xs != [] {
        RouteLast(sys, Inferred(lim, sys, ops[..n]).0, xs[0]);
      }
    }
  }

  lemma NothingKnown(lim: Limits, sys: S.FaultSystem)
    requires lim.Valid() && sys.WellFormed()
    ensures OpsValid([]) && forall a :: LastOf(Inferred(lim, sys, []).0, a) == LatestOf(After(lim, []), a)
  {
    NothingInferred(lim, sys);
  }

  lemma OthersKeepLatest(lim: Limits, s: State, op: Op)
    requires lim.Valid() && Valid(lim, s) && OpValid(op) && !EvictsAsset(lim, s, op)
    ensures forall a :: (op.Take? ==> a != op.event.assetId) ==> LatestOf(Step(lim, s, op).0, a) == LatestOf(s, a)
  {
    match op
    case SweepAt(now) => SweepSamples(lim, s, now);
    case Take(e, now) =>
      hide BufferIngest; hide BufferValid; hide Ingest;
      IngestIsLocal(lim, s, e, now);
      TakeIsLocal(lim, s, e, now);
  }

  /** No completed sample is later than its asset's last finished timestamp. */
  predicate NoneLater(s: State, xs: seq<TelemetrySample>) {
    forall i :: 0 <= i < |xs| ==>
      LatestOf(s, xs[i].assetId).Some? && xs[i].timestamp <= LatestOf(s, xs[i].assetId).value
  }

  predicate Increasing(xs: seq<TelemetrySample>) {
    forall i, j :: 0 <= i < j < |xs| && xs[i].assetId == xs[j].assetId ==> xs[i].timestamp < xs[j].timestamp
  }

  /** While the fleet fits, the completed timestamps of each asset strictly increase over the whole run. */
  lemma {:induction false} CompletedTimestampsIncrease(lim: Limits, ops: seq<Op>)
    requires lim.Valid() && OpsValid(ops) && !EverEvicts(lim, ops)
    ensures Increasing(Assembled(lim, ops)) && NoneLater(After(lim, ops), Assembled(lim, ops))
  {
    hide Step; hide Valid; hide EvictsAsset; hide LatestOf; hide S.AllComplete; hide CompletedBy; hide Identified;
    AssembledIsReadable(lim, ops);
    if ops == [] {
      assert Assembled(lim, ops) == [];
    } else {
      var n := |ops| - 1;
      var s := After(lim, ops[..n]);
      assert OpValid(ops[n]);
      CompletedTimestampsIncrease(lim, ops[..n]);
      StepSamples(lim, s, ops[n]);
      OthersKeepLatest(lim, s, ops[n]);
      OneMoreCompleted(s, Step(lim, s, ops[n]).0, Assembled(lim, ops[..n]), SamplesIn(Step(lim, s, ops[n]).1),
                       if ops[n].Take? then Some(ops[n].event.assetId) else None);
    }
  }

  lemma OneMoreCompleted(s: State, r: State, before: seq<TelemetrySample>, xs: seq<TelemetrySample>,
                         own: Option<AssetId>)
    requires Increasing(before) && NoneLater(s, before) && |xs| <= 1
    requires forall a :: own != Some(a) ==> LatestOf(r, a) == LatestOf(s, a)
    requires own.Some? && LatestOf(s, own.value).Some? ==>
               LatestOf(r, own.value).Some? && LatestOf(s, own.value).value <= LatestOf(r, own.value).value
    requires xs != [] ==> own == Some(xs[0].assetId) && LatestOf(r, own.value) == Some(xs[0].timestamp)
    requires xs != [] && LatestOf(s, xs[0].assetId).Some? ==> LatestOf(s, xs[0].assetId).value < xs[0].timestamp
    ensures Increasing(before + xs) && NoneLater(r, before + xs)
  {
    hide LatestOf;
  }

  /** Cross-layer non-interference: for a fleet that fits, what asset `a` is told is what a fresh assembler and
      a fresh session would tell it, fed only `a`'s events and the same sweeps. */
  lemma InferenceDoesNotInterfere(lim: Limits, sys: S.FaultSystem, ops: seq<Op>, a: AssetId)
    requires lim.Valid() && sys.WellFormed() && OpsValid(ops) && |AssetsOf(ops)| <= lim.maxAssets
    ensures var alone := Assembled(lim, Project(ops, a));
            && S.OpsComplete(OffersOf(alone, a))
            && RepliesTo(Inferred(lim, sys, ops).1, a) == S.SessionRun(sys, a, OffersOf(alone, a)).1
  {
    AssembledIsReadable(lim, ops);
    AssembledIsReadable(lim, Project(ops, a));
    RoutingDoesNotInterfere(sys, Assembled(lim, ops), a);
    AssetsDoNotInterfere(lim, ops, a);
    OffersComeFromOwnOutcomes(lim, ops, a);
    OffersComeFromOwnOutcomes(lim, Project(ops, a), a);
    AboutTwice(Reported(lim, ops), a);
  }

  lemma {:induction false} AboutTwice(outs: seq<Outcome>, a: AssetId)
    ensures About(About(outs, a), a) == About(outs, a)
  {
    if outs != [] {
      var n := |outs| - 1;
      AboutTwice(outs[..n], a);
      AboutConcat(About(outs[..n], a), if outs[n].asset == a then [outs[n]] else [], a);
    }
  }

  predicate AllFit(outs: seq<Outcome>) { forall i :: 0 <= i < |outs| ==> SampleFits(outs[i]) }

  lemma OffersSnoc(xs: seq<TelemetrySample>, x: TelemetrySample, a: AssetId)
    ensures OffersOf(xs + [x], a) == OffersOf(xs, a) + if x.assetId == a then [S.Offer(x)] else []
  {
    assert (xs + [x])[..|xs|] == xs;
  }

  lemma {:induction false} OffersByAsset(outs: seq<Outcome>, a: AssetId)
    requires AllFit(outs)
    ensures OffersOf(SamplesIn(outs), a) == OffersOf(SamplesIn(About(outs, a)), a)
  {
    if outs != [] {
      var n := |outs| - 1;
      var o := outs[n];
      assert SampleFits(o);
      OffersByAsset(outs[..n], a);
      SamplesSplit(outs, a);
      hide OffersOf; hide SamplesIn; hide About;
      if o.Complete? {
        OffersSnoc(SamplesIn(outs[..n]), o.sample, a);
        OffersSnoc(SamplesIn(About(outs[..n], a)), o.sample, a);
      }
    }
  }

  /** What the last outcome adds to the samples of all, and to those about `a`. */
  lemma SamplesSplit(outs: seq<Outcome>, a: AssetId)
    requires outs != []
    ensures var n := |outs| - 1; var o := outs[n];
            && SamplesIn(outs) == (if o.Complete? then SamplesIn(outs[..n]) + [o.sample] else SamplesIn(outs[..n]))
            && SamplesIn(About(outs, a)) ==
               (if o.Complete? && o.asset == a then SamplesIn(About(outs[..n], a)) + [o.sample]
                else SamplesIn(About(outs[..n], a)))
  {
    var n := |outs| - 1;
    var o := outs[n];
    if o.asset == a {
      SamplesConcat(About(outs[..n], a), [o]);
      SamplesSnoc([o]);
    } else {
      assert About(outs, a) == About(outs[..n], a);
    }
  }

  lemma OffersComeFromOwnOutcomes(lim: Limits, ops: seq<Op>, a: AssetId)
    requires lim.Valid() && OpsValid(ops)
    ensures OffersOf(Assembled(lim, ops), a) == OffersOf(SamplesIn(About(Reported(lim, ops), a)), a)
  {
    ReportedFits(lim, ops);
    OffersByAsset(Reported(lim, ops), a);
  }

  lemma {:induction false} ReportedFits(lim: Limits, ops: seq<Op>)
    requires lim.Valid() && OpsValid(ops)
    ensures AllFit(Reported(lim, ops))
  {
    hide Ingest; hide Sweep; hide Valid;
    if ops != [] {
      var n := |ops| - 1;
      ReportedFits(lim, ops[..n]);
      var s := After(lim, ops[..n]);
      assert OpValid(ops[n]);
      match ops[n]
      case SweepAt(now) => SweepFits(lim, s, now);
      case Take(e, now) => IngestLatest(lim, s, e, now);
    }
  }

  lemma SweepFits(lim: Limits, s: State, now: real)
    requires Valid(lim, s)
    ensures AllFit(Sweep(lim, s, now).1)
  {
    SweepOutcomesFit(lim, s.order, s.buffers, now);
  }

  lemma {:induction false} SweepOutcomesFit(lim: Limits, order: seq<AssetId>, buffers: map<AssetId, AssetBuffer>,
                                            now: real)
    requires forall x :: x in order ==> x in buffers && KeysMatch(buffers[x])
    ensures AllFit(SweepOutcomes(lim, order, buffers, now))
  {
    if order != [] {
      assert order[|order| - 1] in order;
      SweepOutcomesFit(lim, order[..|order| - 1], buffers, now);
    }
  }
}
