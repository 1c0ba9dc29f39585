/** Non-interference: while every reporting asset fits, each asset sees exactly what it would
    see if it were the only one. */
module AssemblyIsolation {
  import opened Basics
  import opened Telemetry
  import opened TelemetryEvents
  import opened Assembly
  import opened AssemblyOrder

  /** The outcomes that concern asset `a`. */
  function About(outs: seq<Outcome>, a: AssetId): seq<Outcome> {
    if outs == [] then []
    else
      var n := |outs| - 1;
      About(outs[..n], a) + if outs[n].asset == a then [outs[n]] else []
  }

  lemma {:induction false} AboutConcat(x: seq<Outcome>, y: seq<Outcome>, a: AssetId)
    ensures About(x + y, a) == About(x, a) + About(y, a)
  {
    if y == [] {
      assert x + y == x;
    } else {
      var n := |y| - 1;
      assert (x + y)[..|x + y| - 1] == x + y[..n];
      AboutConcat(x, y[..n], a);
    }
  }

  lemma {:induction false} AboutUniform(outs: seq<Outcome>, own: AssetId, a: AssetId)
    requires forall i :: 0 <= i < |outs| ==> outs[i].asset == own
    ensures About(outs, a) == if own == a then outs else []
  {
    if outs != [] {
      AboutUniform(outs[..|outs| - 1], own, a);
    }
  }

  /** The run as asset `a` alone would have produced it: its events, and every sweep. */
  function Project(ops: seq<Op>, a: AssetId): (r: seq<Op>)
    ensures OpsValid(ops) ==> OpsValid(r)
  {
    if ops == [] then []
    else
      var n := |ops| - 1;
      Project(ops[..n], a) + if ops[n].Take? && ops[n].event.assetId != a then [] else [ops[n]]
  }

  function BufferOf(s: State, a: AssetId): Option<AssetBuffer> {
    if a in s.buffers then Some(s.buffers[a]) else None
  }

  // --- one asset's own view of a run ---------------------------------------------

  ghost predicate LocalValid(lim: Limits, b: Option<AssetBuffer>) { b.Some? ==> BufferValid(lim, b.value) }

  ghost function LocalStep(lim: Limits, b: Option<AssetBuffer>, a: AssetId, op: Op)
    : (r: (Option<AssetBuffer>, seq<Outcome>))
    requires lim.Valid() && LocalValid(lim, b) && OpValid(op)
    ensures LocalValid(lim, r.0)
  {
    match op
    case Take(e, now) =>
      if e.assetId != a then (b, [])
      else
        var own := if b.Some? then b.value else EmptyBuffer(now);
        BufferIngestKeepsValid(lim, own, e, now);
        var (after, outs) := BufferIngest(own, e, now, lim.maxBuffered);
        (Some(after), outs)
    case SweepAt(now) =>
      if b.None? then (None, [])
      else
        BufferSweepKeepsValid(lim, b.value, a, now);
        var (after, outs) := BufferSweep(b.value, a, now, lim.timeout);
        (Some(after), outs)
  }

  ghost function Local(lim: Limits, ops: seq<Op>, a: AssetId): (r: (Option<AssetBuffer>, seq<Outcome>))
    requires lim.Valid() && OpsValid(ops)
    ensures LocalValid(lim, r.0)
  {
    if ops == [] then (None, [])
    else
      var n := |ops| - 1;
      var (b, outs) := Local(lim, ops[..n], a);
      var (b', outs') := LocalStep(lim, b, a, ops[n]);
      (b', outs + outs')
  }

  lemma BufferIngestAsset(b: AssetBuffer, e: Event, now: real, maxBuffered: nat)
    requires KeysMatch(b)
    ensures var outs := BufferIngest(b, e, now, maxBuffered).1;
            forall i :: 0 <= i < |outs| ==> outs[i].asset == e.assetId
  {
  }

  lemma {:induction false} SweepAbout(lim: Limits, order: seq<AssetId>, buffers: map<AssetId, AssetBuffer>,
                                      now: real, a: AssetId)
    requires Distinct(order)
    requires forall x :: x in order ==> x in buffers && KeysMatch(buffers[x])
    ensures About(SweepOutcomes(lim, order, buffers, now), a) ==
            if a in order then BufferSweep(buffers[a], a, now, lim.timeout).1 else []
  {
    if order != [] {
      var n := |order| - 1;
      var last := order[n];
      assert order == order[..n] + [last];
      assert last !in order[..n] && last in order;
      SweepAbout(lim, order[..n], buffers, now, a);
      var outs := BufferSweep(buffers[last], last, now, lim.timeout).1;
      AboutConcat(SweepOutcomes(lim, order[..n], buffers, now), outs, a);
      AboutUniform(outs, last, a);
    }
  }

  lemma TakeIsLocal(lim: Limits, s: State, e: Event, now: real)
    requires lim.Valid() && Valid(lim, s) && e.Valid() && !EvictsAsset(lim, s, Take(e, now))
    ensures Ingest(lim, s, e, now).1 == BufferIngest(OwnBuffer(s, e.assetId, now), e, now, lim.maxBuffered).1
    ensures forall a :: a in s.buffers ==> a in Ingest(lim, s, e, now).0.buffers
  {
    hide BufferIngest;
    BufferForKeepsValid(lim, s, e.assetId, now);
    assert BufferFor(lim, s, e.assetId, now).1 == [];
  }

  /** One step of the shared assembler looks to `a` like one step of its own. */
  lemma StepIsLocal(lim: Limits, s: State, op: Op, a: AssetId)
    requires lim.Valid() && Valid(lim, s) && OpValid(op) && !EvictsAsset(lim, s, op)
    ensures LocalValid(lim, BufferOf(s, a))
    ensures BufferOf(Step(lim, s, op).0, a) == LocalStep(lim, BufferOf(s, a), a, op).0
    ensures About(Step(lim, s, op).1, a) == LocalStep(lim, BufferOf(s, a), a, op).1
  {
    match op
    case SweepAt(now) =>
      hide BufferSweep; hide BufferIngest;
      SweepAbout(lim, s.order, s.buffers, now, a);
    case Take(e, now) =>
      hide BufferIngest; hide BufferSweep; hide Ingest; hide BufferValid;
      TakeIsLocal(lim, s, e, now);
      IngestIsLocal(lim, s, e, now);
      var own := OwnBuffer(s, e.assetId, now);
      BufferIngestAsset(own, e, now, lim.maxBuffered);
      AboutUniform(BufferIngest(own, e, now, lim.maxBuffered).1, e.assetId, a);
  }

  lemma {:induction false} SharedRunIsLocal(lim: Limits, ops: seq<Op>, a: AssetId)
    requires lim.Valid() && OpsValid(ops) && !EverEvicts(lim, ops)
    ensures BufferOf(After(lim, ops), a) == Local(lim, ops, a).0
    ensures About(Reported(lim, ops), a) == Local(lim, ops, a).1
  {
    hide Step; hide LocalStep; hide Valid;
    if ops != [] {
      var n := |ops| - 1;
      var s := After(lim, ops[..n]);
      SharedRunIsLocal(lim, ops[..n], a);
      assert OpValid(ops[n]);
      StepIsLocal(lim, s, ops[n], a);
      AboutConcat(Reported(lim, ops[..n]), Step(lim, s, ops[n]).1, a);
    }
  }

  lemma {:induction false} LocalIgnoresOthers(lim: Limits, ops: seq<Op>, a: AssetId)
    requires lim.Valid() && OpsValid(ops)
    ensures Local(lim, Project(ops, a), a) == Local(lim, ops, a)
  {
    if ops != [] {
      var n := |ops| - 1;
      LocalIgnoresOthers(lim, ops[..n], a);
      var kept := Project(ops[..n], a);
      assert OpValid(ops[n]);
      if ops[n].Take? && ops[n].event.assetId != a {
        assert Project(ops, a) == kept;
        var r := Local(lim, ops[..n], a);
        assert r.1 + [] == r.1;
      } else {
        assert Project(ops, a) == kept + [ops[n]];
        assert Project(ops, a)[..|kept|] == kept;
      }
    }
  }

  lemma {:induction false} ProjectAssets(ops: seq<Op>, a: AssetId)
    ensures AssetsOf(Project(ops, a)) <= {a}
  {
    if ops != [] {
      ProjectAssets(ops[..|ops| - 1], a);
      if Project(ops, a) != [] { AssetsOfPrefix(Project(ops, a)); }
      assert ops[|ops| - 1].Take? && ops[|ops| - 1].event.assetId != a ==>
          Project(ops, a) == Project(ops[..|ops| - 1], a);
      assert !(ops[|ops| - 1].Take? && ops[|ops| - 1].event.assetId != a) ==>
             Project(ops, a)[..|Project(ops, a)| - 1] == Project(ops[..|ops| - 1], a);
    }
  }

  lemma ProjectionFits(lim: Limits, ops: seq<Op>, a: AssetId)
    requires lim.Valid() && OpsValid(ops)
    ensures !EverEvicts(lim, Project(ops, a))
  {
    ProjectAssets(ops, a);
    SubsetSize(AssetsOf(Project(ops, a)), {a});
    EvictsExactlyWhenFleetDoesNotFit(lim, Project(ops, a));
  }

  /** Non-interference: for every interleaving of a fleet that fits, asset `a`'s buffer and reported
      outcomes are those of a fresh assembler fed only `a`'s events and the same sweeps. */
  lemma AssetsDoNotInterfere(lim: Limits, ops: seq<Op>, a: AssetId)
    requires lim.Valid() && OpsValid(ops) && |AssetsOf(ops)| <= lim.maxAssets
    ensures BufferOf(After(lim, ops), a) == BufferOf(After(lim, Project(ops, a)), a)
    ensures About(Reported(lim, ops), a) == Reported(lim, Project(ops, a))
  {
    hide Step; hide LocalStep; hide Valid; hide AssetsOf; hide EverEvicts; hide Local; hide Reported; hide After;
    hide Project;
    ProjectAssets(ops, a);
    EvictsExactlyWhenFleetDoesNotFit(lim, ops);
    ProjectionFits(lim, ops, a);
    SharedRunIsLocal(lim, ops, a);
    SharedRunIsLocal(lim, Project(ops, a), a);
    LocalIgnoresOthers(lim, ops, a);
    AloneReportsOnlyItself(lim, Project(ops, a), a);
  }

  lemma {:induction false} AloneReportsOnlyItself(lim: Limits, ops: seq<Op>, a: AssetId)
    requires lim.Valid() && OpsValid(ops) && AssetsOf(ops) <= {a}
    ensures About(Reported(lim, ops), a) == Reported(lim, ops)
  {
    SubsetSize(AssetsOf(ops), {a});
    EvictsExactlyWhenFleetDoesNotFit(lim, ops);
    EveryOutcomeIsAbout(lim, ops);
    AboutUniform(Reported(lim, ops), a, a);
  }

  /** Without evictions every outcome is about an asset that has reported. */
  lemma {:induction false} EveryOutcomeIsAbout(lim: Limits, ops: seq<Op>)
    requires lim.Valid() && OpsValid(ops) && !EverEvicts(lim, ops)
    ensures forall i :: 0 <= i < |Reported(lim, ops)| ==> Reported(lim, ops)[i].asset in AssetsOf(ops)
  {
    hide Valid; hide EvictsAsset; hide Ingest; hide Sweep;
    if ops != [] {
      var n := |ops| - 1;
      EveryOutcomeIsAbout(lim, ops[..n]);
      AssetsOfPrefix(ops);
      TracksEveryAsset(lim, ops);
      var s := After(lim, ops[..n]);
      assert OpValid(ops[n]);
      StepReportsTracked(lim, s, ops[n]);
    }
  }

  lemma StepReportsTracked(lim: Limits, s: State, op: Op)
    requires lim.Valid() && Valid(lim, s) && OpValid(op) && !EvictsAsset(lim, s, op)
    ensures var (after, outs) := Step(lim, s, op);
            forall i :: 0 <= i < |outs| ==> outs[i].asset in after.buffers.Keys
  {
    match op
    case SweepAt(now) => SweepReportsTracked(lim, s.order, s.buffers, now);
    case Take(e, now) =>
      BufferForKeepsValid(lim, s, e.assetId, now);
      var own := BufferFor(lim, s, e.assetId, now).0.buffers[e.assetId];
      BufferIngestAsset(own, e, now, lim.maxBuffered);
  }

  lemma {:induction false} SweepReportsTracked(lim: Limits, order: seq<AssetId>, buffers: map<AssetId, AssetBuffer>,
                                               now: real)
    requires forall x :: x in order ==> x in buffers && KeysMatch(buffers[x])
    ensures forall i :: 0 <= i < |SweepOutcomes(lim, order, buffers, now)| ==>
            SweepOutcomes(lim, order, buffers, now)[i].asset in buffers.Keys
  {
    if order != [] {
      var last := order[|order| - 1];
      assert last in order;
      SweepReportsTracked(lim, order[..|order| - 1], buffers, now);
    }
  }
}
