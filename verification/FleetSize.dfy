/** The exact condition for cross-layer safety. Evicting an asset makes the assembler forget its last completed
    timestamp while its session remembers it; so the layers agree for every run of a fleet if and only if the
    fleet is no larger than the number of assets the assembler may track. */
module FleetSize {
  import opened Basics
  import opened Telemetry
  import opened TelemetryEvents
  import opened Assembly
  import opened AssemblyConservation
  import opened AssemblyOrder
  import opened AssemblyContent
  import opened Pipeline
  import S = InferenceSession

  /** The `k`-th required reading of sample (`a`, `t`). */
  function ReadingEvent(a: AssetId, t: Timestamp, k: nat): Event
    requires k < |REQUIRED|
  {
    Event("reading", a, t, REQUIRED[k], 0.0, CanonicalUnit(REQUIRED[k]))
  }

  /** The first `k` readings of sample (`a`, `t`), all sent at clock reading zero. */
  function Sends(a: AssetId, t: Timestamp, k: nat): (r: seq<Op>)
    requires k <= |REQUIRED|
    ensures |r| == k && (a != "" ==> OpsValid(r))
    ensures forall i :: 0 <= i < k ==> r[i] == Take(ReadingEvent(a, t, i), 0.0)
  {
    if k == 0 then [] else Sends(a, t, k - 1) + [Take(ReadingEvent(a, t, k - 1), 0.0)]
  }

  ghost predicate HasFirst(readings: map<Measurement, Reading>, k: nat)
    requires k <= |REQUIRED|
  {
    forall m :: m in readings <==> m in REQUIRED[..k]
  }

  lemma FirstReadingsGrow(readings: map<Measurement, Reading>, k: nat, r: Reading)
    requires k < |REQUIRED| && HasFirst(readings, k)
    ensures REQUIRED[k] !in readings
    ensures HasFirst(readings[REQUIRED[k] := r], k + 1)
    ensures HasAllRequired(readings[REQUIRED[k] := r]) <==> k + 1 == |REQUIRED|
  {
    assert Distinct(REQUIRED);
    assert REQUIRED[..k + 1] == REQUIRED[..k] + [REQUIRED[k]];
    forall m ensures m in REQUIRED <==> IsRequired(m) { RequiredIsEveryMeasurementButEfficiency(m); }
    assert REQUIRED[..|REQUIRED|] == REQUIRED;
    if k + 1 < |REQUIRED| {
      assert REQUIRED[k + 1] !in REQUIRED[..k + 1];
      assert REQUIRED[k + 1] in REQUIRED;
    }
  }

  function Slot(s: State, a: AssetId, t: Timestamp): map<Measurement, Reading> {
    if IsBuffered(s, a, t) then s.buffers[a].pending[t].readings else map[]
  }

  /** The slot of (`a`, `t`) holds the first `k` readings, and new ones are still welcome. */
  ghost predicate Holding(s: State, a: AssetId, t: Timestamp, k: nat)
    requires k <= |REQUIRED|
  {
    && (LatestOf(s, a).None? || LatestOf(s, a).value < t)
    && HasFirst(Slot(s, a, t), k) && Identified(Slot(s, a, t))
  }

  lemma SendOne(lim: Limits, s: State, a: AssetId, t: Timestamp, k: nat)
    requires lim.Valid() && Valid(lim, s) && a != "" && k < |REQUIRED| && Holding(s, a, t, k)
    ensures var (r, outs) := Ingest(lim, s, ReadingEvent(a, t, k), 0.0);
            if k + 1 < |REQUIRED| then Holding(r, a, t, k + 1) && SamplesIn(outs) == []
            else |SamplesIn(outs)| == 1 && S.Complete(SamplesIn(outs)[0])
                 && SamplesIn(outs)[0].assetId == a && SamplesIn(outs)[0].timestamp == t
  {
    hide BufferIngest; hide BufferValid; hide BufferFor;
    var e := ReadingEvent(a, t, k);
    StepTakes(lim, s, Take(e, 0.0));
    IngestIsLocal(lim, s, e, 0.0);
    IngestEndsWithOwn(lim, s, e, 0.0);
    IngestSamples(lim, s, e, 0.0);
    IngestLatest(lim, s, e, 0.0);
    var own := OwnBuffer(s, a, 0.0);
    BufferIngestAt(own, e, 0.0, lim.maxBuffered, t);
    FirstReadingsGrow(OldReadings(own, t), k, ReadingOf(e));
    SamplesSnoc(Ingest(lim, s, e, 0.0).1);
  }

  /** Sending fewer than all readings changes no session. */
  lemma {:induction false} SendSome(lim: Limits, sys: S.FaultSystem, ops: seq<Op>, a: AssetId, t: Timestamp, k: nat)
    requires lim.Valid() && sys.WellFormed() && OpsValid(ops) && a != "" && k < |REQUIRED|
    requires Holding(After(lim, ops), a, t, 0)
    ensures OpsValid(ops + Sends(a, t, k))
    ensures Holding(After(lim, ops + Sends(a, t, k)), a, t, k)
    ensures Inferred(lim, sys, ops + Sends(a, t, k)) == Inferred(lim, sys, ops)
  {
    hide Step; hide Valid; hide Holding; hide Inferred;
    if k == 0 {
      assert ops + Sends(a, t, 0) == ops;
    } else {
      SendSome(lim, sys, ops, a, t, k - 1);
      var before, all := ops + Sends(a, t, k - 1), ops + Sends(a, t, k);
      var op := Take(ReadingEvent(a, t, k - 1), 0.0);
      assert all == before + [op] && all[..|all| - 1] == before && OpValid(op);
      AfterSnoc(lim, before, op);
      SendOne(lim, After(lim, before), a, t, k - 1);
      StepTakes(lim, After(lim, before), op);
      InferredSnoc(lim, sys, all);
    }
  }

  lemma StepTakes(lim: Limits, s: State, op: Op)
    requires lim.Valid() && Valid(lim, s) && OpValid(op) && op.Take?
    ensures (forall a :: a in s.order <==> a in s.buffers) && (forall a :: a in s.buffers ==> KeysMatch(s.buffers[a]))
    ensures Step(lim, s, op) == Ingest(lim, s, op.event, op.now)
  {
  }

  /** Sending all readings routes one sample of (`a`, `t`) to its session. */
  lemma SendAll(lim: Limits, sys: S.FaultSystem, ops: seq<Op>, a: AssetId, t: Timestamp)
    requires lim.Valid() && sys.WellFormed() && OpsValid(ops) && a != ""
    requires Holding(After(lim, ops), a, t, 0)
    ensures OpsValid(ops + Sends(a, t, |REQUIRED|))
    ensures var last := LastOf(Inferred(lim, sys, ops).0, a);
            var refused := last.Some? && t <= last.value;
            var (ss, replies) := Inferred(lim, sys, ops + Sends(a, t, |REQUIRED|));
            && LastOf(ss, a).Some? && t <= LastOf(ss, a).value
            && replies != [] && (replies[|replies| - 1].reply.Refused? <==> refused)
  {
    hide Step; hide Valid; hide Holding; hide Inferred; hide Route;
    var k := |REQUIRED|;
    SendSome(lim, sys, ops, a, t, k - 1);
    var before, all := ops + Sends(a, t, k - 1), ops + Sends(a, t, k);
    var op := Take(ReadingEvent(a, t, k - 1), 0.0);
    assert all == before + [op] && all[..|all| - 1] == before && OpValid(op);
    AfterSnoc(lim, before, op);
    SendOne(lim, After(lim, before), a, t, k - 1);
    StepTakes(lim, After(lim, before), op);
    InferredSnoc(lim, sys, all);
    RouteLast(sys, Inferred(lim, sys, before).0, SamplesIn(Step(lim, After(lim, before), op).1)[0]);
  }

  /** One first reading from each of `others`, in order. */
  function Greetings(others: seq<AssetId>): (r: seq<Op>)
    ensures |r| == |others|
    ensures forall i :: 0 <= i < |others| ==> r[i] == Take(ReadingEvent(others[i], 0, 0), 0.0)
  {
    seq(|others|, i requires 0 <= i < |others| => Take(ReadingEvent(others[i], 0, 0), 0.0))
  }

  ghost predicate Crowd(lim: Limits, a: AssetId, others: seq<AssetId>) {
    && Distinct(others) && a !in others && a != "" && "" !in others && |others| == lim.maxAssets
  }

  /** The queue of assets while the crowd arrives: `a` is first to go, and goes with the last arrival. */
  lemma {:induction false} CrowdQueue(lim: Limits, sys: S.FaultSystem, ops: seq<Op>, a: AssetId,
                                      others: seq<AssetId>, j: nat)
    requires lim.Valid() && sys.WellFormed() && OpsValid(ops) && Crowd(lim, a, others) && j <= |others|
    requires After(lim, ops).order == [a]
    ensures OpsValid(ops + Greetings(others[..j]))
    ensures After(lim, ops + Greetings(others[..j])).order ==
            if j < lim.maxAssets then [a] + others[..j] else others
    ensures Inferred(lim, sys, ops + Greetings(others[..j])) == Inferred(lim, sys, ops)
  {
    hide Step; hide Valid; hide Inferred; hide Crowd; hide AssetsOf; hide SamplesIn; hide Ingest; hide Distinct;
    hide OpsValid; hide After; hide Greetings; hide S.FaultSystem.WellFormed;
    CrowdAssets(lim, a, others);
    if j == 0 {
      assert ops + Greetings(others[..0]) == ops;
    } else {
      CrowdQueue(lim, sys, ops, a, others, j - 1);
      var before, all := ops + Greetings(others[..j - 1]), ops + Greetings(others[..j]);
      var op := Take(ReadingEvent(others[j - 1], 0, 0), 0.0);
      GreetingsGrow(ops, others, j);
      AfterSnoc(lim, before, op);
      CrowdArrival(lim, After(lim, before), op, a, others, j);
      InferredSnoc(lim, sys, all);
    }
  }

  lemma GreetingsGrow(ops: seq<Op>, others: seq<AssetId>, j: nat)
    requires 0 < j <= |others| && others[j - 1] != ""
    ensures var before, all := ops + Greetings(others[..j - 1]), ops + Greetings(others[..j]);
            var op := Take(ReadingEvent(others[j - 1], 0, 0), 0.0);
            all == before + [op] && all[..|all| - 1] == before && OpValid(op)
  {
  }

  lemma CrowdArrival(lim: Limits, s: State, op: Op, a: AssetId, others: seq<AssetId>, j: nat)
    requires lim.Valid() && Valid(lim, s) && Crowd(lim, a, others) && 0 < j <= |others|
    requires s.order == [a] + others[..j - 1] && op == Take(ReadingEvent(others[j - 1], 0, 0), 0.0) && OpValid(op)
    ensures Step(lim, s, op).0.order == if j < lim.maxAssets then [a] + others[..j] else others
    ensures SamplesIn(Step(lim, s, op).1) == []
  {
    hide Ingest; hide Valid;
    StepTakes(lim, s, op);
    Arrival(lim, s, op.event);
    assert j < lim.maxAssets ==> [a] + others[..j - 1] + [others[j - 1]] == [a] + others[..j];
    assert j == lim.maxAssets ==> ([a] + others[..j - 1])[1..] + [others[j - 1]] == others;
  }

  lemma CrowdAssets(lim: Limits, a: AssetId, others: seq<AssetId>)
    requires Crowd(lim, a, others)
    ensures |others| == lim.maxAssets
    ensures forall i :: 0 <= i < |others| ==> others[i] != a && others[i] != ""
    ensures forall i, j :: 0 <= i < j < |others| ==> others[i] != others[j]
  {
  }

  /** A first reading of a new asset joins the end of the queue and completes nothing. */
  lemma Arrival(lim: Limits, s: State, e: Event)
    requires lim.Valid() && Valid(lim, s) && e.Valid() && e == ReadingEvent(e.assetId, 0, 0) && e.assetId !in s.order
    ensures var (r, outs) := Ingest(lim, s, e, 0.0);
            && r.order == (if |s.order| >= lim.maxAssets then s.order[1..] else s.order) + [e.assetId]
            && SamplesIn(outs) == []
  {
    assert HasFirst(map[], 0);
    SendOne(lim, s, e.assetId, 0, 0);
  }

  /** The witness run: complete a sample of `a`, let a crowd push `a` out, and complete the sample again. */
  lemma CrowdBreaksSafety(lim: Limits, sys: S.FaultSystem, a: AssetId, others: seq<AssetId>) returns (ops: seq<Op>)
    requires lim.Valid() && sys.WellFormed() && Crowd(lim, a, others)
    ensures OpsValid(ops) && OpsIdentified(ops) && Monotonic(ops) && !Safe(lim, sys, ops)
    ensures forall b :: b in AssetsOf(ops) ==> b == a || b in others
  {
    hide Step; hide Valid; hide Inferred; hide Crowd; hide After; hide OpsValid; hide Holding; hide Safe;
    hide S.FaultSystem.WellFormed;
    hide Monotonic; hide AssetsOf; hide OpsIdentified; hide Sends; hide Greetings;
    assert a != "" by { CrowdName(lim, a, others); }
    var full := |REQUIRED|;
    var first := Sends(a, 0, full);
    assert [] + first == first;
    NothingHeld(lim, a);
    NothingYet();
    SendAll(lim, sys, [], a, 0);
    AloneInQueue(lim, a);
    CrowdQueue(lim, sys, first, a, others, |others|);
    var crowded := first + Greetings(others[..|others|]);
    assert others[..|others|] == others;
    CrowdAssets(lim, a, others);
    GoneHoldsNothing(lim, crowded, a);
    SendAll(lim, sys, crowded, a, 0);
    ops := crowded + Sends(a, 0, full);
    CrowdOps(a, others, full);
    UnsafeByLastReply(lim, sys, ops);
  }

  /** The witness run takes place at one instant and involves no other asset. */
  lemma CrowdOps(a: AssetId, others: seq<AssetId>, full: nat)
    requires full <= |REQUIRED|
    ensures var ops := Sends(a, 0, full) + Greetings(others) + Sends(a, 0, full);
            Monotonic(ops) && OpsIdentified(ops) && forall b :: b in AssetsOf(ops) ==> b == a || b in others
  {
    var ops := Sends(a, 0, full) + Greetings(others) + Sends(a, 0, full);
    forall i | 0 <= i < |ops|
      ensures ops[i].now == 0.0 && ops[i].Take? && (ops[i].event.assetId == a || ops[i].event.assetId in others)
    {
    }
  }

  lemma UnsafeByLastReply(lim: Limits, sys: S.FaultSystem, ops: seq<Op>)
    requires lim.Valid() && sys.WellFormed() && OpsValid(ops)
    requires var replies := Inferred(lim, sys, ops).1; replies != [] && replies[|replies| - 1].reply.Refused?
    ensures !Safe(lim, sys, ops)
  {
  }

  lemma CrowdName(lim: Limits, a: AssetId, others: seq<AssetId>)
    requires Crowd(lim, a, others)
    ensures a != "" && a !in others
  {
  }

  lemma NothingYet()
    ensures OpsValid([])
  {
  }

  lemma NothingHeld(lim: Limits, a: AssetId)
    requires lim.Valid()
    ensures Holding(After(lim, []), a, 0, 0)
  {
  }

  lemma GoneHoldsNothing(lim: Limits, ops: seq<Op>, a: AssetId)
    requires lim.Valid() && OpsValid(ops) && a !in After(lim, ops).order
    ensures Holding(After(lim, ops), a, 0, 0)
  {
  }

  lemma AloneInQueue(lim: Limits, a: AssetId)
    requires lim.Valid() && a != ""
    ensures OpsValid(Sends(a, 0, |REQUIRED|))
    ensures After(lim, Sends(a, 0, |REQUIRED|)).order == [a]
  {
    hide AssetsOf; hide Sends; hide OpsValid; hide EverEvicts; hide After; hide Valid;
    var ops := Sends(a, 0, |REQUIRED|);
    SendsFromOne(a);
    EvictsExactlyWhenFleetDoesNotFit(lim, ops);
    TracksEveryAsset(lim, ops);
    OnlyOneTracked(lim, After(lim, ops), a);
  }

  lemma SendsFromOne(a: AssetId)
    requires a != ""
    ensures OpsValid(Sends(a, 0, |REQUIRED|)) && AssetsOf(Sends(a, 0, |REQUIRED|)) == {a}
  {
    var ops := Sends(a, 0, |REQUIRED|);
    assert ops[0].Take? && ops[0].event.assetId == a;
  }

  lemma OnlyOneTracked(lim: Limits, s: State, a: AssetId)
    requires Valid(lim, s) && s.buffers.Keys == {a} && |s.order| == 1
    ensures s.order == [a]
  {
    assert s.order[0] in s.order;
  }

  lemma {:induction false} PickDistinct(pool: set<AssetId>, n: nat) returns (picked: seq<AssetId>)
    requires |pool| >= n
    ensures |picked| == n && Distinct(picked) && forall x :: x in picked ==> x in pool
  {
    if n == 0 {
      picked := [];
    } else {
      var x :| x in pool;
      var rest := PickDistinct(pool - {x}, n - 1);
      picked := [x] + rest;
    }
  }

  /** A run of events of `fleet`, all with ids, over a clock that never goes back. */
  ghost predicate IsRunOf(ops: seq<Op>, fleet: set<AssetId>) {
    OpsValid(ops) && OpsIdentified(ops) && Monotonic(ops) && AssetsOf(ops) <= fleet
  }

  /** Every run of a fleet is safe if and only if the fleet fits; and if it fits, so is every run over any clock, with
      or without event ids. */
  lemma LayersAgreeExactlyWhenFleetFits(lim: Limits, sys: S.FaultSystem, fleet: set<AssetId>)
    requires lim.Valid() && sys.WellFormed() && "" !in fleet
    ensures (forall ops :: IsRunOf(ops, fleet) ==> Safe(lim, sys, ops)) <==> |fleet| <= lim.maxAssets
    ensures |fleet| <= lim.maxAssets ==> forall ops :: OpsValid(ops) && AssetsOf(ops) <= fleet ==> Safe(lim, sys, ops)
  {
    if |fleet| <= lim.maxAssets {
      forall ops | OpsValid(ops) && AssetsOf(ops) <= fleet ensures Safe(lim, sys, ops) {
        SubsetSize(AssetsOf(ops), fleet);
        EvictsExactlyWhenFleetDoesNotFit(lim, ops);
        LayersAgree(lim, sys, ops);
      }
    } else {
      var picked := PickDistinct(fleet, lim.maxAssets + 1);
      var a, others := picked[0], picked[1..];
      assert a in picked && forall x :: x in others ==> x in picked;
      assert Crowd(lim, a, others);
      var ops := CrowdBreaksSafety(lim, sys, a, others);
    }
  }
}
