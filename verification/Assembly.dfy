/** The assembler's behaviour on values (`backend/simulator/inference_worker/assembly.py`):
    what one event or one timeout sweep does to the two nested ordered maps. */
module Assembly {
  import opened Basics
  import opened Telemetry
  import opened TelemetryEvents

  datatype Limits = Limits(timeout: real, maxBuffered: nat, maxAssets: nat) {
    /** The worker settings reject non-positive limits. */
    predicate Valid() { timeout > 0.0 && maxBuffered > 0 && maxAssets > 0 }
  }

  datatype Reading = Reading(value: real, unit: string, eventId: string)

  datatype PendingSample = PendingSample(readings: map<Measurement, Reading>, firstSeen: real)

  /** `order` is the insertion order of the keys of `pending`. */
  datatype AssetBuffer = AssetBuffer(
    order: seq<Timestamp>, pending: map<Timestamp, PendingSample>,
    latest: Option<Timestamp>, lastActive: real)

  /** `order` is the key order of the buffers: least recently used first. */
  datatype State = State(order: seq<AssetId>, buffers: map<AssetId, AssetBuffer>)

  datatype RejectReason = IncompleteTimeout | ConflictingDuplicate | Late

  /** What an event comes to. `Aborted` is not returned to the caller: the sample is complete, but one of its readings
      has an empty event id, which no observation may have, so `ingest` raises after it has dropped the slot. */
  datatype Outcome =
    | Waiting(asset: AssetId, timestamp: Timestamp)
    | Complete(asset: AssetId, timestamp: Timestamp, sample: TelemetrySample)
    | Rejected(asset: AssetId, timestamp: Timestamp, reason: RejectReason)
    | Aborted(asset: AssetId, timestamp: Timestamp)

  const EMPTY := State([], map[])

  function EmptyBuffer(now: real): AssetBuffer { AssetBuffer([], map[], None, now) }

  // --- one asset's buffer ------------------------------------------------

  function ReadingOf(e: Event): Reading { Reading(e.value, e.unit, e.eventId) }

  predicate Agrees(r: Reading, e: Event) { r.value == e.value && r.unit == e.unit }

  function SampleOf(asset: AssetId, t: Timestamp, readings: map<Measurement, Reading>): TelemetrySample {
    TelemetrySample(asset, t, map m | m in readings :: readings[m].value, map m | m in readings :: readings[m].unit)
  }

  /** Every reading can become an observation. */
  predicate Identified(readings: map<Measurement, Reading>) {
    forall m :: m in readings ==> readings[m].eventId != ""
  }

  /** The outcome of a sample that has all its readings. */
  function Finished(asset: AssetId, t: Timestamp, readings: map<Measurement, Reading>): Outcome {
    if Identified(readings) then Complete(asset, t, SampleOf(asset, t, readings)) else Aborted(asset, t)
  }

  function Removed(b: AssetBuffer, t: Timestamp): AssetBuffer
    requires t in b.order
  {
    b.(order := Without(b.order, t), pending := b.pending - {t})
  }

  /** `_make_room`: drops the earliest-opened sample when the buffer is full. */
  function MadeRoom(b: AssetBuffer, asset: AssetId, maxBuffered: nat): (AssetBuffer, seq<Outcome>) {
    if |b.order| < maxBuffered || b.order == [] then (b, [])
    else (Removed(b, b.order[0]), [Rejected(asset, b.order[0], IncompleteTimeout)])
  }

  /** A pending slot for `t`, made if it is not there yet. */
  function Opened(b: AssetBuffer, asset: AssetId, t: Timestamp, now: real, maxBuffered: nat)
    : (r: (AssetBuffer, seq<Outcome>))
    ensures t in r.0.pending
  {
    if t in b.pending then (b, [])
    else
      var (roomy, evicted) := MadeRoom(b, asset, maxBuffered);
      (roomy.(order := roomy.order + [t], pending := roomy.pending[t := PendingSample(map[], now)]), evicted)
  }

  predicate IsLate(b: AssetBuffer, e: Event) { b.latest.Some? && e.timestamp <= b.latest.value }

  /** The open slot for `e` absorbs it: a repeat, a conflict, one more reading, or the last one. */
  function Absorbed(b: AssetBuffer, e: Event): (AssetBuffer, Outcome)
    requires e.timestamp in b.pending && e.timestamp in b.order
  {
    var p := b.pending[e.timestamp];
    if e.measurement in p.readings then
      if Agrees(p.readings[e.measurement], e) then (b, Waiting(e.assetId, e.timestamp))
      else (Removed(b, e.timestamp), Rejected(e.assetId, e.timestamp, ConflictingDuplicate))
    else
      var readings := p.readings[e.measurement := ReadingOf(e)];
      if HasAllRequired(readings) then
        (Removed(b, e.timestamp).(latest := Some(e.timestamp)), Finished(e.assetId, e.timestamp, readings))
      else
        (b.(pending := b.pending[e.timestamp := p.(readings := readings)]), Waiting(e.assetId, e.timestamp))
  }

  ghost predicate KeysMatch(b: AssetBuffer) {
    Distinct(b.order) && (forall t :: t in b.order <==> t in b.pending)
  }

  function BufferIngest(b: AssetBuffer, e: Event, now: real, maxBuffered: nat): (AssetBuffer, seq<Outcome>)
    requires KeysMatch(b)
  {
    var active := b.(lastActive := now);
    if IsLate(b, e) then (active, [Rejected(e.assetId, e.timestamp, Late)])
    else
      var (open, evicted) := Opened(active, e.assetId, e.timestamp, now, maxBuffered);
      assert e.timestamp in open.order by {
        if e.timestamp !in b.pending { assert open.order[|open.order| - 1] == e.timestamp; }
      }
      var (after, outcome) := Absorbed(open, e);
      (after, evicted + [outcome])
  }

  predicate Expired(p: PendingSample, now: real, timeout: real) { now - p.firstSeen >= timeout }

  /** The timestamps among `order` that are past the timeout (`keep == false`) or not. */
  function Partition(order: seq<Timestamp>, pending: map<Timestamp, PendingSample>, now: real, timeout: real,
                     keep: bool)
    : (r: seq<Timestamp>)
    requires forall t :: t in order ==> t in pending
    ensures forall t :: t in r <==> t in order && Expired(pending[t], now, timeout) != keep
    ensures Distinct(order) ==> Distinct(r)
    ensures |r| <= |order|
  {
    if order == [] then []
    else
      var n := |order| - 1;
      var last := order[n];
      assert order == order[..n] + [last] && last in order && last in pending;
      assert Distinct(order) ==> last !in order[..n];
      Partition(order[..n], pending, now, timeout, keep) +
      (if Expired(pending[last], now, timeout) != keep then [last] else [])
  }

  function Rejections(asset: AssetId, ts: seq<Timestamp>): (r: seq<Outcome>)
    ensures |r| == |ts|
    ensures forall i :: 0 <= i < |ts| ==> r[i] == Rejected(asset, ts[i], IncompleteTimeout)
  {
    seq(|ts|, i requires 0 <= i < |ts| => Rejected(asset, ts[i], IncompleteTimeout))
  }

  function BufferSweep(b: AssetBuffer, asset: AssetId, now: real, timeout: real): (AssetBuffer, seq<Outcome>)
    requires KeysMatch(b)
  {
    var kept := Partition(b.order, b.pending, now, timeout, true);
    (b.(order := kept, pending := map t | t in b.pending && t in kept :: b.pending[t]),
     Rejections(asset, Partition(b.order, b.pending, now, timeout, false)))
  }

  // --- the whole assembler -------------------------------------------------

  predicate Incomplete(p: PendingSample) { !HasAllRequired(p.readings) }

  ghost predicate BufferValid(lim: Limits, b: AssetBuffer) {
    && KeysMatch(b)
    && |b.order| <= lim.maxBuffered
    && (forall t :: t in b.pending ==> b.pending[t].readings != map[] && Incomplete(b.pending[t]))
    && (forall t, m :: t in b.pending && m in b.pending[t].readings ==>
          b.pending[t].readings[m].unit == CanonicalUnit(m))
  }

  ghost predicate Valid(lim: Limits, s: State) {
    && Distinct(s.order)
    && (forall a :: a in s.order <==> a in s.buffers)
    && |s.order| <= lim.maxAssets
    && (forall a :: a in s.buffers ==> BufferValid(lim, s.buffers[a]))
  }

  /** `_buffer_for`: finds or creates the buffer, evicting the least recently used asset when full. */
  function BufferFor(lim: Limits, s: State, asset: AssetId, now: real): (State, seq<Outcome>)
    requires forall a :: a in s.order <==> a in s.buffers
  {
    if asset in s.buffers then (s.(order := MovedToEnd(s.order, asset)), [])
    else if |s.order| >= lim.maxAssets && s.order != [] then
      var gone := s.order[0];
      assert gone in s.buffers;
      (State(s.order[1..] + [asset], (s.buffers - {gone})[asset := EmptyBuffer(now)]),
       Rejections(gone, s.buffers[gone].order))
    else
      (State(s.order + [asset], s.buffers[asset := EmptyBuffer(now)]), [])
  }

  function Ingest(lim: Limits, s: State, e: Event, now: real): (State, seq<Outcome>)
    requires forall a :: a in s.order <==> a in s.buffers
    requires forall a :: a in s.buffers ==> KeysMatch(s.buffers[a])
  {
    var (found, evicted) := BufferFor(lim, s, e.assetId, now);
    var (b, outcomes) := BufferIngest(found.buffers[e.assetId], e, now, lim.maxBuffered);
    (found.(buffers := found.buffers[e.assetId := b]), evicted + outcomes)
  }

  function SweepOutcomes(lim: Limits, order: seq<AssetId>, buffers: map<AssetId, AssetBuffer>, now: real): seq<Outcome>
    requires forall a :: a in order ==> a in buffers && KeysMatch(buffers[a])
  {
    if order == [] then []
    else
      var n := |order| - 1;
      SweepOutcomes(lim, order[..n], buffers, now) + BufferSweep(buffers[order[n]], order[n], now, lim.timeout).1
  }

  function Sweep(lim: Limits, s: State, now: real): (State, seq<Outcome>)
    requires forall a :: a in s.order <==> a in s.buffers
    requires forall a :: a in s.buffers ==> KeysMatch(s.buffers[a])
  {
    (s.(buffers := map a | a in s.buffers :: BufferSweep(s.buffers[a], a, now, lim.timeout).0),
     SweepOutcomes(lim, s.order, s.buffers, now))
  }

  // --- runs ------------------------------------------------------------------

  datatype Op = Take(event: Event, now: real) | SweepAt(now: real)

  predicate OpValid(op: Op) { op.Take? ==> op.event.Valid() }

  predicate OpsValid(ops: seq<Op>) { forall i :: 0 <= i < |ops| ==> OpValid(ops[i]) }

  ghost function Step(lim: Limits, s: State, op: Op): (r: (State, seq<Outcome>))
    requires lim.Valid() && Valid(lim, s) && OpValid(op)
    ensures Valid(lim, r.0)
  {
    match op
    case Take(e, now) => IngestKeepsValid(lim, s, e, now); Ingest(lim, s, e, now)
    case SweepAt(now) => SweepKeepsValid(lim, s, now); Sweep(lim, s, now)
  }

  ghost function After(lim: Limits, ops: seq<Op>): (s: State)
    requires lim.Valid() && OpsValid(ops)
    ensures Valid(lim, s)
  {
    if ops == [] then EMPTY
    else Step(lim, After(lim, ops[..|ops| - 1]), ops[|ops| - 1]).0
  }

  /** Every outcome along the run, in order. */
  ghost function Reported(lim: Limits, ops: seq<Op>): seq<Outcome>
    requires lim.Valid() && OpsValid(ops)
  {
    if ops == [] then []
    else
      Reported(lim, ops[..|ops| - 1]) + Step(lim, After(lim, ops[..|ops| - 1]), ops[|ops| - 1]).1
  }

  /** The readings `e` completes its slot to, if it does. */
  function CompletedBy(s: State, e: Event): Option<map<Measurement, Reading>> {
    if e.assetId in s.buffers && e.timestamp in s.buffers[e.assetId].pending && !IsLate(s.buffers[e.assetId], e) then
      var readings := s.buffers[e.assetId].pending[e.timestamp].readings;
      if e.measurement !in readings && HasAllRequired(readings[e.measurement := ReadingOf(e)])
      then Some(readings[e.measurement := ReadingOf(e)]) else None
    else None
  }

  // --- every step keeps the invariant -------------------------------------------

  lemma RemovedKeepsValid(lim: Limits, b: AssetBuffer, t: Timestamp)
    requires BufferValid(lim, b) && t in b.order
    ensures BufferValid(lim, Removed(b, t))
    ensures t !in Removed(b, t).pending && |Removed(b, t).order| < lim.maxBuffered
  {
  }

  /** Valid except that the slot `t` may still be empty. */
  ghost predicate ValidBut(lim: Limits, b: AssetBuffer, t: Timestamp) {
    && KeysMatch(b) && t in b.order
    && |b.order| <= lim.maxBuffered
    && (forall u :: u in b.pending ==> Incomplete(b.pending[u]) && (u != t ==> b.pending[u].readings != map[]))
    && (forall u, m :: u in b.pending && m in b.pending[u].readings ==>
          b.pending[u].readings[m].unit == CanonicalUnit(m))
  }

  lemma OpenedKeepsValid(lim: Limits, b: AssetBuffer, asset: AssetId, t: Timestamp, now: real)
    requires lim.Valid() && BufferValid(lim, b)
    ensures ValidBut(lim, Opened(b, asset, t, now, lim.maxBuffered).0, t)
  {
    if t !in b.pending {
      if b.order != [] { RemovedKeepsValid(lim, b, b.order[0]); }
      var roomy := MadeRoom(b, asset, lim.maxBuffered).0;
      assert BufferValid(lim, roomy) && |roomy.order| < lim.maxBuffered && t !in roomy.order;
      var open := Opened(b, asset, t, now, lim.maxBuffered).0;
      assert open.order[|roomy.order|] == t;
      NoReadingsIsIncomplete();
    }
  }

  lemma AbsorbedKeepsValid(lim: Limits, b: AssetBuffer, e: Event)
    requires ValidBut(lim, b, e.timestamp) && e.Valid()
    ensures BufferValid(lim, Absorbed(b, e).0)
  {
    hide CanonicalUnit; hide HasAllRequired;
    var p := b.pending[e.timestamp];
    assert e.measurement in p.readings ==> p.readings != map[];
    assert e.measurement in p.readings[e.measurement := ReadingOf(e)];
    var after := Absorbed(b, e).0;
    assert KeysMatch(after);
  }

  lemma BufferIngestKeepsValid(lim: Limits, b: AssetBuffer, e: Event, now: real)
    requires lim.Valid() && BufferValid(lim, b) && e.Valid()
    ensures BufferValid(lim, BufferIngest(b, e, now, lim.maxBuffered).0)
  {
    hide Opened; hide Absorbed; hide CanonicalUnit; hide HasAllRequired;
    var active := b.(lastActive := now);
    assert BufferValid(lim, active);
    if !IsLate(b, e) {
      hide BufferValid;
      OpenedKeepsValid(lim, active, e.assetId, e.timestamp, now);
      AbsorbedKeepsValid(lim, Opened(active, e.assetId, e.timestamp, now, lim.maxBuffered).0, e);
    }
  }

  lemma NoReadingsIsIncomplete()
    ensures forall now :: Incomplete(PendingSample(map[], now))
  {
    assert IsRequired(Current);
  }

  lemma BufferSweepKeepsValid(lim: Limits, b: AssetBuffer, asset: AssetId, now: real)
    requires BufferValid(lim, b)
    ensures BufferValid(lim, BufferSweep(b, asset, now, lim.timeout).0)
  {
    var swept := BufferSweep(b, asset, now, lim.timeout).0;
    assert forall t :: t in swept.pending ==> t in b.pending && swept.pending[t] == b.pending[t];
    assert KeysMatch(swept);
  }

  lemma BufferForKeepsValid(lim: Limits, s: State, asset: AssetId, now: real)
    requires lim.Valid() && Valid(lim, s)
    ensures Valid(lim, BufferFor(lim, s, asset, now).0) && asset in BufferFor(lim, s, asset, now).0.buffers
  {
    var r := BufferFor(lim, s, asset, now).0;
    assert BufferValid(lim, EmptyBuffer(now));
    hide BufferValid; hide Distinct; hide Without;
    if asset !in s.buffers {
      if |s.order| >= lim.maxAssets {
        Dequeued(s.order);
        Enqueued(s.order[1..], asset);
      } else {
        Enqueued(s.order, asset);
      }
    }
  }

  lemma MapsMatch(lim: Limits, s: State)
    requires Valid(lim, s)
    ensures forall a :: a in s.order <==> a in s.buffers
    ensures forall a :: a in s.buffers ==> KeysMatch(s.buffers[a])
  {
  }

  lemma TrackedKeysMatch(lim: Limits, s: State, a: AssetId)
    requires Valid(lim, s) && a in s.buffers
    ensures KeysMatch(s.buffers[a])
  {
  }

  lemma IngestKeepsValid(lim: Limits, s: State, e: Event, now: real)
    requires lim.Valid() && Valid(lim, s) && e.Valid()
    ensures Valid(lim, Ingest(lim, s, e, now).0)
  {
    BufferForKeepsValid(lim, s, e.assetId, now);
    var found := BufferFor(lim, s, e.assetId, now).0;
    BufferIngestKeepsValid(lim, found.buffers[e.assetId], e, now);
  }

  lemma SweepKeepsValid(lim: Limits, s: State, now: real)
    requires Valid(lim, s)
    ensures Valid(lim, Sweep(lim, s, now).0)
  {
    forall a | a in s.buffers ensures BufferValid(lim, Sweep(lim, s, now).0.buffers[a]) {
      BufferSweepKeepsValid(lim, s.buffers[a], a, now);
    }
  }

  lemma AfterSnoc(lim: Limits, ops: seq<Op>, op: Op)
    requires lim.Valid() && OpsValid(ops) && OpValid(op)
    ensures OpsValid(ops + [op])
    ensures After(lim, ops + [op]) == Step(lim, After(lim, ops), op).0
  {
    var all := ops + [op];
    assert all[..|all| - 1] == ops;
  }

  /** The buffer an event of `asset` works on: its own, or a fresh one. */
  function OwnBuffer(s: State, asset: AssetId, now: real): AssetBuffer {
    if asset in s.buffers then s.buffers[asset] else EmptyBuffer(now)
  }

  /** An event changes its own asset's buffer by `BufferIngest` and no other buffer, except that
      a buffer may be evicted. */
  lemma IngestIsLocal(lim: Limits, s: State, e: Event, now: real)
    requires lim.Valid() && Valid(lim, s) && e.Valid()
    ensures var own := OwnBuffer(s, e.assetId, now);
            var (after, outs) := Ingest(lim, s, e, now);
            && BufferValid(lim, own) && KeysMatch(own)
            && e.assetId in after.buffers
            && after.buffers[e.assetId] == BufferIngest(own, e, now, lim.maxBuffered).0
            && (forall a :: a in after.buffers && a != e.assetId ==> a in s.buffers && after.buffers[a] == s.buffers[a])
  {
    BufferForKeepsValid(lim, s, e.assetId, now);
  }

  // --- how an event finishes a sample ------------------------------------------------

  predicate Finishes(o: Outcome) { o.Complete? || o.Aborted? }

  lemma OneReadingIsNotAll(m: Measurement, r: Reading)
    ensures !HasAllRequired(map[m := r])
  {
    assert IsRequired(Current) && IsRequired(Voltage);
  }

  lemma BufferFinishesExactly(b: AssetBuffer, e: Event, now: real, maxBuffered: nat)
    requires KeysMatch(b)
    ensures var outs := BufferIngest(b, e, now, maxBuffered).1;
            var s := State([e.assetId], map[e.assetId := b]);
            && outs != [] && (forall i :: 0 <= i < |outs| - 1 ==> outs[i].Rejected?)
            && (if CompletedBy(s, e).Some? then outs == [Finished(e.assetId, e.timestamp, CompletedBy(s, e).value)]
                else !Finishes(outs[|outs| - 1]))
  {
    if !IsLate(b, e) && e.timestamp !in b.pending {
      var open := Opened(b.(lastActive := now), e.assetId, e.timestamp, now, maxBuffered).0;
      assert open.order[|open.order| - 1] == e.timestamp;
      OneReadingIsNotAll(e.measurement, ReadingOf(e));
      assert map[][e.measurement := ReadingOf(e)] == map[e.measurement := ReadingOf(e)];
    }
    hide HasAllRequired; hide Identified;
  }

  /** An event finishes a sample exactly when it brings the last required reading of its open slot; then that is its
      only outcome, a completion exactly when every reading has an event id. */
  lemma FinishesExactly(lim: Limits, s: State, e: Event, now: real)
    requires lim.Valid() && Valid(lim, s) && e.Valid()
    ensures var outs := Ingest(lim, s, e, now).1;
            && outs != [] && (forall i :: 0 <= i < |outs| - 1 ==> outs[i].Rejected?)
            && (if CompletedBy(s, e).Some? then outs == [Finished(e.assetId, e.timestamp, CompletedBy(s, e).value)]
                else !Finishes(outs[|outs| - 1]))
  {
    hide BufferIngest; hide BufferValid; hide CompletedBy; hide Finished; hide MovedToEnd; hide Distinct;
    IngestIsLocal(lim, s, e, now);
    var own := OwnBuffer(s, e.assetId, now);
    BufferFinishesExactly(own, e, now, lim.maxBuffered);
    BufferForKeepsValid(lim, s, e.assetId, now);
    var (found, evicted) := BufferFor(lim, s, e.assetId, now);
    assert found.buffers[e.assetId] == own;
    CompletedInOwn(s, e, now);
  }

  lemma CompletedInOwn(s: State, e: Event, now: real)
    ensures CompletedBy(State([e.assetId], map[e.assetId := OwnBuffer(s, e.assetId, now)]), e) == CompletedBy(s, e)
    ensures CompletedBy(s, e).Some? ==> e.assetId in s.buffers
  {
    hide HasAllRequired;
  }

  /** What `ingest` hands back: nothing, when it raises instead. */
  function Returned(outs: seq<Outcome>): Option<seq<Outcome>> {
    if outs != [] && outs[|outs| - 1].Aborted? then None else Some(outs)
  }

  // --- runs whose events all have ids ----------------------------------------------------

  predicate OpIdentified(op: Op) { op.Take? ==> op.event.eventId != "" }

  predicate OpsIdentified(ops: seq<Op>) { forall i :: 0 <= i < |ops| ==> OpIdentified(ops[i]) }

  predicate BufferIdentified(b: AssetBuffer) { forall t :: t in b.pending ==> Identified(b.pending[t].readings) }

  predicate StateIdentified(s: State) { forall a :: a in s.buffers ==> BufferIdentified(s.buffers[a]) }

  lemma BufferIngestIdentified(b: AssetBuffer, e: Event, now: real, maxBuffered: nat)
    requires KeysMatch(b) && BufferIdentified(b) && e.eventId != ""
    ensures BufferIdentified(BufferIngest(b, e, now, maxBuffered).0)
  {
    hide HasAllRequired;
  }

  /** Events with ids keep every buffered reading identified, and then no event aborts. */
  lemma StepIdentified(lim: Limits, s: State, op: Op)
    requires lim.Valid() && Valid(lim, s) && OpValid(op) && StateIdentified(s) && OpIdentified(op)
    ensures StateIdentified(Step(lim, s, op).0)
    ensures op.Take? && CompletedBy(s, op.event).Some? ==> Identified(CompletedBy(s, op.event).value)
  {
    hide Ingest; hide Sweep; hide Valid; hide CompletedBy; hide StateIdentified; hide Identified;
    match op
    case SweepAt(now) => SweepIdentified(lim, s, now);
    case Take(e, now) => IngestIdentified(lim, s, e, now);
  }

  lemma SweepIdentified(lim: Limits, s: State, now: real)
    requires Valid(lim, s) && StateIdentified(s)
    ensures StateIdentified(Sweep(lim, s, now).0)
  {
    hide BufferValid; hide Identified; hide Partition;
  }

  lemma IngestIdentified(lim: Limits, s: State, e: Event, now: real)
    requires lim.Valid() && Valid(lim, s) && e.Valid() && StateIdentified(s) && e.eventId != ""
    ensures StateIdentified(Ingest(lim, s, e, now).0)
    ensures CompletedBy(s, e).Some? ==> Identified(CompletedBy(s, e).value)
  {
    hide BufferIngest; hide BufferValid; hide HasAllRequired; hide Ingest; hide Valid;
    MapsMatch(lim, s);
    IngestIsLocal(lim, s, e, now);
    BufferIngestIdentified(OwnBuffer(s, e.assetId, now), e, now, lim.maxBuffered);
  }

  lemma {:induction false} RunIdentified(lim: Limits, ops: seq<Op>)
    requires lim.Valid() && OpsValid(ops) && OpsIdentified(ops)
    ensures StateIdentified(After(lim, ops))
  {
    hide Step; hide Valid;
    if ops != [] {
      var n := |ops| - 1;
      RunIdentified(lim, ops[..n]);
      StepIdentified(lim, After(lim, ops[..n]), ops[n]);
    }
  }
}
