/** Which samples are given up: evictions follow recorded history, and they happen
    exactly when more assets report than the assembler may track. */
module AssemblyOrder {
  import opened Basics
  import opened Telemetry
  import opened TelemetryEvents
  import opened Assembly

  // --- asset eviction is least-recently-active ------------------------------------

  /** Index of the last event of `a` in the run, or -1. */
  function LastTake(ops: seq<Op>, a: AssetId): int {
    if ops == [] then -1
    else
      var n := |ops| - 1;
      if ops[n].Take? && ops[n].event.assetId == a then n else LastTake(ops[..n], a)
  }

  lemma {:induction false} LastTakeBound(ops: seq<Op>, a: AssetId)
    ensures -1 <= LastTake(ops, a) < |ops|
  {
    if ops != [] { LastTakeBound(ops[..|ops| - 1], a); }
  }

  ghost predicate ByRecency(ops: seq<Op>, order: seq<AssetId>) {
    && (forall i, j :: 0 <= i < j < |order| ==> LastTake(ops, order[i]) < LastTake(ops, order[j]))
    && (forall i :: 0 <= i < |order| ==> 0 <= LastTake(ops, order[i]) < |ops|)
  }

  /** One event of `a`, moved to the end of the order, keeps the order by recency. */
  lemma RecencyExtends(ops: seq<Op>, order: seq<AssetId>, order': seq<AssetId>, skip: nat)
    requires ops != [] && ops[|ops| - 1].Take? && ByRecency(ops[..|ops| - 1], order)
    requires Reorders(order, order', ops[|ops| - 1].event.assetId, skip)
    ensures ByRecency(ops, order')
  {
    forall i | 0 <= i < |order'| - 1
      ensures LastTake(ops, order'[i]) == LastTake(ops[..|ops| - 1], order[if i < skip then i else i + 1])
    {
    }
  }

  /** The key order of the buffers is the order of each asset's last event. */
  lemma {:induction false} OrderIsRecency(lim: Limits, ops: seq<Op>)
    requires lim.Valid() && OpsValid(ops)
    ensures ByRecency(ops, After(lim, ops).order)
  {
    hide Ingest; hide Valid; hide Reorders;
    if ops != [] {
      var n := |ops| - 1;
      OrderIsRecency(lim, ops[..n]);
      var before := After(lim, ops[..n]);
      match ops[n]
      case SweepAt(_) =>
      case Take(e, now) =>
        assert OpValid(ops[n]);
        var skip := TakeReorders(lim, before, e, now);
        RecencyExtends(ops, before.order, After(lim, ops).order, skip);
    }
  }

  /** `lastActive` is the clock reading of the asset's last event. */
  lemma {:induction false} LastActiveIsLastEvent(lim: Limits, ops: seq<Op>, a: AssetId)
    requires lim.Valid() && OpsValid(ops) && a in After(lim, ops).buffers
    ensures 0 <= LastTake(ops, a) < |ops|
    ensures After(lim, ops).buffers[a].lastActive == ops[LastTake(ops, a)].now
  {
    hide Ingest; hide Valid; hide BufferIngest; hide BufferValid;
    var n := |ops| - 1;
    var before := After(lim, ops[..n]);
    match ops[n]
    case SweepAt(_) =>
      LastActiveIsLastEvent(lim, ops[..n], a);
    case Take(e, now) =>
      assert OpValid(ops[n]);
      IngestIsLocal(lim, before, e, now);
      if a == e.assetId {
        BufferIngestMarksActive(OwnBuffer(before, a, now), e, now, lim.maxBuffered);
      } else {
        LastActiveIsLastEvent(lim, ops[..n], a);
      }
  }

  lemma BufferIngestMarksActive(b: AssetBuffer, e: Event, now: real, maxBuffered: nat)
    requires KeysMatch(b)
    ensures BufferIngest(b, e, now, maxBuffered).0.lastActive == now
  {
  }

  /** `order'` is `order` without its entry at `skip`, if there is one, and then `a`. */
  ghost predicate Reorders(order: seq<AssetId>, order': seq<AssetId>, a: AssetId, skip: nat) {
    && 0 < |order'| <= |order| + 1 && order'[|order'| - 1] == a
    && (skip < |order'| - 1 ==> |order'| <= |order|)
    && (forall i :: 0 <= i < |order'| - 1 ==>
          order'[i] == order[if i < skip then i else i + 1] && order'[i] != a)
  }

  /** An event moves its own asset to the end and keeps the relative order of the others. */
  lemma TakeReorders(lim: Limits, s: State, e: Event, now: real) returns (skip: nat)
    requires lim.Valid() && Valid(lim, s) && e.Valid()
    ensures Reorders(s.order, Ingest(lim, s, e, now).0.order, e.assetId, skip)
  {
    hide BufferIngest; hide Reorders; hide MovedToEnd; hide BufferValid;
    BufferForKeepsValid(lim, s, e.assetId, now);
    if e.assetId in s.buffers {
      skip := IndexOf(s.order, e.assetId);
      ReordersByMoving(s.order, e.assetId);
    } else if |s.order| >= lim.maxAssets {
      skip := 0;
      ReordersByReplacing(s.order, e.assetId);
    } else {
      skip := |s.order|;
      ReordersByAppending(s.order, e.assetId);
    }
  }

  lemma ReordersByMoving(order: seq<AssetId>, a: AssetId)
    requires Distinct(order) && a in order
    ensures Reorders(order, MovedToEnd(order, a), a, IndexOf(order, a))
  {
    var k := IndexOf(order, a);
    assert MovedToEnd(order, a) == order[..k] + order[k + 1..] + [a];
  }

  lemma ReordersByReplacing(order: seq<AssetId>, a: AssetId)
    requires order != [] && a !in order
    ensures Reorders(order, order[1..] + [a], a, 0)
  {
  }

  lemma ReordersByAppending(order: seq<AssetId>, a: AssetId)
    requires a !in order
    ensures Reorders(order, order + [a], a, |order|)
  {
  }

  predicate EvictsAsset(lim: Limits, s: State, op: Op) {
    op.Take? && op.event.assetId !in s.buffers && |s.order| >= lim.maxAssets
  }

  /** When an event makes the assembler give up an asset, that asset's last event is older
      than the last event of every other tracked asset, and all the others are kept. */
  lemma EvictsLeastRecentlyActive(lim: Limits, ops: seq<Op>, op: Op) returns (gone: AssetId)
    requires lim.Valid() && OpsValid(ops) && OpValid(op)
    requires EvictsAsset(lim, After(lim, ops), op)
    ensures var s, r := After(lim, ops), Step(lim, After(lim, ops), op).0;
            && gone in s.buffers && gone !in r.buffers
            && forall a :: a in s.buffers && a != gone ==>
                 a in r.buffers && LastTake(ops, gone) < LastTake(ops, a)
  {
    var s := After(lim, ops);
    gone := s.order[0];
    OrderIsRecency(lim, ops);
    forall a | a in s.buffers && a != gone ensures LastTake(ops, gone) < LastTake(ops, a) {
      var k := IndexOf(s.order, a);
      assert s.order[0] == gone && s.order[k] == a;
    }
    var r := Step(lim, s, op).0;
    assert forall a :: a in s.buffers && a != gone ==> a in r.buffers;
  }

  // --- asset eviction happens exactly when the fleet does not fit -----------------------

  function AssetsOf(ops: seq<Op>): set<AssetId> {
    set i | 0 <= i < |ops| && ops[i].Take? :: ops[i].event.assetId
  }

  ghost predicate EverEvicts(lim: Limits, ops: seq<Op>)
    requires lim.Valid() && OpsValid(ops)
  {
    ops != [] &&
    var n := |ops| - 1;
    EverEvicts(lim, ops[..n]) || EvictsAsset(lim, After(lim, ops[..n]), ops[n])
  }

  lemma AssetsOfPrefix(ops: seq<Op>)
    requires ops != []
    ensures var n := |ops| - 1;
            AssetsOf(ops) == AssetsOf(ops[..n]) + (if ops[n].Take? then {ops[n].event.assetId} else {})
  {
    var n := |ops| - 1;
    forall a | a in AssetsOf(ops[..n]) ensures a in AssetsOf(ops) {
      var i :| 0 <= i < n && ops[..n][i].Take? && ops[..n][i].event.assetId == a;
      assert ops[i].Take? && ops[i].event.assetId == a;
    }
    forall a | a in AssetsOf(ops) && (ops[n].Take? ==> a != ops[n].event.assetId) ensures a in AssetsOf(ops[..n]) {
      var i :| 0 <= i < |ops| && ops[i].Take? && ops[i].event.assetId == a;
      assert ops[..n][i].Take? && ops[..n][i].event.assetId == a;
    }
    if ops[n].Take? { assert ops[n].event.assetId in AssetsOf(ops); }
  }

  lemma StepAddsAsset(lim: Limits, s: State, op: Op)
    requires lim.Valid() && Valid(lim, s) && OpValid(op) && !EvictsAsset(lim, s, op)
    ensures Step(lim, s, op).0.buffers.Keys == s.buffers.Keys + (if op.Take? then {op.event.assetId} else {})
  {
    hide BufferIngest; hide BufferSweep; hide BufferValid;
    if op.Take? { IngestIsLocal(lim, s, op.event, op.now); }
  }

  lemma {:induction false} TracksEveryAsset(lim: Limits, ops: seq<Op>)
    requires lim.Valid() && OpsValid(ops) && !EverEvicts(lim, ops)
    ensures After(lim, ops).buffers.Keys == AssetsOf(ops)
    ensures |After(lim, ops).order| == |AssetsOf(ops)|
  {
    hide Step; hide AssetsOf; hide BufferValid; hide EvictsAsset;
    if ops == [] {
      NobodyYet();
    } else {
      var n := |ops| - 1;
      assert OpValid(ops[n]);
      TracksEveryAsset(lim, ops[..n]);
      AssetsOfPrefix(ops);
      StepAddsAsset(lim, After(lim, ops[..n]), ops[n]);
    }
    DistinctCount(After(lim, ops).order, AssetsOf(ops));
  }

  lemma NobodyYet()
    ensures AssetsOf([]) == {}
  {
  }

  /** A run gives up some asset if and only if more assets report than may be tracked. */
  lemma {:induction false} EvictsExactlyWhenFleetDoesNotFit(lim: Limits, ops: seq<Op>)
    requires lim.Valid() && OpsValid(ops)
    ensures EverEvicts(lim, ops) <==> |AssetsOf(ops)| > lim.maxAssets
  {
    if ops == [] {
      assert AssetsOf(ops) == {};
    } else {
      var n := |ops| - 1;
      EvictsExactlyWhenFleetDoesNotFit(lim, ops[..n]);
      AssetsOfPrefix(ops);
      assert AssetsOf(ops[..n]) <= AssetsOf(ops);
      if EverEvicts(lim, ops[..n]) {
        SubsetSize(AssetsOf(ops[..n]), AssetsOf(ops));
      } else {
        TracksEveryAsset(lim, ops[..n]);
      }
    }
  }

  lemma {:induction false} SubsetSize<T>(x: set<T>, y: set<T>)
    requires x <= y
    ensures |x| <= |y|
  {
    if x != {} {
      var e :| e in x;
      SubsetSize(x - {e}, y - {e});
    }
  }

  // --- timestamp eviction takes the earliest-opened sample --------------------------------

  /** Clock readings never go back. */
  predicate Monotonic(ops: seq<Op>) {
    forall i, j :: 0 <= i < j < |ops| ==> ops[i].now <= ops[j].now
  }

  predicate OpenedNoLater(pending: map<Timestamp, PendingSample>, t: Timestamp, u: Timestamp) {
    t in pending && u in pending && pending[t].firstSeen <= pending[u].firstSeen
  }

  predicate SortedByOpening(pending: map<Timestamp, PendingSample>, ts: seq<Timestamp>) {
    forall i, j :: 0 <= i < j < |ts| ==> OpenedNoLater(pending, ts[i], ts[j])
  }

  ghost predicate ByOpening(b: AssetBuffer, now: real) {
    && SortedByOpening(b.pending, b.order)
    && (forall t :: t in b.pending ==> b.pending[t].firstSeen <= now)
  }

  lemma RemovedKeepsOpeningOrder(b: AssetBuffer, t: Timestamp, now: real)
    requires KeysMatch(b) && t in b.order && ByOpening(b, now)
    ensures KeysMatch(Removed(b, t)) && ByOpening(Removed(b, t), now)
  {
    var r := Removed(b, t);
    forall i, j | 0 <= i < j < |r.order| ensures OpenedNoLater(r.pending, r.order[i], r.order[j]) {
      var k := IndexOf(b.order, t);
      var i', j' := if i < k then i else i + 1, if j < k then j else j + 1;
      assert OpenedNoLater(b.pending, b.order[i'], b.order[j']);
      assert r.order[i] in r.order && r.order[j] in r.order;
    }
  }

  lemma OpenedKeepsOpeningOrder(b: AssetBuffer, asset: AssetId, t: Timestamp, now: real, maxBuffered: nat)
    requires KeysMatch(b) && ByOpening(b, now)
    ensures var open := Opened(b, asset, t, now, maxBuffered).0;
            KeysMatch(open) && ByOpening(open, now) && t in open.order
  {
    if t in b.pending { return; }
    if b.order != [] { RemovedKeepsOpeningOrder(b, b.order[0], now); }
    var roomy := MadeRoom(b, asset, maxBuffered).0;
    var open := Opened(b, asset, t, now, maxBuffered).0;
    assert KeysMatch(roomy) && ByOpening(roomy, now) && t !in roomy.order;
    assert open.order[|roomy.order|] == t;
    forall i, j | 0 <= i < j < |open.order| ensures OpenedNoLater(open.pending, open.order[i], open.order[j]) {
      assert open.order[i] == roomy.order[i] && roomy.order[i] in roomy.order;
      if j < |roomy.order| {
        assert OpenedNoLater(roomy.pending, roomy.order[i], roomy.order[j]) && roomy.order[j] in roomy.order;
      }
    }
  }

  lemma AbsorbedKeepsOpeningOrder(b: AssetBuffer, e: Event, now: real)
    requires KeysMatch(b) && e.timestamp in b.order && ByOpening(b, now)
    ensures ByOpening(Absorbed(b, e).0, now)
  {
    var r := Absorbed(b, e).0;
    RemovedKeepsOpeningOrder(b, e.timestamp, now);
    if r.order == b.order {
      forall i, j | 0 <= i < j < |r.order| ensures OpenedNoLater(r.pending, r.order[i], r.order[j]) {
        assert OpenedNoLater(b.pending, b.order[i], b.order[j]);
      }
    }
  }

  lemma BufferIngestKeepsOpeningOrder(b: AssetBuffer, e: Event, now: real, maxBuffered: nat)
    requires KeysMatch(b) && ByOpening(b, now)
    ensures ByOpening(BufferIngest(b, e, now, maxBuffered).0, now)
  {
    if !IsLate(b, e) {
      var active := b.(lastActive := now);
      OpenedKeepsOpeningOrder(active, e.assetId, e.timestamp, now, maxBuffered);
      AbsorbedKeepsOpeningOrder(Opened(active, e.assetId, e.timestamp, now, maxBuffered).0, e, now);
    }
  }

  lemma {:induction false} PartitionKeepsOrder(order: seq<Timestamp>, pending: map<Timestamp, PendingSample>,
                                                now: real, timeout: real, keep: bool)
    requires forall t :: t in order ==> t in pending
    requires SortedByOpening(pending, order)
    ensures SortedByOpening(pending, Partition(order, pending, now, timeout, keep))
  {
    if order != [] {
      var n := |order| - 1;
      PartitionKeepsOrder(order[..n], pending, now, timeout, keep);
      var init := Partition(order[..n], pending, now, timeout, keep);
      forall i | 0 <= i < |init| ensures OpenedNoLater(pending, init[i], order[n]) {
        assert init[i] in init && init[i] in order[..n];
        var k :| 0 <= k < n && order[k] == init[i];
        assert OpenedNoLater(pending, order[k], order[n]);
      }
      var r := Partition(order, pending, now, timeout, keep);
      assert r == init || r == init + [order[n]];
      forall i, j | 0 <= i < j < |r| ensures OpenedNoLater(pending, r[i], r[j]) {
        assert r[i] == init[i];
        if j < |init| { assert r[j] == init[j] && OpenedNoLater(pending, init[i], init[j]); }
      }
    }
  }

  lemma BufferSweepKeepsOpeningOrder(b: AssetBuffer, asset: AssetId, now: real, timeout: real)
    requires KeysMatch(b) && ByOpening(b, now)
    ensures ByOpening(BufferSweep(b, asset, now, timeout).0, now)
  {
    PartitionKeepsOrder(b.order, b.pending, now, timeout, true);
    var r := BufferSweep(b, asset, now, timeout).0;
    assert r.order == Partition(b.order, b.pending, now, timeout, true);
    forall i, j | 0 <= i < j < |r.order| ensures OpenedNoLater(r.pending, r.order[i], r.order[j]) {
      assert OpenedNoLater(b.pending, r.order[i], r.order[j]);
      assert r.order[i] in r.order && r.order[j] in r.order;
    }
  }

  lemma {:induction false} BuffersKeepOpeningOrder(lim: Limits, ops: seq<Op>, a: AssetId, now: real)
    requires lim.Valid() && OpsValid(ops) && Monotonic(ops)
    requires a in After(lim, ops).buffers && (ops != [] ==> ops[|ops| - 1].now <= now)
    ensures ByOpening(After(lim, ops).buffers[a], now)
  {
    hide Ingest; hide Valid; hide BufferIngest; hide BufferSweep; hide BufferValid;
    var n := |ops| - 1;
    var before := After(lim, ops[..n]);
    var at := ops[n].now;
    if a in before.buffers {
      BuffersKeepOpeningOrder(lim, ops[..n], a, at);
    }
    match ops[n]
    case SweepAt(_) =>
      TrackedKeysMatch(lim, before, a);
      BufferSweepKeepsOpeningOrder(before.buffers[a], a, at, lim.timeout);
    case Take(e, _) =>
      assert OpValid(ops[n]);
      IngestIsLocal(lim, before, e, at);
      if a == e.assetId {
        BufferIngestKeepsOpeningOrder(OwnBuffer(before, a, at), e, at, lim.maxBuffered);
      }
  }

  lemma RoomIsMadeAtTheFront(lim: Limits, b: AssetBuffer, e: Event, now: real)
    requires lim.Valid() && BufferValid(lim, b)
    requires !IsLate(b, e) && e.timestamp !in b.pending && |b.order| >= lim.maxBuffered
    ensures var r := BufferIngest(b, e, now, lim.maxBuffered).0;
            && b.order[0] in b.pending && b.order[0] !in r.pending
            && forall t :: t in b.pending && t != b.order[0] ==> t in r.pending
  {
    assert b.order[0] in b.order;
    var active := b.(lastActive := now);
    OpenedKeepsValid(lim, active, e.assetId, e.timestamp, now);
    var open := Opened(active, e.assetId, e.timestamp, now, lim.maxBuffered).0;
    assert open.pending[e.timestamp].readings == map[];
    assert forall t :: t in b.pending && t != b.order[0] ==> t in open.pending && t != e.timestamp;
  }

  /** Under a clock that never goes back, making room gives up a sample opened no later than any other. */
  lemma EvictsEarliestOpened(lim: Limits, ops: seq<Op>, e: Event, now: real) returns (gone: Timestamp)
    requires lim.Valid() && OpsValid(ops) && Monotonic(ops) && (ops != [] ==> ops[|ops| - 1].now <= now)
    requires e.Valid() && e.assetId in After(lim, ops).buffers
    requires var b := After(lim, ops).buffers[e.assetId];
             !IsLate(b, e) && e.timestamp !in b.pending && |b.order| >= lim.maxBuffered
    ensures var b := After(lim, ops).buffers[e.assetId];
            var r := Step(lim, After(lim, ops), Take(e, now)).0.buffers[e.assetId];
            && gone in b.pending && gone !in r.pending
            && forall t :: t in b.pending && t != gone ==>
                 t in r.pending && b.pending[gone].firstSeen <= b.pending[t].firstSeen
  {
    hide Ingest; hide BufferIngest; hide BufferValid; hide After;
    var s := After(lim, ops);
    var b := s.buffers[e.assetId];
    BuffersKeepOpeningOrder(lim, ops, e.assetId, now);
    gone := b.order[0];
    IngestIsLocal(lim, s, e, now);
    RoomIsMadeAtTheFront(lim, b, e, now);
    forall t | t in b.pending && t != gone ensures b.pending[gone].firstSeen <= b.pending[t].firstSeen {
      var k := IndexOf(b.order, t);
      assert OpenedNoLater(b.pending, b.order[0], b.order[k]);
    }
  }
}
