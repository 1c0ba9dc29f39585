/** The assembler object itself: the two ordered maps updated in place, method by method. */
module SampleAssemblers {
  import opened Basics
  import opened Telemetry
  import opened TelemetryEvents
  import opened Assembly

  /** `Observation`, whose constructor refuses an empty id, asset id or unit. */
  function NewObservation(id: string, asset: AssetId, t: Timestamp, m: Measurement, value: real, unit: string)
    : Option<Observation>
  {
    if id == "" || asset == "" || unit == "" then None
    else Some(Observation(id, asset, t, Supported(m), Finite(value), unit))
  }

  function ObservationOf(asset: AssetId, t: Timestamp, m: Measurement, r: Reading): Observation {
    Observation(r.eventId, asset, t, Supported(m), Finite(r.value), r.unit)
  }

  /** `obs` lists each reading once, as an observation of (`asset`, `t`). */
  ghost predicate Lists(obs: seq<Observation>, asset: AssetId, t: Timestamp, readings: map<Measurement, Reading>,
                        n: nat) {
    && n <= |MEASUREMENT_ORDER|
    && (forall i :: 0 <= i < |obs| ==>
          && obs[i].name.Supported? && obs[i].name.m in readings && obs[i].name.m in MEASUREMENT_ORDER[..n]
          && obs[i] == ObservationOf(asset, t, obs[i].name.m, readings[obs[i].name.m]))
    && (forall k :: 0 <= k < n && MEASUREMENT_ORDER[k] in readings ==> NamedBefore(obs, |obs|, MEASUREMENT_ORDER[k]))
    && (forall i, j :: 0 <= i < j < |obs| ==> obs[i].name != obs[j].name)
  }

  lemma OrderIsDuplicateFree()
    ensures Distinct(MEASUREMENT_ORDER)
  {
  }

  predicate Canonical(readings: map<Measurement, Reading>) {
    forall m :: m in readings ==> readings[m].unit == CanonicalUnit(m)
  }

  /** The observation list built when the last required measurement arrives; building it raises exactly when some
      reading has no event id. */
  method BuildObservations(asset: AssetId, t: Timestamp, readings: map<Measurement, Reading>)
    returns (r: Option<seq<Observation>>)
    requires asset != "" && Canonical(readings)
    ensures r.Some? <==> Identified(readings)
    ensures r.Some? ==> Lists(r.value, asset, t, readings, |MEASUREMENT_ORDER|)
  {
    hide Lists;
    var obs: seq<Observation> := [];
    NothingListed(asset, t, readings);
    for k := 0 to |MEASUREMENT_ORDER|
      invariant Lists(obs, asset, t, readings, k)
      invariant forall j :: 0 <= j < k && MEASUREMENT_ORDER[j] in readings ==>
          readings[MEASUREMENT_ORDER[j]].eventId != ""
    {
      var m := MEASUREMENT_ORDER[k];
      if m in readings {
        var o := NewObservation(readings[m].eventId, asset, t, m, readings[m].value, readings[m].unit);
        if o.None? {
          return None;
        }
        ExtendList(obs, asset, t, readings, k);
        obs := obs + [o.value];
      } else {
        SkipInList(obs, asset, t, readings, k);
      }
    }
    forall m | m in readings ensures readings[m].eventId != "" {
      RequiredIsEveryMeasurementButEfficiency(m);
      var j :| 0 <= j < |MEASUREMENT_ORDER| && MEASUREMENT_ORDER[j] == m;
    }
    return Some(obs);
  }

  lemma NothingListed(asset: AssetId, t: Timestamp, readings: map<Measurement, Reading>)
    ensures Lists([], asset, t, readings, 0)
  {
  }

  lemma SkipInList(obs: seq<Observation>, asset: AssetId, t: Timestamp, readings: map<Measurement, Reading>, k: nat)
    requires k < |MEASUREMENT_ORDER| && Lists(obs, asset, t, readings, k) && MEASUREMENT_ORDER[k] !in readings
    ensures Lists(obs, asset, t, readings, k + 1)
  {
    assert MEASUREMENT_ORDER[..k + 1] == MEASUREMENT_ORDER[..k] + [MEASUREMENT_ORDER[k]];
  }

  lemma ExtendList(obs: seq<Observation>, asset: AssetId, t: Timestamp, readings: map<Measurement, Reading>, k: nat)
    requires k < |MEASUREMENT_ORDER| && Lists(obs, asset, t, readings, k) && MEASUREMENT_ORDER[k] in readings
    ensures var m := MEASUREMENT_ORDER[k];
            Lists(obs + [ObservationOf(asset, t, m, readings[m])], asset, t, readings, k + 1)
  {
    OrderIsDuplicateFree();
    var m := MEASUREMENT_ORDER[k];
    var all := obs + [ObservationOf(asset, t, m, readings[m])];
    assert MEASUREMENT_ORDER[..k + 1] == MEASUREMENT_ORDER[..k] + [m];
    forall i | 0 <= i < |obs| ensures all[i].name != Supported(m) {
      assert obs[i].name.m in MEASUREMENT_ORDER[..k];
      var j := IndexOf(MEASUREMENT_ORDER[..k], obs[i].name.m);
      assert MEASUREMENT_ORDER[j] != MEASUREMENT_ORDER[k];
    }
    forall j | 0 <= j < k + 1 && MEASUREMENT_ORDER[j] in readings
      ensures NamedBefore(all, |all|, MEASUREMENT_ORDER[j])
    {
      if j < k {
        var i :| 0 <= i < |obs| && obs[i].name == Supported(MEASUREMENT_ORDER[j]);
        assert all[i].name == Supported(MEASUREMENT_ORDER[j]);
      } else {
        assert all[|obs|].name == Supported(MEASUREMENT_ORDER[j]);
      }
    }
  }

  /** `from_observations` accepts every assembled list. */
  lemma AssembledIsAcceptable(obs: seq<Observation>, asset: AssetId, t: Timestamp, readings: map<Measurement, Reading>)
    requires Lists(obs, asset, t, readings, |MEASUREMENT_ORDER|)
    requires asset != "" && HasAllRequired(readings) && Canonical(readings)
    ensures Acceptable(obs)
  {
    forall m | m in REQUIRED ensures NamedBefore(obs, |obs|, m) {
      var k :| 0 <= k < |REQUIRED| && REQUIRED[k] == m;
      assert MEASUREMENT_ORDER[k] == m && m in readings;
    }
    assert REQUIRED[0] in REQUIRED;
    assert NamedBefore(obs, |obs|, REQUIRED[0]);
    forall i | 0 <= i < |obs| ensures !RepeatsEarlierName(obs, i) && OwnFault(obs[i]).None? {
    }
  }

  /** A sample carrying exactly an assembled list is the sample of its readings. */
  lemma CarriedIsSampleOf(sample: TelemetrySample, obs: seq<Observation>, asset: AssetId, t: Timestamp,
                          readings: map<Measurement, Reading>)
    requires Lists(obs, asset, t, readings, |MEASUREMENT_ORDER|)
    requires sample.assetId == asset && sample.timestamp == t
    requires CarriesExactly(sample.values, sample.units, obs, |obs|)
    ensures sample == SampleOf(asset, t, readings)
  {
    forall m ensures m in sample.values <==> m in readings {
      RequiredIsEveryMeasurementButEfficiency(m);
      if m in readings {
        var k :| 0 <= k < |MEASUREMENT_ORDER| && MEASUREMENT_ORDER[k] == m;
        assert NamedBefore(obs, |obs|, MEASUREMENT_ORDER[k]);
        var i :| 0 <= i < |obs| && obs[i].name == Supported(m);
        assert Holds(sample.values, sample.units, obs[i]);
      }
      if m in sample.values {
        assert NamedBefore(obs, |obs|, m);
      }
    }
    forall m | m in readings ensures sample.values[m] == readings[m].value && sample.units[m] == readings[m].unit {
      assert NamedBefore(obs, |obs|, m);
      var i :| 0 <= i < |obs| && obs[i].name == Supported(m);
      assert Holds(sample.values, sample.units, obs[i]);
    }
    var expected := SampleOf(asset, t, readings);
    assert sample.values == expected.values;
    assert sample.units == expected.units;
  }

  class SampleAssembler {
    const limits: Limits
    var order: seq<AssetId>
    var buffers: map<AssetId, AssetBuffer>

    ghost function View(): State
      reads this
    {
      State(order, buffers)
    }

    ghost predicate Inv()
      reads this
    {
      limits.Valid() && Valid(limits, View())
    }

    constructor (limits: Limits)
      requires limits.Valid()
      ensures Inv() && View() == EMPTY && this.limits == limits
    {
      this.limits := limits;
      order := [];
      buffers := map[];
    }

    /** `_buffer_for`: moves the asset to the end, or inserts it after evicting the first when full. */
    method BufferFor(asset: AssetId, now: real) returns (evicted: seq<Outcome>)
      requires Inv()
      modifies this
      ensures Inv() && asset in buffers
      ensures (View(), evicted) == Assembly.BufferFor(limits, old(View()), asset, now)
    {
      BufferForKeepsValid(limits, View(), asset, now);
      evicted := [];
      if asset in buffers {
        order := MovedToEnd(order, asset);
        return;
      }
      if |order| >= limits.maxAssets {
        var gone := order[0];
        evicted := Rejections(gone, buffers[gone].order);
        order := order[1..];
        buffers := buffers - {gone};
      }
      order := order + [asset];
      buffers := buffers[asset := EmptyBuffer(now)];
    }

    /** `ingest`. It raises exactly when the event completes a slot in which some event id is empty, after the slot
        was dropped; any other completed sample goes through `from_observations`, which never rejects it. */
    method Ingest(e: Event, now: real) returns (r: Option<seq<Outcome>>)
      requires Inv() && e.Valid()
      modifies this
      ensures Inv()
      ensures View() == Assembly.Ingest(limits, old(View()), e, now).0
      ensures r == Returned(Assembly.Ingest(limits, old(View()), e, now).1)
    {
      IngestKeepsValid(limits, View(), e, now);
      var evicted := BufferFor(e.assetId, now);
      var b := buffers[e.assetId];
      var own;
      b, own := IngestInto(b, e, now);
      buffers := buffers[e.assetId := b];
      r := Returned(evicted + own);
    }

    /** The part of `ingest` after the buffer has been found. */
    method IngestInto(before: AssetBuffer, e: Event, now: real) returns (b: AssetBuffer, outcomes: seq<Outcome>)
      requires limits.Valid() && BufferValid(limits, before) && e.Valid()
      ensures (b, outcomes) == BufferIngest(before, e, now, limits.maxBuffered)
    {
      hide Opened; hide Absorbed; hide BufferValid; hide ValidBut;
      var t := e.timestamp;
      b := before.(lastActive := now);
      ActivityIsNotContent(limits, before, now);
      outcomes := [];
      if b.latest.Some? && t <= b.latest.value {
        outcomes := [Rejected(e.assetId, t, Late)];
        return;
      }
      if t !in b.pending {
        b, outcomes := Open(b, e.assetId, t, now);
      }
      StillOpen(limits, before.(lastActive := now), e.assetId, t, now);
      var own;
      b, own := Absorb(b, e);
      outcomes := outcomes + [own];
    }

    /** Opens a slot for `t`, making room first (`_make_room`). */
    method Open(before: AssetBuffer, asset: AssetId, t: Timestamp, now: real)
      returns (b: AssetBuffer, outcomes: seq<Outcome>)
      requires limits.Valid() && t !in before.pending
      ensures (b, outcomes) == Opened(before, asset, t, now, limits.maxBuffered)
    {
      b, outcomes := before, [];
      if |b.order| >= limits.maxBuffered {
        var oldest := b.order[0];
        b := Removed(b, oldest);
        outcomes := [Rejected(asset, oldest, IncompleteTimeout)];
      }
      b := b.(order := b.order + [t], pending := b.pending[t := PendingSample(map[], now)]);
    }

    /** Adds the reading to its open slot, or drops the slot on a conflict, or completes the sample. */
    method Absorb(before: AssetBuffer, e: Event) returns (b: AssetBuffer, own: Outcome)
      requires ValidBut(limits, before, e.timestamp) && e.Valid()
      ensures (b, own) == Absorbed(before, e)
    {
      var t := e.timestamp;
      b := before;
      var p := b.pending[t];
      if e.measurement in p.readings {
        var existing := p.readings[e.measurement];
        if existing.value == e.value && existing.unit == e.unit {
          own := Waiting(e.assetId, t);
        } else {
          b := Removed(b, t);
          own := Rejected(e.assetId, t, ConflictingDuplicate);
        }
        return;
      }
      var readings := p.readings[e.measurement := ReadingOf(e)];
      if !HasAllRequired(readings) {
        b := b.(pending := b.pending[t := p.(readings := readings)]);
        own := Waiting(e.assetId, t);
        return;
      }
      b := Removed(b, t).(latest := Some(t));
      var sample := Assemble(e.assetId, t, readings);
      own := if sample.Some? then Complete(e.assetId, t, sample.value) else Aborted(e.assetId, t);
    }

    /** `sweep_timeouts`, buffer by buffer in key order. */
    method SweepTimeouts(now: real) returns (outcomes: seq<Outcome>)
      requires Inv()
      modifies this
      ensures Inv()
      ensures (View(), outcomes) == Sweep(limits, old(View()), now)
    {
      hide BufferSweep; hide BufferValid; hide KeysMatch; hide SweepOutcomes; hide Distinct;
      ghost var s := View();
      SweepKeepsValid(limits, s, now);
      AllKeysMatch(limits, s);
      assert Distinct(order) && forall a :: a in order <==> a in buffers;
      SweepStarts(limits, order, buffers, now);
      hide Valid;
      outcomes := [];
      for i := 0 to |order|
        invariant order == s.order && buffers.Keys == s.buffers.Keys
        invariant outcomes == SweepOutcomes(limits, order[..i], s.buffers, now)
        invariant forall k :: 0 <= k < |order| ==>
                    buffers[order[k]] == if k < i then BufferSweep(s.buffers[order[k]], order[k], now, limits.timeout).0
                                         else s.buffers[order[k]]
      {
        var asset := order[i];
        assert asset in order && asset in s.buffers;
        SweepSnoc(limits, order, i, s.buffers, now);
        OthersElsewhere(order, i);
        var b, expired := SweepBuffer(buffers[asset], asset, now);
        buffers := buffers[asset := b];
        outcomes := outcomes + expired;
      }
      assert order[..|order|] == order;
      assert buffers == Sweep(limits, s, now).0.buffers by {
        forall a | a in buffers ensures buffers[a] == BufferSweep(s.buffers[a], a, now, limits.timeout).0 {
          var k := IndexOf(order, a);
          assert order[k] == a;
        }
      }
    }

    /** Finds the expired samples of one buffer, drops them and reports each. */
    method SweepBuffer(before: AssetBuffer, asset: AssetId, now: real) returns (b: AssetBuffer, outcomes: seq<Outcome>)
      requires KeysMatch(before)
      ensures (b, outcomes) == BufferSweep(before, asset, now, limits.timeout)
    {
      hide Partition; hide KeysMatch;
      var kept: seq<Timestamp> := [];
      var expired: seq<Timestamp> := [];
      KeysListed(before);
      PartitionEnds(before.order, before.pending, now, limits.timeout);
      for i := 0 to |before.order|
        invariant kept == Partition(before.order[..i], before.pending, now, limits.timeout, true)
        invariant expired == Partition(before.order[..i], before.pending, now, limits.timeout, false)
      {
        var t := before.order[i];
        assert t in before.order;
        PartitionSnoc(before.order, i, before.pending, now, limits.timeout);
        if Expired(before.pending[t], now, limits.timeout) {
          expired := expired + [t];
        } else {
          kept := kept + [t];
        }
      }
      b := before.(order := kept, pending := map t | t in before.pending && t in kept :: before.pending[t]);
      outcomes := Rejections(asset, expired);
    }
  }

  lemma SweepStarts(lim: Limits, order: seq<AssetId>, buffers: map<AssetId, AssetBuffer>, now: real)
    ensures SweepOutcomes(lim, order[..0], buffers, now) == []
  {
  }

  lemma SweepSnoc(lim: Limits, order: seq<AssetId>, i: nat, buffers: map<AssetId, AssetBuffer>, now: real)
    requires i < |order| && forall a :: a in order ==> a in buffers && KeysMatch(buffers[a])
    ensures SweepOutcomes(lim, order[..i + 1], buffers, now) ==
            SweepOutcomes(lim, order[..i], buffers, now) + BufferSweep(buffers[order[i]], order[i], now, lim.timeout).1
  {
    assert order[..i + 1][..i] == order[..i];
  }

  lemma OthersElsewhere(order: seq<AssetId>, i: nat)
    requires Distinct(order) && i < |order|
    ensures forall k :: 0 <= k < |order| && k != i ==> order[k] != order[i]
  {
  }

  lemma ActivityIsNotContent(lim: Limits, b: AssetBuffer, now: real)
    requires BufferValid(lim, b)
    ensures BufferValid(lim, b.(lastActive := now))
  {
  }

  lemma StillOpen(lim: Limits, b: AssetBuffer, asset: AssetId, t: Timestamp, now: real)
    requires lim.Valid() && BufferValid(lim, b)
    ensures t in b.pending ==> Opened(b, asset, t, now, lim.maxBuffered) == (b, [])
    ensures ValidBut(lim, Opened(b, asset, t, now, lim.maxBuffered).0, t)
  {
    OpenedKeepsValid(lim, b, asset, t, now);
  }

  lemma AllKeysMatch(lim: Limits, s: State)
    requires Valid(lim, s)
    ensures forall a :: a in s.buffers ==> KeysMatch(s.buffers[a])
  {
  }

  lemma KeysListed(b: AssetBuffer)
    requires KeysMatch(b)
    ensures forall t :: t in b.order ==> t in b.pending
  {
  }

  lemma PartitionEnds(order: seq<Timestamp>, pending: map<Timestamp, PendingSample>, now: real, timeout: real)
    requires forall t :: t in order ==> t in pending
    ensures order[..0] == [] && order[..|order|] == order
    ensures forall keep :: Partition([], pending, now, timeout, keep) == []
  {
  }

  lemma PartitionSnoc(order: seq<Timestamp>, i: nat, pending: map<Timestamp, PendingSample>, now: real, timeout: real)
    requires i < |order| && forall t :: t in order ==> t in pending
    ensures order[i] in pending
    ensures forall keep :: Partition(order[..i + 1], pending, now, timeout, keep) ==
              Partition(order[..i], pending, now, timeout, keep) +
              if Expired(pending[order[i]], now, timeout) != keep then [order[i]] else []
  {
    var upto := order[..i + 1];
    assert upto[..|upto| - 1] == order[..i] && upto[|upto| - 1] == order[i];
    assert order[i] in order;
    forall keep: bool
      ensures Partition(upto, pending, now, timeout, keep) ==
              Partition(order[..i], pending, now, timeout, keep) +
              if Expired(pending[order[i]], now, timeout) != keep then [order[i]] else []
    {
    }
  }

  /** Observations of the seven required readings (and efficiency, if given) become the sample, unless one of them
      cannot be an observation. */
  method Assemble(asset: AssetId, t: Timestamp, readings: map<Measurement, Reading>)
    returns (sample: Option<TelemetrySample>)
    requires asset != "" && HasAllRequired(readings) && Canonical(readings)
    ensures sample.Some? <==> Identified(readings)
    ensures sample.Some? ==> sample.value == SampleOf(asset, t, readings)
  {
    var obs := BuildObservations(asset, t, readings);
    if obs.None? {
      return None;
    }
    AssembledIsAcceptable(obs.value, asset, t, readings);
    var r := FromObservations(obs.value);
    CarriedIsSampleOf(r.value, obs.value, asset, t, readings);
    return Some(r.value);
  }
}
