/** What a sample is made of: the buffered readings, and the verdict on every event, are those of
    a reference that looks only at the list of events accepted for the sample since it was opened. */
module AssemblyContent {
  import opened Telemetry
  import opened TelemetryEvents
  import opened Assembly
  import opened AssemblyConservation

  /** The first reading of each measurement. */
  function FirstReadings(es: seq<Event>): map<Measurement, Reading> {
    if es == [] then map[]
    else
      var n := |es| - 1;
      var earlier := FirstReadings(es[..n]);
      if es[n].measurement in earlier then earlier else earlier[es[n].measurement := ReadingOf(es[n])]
  }

  /** No two events give different readings of one measurement. */
  predicate Consistent(es: seq<Event>) {
    forall i, j :: 0 <= i < j < |es| && es[i].measurement == es[j].measurement ==>
      es[i].value == es[j].value && es[i].unit == es[j].unit
  }

  predicate AllFor(es: seq<Event>, a: AssetId, t: Timestamp) {
    forall i :: 0 <= i < |es| ==> IsFor(es[i], a, t)
  }

  lemma NothingSentYet()
    ensures Consistent([]) && FirstReadings([]) == map[]
  {
  }

  predicate IsFor(e: Event, a: AssetId, t: Timestamp) { e.assetId == a && e.timestamp == t }

  /** The events accepted for sample (`a`, `t`) since the slot now open was opened. */
  ghost function Since(lim: Limits, ops: seq<Op>, a: AssetId, t: Timestamp): seq<Event>
    requires lim.Valid() && OpsValid(ops)
  {
    hide Step; hide Valid;
    if ops == [] || !IsBuffered(After(lim, ops), a, t) then []
    else
      var n := |ops| - 1;
      var earlier := Since(lim, ops[..n], a, t);
      if ops[n].Take? && IsFor(ops[n].event, a, t) && !LateFor(After(lim, ops[..n]), ops[n].event)
      then earlier + [ops[n].event] else earlier
  }

  predicate LateFor(s: State, e: Event) { e.assetId in s.buffers && IsLate(s.buffers[e.assetId], e) }

  /** Every measurement sent has a first reading. */
  lemma {:induction false} SentHasFirstReading(es: seq<Event>, i: nat)
    requires i < |es|
    ensures es[i].measurement in FirstReadings(es)
  {
    var n := |es| - 1;
    if i < n {
      assert es[..n][i] == es[i];
      SentHasFirstReading(es[..n], i);
    }
  }

  /** A first reading was sent. */
  lemma {:induction false} FirstReadingWasSent(es: seq<Event>, m: Measurement) returns (i: nat)
    requires m in FirstReadings(es)
    ensures i < |es| && es[i].measurement == m && FirstReadings(es)[m] == ReadingOf(es[i])
  {
    var n := |es| - 1;
    if m in FirstReadings(es[..n]) {
      i := FirstReadingWasSent(es[..n], m);
      assert es[..n][i] == es[i];
    } else {
      i := n;
    }
  }

  /** One more event keeps the list consistent exactly when it agrees with the first reading. */
  lemma ConsistentExtends(es: seq<Event>, e: Event)
    requires Consistent(es)
    ensures Consistent(es + [e]) <==>
            (e.measurement in FirstReadings(es) ==> Agrees(FirstReadings(es)[e.measurement], e))
    ensures FirstReadings(es + [e]) ==
            if e.measurement in FirstReadings(es) then FirstReadings(es)
            else FirstReadings(es)[e.measurement := ReadingOf(e)]
  {
    var all := es + [e];
    assert all[..|all| - 1] == es && all[|es|] == e;
    hide FirstReadings;
    if e.measurement in FirstReadings(es) {
      var i := FirstReadingWasSent(es, e.measurement);
      AgreesWithEarlier(es, e, i);
    } else {
      forall j | 0 <= j < |es| ensures es[j].measurement != e.measurement {
        SentHasFirstReading(es, j);
      }
      NewMeasurementAgrees(es, e);
    }
    hide Consistent;
  }

  lemma AgreesWithEarlier(es: seq<Event>, e: Event, i: nat)
    requires Consistent(es) && i < |es| && es[i].measurement == e.measurement
    ensures Consistent(es + [e]) <==> Agrees(ReadingOf(es[i]), e)
  {
    var all := es + [e];
    assert all[|es|] == e && all[i] == es[i];
    if Agrees(ReadingOf(es[i]), e) {
      forall j | 0 <= j < |es| && es[j].measurement == e.measurement
        ensures es[j].value == e.value && es[j].unit == e.unit
      {
        assert es[j].value == es[i].value && es[j].unit == es[i].unit;
      }
    }
  }

  lemma NewMeasurementAgrees(es: seq<Event>, e: Event)
    requires Consistent(es) && forall j :: 0 <= j < |es| ==> es[j].measurement != e.measurement
    ensures Consistent(es + [e])
  {
  }

  function OldReadings(b: AssetBuffer, t: Timestamp): map<Measurement, Reading> {
    if t in b.pending then b.pending[t].readings else map[]
  }

  /** What an event does to the slot it is for, and to any other slot of the same asset. */
  lemma BufferIngestAt(b: AssetBuffer, e: Event, now: real, maxBuffered: nat, t: Timestamp)
    requires KeysMatch(b)
    ensures var (after, outs) := BufferIngest(b, e, now, maxBuffered);
            && outs != []
            && (t in after.pending && (t != e.timestamp || IsLate(b, e)) ==>
                  t in b.pending && after.pending[t] == b.pending[t])
    ensures IsLate(b, e) ==> Own(b, e, now, maxBuffered) == Rejected(e.assetId, e.timestamp, Late)
    ensures !IsLate(b, e) ==>
              SlotVerdict(OldReadings(b, e.timestamp), e, BufferIngest(b, e, now, maxBuffered).0,
                          Own(b, e, now, maxBuffered))
  {
    if !IsLate(b, e) {
      var active := b.(lastActive := now);
      var (open, evicted) := Opened(active, e.assetId, e.timestamp, now, maxBuffered);
      assert e.timestamp in open.order by {
        if e.timestamp !in b.pending { assert open.order[|open.order| - 1] == e.timestamp; }
      }
      assert open.pending[e.timestamp].readings == OldReadings(b, e.timestamp);
      assert t in open.pending && t != e.timestamp ==> t in b.pending && open.pending[t] == b.pending[t];
    }
  }

  /** The event's own outcome, reported after any eviction. */
  ghost function Own(b: AssetBuffer, e: Event, now: real, maxBuffered: nat): Outcome
    requires KeysMatch(b)
  {
    var outs := BufferIngest(b, e, now, maxBuffered).1;
    outs[|outs| - 1]
  }

  ghost predicate SlotVerdict(old': map<Measurement, Reading>, e: Event, after: AssetBuffer, own: Outcome) {
    var t := e.timestamp;
    if e.measurement in old' then
      if Agrees(old'[e.measurement], e) then
        t in after.pending && after.pending[t].readings == old' && own == Waiting(e.assetId, t)
      else t !in after.pending && own == Rejected(e.assetId, t, ConflictingDuplicate)
    else
      var readings := old'[e.measurement := ReadingOf(e)];
      if HasAllRequired(readings) then
        t !in after.pending && own == Finished(e.assetId, t, readings)
      else t in after.pending && after.pending[t].readings == readings && own == Waiting(e.assetId, t)
  }

  /** A buffered sample holds the first reading of each measurement its accepted events gave, and
      those events never disagreed. */
  lemma {:induction false} BufferedIsFirstReadings(lim: Limits, ops: seq<Op>, a: AssetId, t: Timestamp)
    requires lim.Valid() && OpsValid(ops) && IsBuffered(After(lim, ops), a, t)
    ensures Since(lim, ops, a, t) != [] && Consistent(Since(lim, ops, a, t))
    ensures After(lim, ops).buffers[a].pending[t].readings == FirstReadings(Since(lim, ops, a, t))
    ensures AllFor(Since(lim, ops, a, t), a, t)
  {
    hide Ingest; hide Valid; hide BufferIngest; hide BufferValid; hide Own; hide Consistent; hide FirstReadings;
    hide BufferSweep; hide Expired; hide HasAllRequired;
    NothingSentYet();
    var n := |ops| - 1;
    var s := After(lim, ops[..n]);
    assert OpValid(ops[n]);
    if IsBuffered(s, a, t) {
      BufferedIsFirstReadings(lim, ops[..n], a, t);
    }
    match ops[n]
    case SweepAt(now) =>
      SweepIsExact(lim, s, now, a, t);
    case Take(e, now) =>
      IngestIsLocal(lim, s, e, now);
      if a == e.assetId {
        var own := OwnBuffer(s, a, now);
        BufferIngestAt(own, e, now, lim.maxBuffered, t);
        if t == e.timestamp && !IsLate(own, e) {
          var earlier := Since(lim, ops[..n], a, t);
          ConsistentExtends(earlier, e);
        }
      }
  }

  /** How an event's own outcome follows from the events accepted for its sample before it. */
  ghost predicate VerdictMatchesHistory(own: Outcome, earlier: seq<Event>, e: Event) {
    var all := earlier + [e];
    && (own == Rejected(e.assetId, e.timestamp, ConflictingDuplicate) <==> !Consistent(all))
    && (own.Complete? <==> Consistent(all) && HasAllRequired(FirstReadings(all)) && Identified(FirstReadings(all)))
    && (own.Aborted? <==> Consistent(all) && HasAllRequired(FirstReadings(all)) && !Identified(FirstReadings(all)))
    && (own.Complete? ==> own.sample == SampleOf(e.assetId, e.timestamp, FirstReadings(all)))
    && (own == Waiting(e.assetId, e.timestamp) <==> Consistent(all) && !HasAllRequired(FirstReadings(all)))
  }

  /** The verdict on every event of every run: late against the last completed timestamp; otherwise a
      conflict exactly when the accepted events disagree; complete exactly when they agree and cover all required
      measurements with first readings that all have ids (and then with those readings); aborted exactly when one of
      those has no id; and waiting in all other cases. */
  lemma IngestVerdict(lim: Limits, ops: seq<Op>, e: Event, now: real)
    requires lim.Valid() && OpsValid(ops) && e.Valid()
    ensures var s := After(lim, ops);
            var outs := Ingest(lim, s, e, now).1;
            && outs != []
            && var own := outs[|outs| - 1];
               if LateFor(s, e) then own == Rejected(e.assetId, e.timestamp, Late)
               else VerdictMatchesHistory(own, Since(lim, ops, e.assetId, e.timestamp), e)
  {
    hide Valid; hide BufferIngest; hide BufferValid; hide SlotVerdict; hide VerdictMatchesHistory; hide After;
    hide Since;
    var s := After(lim, ops);
    IngestIsLocal(lim, s, e, now);
    IngestEndsWithOwn(lim, s, e, now);
    var own := OwnBuffer(s, e.assetId, now);
    BufferIngestAt(own, e, now, lim.maxBuffered, e.timestamp);
    if !LateFor(s, e) {
      var earlier := Since(lim, ops, e.assetId, e.timestamp);
      if IsBuffered(s, e.assetId, e.timestamp) {
        BufferedIsFirstReadings(lim, ops, e.assetId, e.timestamp);
      } else {
        NotBufferedSinceEmpty(lim, ops, e.assetId, e.timestamp);
      }
      assert Consistent(earlier) && FirstReadings(earlier) == OldReadings(own, e.timestamp);
      SlotVerdictMatches(earlier, e, BufferIngest(own, e, now, lim.maxBuffered).0,
                         Own(own, e, now, lim.maxBuffered), own);
    }
  }

  lemma SlotVerdictMatches(earlier: seq<Event>, e: Event, after: AssetBuffer, own: Outcome, before: AssetBuffer)
    requires Consistent(earlier) && FirstReadings(earlier) == OldReadings(before, e.timestamp)
    requires SlotVerdict(OldReadings(before, e.timestamp), e, after, own)
    requires !HasAllRequired(OldReadings(before, e.timestamp))
    ensures VerdictMatchesHistory(own, earlier, e)
  {
    ConsistentExtends(earlier, e);
  }

  lemma NotBufferedSinceEmpty(lim: Limits, ops: seq<Op>, a: AssetId, t: Timestamp)
    requires lim.Valid() && OpsValid(ops) && !IsBuffered(After(lim, ops), a, t)
    ensures Since(lim, ops, a, t) == []
  {
  }

  lemma IngestEndsWithOwn(lim: Limits, s: State, e: Event, now: real)
    requires lim.Valid() && Valid(lim, s) && e.Valid()
    ensures var own := OwnBuffer(s, e.assetId, now);
            var outs := Ingest(lim, s, e, now).1;
            && KeysMatch(own) && outs != [] && outs[|outs| - 1] == Own(own, e, now, lim.maxBuffered)
            && !HasAllRequired(OldReadings(own, e.timestamp))
  {
    BufferForKeepsValid(lim, s, e.assetId, now);
    var own := OwnBuffer(s, e.assetId, now);
    assert BufferFor(lim, s, e.assetId, now).0.buffers[e.assetId] == own;
    RequiredIsEveryMeasurementButEfficiency(StackTemperature);
  }
}
