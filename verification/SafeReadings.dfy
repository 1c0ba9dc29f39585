/** Ranges of readings on which scoring cannot raise, and why a worker that is only sent such readings stays within
    them: every buffered reading and every entry of every session's history is one that was sent. */
module SafeReadings {
  import opened Telemetry
  import opened TelemetryEvents
  import opened Assembly
  import opened Pipeline
  import S = InferenceSession

  type Range = (Measurement, real) -> bool

  // --- what a feature row may be given ---------------------------------------------------------------

  /** One measurement as every warm session hands it over: twelve entries, ten seconds apart, from sample number `k + 1`
      on, and the shorter windows and the two newest values taken from them. */
  predicate ViewShaped(v: S.SeriesView, k: nat) {
    && |v.w12| == 12 && v.w6 == v.w12[6..] && v.w3 == v.w12[9..]
    && v.current == v.w12[11].value && v.previous == v.w12[10].value
    && forall i :: 0 <= i < 12 ==> v.w12[i].elapsed == (k + 1 + i) as real * S.DT
  }

  ghost predicate Shaped(inputs: S.FeatureInputs, k: nat) {
    (forall m :: m in inputs <==> IsRequired(m)) && forall m :: m in inputs ==> ViewShaped(inputs[m], k)
  }

  predicate EntriesIn(good: Range, m: Measurement, es: seq<S.Entry>) {
    forall i :: 0 <= i < |es| ==> good(m, es[i].value)
  }

  predicate InputsIn(good: Range, inputs: S.FeatureInputs) {
    forall m :: m in inputs ==> EntriesIn(good, m, inputs[m].w12)
  }

  /** Scoring never raises on twelve consecutive samples whose readings are all in the range. */
  ghost predicate SafeOn(sys: S.FaultSystem, good: Range) {
    forall inputs: S.FeatureInputs, k: nat :: Shaped(inputs, k) && InputsIn(good, inputs) ==> S.Scorable(sys, inputs)
  }

  // --- sessions -----------------------------------------------------------------------------------------

  predicate SampleIn(good: Range, x: TelemetrySample) {
    forall m :: IsRequired(m) && m in x.values ==> good(m, x.values[m])
  }

  /** The buffer ends with the entry of sample number `count`, and its entries are ten seconds apart. */
  predicate Timed(h: seq<S.Entry>, count: nat) {
    |h| <= count && forall i :: 0 <= i < |h| ==> h[i].elapsed == (count - |h| + i + 1) as real * S.DT
  }

  predicate SessionIn(good: Range, s: S.SessionState) {
    forall m :: IsRequired(m) && m in s.history ==> EntriesIn(good, m, s.history[m]) && Timed(s.history[m], s.count)
  }

  ghost predicate SessionsIn(good: Range, ss: Sessions) { forall a :: a in ss ==> SessionIn(good, ss[a]) }

  lemma PushedIn(good: Range, m: Measurement, h: seq<S.Entry>, count: nat, value: real)
    requires EntriesIn(good, m, h) && Timed(h, count) && good(m, value)
    ensures var r := S.LastEntries(h + [S.Entry((count + 1) as real * S.DT, value)]);
            EntriesIn(good, m, r) && Timed(r, count + 1)
  {
    var all := h + [S.Entry((count + 1) as real * S.DT, value)];
    var r := S.LastEntries(all);
    forall i | 0 <= i < |r| ensures r[i] == all[|all| - |r| + i] { }
  }

  lemma AppendedIn(good: Range, s: S.SessionState, x: TelemetrySample)
    requires S.StateValid(s) && S.Complete(x) && SessionIn(good, s) && SampleIn(good, x)
    ensures SessionIn(good, S.Appended(s, x))
  {
    hide S.LastEntries; hide EntriesIn; hide Timed;
    forall m | IsRequired(m)
      ensures var h := S.Appended(s, x).history[m]; EntriesIn(good, m, h) && Timed(h, s.count + 1)
    {
      PushedIn(good, m, s.history[m], s.count, x.values[m]);
    }
  }

  /** A warm session hands over inputs of the expected shape, in the range. */
  lemma WarmInputs(good: Range, s: S.SessionState)
    requires S.StateValid(s) && s.count >= S.LONGEST_WINDOW && SessionIn(good, s)
    ensures S.Ready(s.history, S.LONGEST_WINDOW - 1)
    ensures var inputs := S.InputsAt(s.history, S.LONGEST_WINDOW - 1);
            Shaped(inputs, s.count - S.LONGEST_WINDOW) && InputsIn(good, inputs)
  {
    hide EntriesIn;
    forall m | IsRequired(m)
      ensures var v := S.ViewAt(s.history[m], 11); ViewShaped(v, s.count - 12) && EntriesIn(good, m, v.w12)
    {
      var h := s.history[m];
      assert |h| == 12 && h[0..12] == h;
    }
  }

  lemma ReactsIn(sys: S.FaultSystem, good: Range, s: S.SessionState, x: TelemetrySample)
    requires sys.WellFormed() && SafeOn(sys, good) && S.StateValid(s) && S.Complete(x)
    requires SessionIn(good, s) && SampleIn(good, x)
    ensures var (s', reply) := S.Reacts(sys, x.assetId, s, S.Offer(x)); SessionIn(good, s') && !reply.ScoringRaised?
  {
    hide S.InputsAt; hide S.RowOf; hide S.ResultOf; hide S.Pushed; hide S.Ready; hide S.FaultSystem.WellFormed;
    hide S.Scorable; hide EntriesIn; hide Timed; hide Shaped; hide InputsIn; hide SampleIn; hide S.StateValid;
    AppendedIn(good, s, x);
    var t := S.Appended(s, x);
    if t.count >= S.LONGEST_WINDOW {
      WarmInputs(good, t);
      var inputs := S.InputsAt(t.history, S.LONGEST_WINDOW - 1);
      assert S.Scorable(sys, inputs);
    }
  }

  /** On a system that is safe on the range, routing a sample in the range never raises in scoring and keeps every
      history in the range. */
  lemma RouteIn(sys: S.FaultSystem, good: Range, ss: Sessions, x: TelemetrySample)
    requires sys.WellFormed() && SafeOn(sys, good) && SessionsValid(ss) && S.Complete(x)
    requires SessionsIn(good, ss) && SampleIn(good, x)
    ensures var (ss', reply) := Route(sys, ss, x); SessionsIn(good, ss') && !reply.ScoringRaised?
  {
    hide S.Reacts; hide SafeOn; hide SampleIn; hide S.FaultSystem.WellFormed;
    assert SessionIn(good, S.COLD());
    hide SessionIn;
    ReactsIn(sys, good, SessionFor(ss, x.assetId), x);
  }

  // --- the assembler ------------------------------------------------------------------------------------

  predicate EventIn(good: Range, e: Event) { IsRequired(e.measurement) ==> good(e.measurement, e.value) }

  predicate ReadingsIn(good: Range, readings: map<Measurement, Reading>) {
    forall m :: m in readings && IsRequired(m) ==> good(m, readings[m].value)
  }

  predicate BufferIn(good: Range, b: AssetBuffer) {
    forall t :: t in b.pending ==> ReadingsIn(good, b.pending[t].readings)
  }

  predicate BuffersIn(good: Range, s: State) { forall a :: a in s.buffers ==> BufferIn(good, s.buffers[a]) }

  lemma BufferIngestIn(good: Range, b: AssetBuffer, e: Event, now: real, maxBuffered: nat)
    requires KeysMatch(b) && BufferIn(good, b) && EventIn(good, e)
    ensures BufferIn(good, BufferIngest(b, e, now, maxBuffered).0)
  {
    hide HasAllRequired; hide Identified;
  }

  lemma IngestIn(lim: Limits, good: Range, s: State, e: Event, now: real)
    requires lim.Valid() && Valid(lim, s) && e.Valid() && BuffersIn(good, s) && EventIn(good, e)
    ensures BuffersIn(good, Ingest(lim, s, e, now).0)
  {
    hide BufferIngest; hide BufferValid; hide Ingest; hide Valid; hide ReadingsIn;
    MapsMatch(lim, s);
    IngestIsLocal(lim, s, e, now);
    BufferIngestIn(good, OwnBuffer(s, e.assetId, now), e, now, lim.maxBuffered);
  }

  lemma SweepIn(lim: Limits, good: Range, s: State, now: real)
    requires Valid(lim, s) && BuffersIn(good, s)
    ensures BuffersIn(good, Sweep(lim, s, now).0)
  {
    hide BufferValid; hide ReadingsIn; hide Partition;
  }

  /** A sample is made of readings in the range. */
  lemma CompletedIn(good: Range, s: State, e: Event)
    requires BuffersIn(good, s) && EventIn(good, e) && CompletedBy(s, e).Some?
    ensures var x := SampleOf(e.assetId, e.timestamp, CompletedBy(s, e).value); S.Complete(x) && SampleIn(good, x)
  {
    assert BufferIn(good, s.buffers[e.assetId]);
  }
}
