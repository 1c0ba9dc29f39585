/** One asset's inference state (`backend/simulator/inference/session.py`) on values, and the proof that
    its 12-entry buffers and counters lose nothing against a session that remembers every sample.

    Model formulas stay uninterpreted: the feature formulas, the classifier and the evidence builder are
    arbitrary functions. What a feature row may read is not assumed: it is the trailing windows the code cuts. */
module InferenceSession {
  import opened Basics
  import opened Telemetry
  import AlertPolicy

  const DT := 10.0
  const LONGEST_WINDOW: nat := 12

  datatype Entry = Entry(elapsed: real, value: real)

  type Series = map<Measurement, seq<Entry>>

  /** What a feature row reads of one measurement: the current and previous values and the trailing
      windows of 30, 60 and 120 seconds. */
  datatype SeriesView = SeriesView(current: real, previous: real, w3: seq<Entry>, w6: seq<Entry>, w12: seq<Entry>)

  type FeatureInputs = map<Measurement, SeriesView>

  /** What `compute_feature_row` comes to; `FeaturesRaise` stands for any exception it raises, such as one about a
      feature that is not finite. */
  datatype FeatureRow = InsufficientData(detail: string) | FeatureVector(values: seq<real>) | FeaturesRaise

  datatype FaultSystem = FaultSystem(
    features: FeatureInputs -> FeatureRow,
    predict: seq<real> -> Option<seq<real>>,
    evidence: (seq<real>, seq<real>, AlertPolicy.Machine) -> string,
    classes: seq<AlertPolicy.FaultClass>,
    policy: AlertPolicy.Config)
  {
    /** The classifier scores every class of the rows it does not refuse, and `healthy` is one of them. */
    ghost predicate WellFormed() {
      AlertPolicy.HEALTHY in classes && forall v :: predict(v).Some? ==> |predict(v).value| == |classes|
    }
  }

  datatype InferenceResult =
    | WarmingUp(asset: AssetId, timestamp: Timestamp, available: nat, required: nat)
    | Insufficient(asset: AssetId, timestamp: Timestamp, alertState: AlertPolicy.AlertState, detail: string)
    | Prediction(asset: AssetId, timestamp: Timestamp, diagnosed: AlertPolicy.FaultClass, scores: seq<real>,
                 alertState: AlertPolicy.AlertState, alertEvent: Option<AlertPolicy.AlertEvent>, evidence: string)

  datatype Refusal = WrongAsset | NonMonotonicTimestamp

  /** What a session says: an answer; one of its two refusals, which change nothing; an exception of the feature
      formulas or of the classifier; or nothing, to a reset. */
  datatype Reply = Answer(result: InferenceResult) | Refused(why: Refusal) | ScoringRaised | Done

  datatype SessionState = SessionState(
    history: Series, count: nat, last: Option<Timestamp>, machine: AlertPolicy.Machine)

  function NoHistory(): (s: Series)
    ensures forall m :: m in s <==> IsRequired(m)
    ensures forall m :: m in s ==> s[m] == []
  {
    map m | IsRequired(m) :: []
  }

  function COLD(): SessionState { SessionState(NoHistory(), 0, None, AlertPolicy.START) }

  predicate Complete(x: TelemetrySample) { HasAllRequired(x.values) }

  // --- feature rows -----------------------------------------------------------------

  /** `trailing_window`: the `n` entries ending at `index`. */
  function TrailingWindow(series: seq<Entry>, index: nat, n: nat): (w: seq<Entry>)
    requires index < |series| && n <= index + 1
    ensures |w| == n
  {
    series[index + 1 - n..index + 1]
  }

  ghost predicate Ready(h: Series, index: nat) {
    LONGEST_WINDOW <= index + 1 && forall m :: IsRequired(m) ==> m in h && index < |h[m]|
  }

  function ViewAt(series: seq<Entry>, index: nat): SeriesView
    requires LONGEST_WINDOW <= index + 1 && index < |series|
  {
    SeriesView(series[index].value, series[index - 1].value,
               TrailingWindow(series, index, 3), TrailingWindow(series, index, 6), TrailingWindow(series, index, 12))
  }

  /** Everything `compute_feature_row` reads for the sample at `index`. */
  function InputsAt(h: Series, index: nat): FeatureInputs
    requires Ready(h, index)
  {
    map m | IsRequired(m) :: ViewAt(h[m], index)
  }

  function ArgMax(scores: seq<real>): (k: nat)
    requires scores != []
    ensures k < |scores| && (forall i :: 0 <= i < |scores| ==> scores[i] <= scores[k])
    ensures forall i :: 0 <= i < k ==> scores[i] < scores[k]
  {
    if |scores| == 1 then 0
    else
      var n := |scores| - 1;
      var k := ArgMax(scores[..n]);
      if scores[n] > scores[k] then n else k
  }

  /** Neither the feature formulas nor the classifier raise. */
  predicate Scorable(sys: FaultSystem, inputs: FeatureInputs) {
    match sys.features(inputs)
    case InsufficientData(_) => true
    case FeatureVector(v) => sys.predict(v).Some?
    case FeaturesRaise => false
  }

  /** The alert-machine row of one feature row. */
  function RowOf(sys: FaultSystem, inputs: FeatureInputs): AlertPolicy.Row
    requires sys.WellFormed() && Scorable(sys, inputs)
  {
    match sys.features(inputs)
    case InsufficientData(_) => AlertPolicy.Untrusted
    case FeatureVector(v) =>
      var scores := sys.predict(v).value;
      var k := ArgMax(scores);
      AlertPolicy.Scored(sys.classes[k], scores[k], scores[IndexOf(sys.classes, AlertPolicy.HEALTHY)])
  }

  /** What the session publishes for one feature row, given the machine before and after it. */
  function ResultOf(sys: FaultSystem, x: TelemetrySample, inputs: FeatureInputs,
                          after: AlertPolicy.Machine, event: Option<AlertPolicy.AlertEvent>): InferenceResult
    requires sys.WellFormed() && Scorable(sys, inputs)
  {
    match sys.features(inputs)
    case InsufficientData(d) => Insufficient(x.assetId, x.timestamp, after.state, d)
    case FeatureVector(v) =>
      var scores := sys.predict(v).value;
      Prediction(x.assetId, x.timestamp, sys.classes[ArgMax(scores)], scores, after.state, event,
                 sys.evidence(v, scores, after))
  }

  // --- the bounded session --------------------------------------------------------------

  function LastEntries(s: seq<Entry>): (r: seq<Entry>)
    ensures |r| <= LONGEST_WINDOW
  {
    if |s| > LONGEST_WINDOW then s[|s| - LONGEST_WINDOW..] else s
  }

  function Pushed(h: Series, elapsed: real, x: TelemetrySample): Series
    requires Complete(x) && forall m :: IsRequired(m) ==> m in h
  {
    map m | IsRequired(m) :: LastEntries(h[m] + [Entry(elapsed, x.values[m])])
  }

  /** All series have the same length: one entry per sample, at most twelve. */
  ghost predicate StateValid(s: SessionState) {
    && (forall m :: m in s.history <==> IsRequired(m))
    && (forall m :: IsRequired(m) ==> |s.history[m]| == if s.count < LONGEST_WINDOW then s.count else LONGEST_WINDOW)
  }

  function RefusalOf(asset: AssetId, s: SessionState, x: TelemetrySample): Option<Refusal> {
    if x.assetId != asset then Some(WrongAsset)
    else if s.last.Some? && x.timestamp <= s.last.value then Some(NonMonotonicTimestamp)
    else None
  }

  /** The buffers, the count and the last timestamp after one more sample. */
  ghost function Appended(s: SessionState, x: TelemetrySample): (r: SessionState)
    requires StateValid(s) && Complete(x)
    ensures StateValid(r)
  {
    SessionState(Pushed(s.history, (s.count + 1) as real * DT, x), s.count + 1, Some(x.timestamp), s.machine)
  }

  /** Scores the newest sample of a warm session. */
  ghost function ScoreNewest(sys: FaultSystem, s: SessionState, x: TelemetrySample): (r: (SessionState, Reply))
    requires sys.WellFormed() && StateValid(s) && s.count >= LONGEST_WINDOW
    ensures StateValid(r.0)
  {
    assert Ready(s.history, LONGEST_WINDOW - 1);
    var inputs := InputsAt(s.history, LONGEST_WINDOW - 1);
    if !Scorable(sys, inputs) then (s, ScoringRaised)
    else
      var (machine, event) := AlertPolicy.Step(sys.policy, s.machine, s.count as real * DT, RowOf(sys, inputs));
      (s.(machine := machine), Answer(ResultOf(sys, x, inputs, machine, event)))
  }

  /** `FaultInferenceSession.ingest` for a sample it does not refuse. */
  ghost function Ingest(sys: FaultSystem, s: SessionState, x: TelemetrySample): (r: (SessionState, Reply))
    requires sys.WellFormed() && StateValid(s) && Complete(x)
    ensures StateValid(r.0)
  {
    var s' := Appended(s, x);
    if s'.count < LONGEST_WINDOW then (s', Answer(WarmingUp(x.assetId, x.timestamp, s'.count, LONGEST_WINDOW)))
    else ScoreNewest(sys, s', x)
  }

  // --- a session that remembers everything ------------------------------------------------

  predicate AllComplete(xs: seq<TelemetrySample>) { forall i :: 0 <= i < |xs| ==> Complete(xs[i]) }

  /** The whole run's series, as the offline feature builder sees it. */
  function FullSeries(xs: seq<TelemetrySample>, m: Measurement): (r: seq<Entry>)
    requires AllComplete(xs) && IsRequired(m)
    ensures |r| == |xs|
    ensures forall i :: 0 <= i < |xs| ==> r[i] == Entry((i + 1) as real * DT, xs[i].values[m])
  {
    seq(|xs|, i requires 0 <= i < |xs| => Entry((i + 1) as real * DT, xs[i].values[m]))
  }

  function FullHistory(xs: seq<TelemetrySample>): (h: Series)
    requires AllComplete(xs)
  {
    map m | IsRequired(m) :: FullSeries(xs, m)
  }

  function FullInputs(xs: seq<TelemetrySample>): FeatureInputs
    requires AllComplete(xs) && |xs| >= LONGEST_WINDOW
  {
    InputsAt(FullHistory(xs), |xs| - 1)
  }

  /** The row of the newest of `xs`, if it has one: none during warm-up, and none when scoring raises. */
  ghost function NewestRow(sys: FaultSystem, xs: seq<TelemetrySample>): Option<AlertPolicy.TimedRow>
    requires sys.WellFormed() && AllComplete(xs)
  {
    if |xs| < LONGEST_WINDOW || !Scorable(sys, FullInputs(xs)) then None
    else Some(AlertPolicy.TimedRow(|xs| as real * DT, RowOf(sys, FullInputs(xs))))
  }

  /** The rows the alert machine sees, each computed from all samples up to its own. */
  ghost function FullRows(sys: FaultSystem, xs: seq<TelemetrySample>): (rows: seq<AlertPolicy.TimedRow>)
    requires sys.WellFormed() && AllComplete(xs)
  {
    if xs == [] then []
    else
      FullRows(sys, xs[..|xs| - 1]) + if NewestRow(sys, xs).Some? then [NewestRow(sys, xs).value] else []
  }

  /** The alert machine after every row of `xs`. */
  ghost function FullMachine(sys: FaultSystem, xs: seq<TelemetrySample>): AlertPolicy.Machine
    requires sys.WellFormed() && AllComplete(xs)
  {
    AlertPolicy.Run(sys.policy, FullRows(sys, xs)).0
  }

  /** The reference reply after samples `xs` (the last one being the sample the reply is for). */
  ghost function FullReply(sys: FaultSystem, xs: seq<TelemetrySample>): Reply
    requires sys.WellFormed() && AllComplete(xs) && xs != []
  {
    var x := xs[|xs| - 1];
    if |xs| < LONGEST_WINDOW then Answer(WarmingUp(x.assetId, x.timestamp, |xs|, LONGEST_WINDOW))
    else if !Scorable(sys, FullInputs(xs)) then ScoringRaised
    else
      var (m, event) := AlertPolicy.Step(sys.policy, FullMachine(sys, xs[..|xs| - 1]), |xs| as real * DT,
                                         RowOf(sys, FullInputs(xs)));
      Answer(ResultOf(sys, x, FullInputs(xs), m, event))
  }

  /** What the bounded buffers stand for. */
  ghost predicate RepresentsHistory(s: SessionState, xs: seq<TelemetrySample>)
    requires AllComplete(xs)
  {
    && StateValid(s)
    && s.count == |xs|
    && s.last == (if xs == [] then None else Some(xs[|xs| - 1].timestamp))
    && (forall m :: IsRequired(m) ==> s.history[m] == LastEntries(FullSeries(xs, m)))
  }

  /** What the bounded state stands for. */
  ghost predicate Represents(sys: FaultSystem, s: SessionState, xs: seq<TelemetrySample>)
    requires sys.WellFormed() && AllComplete(xs)
  {
    RepresentsHistory(s, xs) && s.machine == FullMachine(sys, xs)
  }

  lemma ColdRepresentsNothing(sys: FaultSystem)
    requires sys.WellFormed()
    ensures Represents(sys, COLD(), [])
  {
  }

  /** Trimming before or after appending is the same. */
  lemma TrimThenPush(s: seq<Entry>, e: Entry)
    ensures LastEntries(LastEntries(s) + [e]) == LastEntries(s + [e])
  {
  }

  lemma FullSeriesGrows(xs: seq<TelemetrySample>, x: TelemetrySample, m: Measurement)
    requires Complete(x) && AllComplete(xs) && AllComplete(xs + [x]) && IsRequired(m)
    ensures FullSeries(xs + [x], m) == FullSeries(xs, m) + [Entry((|xs| + 1) as real * DT, x.values[m])]
  {
  }

  lemma PushedIsLastEntries(s: SessionState, xs: seq<TelemetrySample>, x: TelemetrySample, m: Measurement)
    requires Complete(x) && AllComplete(xs) && AllComplete(xs + [x]) && IsRequired(m)
    requires m in s.history && s.history[m] == LastEntries(FullSeries(xs, m))
    ensures LastEntries(s.history[m] + [Entry((|xs| + 1) as real * DT, x.values[m])]) ==
            LastEntries(FullSeries(xs + [x], m))
  {
    hide LastEntries; hide FullSeries;
    FullSeriesGrows(xs, x, m);
    TrimThenPush(FullSeries(xs, m), Entry((|xs| + 1) as real * DT, x.values[m]));
  }

  /** What a row reads of the last twelve entries is what it reads of the whole series. */
  lemma ViewOfLastEntries(s: seq<Entry>)
    requires |s| >= LONGEST_WINDOW
    ensures |LastEntries(s)| == LONGEST_WINDOW
    ensures ViewAt(LastEntries(s), LONGEST_WINDOW - 1) == ViewAt(s, |s| - 1)
  {
    var d := |s| - LONGEST_WINDOW;
    var r := LastEntries(s);
    assert forall i :: 0 <= i < LONGEST_WINDOW ==> r[i] == s[d + i];
    assert r[9..12] == s[d + 9..d + 12];
    assert r[6..12] == s[d + 6..d + 12];
    assert r[0..12] == s[d..d + 12];
  }

  lemma BoundedInputsAreFullInputs(h: Series, xs: seq<TelemetrySample>)
    requires AllComplete(xs) && |xs| >= LONGEST_WINDOW && Ready(h, LONGEST_WINDOW - 1)
    requires forall m :: IsRequired(m) ==> h[m] == LastEntries(FullSeries(xs, m))
    ensures InputsAt(h, LONGEST_WINDOW - 1) == FullInputs(xs)
  {
    hide LastEntries; hide ViewAt;
    var full := FullHistory(xs);
    forall m | IsRequired(m) ensures ViewAt(h[m], LONGEST_WINDOW - 1) == ViewAt(full[m], |xs| - 1) {
      ViewOfLastEntries(full[m]);
    }
  }

  lemma AppendedRefines(s: SessionState, xs: seq<TelemetrySample>, x: TelemetrySample)
    requires Complete(x) && AllComplete(xs) && RepresentsHistory(s, xs)
    ensures AllComplete(xs + [x]) && RepresentsHistory(Appended(s, x), xs + [x])
  {
    hide LastEntries; hide FullSeries;
    forall m | IsRequired(m)
      ensures Pushed(s.history, (s.count + 1) as real * DT, x)[m] == LastEntries(FullSeries(xs + [x], m))
    {
      PushedIsLastEntries(s, xs, x, m);
    }
  }

  lemma ScoringRefines(sys: FaultSystem, s: SessionState, xs: seq<TelemetrySample>)
    requires sys.WellFormed() && AllComplete(xs) && |xs| >= LONGEST_WINDOW && RepresentsHistory(s, xs)
    requires s.machine == FullMachine(sys, xs[..|xs| - 1])
    ensures Represents(sys, ScoreNewest(sys, s, xs[|xs| - 1]).0, xs)
    ensures ScoreNewest(sys, s, xs[|xs| - 1]).1 == FullReply(sys, xs)
  {
    hide InputsAt; hide AlertPolicy.Step; hide RowOf; hide ResultOf; hide FullInputs; hide RepresentsHistory;
    hide StateValid;
    hide FullMachine; hide AllComplete; hide FaultSystem.WellFormed; hide Ready; hide Scorable;
    HistoryGivesInputs(s, xs);
    MachineSteps(sys, xs);
    MachineIsNotHistory(s, ScoreNewest(sys, s, xs[|xs| - 1]).0.machine, xs);
  }

  /** The newest sample makes the machine take one step on its row, or none if it has no row. */
  lemma MachineSteps(sys: FaultSystem, xs: seq<TelemetrySample>)
    requires sys.WellFormed() && AllComplete(xs) && xs != []
    ensures AllComplete(xs[..|xs| - 1])
    ensures FullMachine(sys, xs) ==
            if |xs| < LONGEST_WINDOW || !Scorable(sys, FullInputs(xs)) then FullMachine(sys, xs[..|xs| - 1])
            else AlertPolicy.Step(sys.policy, FullMachine(sys, xs[..|xs| - 1]), |xs| as real * DT,
                                  RowOf(sys, FullInputs(xs))).0
  {
    hide AlertPolicy.Step; hide RowOf; hide FullInputs; hide FaultSystem.WellFormed; hide Scorable;
    var rows, before := FullRows(sys, xs), FullRows(sys, xs[..|xs| - 1]);
    if NewestRow(sys, xs).Some? {
      assert rows[..|rows| - 1] == before;
    } else {
      assert rows == before;
    }
  }

  lemma HistoryGivesInputs(s: SessionState, xs: seq<TelemetrySample>)
    requires AllComplete(xs) && |xs| >= LONGEST_WINDOW && RepresentsHistory(s, xs)
    ensures StateValid(s) && s.count == |xs| && Ready(s.history, LONGEST_WINDOW - 1)
    ensures InputsAt(s.history, LONGEST_WINDOW - 1) == FullInputs(xs)
  {
    hide InputsAt; hide FullInputs;
    BoundedInputsAreFullInputs(s.history, xs);
  }

  lemma MachineIsNotHistory(s: SessionState, m: AlertPolicy.Machine, xs: seq<TelemetrySample>)
    requires AllComplete(xs) && RepresentsHistory(s, xs)
    ensures RepresentsHistory(s.(machine := m), xs)
  {
  }

  /** One accepted sample: the bounded session answers as the full-history one, and still represents it. */
  lemma IngestRefines(sys: FaultSystem, s: SessionState, xs: seq<TelemetrySample>, x: TelemetrySample)
    requires sys.WellFormed() && AllComplete(xs) && Complete(x) && Represents(sys, s, xs)
    ensures AllComplete(xs + [x])
    ensures Represents(sys, Ingest(sys, s, x).0, xs + [x])
    ensures Ingest(sys, s, x).1 == FullReply(sys, xs + [x])
  {
    hide LastEntries; hide Pushed; hide ScoreNewest; hide ResultOf; hide FullMachine; hide Scorable;
    hide FaultSystem.WellFormed;
    AppendedRefines(s, xs, x);
    var all := xs + [x];
    assert all[..|all| - 1] == xs && all[|xs|] == x;
    MachineSteps(sys, all);
    if |all| >= LONGEST_WINDOW {
      ScoringRefines(sys, Appended(s, x), all);
    }
  }

  // --- whole runs: samples, refused samples and resets -----------------------------------------

  datatype SessionOp = Offer(sample: TelemetrySample) | Reset

  predicate OpsComplete(ops: seq<SessionOp>) { forall i :: 0 <= i < |ops| && ops[i].Offer? ==> Complete(ops[i].sample) }

  ghost function Reacts(sys: FaultSystem, asset: AssetId, s: SessionState, op: SessionOp): (r: (SessionState, Reply))
    requires sys.WellFormed() && StateValid(s) && (op.Offer? ==> Complete(op.sample))
    ensures StateValid(r.0)
  {
    if op.Reset? then (COLD(), Done)
    else if RefusalOf(asset, s, op.sample).Some? then (s, Refused(RefusalOf(asset, s, op.sample).value))
    else Ingest(sys, s, op.sample)
  }

  ghost function SessionRun(sys: FaultSystem, asset: AssetId, ops: seq<SessionOp>): (r: (SessionState, seq<Reply>))
    requires sys.WellFormed() && OpsComplete(ops)
    ensures StateValid(r.0)
  {
    if ops == [] then (COLD(), [])
    else
      var n := |ops| - 1;
      var (s, replies) := SessionRun(sys, asset, ops[..n]);
      var (s', reply) := Reacts(sys, asset, s, ops[n]);
      (s', replies + [reply])
  }

  /** A sample is welcome to a session of `asset` that has accepted `xs`. */
  predicate Welcome(asset: AssetId, xs: seq<TelemetrySample>, x: TelemetrySample) {
    x.assetId == asset && (xs == [] || xs[|xs| - 1].timestamp < x.timestamp)
  }

  /** The samples accepted since the last reset. */
  function Remembered(asset: AssetId, ops: seq<SessionOp>): (xs: seq<TelemetrySample>)
    requires OpsComplete(ops)
    ensures AllComplete(xs)
  {
    if ops == [] then []
    else
      var n := |ops| - 1;
      var xs := Remembered(asset, ops[..n]);
      if ops[n].Reset? then [] else if Welcome(asset, xs, ops[n].sample) then xs + [ops[n].sample] else xs
  }

  /** What a session that remembers every accepted sample replies to the last of `ops`. */
  ghost function MemoryReply(sys: FaultSystem, asset: AssetId, ops: seq<SessionOp>): Reply
    requires sys.WellFormed() && OpsComplete(ops) && ops != []
  {
    var n := |ops| - 1;
    var xs := Remembered(asset, ops[..n]);
    if ops[n].Reset? then Done
    else if ops[n].sample.assetId != asset then Refused(WrongAsset)
    else if !Welcome(asset, xs, ops[n].sample) then Refused(NonMonotonicTimestamp)
    else FullReply(sys, xs + [ops[n].sample])
  }

  /** The reference run: every reply is computed from all accepted samples since the last reset. */
  ghost function MemoryRun(sys: FaultSystem, asset: AssetId, ops: seq<SessionOp>): (replies: seq<Reply>)
    requires sys.WellFormed() && OpsComplete(ops)
    ensures |replies| == |ops|
  {
    if ops == [] then [] else MemoryRun(sys, asset, ops[..|ops| - 1]) + [MemoryReply(sys, asset, ops)]
  }

  /** For every sequence of samples and resets the bounded session replies exactly as the reference does. */
  lemma {:induction false} BoundedSessionRefinesMemory(sys: FaultSystem, asset: AssetId, ops: seq<SessionOp>)
    requires sys.WellFormed() && OpsComplete(ops)
    ensures SessionRun(sys, asset, ops).1 == MemoryRun(sys, asset, ops)
    ensures Represents(sys, SessionRun(sys, asset, ops).0, Remembered(asset, ops))
  {
    hide Ingest; hide FullReply; hide FullMachine; hide FaultSystem.WellFormed;
    if ops == [] {
      ColdRepresentsNothing(sys);
    } else {
      var n := |ops| - 1;
      BoundedSessionRefinesMemory(sys, asset, ops[..n]);
      var s, xs := SessionRun(sys, asset, ops[..n]).0, Remembered(asset, ops[..n]);
      ColdRepresentsNothing(sys);
      if ops[n].Offer? {
        IngestRefines(sys, s, xs, ops[n].sample);
      }
    }
  }

  // --- warm-up and the steps of the alert machine ---------------------------------------------------

  /** The alert machine of a session after `ops`. */
  ghost function MachineAfter(sys: FaultSystem, asset: AssetId, ops: seq<SessionOp>): AlertPolicy.Machine
    requires sys.WellFormed() && OpsComplete(ops)
  {
    SessionRun(sys, asset, ops).0.machine
  }

  /** The last of `ops` is a sample the session accepts. */
  predicate Accepts(asset: AssetId, ops: seq<SessionOp>)
    requires OpsComplete(ops) && ops != []
  {
    var n := |ops| - 1;
    ops[n].Offer? && Welcome(asset, Remembered(asset, ops[..n]), ops[n].sample)
  }

  /** The machine makes exactly one step for the last of `ops`, on the row of all samples since the reset. */
  ghost predicate StepsOnce(sys: FaultSystem, asset: AssetId, ops: seq<SessionOp>)
    requires sys.WellFormed() && OpsComplete(ops) && ops != []
  {
    var xs := Remembered(asset, ops);
    && |xs| >= LONGEST_WINDOW && Scorable(sys, FullInputs(xs))
    && MachineAfter(sys, asset, ops) ==
       AlertPolicy.Step(sys.policy, MachineAfter(sys, asset, ops[..|ops| - 1]), |xs| as real * DT,
                        RowOf(sys, FullInputs(xs))).0
  }

  lemma {:induction false} ReplyAt(sys: FaultSystem, asset: AssetId, ops: seq<SessionOp>, i: nat)
    requires sys.WellFormed() && OpsComplete(ops) && i < |ops|
    ensures MemoryRun(sys, asset, ops)[i] == MemoryReply(sys, asset, ops[..i + 1])
  {
    hide MemoryReply;
    var n := |ops| - 1;
    if i < n {
      assert ops[..n][..i + 1] == ops[..i + 1];
      ReplyAt(sys, asset, ops[..n], i);
    } else {
      assert ops[..i + 1] == ops;
    }
  }

  /** Which kind of reply an accepted sample gets. */
  lemma ReplyKinds(sys: FaultSystem, xs: seq<TelemetrySample>)
    requires sys.WellFormed() && AllComplete(xs) && xs != []
    ensures var r := FullReply(sys, xs);
            if |xs| <= 11 then IsWarmUp(r)
            else if Scorable(sys, FullInputs(xs)) then IsScored(r) else r == ScoringRaised
  {
    hide FullInputs; hide FullMachine; hide RowOf; hide AlertPolicy.Step;
  }

  predicate IsWarmUp(r: Reply) { r.Answer? && r.result.WarmingUp? }

  predicate IsScored(r: Reply) { r.Answer? && !r.result.WarmingUp? }

  lemma LastReply(sys: FaultSystem, asset: AssetId, ops: seq<SessionOp>)
    requires sys.WellFormed() && OpsComplete(ops) && ops != []
    ensures var reply := MemoryReply(sys, asset, ops); var n := |Remembered(asset, ops)|;
            && (IsWarmUp(reply) <==> Accepts(asset, ops) && n <= 11)
            && (IsScored(reply) || reply.ScoringRaised? <==> Accepts(asset, ops) && n >= 12)
            && (IsScored(reply) ==> StepsOnce(sys, asset, ops))
            && (IsWarmUp(reply) || reply.ScoringRaised? || reply.Refused? ==>
                  MachineAfter(sys, asset, ops) == MachineAfter(sys, asset, ops[..|ops| - 1]))
  {
    hide SessionRun; hide FullMachine; hide AlertPolicy.Step; hide RowOf; hide FullInputs; hide FullReply;
    hide RepresentsHistory; hide FaultSystem.WellFormed; hide Scorable;
    var before, xs := ops[..|ops| - 1], Remembered(asset, ops);
    BoundedSessionRefinesMemory(sys, asset, ops);
    BoundedSessionRefinesMemory(sys, asset, before);
    if Accepts(asset, ops) {
      assert xs[..|xs| - 1] == Remembered(asset, before);
      MachineSteps(sys, xs);
      ReplyKinds(sys, xs);
    }
  }

  /** Of every sequence of samples and resets: a reply is a warm-up if and only if it answers an accepted sample that
      is at most the eleventh since the last reset. A later accepted sample is scored, and then the alert machine takes
      exactly one step, or it raises; that, a warm-up and a refused sample make the machine take none. */
  lemma WarmUpIsElevenSamples(sys: FaultSystem, asset: AssetId, ops: seq<SessionOp>, i: nat)
    requires sys.WellFormed() && OpsComplete(ops) && i < |ops|
    ensures |SessionRun(sys, asset, ops).1| == |ops|
    ensures var upto := ops[..i + 1]; var reply := SessionRun(sys, asset, ops).1[i]; var n := |Remembered(asset, upto)|;
            && (IsWarmUp(reply) <==> Accepts(asset, upto) && n <= 11)
            && (IsScored(reply) || reply.ScoringRaised? <==> Accepts(asset, upto) && n >= 12)
            && (IsScored(reply) ==> StepsOnce(sys, asset, upto))
            && (IsWarmUp(reply) || reply.ScoringRaised? || reply.Refused? ==>
                  MachineAfter(sys, asset, upto) == MachineAfter(sys, asset, ops[..i]))
  {
    hide SessionRun; hide MemoryRun; hide MemoryReply; hide MachineAfter; hide StepsOnce; hide Remembered; hide Accepts;
    hide FaultSystem.WellFormed; hide IsWarmUp; hide IsScored;
    var upto := ops[..i + 1];
    assert upto[..i] == ops[..i];
    BoundedSessionRefinesMemory(sys, asset, ops);
    ReplyAt(sys, asset, ops, i);
    LastReply(sys, asset, upto);
  }
}
