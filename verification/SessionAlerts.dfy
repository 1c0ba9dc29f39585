/** What a session answers, in terms of its samples and of what the classifier returned; and when its answers raise,
    change and clear an alert, in terms of the answers themselves (`backend/simulator/inference/session.py`). */
module SessionAlerts {
  import opened Basics
  import opened Telemetry
  import opened InferenceSession
  import AlertPolicy

  // --- what a prediction says ------------------------------------------------------------------------

  /** The window holds the newest `|w|` samples' values of `m`, each with the time of its sample. */
  ghost predicate Shows(w: seq<Entry>, xs: seq<TelemetrySample>, m: Measurement)
    requires AllComplete(xs) && IsRequired(m)
  {
    |w| <= |xs| && forall i :: 0 <= i < |w| ==>
      var k := |xs| - |w| + i;
      w[i] == Entry((k + 1) as real * 10.0, xs[k].values[m])
  }

  /** The inputs are the newest and the previous value of every required measurement, and its last three, six and
      twelve values. */
  ghost predicate Describes(inputs: FeatureInputs, xs: seq<TelemetrySample>)
    requires AllComplete(xs) && |xs| >= 12
  {
    var n := |xs|;
    && (forall m :: m in inputs <==> IsRequired(m))
    && (forall m :: m in inputs ==>
          && inputs[m].current == xs[n - 1].values[m]
          && inputs[m].previous == xs[n - 2].values[m]
          && |inputs[m].w3| == 3 && |inputs[m].w6| == 6 && |inputs[m].w12| == 12
          && Shows(inputs[m].w3, xs, m) && Shows(inputs[m].w6, xs, m) && Shows(inputs[m].w12, xs, m))
  }

  lemma WindowShows(xs: seq<TelemetrySample>, m: Measurement, k: nat)
    requires AllComplete(xs) && IsRequired(m) && 0 < k <= |xs|
    ensures Shows(TrailingWindow(FullSeries(xs, m), |xs| - 1, k), xs, m)
  {
  }

  lemma FullInputsDescribe(xs: seq<TelemetrySample>)
    requires AllComplete(xs) && |xs| >= 12
    ensures Describes(FullInputs(xs), xs)
  {
    hide TrailingWindow; hide Shows;
    forall m | IsRequired(m)
      ensures FullInputs(xs)[m] == ViewAt(FullSeries(xs, m), |xs| - 1)
      ensures Shows(FullInputs(xs)[m].w3, xs, m) && Shows(FullInputs(xs)[m].w6, xs, m)
      ensures Shows(FullInputs(xs)[m].w12, xs, m)
    {
      WindowShows(xs, m, 3);
      WindowShows(xs, m, 6);
      WindowShows(xs, m, 12);
    }
  }

  /** The first class of the greatest score. */
  ghost predicate IsDiagnosis(sys: FaultSystem, scores: seq<real>, c: AlertPolicy.FaultClass) {
    exists k :: 0 <= k < |scores| == |sys.classes| && sys.classes[k] == c &&
      (forall j :: 0 <= j < |scores| ==> scores[j] <= scores[k]) && (forall j :: 0 <= j < k ==> scores[j] < scores[k])
  }

  /** The answer to the newest of `xs` says what the classifier returned for the features of `inputs`, or why there
      are no features. */
  ghost predicate SaysWhatWasScored(sys: FaultSystem, xs: seq<TelemetrySample>, inputs: FeatureInputs,
                                    machine: AlertPolicy.Machine, r: InferenceResult)
    requires xs != []
  {
    var x := xs[|xs| - 1];
    r.asset == x.assetId && r.timestamp == x.timestamp &&
    match r
    case WarmingUp(_, _, _, _) => false
    case Insufficient(_, _, state, detail) => sys.features(inputs) == InsufficientData(detail) && state == machine.state
    case Prediction(_, _, c, scores, state, _, evidence) =>
      exists v :: sys.features(inputs) == FeatureVector(v) && sys.predict(v) == Some(scores) &&
        IsDiagnosis(sys, scores, c) && state == machine.state && evidence == sys.evidence(v, scores, machine)
  }

  ghost predicate SaysWhatWasDescribed(sys: FaultSystem, xs: seq<TelemetrySample>, machine: AlertPolicy.Machine,
                                       r: InferenceResult)
    requires AllComplete(xs) && |xs| >= 12
  {
    exists inputs :: Describes(inputs, xs) && SaysWhatWasScored(sys, xs, inputs, machine, r)
  }

  lemma ArgMaxDiagnoses(sys: FaultSystem, scores: seq<real>)
    requires |scores| == |sys.classes| && scores != []
    ensures IsDiagnosis(sys, scores, sys.classes[ArgMax(scores)])
  {
  }

  lemma FullReplySays(sys: FaultSystem, xs: seq<TelemetrySample>)
    requires sys.WellFormed() && AllComplete(xs) && |xs| >= 12 && Scorable(sys, FullInputs(xs))
    ensures FullReply(sys, xs).Answer?
    ensures SaysWhatWasDescribed(sys, xs, FullMachine(sys, xs), FullReply(sys, xs).result)
  {
    MachineSteps(sys, xs);
    FullInputsDescribe(xs);
    var inputs, x, r := FullInputs(xs), xs[|xs| - 1], FullReply(sys, xs);
    hide FullInputs; hide Describes; hide RowOf; hide FullMachine; hide AlertPolicy.Step; hide ArgMax;
    if sys.features(inputs).FeatureVector? {
      var v := sys.features(inputs).values;
      ArgMaxDiagnoses(sys, sys.predict(v).value);
      hide IsDiagnosis;
    }
    assert SaysWhatWasScored(sys, xs, inputs, FullMachine(sys, xs), r.result);
  }

  ghost predicate LastIsSaid(sys: FaultSystem, asset: AssetId, ops: seq<SessionOp>, r: InferenceResult)
    requires sys.WellFormed() && OpsComplete(ops) && ops != []
  {
    var xs := Remembered(asset, ops);
    && ops[|ops| - 1].Offer? && |xs| >= 12 && xs[|xs| - 1] == ops[|ops| - 1].sample
    && SaysWhatWasDescribed(sys, xs, MachineAfter(sys, asset, ops), r)
  }

  lemma MemorySays(sys: FaultSystem, asset: AssetId, ops: seq<SessionOp>)
    requires sys.WellFormed() && OpsComplete(ops) && ops != [] && IsScored(MemoryReply(sys, asset, ops))
    ensures LastIsSaid(sys, asset, ops, MemoryReply(sys, asset, ops).result)
  {
    var xs := Remembered(asset, ops);
    BoundedSessionRefinesMemory(sys, asset, ops);
    LastReply(sys, asset, ops);
    hide FaultSystem.WellFormed; hide SessionRun; hide RepresentsHistory; hide FullMachine; hide FullReply;
    hide SaysWhatWasDescribed; hide Scorable; hide FullInputs; hide RowOf; hide AlertPolicy.Step;
    FullReplySays(sys, xs);
  }

  /** Of every run of samples and resets: each scored answer is about the newest accepted sample, and says what the
      features and the classifier gave for the last twelve accepted samples since the reset, with the first class of
      the greatest score. */
  lemma AnswersSayWhatWasScored(sys: FaultSystem, asset: AssetId, ops: seq<SessionOp>, i: nat)
    requires sys.WellFormed() && OpsComplete(ops) && i < |ops|
    ensures |SessionRun(sys, asset, ops).1| == |ops|
    ensures var reply := SessionRun(sys, asset, ops).1[i];
            IsScored(reply) ==> LastIsSaid(sys, asset, ops[..i + 1], reply.result)
  {
    hide FaultSystem.WellFormed; hide MemoryReply; hide SessionRun; hide Represents; hide LastIsSaid; hide IsScored;
    BoundedSessionRefinesMemory(sys, asset, ops);
    ReplyAt(sys, asset, ops, i);
    if IsScored(MemoryReply(sys, asset, ops[..i + 1])) { MemorySays(sys, asset, ops[..i + 1]); }
  }

  // --- when a sample is refused -----------------------------------------------------------------------

  ghost predicate NewerAndNewer(asset: AssetId, xs: seq<TelemetrySample>) {
    && (forall i :: 0 <= i < |xs| ==> xs[i].assetId == asset)
    && (forall i, j :: 0 <= i < j < |xs| ==> xs[i].timestamp < xs[j].timestamp)
  }

  lemma OneMoreIsNewer(asset: AssetId, xs: seq<TelemetrySample>, x: TelemetrySample)
    requires NewerAndNewer(asset, xs) && Welcome(asset, xs, x)
    ensures NewerAndNewer(asset, xs + [x])
  {
  }

  /** Accepted samples are of the session's asset and get newer and newer. */
  lemma {:induction false} RememberedIncrease(asset: AssetId, ops: seq<SessionOp>)
    requires OpsComplete(ops)
    ensures NewerAndNewer(asset, Remembered(asset, ops))
  {
    if ops != [] {
      var n := |ops| - 1;
      var xs := Remembered(asset, ops[..n]);
      RememberedIncrease(asset, ops[..n]);
      if ops[n].Offer? && Welcome(asset, xs, ops[n].sample) { OneMoreIsNewer(asset, xs, ops[n].sample); }
    }
  }

  /** None of `xs` is as new as `x`. */
  predicate IsNewest(xs: seq<TelemetrySample>, x: TelemetrySample) {
    forall k :: 0 <= k < |xs| ==> xs[k].timestamp < x.timestamp
  }

  lemma WelcomeExactly(asset: AssetId, ops: seq<SessionOp>, x: TelemetrySample)
    requires OpsComplete(ops)
    ensures Welcome(asset, Remembered(asset, ops), x) <==> x.assetId == asset && IsNewest(Remembered(asset, ops), x)
  {
    RememberedIncrease(asset, ops);
    hide Remembered;
  }

  lemma MemoryRefuses(sys: FaultSystem, asset: AssetId, ops: seq<SessionOp>)
    requires sys.WellFormed() && OpsComplete(ops) && ops != [] && ops[|ops| - 1].Offer?
    ensures var x, xs := ops[|ops| - 1].sample, Remembered(asset, ops[..|ops| - 1]);
            var reply := MemoryReply(sys, asset, ops);
            && (reply == Refused(WrongAsset) <==> x.assetId != asset)
            && (reply == Refused(NonMonotonicTimestamp) <==> x.assetId == asset && !IsNewest(xs, x))
            && Remembered(asset, ops) == if reply.Refused? then xs else xs + [x]
  {
    var n := |ops| - 1;
    hide FaultSystem.WellFormed; hide FullReply; hide IsNewest;
    WelcomeExactly(asset, ops[..n], ops[n].sample);
    if Welcome(asset, Remembered(asset, ops[..n]), ops[n].sample) {
      hide Welcome;
      ReplyKinds(sys, Remembered(asset, ops[..n]) + [ops[n].sample]);
    }
  }

  /** A sample is refused exactly when it is another asset's, or no newer than one accepted since the reset; otherwise
      it is remembered. */
  lemma RefusesExactly(sys: FaultSystem, asset: AssetId, ops: seq<SessionOp>, i: nat)
    requires sys.WellFormed() && OpsComplete(ops) && i < |ops| && ops[i].Offer?
    ensures |SessionRun(sys, asset, ops).1| == |ops|
    ensures var x, xs, reply := ops[i].sample, Remembered(asset, ops[..i]), SessionRun(sys, asset, ops).1[i];
            && (reply == Refused(WrongAsset) <==> x.assetId != asset)
            && (reply == Refused(NonMonotonicTimestamp) <==> x.assetId == asset && !IsNewest(xs, x))
            && Remembered(asset, ops[..i + 1]) == if reply.Refused? then xs else xs + [x]
  {
    var upto := ops[..i + 1];
    hide FaultSystem.WellFormed; hide MemoryReply; hide SessionRun; hide Represents; hide Remembered;
    hide IsNewest;
    BoundedSessionRefinesMemory(sys, asset, ops);
    ReplyAt(sys, asset, ops, i);
    assert upto[..i] == ops[..i];
    MemoryRefuses(sys, asset, upto);
  }

  // --- when an alert is raised, changed and cleared -------------------------------------------------------

  /** The scored answers since the last reset. */
  function ScoredSinceReset(replies: seq<Reply>): seq<InferenceResult> {
    if replies == [] then []
    else
      var last, earlier := replies[|replies| - 1], replies[..|replies| - 1];
      if last.Done? then []
      else ScoredSinceReset(earlier) + if IsScored(last) then [last.result] else []
  }

  function EventOf(r: InferenceResult): Option<AlertPolicy.AlertEvent> { if r.Prediction? then r.alertEvent else None }

  /** The answers since the last one with an event. */
  function SinceEvent(rs: seq<InferenceResult>): seq<InferenceResult> {
    if rs == [] || EventOf(rs[|rs| - 1]).Some? then [] else SinceEvent(rs[..|rs| - 1]) + [rs[|rs| - 1]]
  }

  /** The alert state the last answer shows. */
  function StateShown(rs: seq<InferenceResult>): AlertPolicy.AlertState {
    if rs == [] || rs[|rs| - 1].WarmingUp? then AlertPolicy.Healthy else rs[|rs| - 1].alertState
  }

  function Predictions(rs: seq<InferenceResult>): seq<InferenceResult> {
    if rs == [] then []
    else Predictions(rs[..|rs| - 1]) + if rs[|rs| - 1].Prediction? then [rs[|rs| - 1]] else []
  }

  predicate SomeScore(scores: seq<real>, least: real) { exists k :: 0 <= k < |scores| && scores[k] >= least }

  /** The class `healthy` scored at least `least`. */
  predicate HealthyScore(sys: FaultSystem, scores: seq<real>, least: real) {
    exists k :: 0 <= k < |scores| == |sys.classes| && sys.classes[k] == "healthy" && "healthy" !in sys.classes[..k] &&
      scores[k] >= least
  }

  /** The last `k` answers are predictions of `c`, with some score that reaches the entry probability. */
  predicate LastPredict(sys: FaultSystem, rs: seq<InferenceResult>, c: AlertPolicy.FaultClass, k: int) {
    k <= |rs| && forall i :: 0 <= i < |rs| && |rs| - k <= i ==>
      rs[i].Prediction? && rs[i].diagnosed == c && SomeScore(rs[i].scores, sys.policy.entryProbability)
  }

  /** The last `k` answers are predictions whose score of `healthy` reaches the exit probability. */
  predicate LastPredictHealthy(sys: FaultSystem, rs: seq<InferenceResult>, k: int) {
    k <= |rs| && forall i :: 0 <= i < |rs| && |rs| - k <= i ==>
      rs[i].Prediction? && HealthyScore(sys, rs[i].scores, sys.policy.healthyExitProbability)
  }

  /** What an alert is decided on: the answers since the last event, this one included; only the predictions among them
      once an alert is confirmed. */
  function Considered(earlier: seq<InferenceResult>, r: InferenceResult): seq<InferenceResult> {
    var since := SinceEvent(earlier) + [r];
    if StateShown(earlier) == AlertPolicy.Healthy then since else Predictions(since)
  }

  ghost predicate ClearsAlert(sys: FaultSystem, earlier: seq<InferenceResult>, r: InferenceResult) {
    StateShown(earlier) != AlertPolicy.Healthy && r.Prediction? &&
    LastPredictHealthy(sys, Considered(earlier, r), sys.policy.exitPersistence)
  }

  ghost predicate EntersClass(sys: FaultSystem, earlier: seq<InferenceResult>, r: InferenceResult,
                              c: AlertPolicy.FaultClass)
  {
    c != "healthy" && StateShown(earlier) != AlertPolicy.Confirmed(c) && r.Prediction? &&
    LastPredict(sys, Considered(earlier, r), c, AlertPolicy.AtLeastOne(sys.policy.entryPersistence))
  }

  /** The answer carries the event that the answers since the last one call for, and shows the state it leads to. */
  ghost predicate Follows(sys: FaultSystem, earlier: seq<InferenceResult>, elapsed: real, r: InferenceResult) {
    && AlertPolicy.Decides(EventOf(r), elapsed, StateShown(earlier), ClearsAlert(sys, earlier, r),
                           c => EntersClass(sys, earlier, r, c))
    && StateShown([r]) == if EventOf(r).Some? then EventOf(r).value.ToState() else StateShown(earlier)
  }

  // --- the rows behind the answers --------------------------------------------------------------------------

  predicate Sized(sys: FaultSystem, r: InferenceResult) {
    !r.WarmingUp? && (r.Prediction? ==> 0 < |r.scores| == |sys.classes| && AlertPolicy.HEALTHY in sys.classes)
  }

  predicate AllSized(sys: FaultSystem, rs: seq<InferenceResult>) { forall i :: 0 <= i < |rs| ==> Sized(sys, rs[i]) }

  /** The alert-machine row behind an answer. */
  function AsRow(sys: FaultSystem, r: InferenceResult): AlertPolicy.Row
    requires Sized(sys, r)
  {
    if !r.Prediction? then AlertPolicy.Untrusted
    else AlertPolicy.Scored(r.diagnosed, r.scores[ArgMax(r.scores)],
                            r.scores[IndexOf(sys.classes, AlertPolicy.HEALTHY)])
  }

  function AsRows(sys: FaultSystem, rs: seq<InferenceResult>): (rows: seq<AlertPolicy.Row>)
    requires AllSized(sys, rs)
    ensures |rows| == |rs| && forall i :: 0 <= i < |rs| ==> rows[i] == AsRow(sys, rs[i])
  {
    seq(|rs|, i requires 0 <= i < |rs| => AsRow(sys, rs[i]))
  }

  lemma FirstIsUnique<T>(s: seq<T>, j: nat, k: nat)
    requires j < |s| && k < |s| && s[j] == s[k] && s[j] !in s[..j] && s[k] !in s[..k]
    ensures j == k
  {
    assert forall i :: 0 <= i < j ==> s[i] in s[..j];
    assert forall i :: 0 <= i < k ==> s[i] in s[..k];
  }

  lemma RowScores(sys: FaultSystem, r: InferenceResult)
    requires Sized(sys, r) && r.Prediction?
    ensures AsRow(sys, r).score >= sys.policy.entryProbability <==> SomeScore(r.scores, sys.policy.entryProbability)
    ensures AsRow(sys, r).healthyScore >= sys.policy.healthyExitProbability <==>
            HealthyScore(sys, r.scores, sys.policy.healthyExitProbability)
  {
    var h := IndexOf(sys.classes, AlertPolicy.HEALTHY);
    hide IndexOf; hide ArgMax;
    forall k | 0 <= k < |sys.classes| && sys.classes[k] == "healthy" && "healthy" !in sys.classes[..k] ensures k == h {
      FirstIsUnique(sys.classes, h, k);
    }
  }

  lemma SameEvidence(sys: FaultSystem, rs: seq<InferenceResult>, c: AlertPolicy.FaultClass, k: int)
    requires AllSized(sys, rs)
    ensures AlertPolicy.LastDiagnosed(sys.policy, AsRows(sys, rs), c, k) <==> LastPredict(sys, rs, c, k)
    ensures AlertPolicy.LastHealthy(sys.policy, AsRows(sys, rs), k) <==> LastPredictHealthy(sys, rs, k)
  {
    hide SomeScore; hide HealthyScore;
    forall i | 0 <= i < |rs| && rs[i].Prediction?
      ensures AsRow(sys, rs[i]).score >= sys.policy.entryProbability <==>
              SomeScore(rs[i].scores, sys.policy.entryProbability)
      ensures AsRow(sys, rs[i]).healthyScore >= sys.policy.healthyExitProbability <==>
              HealthyScore(sys, rs[i].scores, sys.policy.healthyExitProbability)
    {
      RowScores(sys, rs[i]);
    }
    hide IndexOf; hide ArgMax;
  }

  lemma RowsOfTwo(sys: FaultSystem, rs: seq<InferenceResult>, r: InferenceResult)
    requires AllSized(sys, rs) && Sized(sys, r)
    ensures AllSized(sys, rs + [r]) && AsRows(sys, rs + [r]) == AsRows(sys, rs) + [AsRow(sys, r)]
  {
    hide Sized; hide AsRow;
  }

  lemma {:induction false} TrustedArePredictions(sys: FaultSystem, rs: seq<InferenceResult>)
    requires AllSized(sys, rs)
    ensures AllSized(sys, Predictions(rs)) && AlertPolicy.Trusted(AsRows(sys, rs)) == AsRows(sys, Predictions(rs))
  {
    hide Sized; hide ArgMax; hide IndexOf; hide AsRows;
    if rs != [] {
      var n := |rs| - 1;
      var rows := AsRows(sys, rs);
      assert rows[..n] == AsRows(sys, rs[..n]);
      TrustedArePredictions(sys, rs[..n]);
      if rs[n].Prediction? { RowsOfTwo(sys, Predictions(rs[..n]), rs[n]); }
    }
  }

  // --- the answers and the policy's history -------------------------------------------------------------------

  ghost function HistoryAfter(sys: FaultSystem, xs: seq<TelemetrySample>): AlertPolicy.History
    requires sys.WellFormed() && AllComplete(xs)
  {
    AlertPolicy.PolicyRun(sys.policy, FullRows(sys, xs)).0
  }

  /** A history holds the state the answers show and the rows of the answers since the last event. */
  ghost predicate Tells(sys: FaultSystem, rs: seq<InferenceResult>, h: AlertPolicy.History) {
    AllSized(sys, rs) && AllSized(sys, SinceEvent(rs)) &&
    h.confirmed == StateShown(rs) && h.rows == AsRows(sys, SinceEvent(rs))
  }

  lemma HistoryGrows(sys: FaultSystem, xs: seq<TelemetrySample>)
    requires sys.WellFormed() && AllComplete(xs) && xs != []
    ensures HistoryAfter(sys, xs) ==
            if |xs| < 12 || !Scorable(sys, FullInputs(xs)) then HistoryAfter(sys, xs[..|xs| - 1])
            else var h, row := HistoryAfter(sys, xs[..|xs| - 1]), RowOf(sys, FullInputs(xs));
                 AlertPolicy.Record(h, row, AlertPolicy.Decide(sys.policy, h, |xs| as real * 10.0, row))
  {
    hide AlertPolicy.Decide; hide AlertPolicy.Record; hide FullInputs; hide Scorable; hide RowOf;
    hide FaultSystem.WellFormed;
    var rows, before := FullRows(sys, xs), FullRows(sys, xs[..|xs| - 1]);
    if NewestRow(sys, xs).Some? {
      assert rows[..|rows| - 1] == before;
    } else {
      assert rows == before;
    }
  }

  /** A result and the row it was made for. */
  lemma ResultHasRow(sys: FaultSystem, x: TelemetrySample, inputs: FeatureInputs, m: AlertPolicy.Machine,
                     elapsed: real)
    requires sys.WellFormed() && Scorable(sys, inputs)
    ensures var row := RowOf(sys, inputs); var (after, event) := AlertPolicy.Step(sys.policy, m, elapsed, row);
            var r := ResultOf(sys, x, inputs, after, event);
            Sized(sys, r) && AsRow(sys, r) == row && EventOf(r) == event && StateShown([r]) == after.state
  {
    var row := RowOf(sys, inputs);
    if row.Untrusted? {
      assert AlertPolicy.Step(sys.policy, m, elapsed, row).1 == None;
    }
    hide AlertPolicy.Step; hide ArgMax; hide IndexOf;
  }

  /** The machine steps as the policy decides, wherever a run has led them. */
  lemma StepAfterRun(cfg: AlertPolicy.Config, rows: seq<AlertPolicy.TimedRow>, elapsed: real, row: AlertPolicy.Row)
    ensures var h := AlertPolicy.PolicyRun(cfg, rows).0;
            var (m, event) := AlertPolicy.Step(cfg, AlertPolicy.Run(cfg, rows).0, elapsed, row);
            event == AlertPolicy.Decide(cfg, h, elapsed, row) && m.state == AlertPolicy.Record(h, row, event).confirmed
  {
    hide AlertPolicy.Step; hide AlertPolicy.Decide; hide AlertPolicy.Record; hide AlertPolicy.Run;
    hide AlertPolicy.PolicyRun;
    AlertPolicy.MachineRefinesPolicy(cfg, rows);
    AlertPolicy.StepDecides(cfg, AlertPolicy.PolicyRun(cfg, rows).0, elapsed, row);
  }

  lemma ReplyIsResult(sys: FaultSystem, xs: seq<TelemetrySample>)
    requires sys.WellFormed() && AllComplete(xs) && |xs| >= 12 && Scorable(sys, FullInputs(xs))
    ensures FullReply(sys, xs).Answer?
    ensures var row := RowOf(sys, FullInputs(xs));
            var (after, event) :=
              AlertPolicy.Step(sys.policy, FullMachine(sys, xs[..|xs| - 1]), |xs| as real * 10.0, row);
            FullReply(sys, xs).result == ResultOf(sys, xs[|xs| - 1], FullInputs(xs), after, event)
  {
    hide FaultSystem.WellFormed; hide FullInputs; hide Scorable; hide RowOf; hide ResultOf; hide AlertPolicy.Step;
    hide FullMachine;
  }

  /** The answer stands for the row, carries the event, and shows the state. */
  ghost predicate StandsFor(sys: FaultSystem, r: InferenceResult, row: AlertPolicy.Row,
                            event: Option<AlertPolicy.AlertEvent>, state: AlertPolicy.AlertState)
  {
    Sized(sys, r) && AsRow(sys, r) == row && EventOf(r) == event && StateShown([r]) == state
  }

  lemma ReplyStandsFor(sys: FaultSystem, xs: seq<TelemetrySample>)
    requires sys.WellFormed() && AllComplete(xs) && |xs| >= 12 && Scorable(sys, FullInputs(xs))
    ensures FullReply(sys, xs).Answer?
    ensures var row := RowOf(sys, FullInputs(xs));
            var (after, event) :=
              AlertPolicy.Step(sys.policy, FullMachine(sys, xs[..|xs| - 1]), |xs| as real * 10.0, row);
            StandsFor(sys, FullReply(sys, xs).result, row, event, after.state)
  {
    ReplyIsResult(sys, xs);
    ResultHasRow(sys, xs[|xs| - 1], FullInputs(xs), FullMachine(sys, xs[..|xs| - 1]), |xs| as real * 10.0);
    hide FullReply; hide FaultSystem.WellFormed; hide FullInputs; hide Scorable; hide RowOf; hide ResultOf; hide AsRow;
    hide Sized; hide AlertPolicy.Step; hide EventOf; hide StateShown; hide FullMachine;
  }

  /** A scored sample: the answer stands for its row, and carries the policy's decision. */
  lemma ScoredDecides(sys: FaultSystem, xs: seq<TelemetrySample>) returns (row: AlertPolicy.Row)
    requires sys.WellFormed() && AllComplete(xs) && |xs| >= 12 && Scorable(sys, FullInputs(xs))
    ensures FullReply(sys, xs).Answer?
    ensures var h := HistoryAfter(sys, xs[..|xs| - 1]);
            var event := AlertPolicy.Decide(sys.policy, h, |xs| as real * 10.0, row);
            && StandsFor(sys, FullReply(sys, xs).result, row, event, HistoryAfter(sys, xs).confirmed)
            && HistoryAfter(sys, xs) == AlertPolicy.Record(h, row, event)
  {
    hide FullReply; hide FaultSystem.WellFormed; hide FullInputs; hide Scorable; hide RowOf; hide StandsFor;
    hide AllComplete; hide AlertPolicy.Step; hide AlertPolicy.Decide; hide AlertPolicy.Run; hide AlertPolicy.PolicyRun;
    hide FullRows; hide AlertPolicy.Record; hide HistoryAfter; hide FullMachine;
    MachineSteps(sys, xs);
    var h := HistoryAfter(sys, xs[..|xs| - 1]);
    row := RowOf(sys, FullInputs(xs));
    HistoryGrows(sys, xs);
    ReplyStandsFor(sys, xs);
    MachineOf(sys, xs[..|xs| - 1]);
    StepAfterRun(sys.policy, FullRows(sys, xs[..|xs| - 1]), |xs| as real * 10.0, row);
  }

  lemma MachineOf(sys: FaultSystem, xs: seq<TelemetrySample>)
    requires sys.WellFormed() && AllComplete(xs)
    ensures FullMachine(sys, xs) == AlertPolicy.Run(sys.policy, FullRows(sys, xs)).0
    ensures HistoryAfter(sys, xs) == AlertPolicy.PolicyRun(sys.policy, FullRows(sys, xs)).0
  {
  }

  // --- runs ---------------------------------------------------------------------------------------------------

  lemma OneMoreAnswer(sys: FaultSystem, rs: seq<InferenceResult>, h: AlertPolicy.History, r: InferenceResult,
                      row: AlertPolicy.Row, event: Option<AlertPolicy.AlertEvent>)
    requires Tells(sys, rs, h) && StandsFor(sys, r, row, event, AlertPolicy.Record(h, row, event).confirmed)
    ensures Tells(sys, rs + [r], AlertPolicy.Record(h, row, event))
  {
    hide Sized; hide AsRow; hide EventOf; hide AlertPolicy.AlertEvent.ToState;
    var all := rs + [r];
    assert all[..|rs|] == rs && all[|rs|] == r;
  }

  lemma NothingTold(sys: FaultSystem)
    requires sys.WellFormed()
    ensures Tells(sys, [], HistoryAfter(sys, []))
  {
  }

  /** What one more operation adds to the answers and to the history. */
  lemma OneMoreOp(sys: FaultSystem, asset: AssetId, ops: seq<SessionOp>, rs: seq<InferenceResult>)
    requires sys.WellFormed() && OpsComplete(ops) && ops != [] && ops[|ops| - 1].Offer?
    requires Tells(sys, rs, HistoryAfter(sys, Remembered(asset, ops[..|ops| - 1])))
    ensures var reply := MemoryReply(sys, asset, ops);
            !reply.Done? &&
            Tells(sys, if IsScored(reply) then rs + [reply.result] else rs, HistoryAfter(sys, Remembered(asset, ops)))
  {
    hide FaultSystem.WellFormed; hide FullReply; hide FullInputs; hide Scorable; hide RowOf; hide StandsFor;
    hide AlertPolicy.Decide; hide AlertPolicy.Record; hide HistoryAfter; hide Tells;
    var n := |ops| - 1;
    var xs, x := Remembered(asset, ops[..n]), ops[n].sample;
    if Welcome(asset, xs, x) {
      var all := xs + [x];
      assert all[..|all| - 1] == xs;
      ReplyKinds(sys, all);
      HistoryGrows(sys, all);
      if |all| >= 12 && Scorable(sys, FullInputs(all)) {
        var h := HistoryAfter(sys, xs);
        var row := ScoredDecides(sys, all);
        OneMoreAnswer(sys, rs, h, FullReply(sys, all).result, row,
                      AlertPolicy.Decide(sys.policy, h, |all| as real * 10.0, row));
      }
    }
  }

  lemma {:induction false} AnswersTell(sys: FaultSystem, asset: AssetId, ops: seq<SessionOp>)
    requires sys.WellFormed() && OpsComplete(ops)
    ensures Tells(sys, ScoredSinceReset(MemoryRun(sys, asset, ops)), HistoryAfter(sys, Remembered(asset, ops)))
  {
    hide FaultSystem.WellFormed; hide Tells; hide HistoryAfter; hide IsScored; hide Welcome;
    NothingTold(sys);
    if ops != [] {
      var n, replies := |ops| - 1, MemoryRun(sys, asset, ops);
      AnswersTell(sys, asset, ops[..n]);
      assert replies[..n] == MemoryRun(sys, asset, ops[..n]);
      if ops[n].Offer? {
        var rs := ScoredSinceReset(replies[..n]);
        OneMoreOp(sys, asset, ops, rs);
        assert rs + [] == rs;
      }
    }
  }

  /** The rows and the answers call for the same event. */
  lemma SameDecision(sys: FaultSystem, earlier: seq<InferenceResult>, h: AlertPolicy.History, r: InferenceResult)
    requires Tells(sys, earlier, h) && Sized(sys, r)
    ensures AlertPolicy.Clears(sys.policy, h, AsRow(sys, r)) <==> ClearsAlert(sys, earlier, r)
    ensures forall c ::
              AlertPolicy.Enters(sys.policy, h, AsRow(sys, r), c) <==> EntersClass(sys, earlier, r, c)
  {
    hide Sized; hide SinceEvent; hide AlertPolicy.Trusted; hide Predictions; hide StateShown;
    hide AlertPolicy.LastDiagnosed; hide AlertPolicy.LastHealthy; hide LastPredict; hide LastPredictHealthy;
    hide ArgMax; hide IndexOf;
    var since := SinceEvent(earlier) + [r];
    assert AsRows(sys, since) == h.rows + [AsRow(sys, r)];
    TrustedArePredictions(sys, since);
    var rs := Considered(earlier, r);
    assert AlertPolicy.Evidence(h, AsRow(sys, r)) == AsRows(sys, rs);
    SameEvidence(sys, rs, "healthy", sys.policy.exitPersistence);
    forall c
      ensures AlertPolicy.LastDiagnosed(sys.policy, AsRows(sys, rs), c,
                                        AlertPolicy.AtLeastOne(sys.policy.entryPersistence)) <==>
              LastPredict(sys, rs, c, AlertPolicy.AtLeastOne(sys.policy.entryPersistence))
    {
      SameEvidence(sys, rs, c, AlertPolicy.AtLeastOne(sys.policy.entryPersistence));
    }
  }

  lemma LastFollows(sys: FaultSystem, asset: AssetId, ops: seq<SessionOp>)
    requires sys.WellFormed() && OpsComplete(ops) && ops != [] && IsScored(MemoryReply(sys, asset, ops))
    ensures Follows(sys, ScoredSinceReset(MemoryRun(sys, asset, ops[..|ops| - 1])),
                    |Remembered(asset, ops)| as real * 10.0, MemoryReply(sys, asset, ops).result)
  {
    hide FaultSystem.WellFormed; hide FullReply; hide FullInputs; hide Scorable; hide AsRow; hide Sized; hide EventOf;
    hide AlertPolicy.Decide; hide HistoryAfter; hide ClearsAlert; hide EntersClass;
    hide AlertPolicy.Clears; hide AlertPolicy.Enters; hide StateShown; hide ScoredSinceReset; hide AllSized;
    hide MemoryRun; hide SinceEvent; hide AlertPolicy.AlertEvent.ToState;
    var n := |ops| - 1;
    var xs := Remembered(asset, ops[..n]);
    var all, earlier := xs + [ops[n].sample], ScoredSinceReset(MemoryRun(sys, asset, ops[..n]));
    assert all[..|all| - 1] == xs;
    AnswersTell(sys, asset, ops[..n]);
    ReplyKinds(sys, all);
    var h := HistoryAfter(sys, xs);
    var row := ScoredDecides(sys, all);
    SameDecision(sys, earlier, h, FullReply(sys, all).result);
    AlertPolicy.DecidesExactly(sys.policy, h, |all| as real * 10.0, row);
    var r := MemoryReply(sys, asset, ops).result;
    SameRule(EventOf(r), |all| as real * 10.0, h.confirmed, ClearsAlert(sys, earlier, r),
             c => AlertPolicy.Enters(sys.policy, h, row, c), c => EntersClass(sys, earlier, r, c));
  }

  lemma SameRule(event: Option<AlertPolicy.AlertEvent>, elapsed: real, state: AlertPolicy.AlertState, clears: bool,
                 enters: AlertPolicy.FaultClass -> bool, same: AlertPolicy.FaultClass -> bool)
    requires AlertPolicy.Decides(event, elapsed, state, clears, enters)
    requires forall c :: enters(c) <==> same(c)
    ensures AlertPolicy.Decides(event, elapsed, state, clears, same)
  {
  }

  /** Of every run of samples and resets, each scored answer raises, changes or clears an alert exactly when the scored
      answers since the last event (or reset) call for it: a class is entered when the last `entryPersistence` of them
      predict that class with a score of at least the entry probability, and an alert clears when the last
      `exitPersistence` score `healthy` at least at the exit probability. The answer shows the state that results. */
  lemma AlertsExactly(sys: FaultSystem, asset: AssetId, ops: seq<SessionOp>, i: nat)
    requires sys.WellFormed() && OpsComplete(ops) && i < |ops|
    ensures |SessionRun(sys, asset, ops).1| == |ops|
    ensures var replies := SessionRun(sys, asset, ops).1;
            IsScored(replies[i]) ==>
              Follows(sys, ScoredSinceReset(replies[..i]), |Remembered(asset, ops[..i + 1])| as real * 10.0,
                      replies[i].result)
  {
    hide FaultSystem.WellFormed; hide SessionRun; hide MemoryReply; hide Represents; hide Follows; hide IsScored;
    hide ScoredSinceReset; hide Remembered;
    BoundedSessionRefinesMemory(sys, asset, ops);
    ReplyAt(sys, asset, ops, i);
    MemoryPrefix(sys, asset, ops, i);
    assert ops[..i + 1][..i] == ops[..i];
    if IsScored(MemoryReply(sys, asset, ops[..i + 1])) { LastFollows(sys, asset, ops[..i + 1]); }
  }

  lemma {:induction false} MemoryPrefix(sys: FaultSystem, asset: AssetId, ops: seq<SessionOp>, i: nat)
    requires sys.WellFormed() && OpsComplete(ops) && i <= |ops|
    ensures MemoryRun(sys, asset, ops)[..i] == MemoryRun(sys, asset, ops[..i])
  {
    hide FaultSystem.WellFormed; hide MemoryReply;
    if i < |ops| {
      MemoryPrefix(sys, asset, ops[..|ops| - 1], i);
      assert ops[..|ops| - 1][..i] == ops[..i];
    } else {
      assert ops[..i] == ops;
    }
  }
}
