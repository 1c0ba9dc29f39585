/** Labels and physics of a dataset run agree, sample by sample: what `backend/simulator/dataset/runner.py`
    promises of its runs. */
module LabelledRun {
  import opened Basics
  import opened RealFacts
  import opened Machine
  import opened Scenarios
  import opened DatasetRun

  /** The setpoint or bias the scenario acts on, at one asset. */
  function Parameter(scenario: Scenario, s: State, bias: Option<real>): real {
    match scenario
    case CoolingDegradation => s.targetCooling
    case HydrogenSupplyIssue => s.targetFuel
    case _ => if bias.Some? then bias.value else 0.0
  }

  lemma ProgressWithin(c: RunConfig, elapsed: real)
    requires c.Valid() && Active(c, elapsed)
    ensures Within(Progress(c, elapsed), 0.0, 1.0)
    ensures elapsed >= c.faultStart.value + c.faultDuration.value ==> Progress(c, elapsed) == 1.0
  {
    var d := c.faultDuration.value;
    QuotientMonotone(0.0, elapsed - c.faultStart.value, d);
    if elapsed >= c.faultStart.value + d {
      QuotientMonotone(d, elapsed - c.faultStart.value, d);
      assert d / d == 1.0;
    }
  }

  /** The value asked for is the healthy end moved by the label's share of the full change, and no setter clamps it. */
  lemma DemandFollowsLabel(c: RunConfig, progress: real)
    requires c.Valid() && c.scenario != NormalOperation && Within(progress, 0.0, 1.0)
    ensures Demanded(c, progress) == Labelled(c.scenario, Times(c.severity, progress))
    ensures c.scenario != SensorAnomaly ==> Within(Demanded(c, progress), 0.55, 1.0)
  {
    TimesFraction(c.severity, progress);
    DemandIsShare(c, progress);
    hide Times; hide Demanded;
  }

  /** Where the parameter should be at a labelled severity. */
  function Labelled(scenario: Scenario, severity: real): real {
    RampStart(scenario) + severity * (RampLimit(scenario) - RampStart(scenario))
  }

  lemma DemandIsShare(c: RunConfig, progress: real)
    requires c.scenario != NormalOperation
    ensures Demanded(c, progress) == match c.scenario
                                     case CoolingDegradation => 0.85 - 0.3 * Times(c.severity, progress)
                                     case HydrogenSupplyIssue => 1.0 - 0.4 * Times(c.severity, progress)
                                     case _ => 12.0 * Times(c.severity, progress)
  {
  }

  /** Setting an unclamped value makes it the parameter. */
  lemma DisturbedSets(c: RunConfig, s: State, progress: real, bias: Option<real>)
    requires c.scenario.CoolingDegradation? || c.scenario.HydrogenSupplyIssue?
    requires Within(Demanded(c, progress), 0.55, 1.0)
    ensures Parameter(c.scenario, Disturbed(c, s, progress), bias) == Demanded(c, progress)
  {
    hide Demanded;
  }

  /** The healthy value of the parameter, before any fault. */
  function Healthy(c: RunConfig): real
    requires Known(c)
  {
    match c.scenario
    case CoolingDegradation => BASE_COOLING[TargetIndex(c)]
    case HydrogenSupplyIssue => 1.0
    case _ => 0.0
  }

  ghost predicate Agrees(c: RunConfig, p: Plant)
    requires Known(c) && c.Valid() && p.Sized()
  {
    var t := TargetIndex(c);
    Parameter(c.scenario, p.machines[t], p.bias[t]) ==
      if Active(c, p.elapsed) then Demanded(c, Progress(c, p.elapsed)) else Healthy(c)
  }

  lemma StepAgrees(ph: Physics, c: RunConfig, p: Plant)
    requires Known(c) && c.Valid() && p.Sized() && c.scenario != NormalOperation
    requires Active(c, p.elapsed + c.dt) || Agrees(c, p)
    ensures Agrees(c, Stepped(ph, c, p))
  {
    hide Operated; hide Demanded; hide Progress; hide Stepped; hide Disturbed; hide Healthy; hide TargetIndex;
    var t, at := TargetIndex(c), p.elapsed + c.dt;
    StepIsPointwise(ph, c, p, t);
    var s := if Active(c, at) then Disturbed(c, p.machines[t], Progress(c, at)) else p.machines[t];
    OperatedKeepsSetpoints(ph, c, t, s, at);
    if Active(c, at) {
      ProgressWithin(c, at);
      DemandFollowsLabel(c, Progress(c, at));
      if c.scenario != SensorAnomaly {
        DisturbedSets(c, p.machines[t], Progress(c, at), p.bias[t]);
      }
    }
  }

  lemma CreatedHealthy(c: RunConfig)
    requires Known(c) && c.Valid() && c.scenario != NormalOperation
    ensures var p := Created(c); var t := TargetIndex(c);
            p.elapsed == 0.0 && Parameter(c.scenario, p.machines[t], p.bias[t]) == Healthy(c)
  {
    FleetIsDistinct();
  }

  lemma {:induction false} RunAgrees(ph: Physics, c: RunConfig, k: nat)
    requires Known(c) && c.Valid() && c.scenario != NormalOperation
    ensures Agrees(c, PlantAfter(ph, c, k)) || k == 0
    ensures var p := PlantAfter(ph, c, k); var t := TargetIndex(c);
            !Active(c, p.elapsed) ==> Parameter(c.scenario, p.machines[t], p.bias[t]) == Healthy(c)
  {
    hide Stepped; hide Created; hide Demanded; hide Progress; hide Healthy; hide Parameter;
    if k == 0 {
      CreatedHealthy(c);
    } else {
      var p := PlantAfter(ph, c, k - 1);
      RunAgrees(ph, c, k - 1);
      StepTakesTime(ph, c, p);
      StepAgrees(ph, c, p);
    }
  }

  /** Which samples of a run carry which label, and what the plant was doing: no offset and no clamp, at any sample of
      any run. The parameter is where the label says it is; before the fault it is where the fleet put it. */
  ghost predicate Faithful(c: RunConfig, s: Sample)
    requires Known(c) && c.Valid()
  {
    var t := TargetIndex(c);
    && |s.machines| == |s.bias| == |s.truths| == SIZE
    && (s.truths[t].active <==> c.scenario != NormalOperation && s.elapsed >= c.faultStart.value)
    && (c.scenario != NormalOperation ==>
        Parameter(c.scenario, s.machines[t], s.bias[t]) ==
          if s.truths[t].active
          then Labelled(c.scenario, s.truths[t].severity)
          else Healthy(c))
    && NamesItsFault(c, s.truths[t], s.elapsed)
    && (forall i :: 0 <= i < SIZE && i != t ==> HealthyLabel(s.truths[i]))
    && (forall i :: 0 <= i < SIZE ==> s.truths[i].Consistent() && s.truths[i].asset == FLEET[i])
  }

  predicate HealthyLabel(t: Truth) {
    t.faultType == NoFault && !t.active && t.severity == 0.0 && t.corruption == NoCorruption
  }

  /** The target's label is of the scenario's own kind, and an active one tells how long ago the fault started; its
      severity has grown in proportion to that time, up to the configured severity at the end of the ramp. */
  predicate NamesItsFault(c: RunConfig, l: Truth, elapsed: real)
    requires c.Valid()
  {
    && l.elapsed == elapsed
    && (l.faultType == CoolingFault <==> c.scenario == CoolingDegradation)
    && (l.faultType == HydrogenFault <==> c.scenario == HydrogenSupplyIssue)
    && (l.corruption == Bias <==> c.scenario == SensorAnomaly)
    && (l.active ==>
          && c.faultStart.Some? && c.faultDuration.Some?
          && l.since == Some(elapsed - c.faultStart.value)
          && Times(l.severity, c.faultDuration.value) ==
             Times(c.severity, Min(c.faultDuration.value, elapsed - c.faultStart.value)))
  }

  lemma ProgressIsProportional(c: RunConfig, elapsed: real)
    requires c.Valid() && Active(c, elapsed)
    ensures var d := c.faultDuration.value;
            Times(Progress(c, elapsed), d) == Min(d, elapsed - c.faultStart.value)
  {
    var d, since := c.faultDuration.value, elapsed - c.faultStart.value;
    if since >= d {
      ProgressWithin(c, elapsed);
      TimesUnits(d);
    } else {
      QuotientMonotone(since, d, d);
      TimesQuotient(d, since);
      TimesCommutes(d, since / d);
    }
  }

  lemma TargetNamesItsFault(c: RunConfig, elapsed: real)
    requires c.Valid()
    ensures NamesItsFault(c, ComputeGroundTruth(c, c.target, elapsed), elapsed)
  {
    if Active(c, elapsed) {
      SeverityIsShare(c, elapsed);
      ProgressIsProportional(c, elapsed);
      TimesAssociates(c.severity, Progress(c, elapsed), c.faultDuration.value);
    }
    hide Times; hide Progress;
  }

  lemma LabelsMatchPhysics(ph: Physics, c: RunConfig, k: nat)
    requires Known(c) && c.Valid()
    ensures SampleAt(ph, c, k).elapsed == (k + 1) as real * c.dt
    ensures Faithful(c, SampleAt(ph, c, k))
  {
    hide PlantAfter; hide Demanded; hide Progress; hide Healthy; hide Parameter; hide Labelled; hide ComputeGroundTruth;
    hide Times; hide Known; hide TargetIndex; hide NamesItsFault;
    ElapsedIsOnGrid(ph, c, k + 1);
    var p, t := PlantAfter(ph, c, k + 1), TargetIndex(c);
    forall i | 0 <= i < SIZE ensures LabelFits(c, i, ComputeGroundTruth(c, FLEET[i], p.elapsed), p.elapsed) {
      LabelsFit(c, i, p.elapsed);
    }
    var s := SampleAt(ph, c, k);
    assert forall i :: 0 <= i < SIZE ==> s.truths[i] == ComputeGroundTruth(c, FLEET[i], p.elapsed);
    if c.scenario != NormalOperation {
      RunAgrees(ph, c, k + 1);
      if Active(c, p.elapsed) {
        ProgressWithin(c, p.elapsed);
        DemandFollowsLabel(c, Progress(c, p.elapsed));
        SeverityIsShare(c, p.elapsed);
      }
    }
  }

  predicate LabelFits(c: RunConfig, i: nat, l: Truth, elapsed: real)
    requires Known(c) && c.Valid() && i < SIZE
  {
    && l.Consistent() && l.asset == FLEET[i]
    && (if i != TargetIndex(c) then HealthyLabel(l)
        else NamesItsFault(c, l, elapsed) &&
             (l.active <==> c.scenario != NormalOperation && elapsed >= c.faultStart.value))
  }

  lemma LabelsFit(c: RunConfig, i: nat, elapsed: real)
    requires Known(c) && c.Valid() && i < SIZE
    ensures LabelFits(c, i, ComputeGroundTruth(c, FLEET[i], elapsed), elapsed)
  {
    hide Progress; hide NamesItsFault;
    TargetNamesItsFault(c, elapsed);
    assert FLEET[0] != "" && FLEET[1] != "" && FLEET[2] != "" && FLEET[3] != "";
  }

  /** Along a run the target's label never reverts, its severity never drops, and from the end of the ramp on it is
      exactly the configured severity. */
  lemma LabelsOnlyProgress(ph: Physics, c: RunConfig, j: nat, k: nat)
    requires Known(c) && c.Valid() && j <= k
    ensures var t := TargetIndex(c); var was := SampleAt(ph, c, j).truths[t]; var now := SampleAt(ph, c, k).truths[t];
            && (was.active ==> now.active)
            && 0.0 <= was.severity <= now.severity <= c.severity
            && (now.active && (k + 1) as real * c.dt >= c.faultStart.value + c.faultDuration.value ==>
                now.severity == c.severity)
  {
    hide PlantAfter; hide Progress;
    ElapsedIsOnGrid(ph, c, j + 1);
    ElapsedIsOnGrid(ph, c, k + 1);
    GridIsIncreasing(j + 1, k + 1, c.dt);
    SeverityProgresses(c, PlantAfter(ph, c, j + 1).elapsed, PlantAfter(ph, c, k + 1).elapsed);
  }

  lemma SeverityProgresses(c: RunConfig, x: real, y: real)
    requires Known(c) && c.Valid() && x <= y
    ensures var was := ComputeGroundTruth(c, c.target, x); var now := ComputeGroundTruth(c, c.target, y);
            && (was.active ==> now.active)
            && 0.0 <= was.severity <= now.severity <= c.severity
            && (now.active && y >= c.faultStart.value + c.faultDuration.value ==> now.severity == c.severity)
  {
    if Active(c, y) {
      ProgressWithin(c, y);
      SeverityIsShare(c, y);
      TimesFraction(c.severity, Progress(c, y));
      if Active(c, x) {
        ProgressMonotone(c, x, y);
        ProgressWithin(c, x);
        SeverityIsShare(c, x);
        TimesFraction(c.severity, Progress(c, x));
        ShareMonotone(c.severity, Progress(c, x), Progress(c, y));
      }
    }
    hide Times; hide Progress;
  }

  lemma SeverityIsShare(c: RunConfig, x: real)
    requires c.Valid() && Active(c, x)
    ensures ComputeGroundTruth(c, c.target, x).severity == Times(c.severity, Progress(c, x))
    ensures Progress(c, x) == 1.0 ==> Times(c.severity, Progress(c, x)) == c.severity
  {
    hide Progress;
  }

  lemma ShareMonotone(a: real, p: real, q: real)
    requires a >= 0.0 && p <= q
    ensures Times(a, p) <= Times(a, q)
  {
    hide Times;
    TimesMonotone(p, q, a);
    TimesCommutes(p, a);
    TimesCommutes(q, a);
  }

  lemma ProgressMonotone(c: RunConfig, x: real, y: real)
    requires c.Valid() && Active(c, x) && x <= y
    ensures Progress(c, x) <= Progress(c, y)
  {
    QuotientMonotone(x - c.faultStart.value, y - c.faultStart.value, c.faultDuration.value);
  }

  /** `RunConfig` promises that the ramp completes within the run. The last sample carries the configured severity if
      and only if the rounded number of steps reaches the end of the ramp. */
  lemma RampCompletesExactly(ph: Physics, c: RunConfig)
    requires Known(c) && c.Valid() && c.scenario != NormalOperation && TotalSteps(c) > 0
    ensures SampleAt(ph, c, TotalSteps(c) - 1).truths[TargetIndex(c)].severity == c.severity <==>
            TotalSteps(c) as real * c.dt >= c.faultStart.value + c.faultDuration.value
  {
    hide PlantAfter; hide Progress; hide TotalSteps;
    var n := TotalSteps(c);
    ElapsedIsOnGrid(ph, c, n);
    var y := n as real * c.dt;
    if Active(c, y) {
      SeverityIsShare(c, y);
      ProgressWithin(c, y);
      FullExactly(c, y);
    }
  }

  lemma FullExactly(c: RunConfig, y: real)
    requires c.Valid() && c.scenario != NormalOperation && Active(c, y)
    ensures Times(c.severity, Progress(c, y)) == c.severity <==> y >= c.faultStart.value + c.faultDuration.value
  {
    var d, x := c.faultDuration.value, y - c.faultStart.value;
    ProgressWithin(c, y);
    if x < d {
      ShortOfWhole(x, d);
      var p := Progress(c, y);
      StrictShare(c.severity, p);
    }
  }

  lemma ShortOfWhole(x: real, d: real)
    requires x < d && d > 0.0
    ensures x / d < 1.0
  {
    var q := x / d;
    TimesQuotient(d, x);
    hide Times;
    if q >= 1.0 {
      TimesMonotone(1.0, q, d);
      TimesUnits(d);
      TimesCommutes(q, d);
    }
  }

  lemma StrictShare(a: real, p: real)
    requires a > 0.0 && p < 1.0
    ensures Times(a, p) < a
  {
    hide Times;
    TimesPositive(a, 1.0 - p);
    TimesComplement(p, a);
  }

  /** That is so whenever the duration is a whole number of steps... */
  lemma WholeStepsComplete(c: RunConfig, n: nat)
    requires c.Valid() && c.duration == n as real * c.dt
    ensures TotalSteps(c) == n
  {
    var q := c.duration / c.dt;
    TimesQuotient(c.dt, c.duration);
    assert Times(n as real, c.dt) == c.duration;
    hide Times;
    TimesCommutes(n as real, c.dt);
    TimesCancels(c.dt, q, n as real);
    TimesCancels(c.dt, n as real, q);
  }

  /** ...and can fail otherwise: 2.4 seconds at one-second steps end after two samples, short of the ramp's end. */
  lemma RampMayNotComplete(ph: Physics) returns (c: RunConfig)
    ensures Known(c) && c.Valid() && c.scenario != NormalOperation && TotalSteps(c) > 0
    ensures SampleAt(ph, c, TotalSteps(c) - 1).truths[TargetIndex(c)].severity < c.severity
  {
    c := RunConfig(CoolingDegradation, FLEET[0], 2.4, 1.0, Some(0.4), Some(2.0), 1.0,
                   Conditions(60.0, 15.0, 300.0, 0.0, 0.0, 0.0));
    var q := c.duration / c.dt;
    assert q == 2.4 && q.Floor == 2;
    assert TotalSteps(c) == 2;
    hide PlantAfter;
    ElapsedIsOnGrid(ph, c, 2);
    var y := 2.0;
    assert Progress(c, y) == 0.8;
  }
}
