/** One dataset simulation run (`backend/simulator/dataset/runner.py` and what it calls) as functions of the
    configuration: the fleet after `k` steps, and the label of every sample. */
module DatasetRun {
  import opened Basics
  import opened RealFacts
  import opened Machine
  import opened Scenarios

  datatype Conditions = Conditions(
    baseline: real, amplitude: real, period: real, phase: real, loadOffset: real, temperatureOffset: real)
  {
    /** What `OperatingConditions` and `InitialStateVariation` accept. */
    predicate Valid() {
      && amplitude >= 0.0 && period > 0.0 && baseline - amplitude >= 5.0 && baseline + amplitude <= 95.0
      && Abs(loadOffset) <= 10.0 && Abs(temperatureOffset) <= 10.0
    }
  }

  datatype RunConfig = RunConfig(
    scenario: Scenario, target: string, duration: real, dt: real,
    faultStart: Option<real>, faultDuration: Option<real>, severity: real, conditions: Conditions)
  {
    /** What the constructor of `RunConfig` accepts. */
    predicate Valid() {
      && duration > 0.0 && dt > 0.0 && 0.0 <= severity <= 1.0 && conditions.Valid()
      && (if scenario == NormalOperation then faultStart.None? && faultDuration.None? && severity == 0.0
          else && severity > 0.0 && faultStart.Some? && faultDuration.Some?
               && faultStart.value >= 0.0 && faultDuration.value > 0.0
               && faultStart.value + faultDuration.value <= duration)
    }
  }

  // --- the fleet --------------------------------------------------------------------------------

  const FLEET: seq<string> :=
    ["fuel-cell-stack-01", "fuel-cell-stack-02", "fuel-cell-stack-03", "fuel-cell-stack-04"]

  const BASE_LOAD: seq<real> := [60.0, 63.0, 58.0, 65.0]

  const BASE_COOLING: seq<real> := [0.85, 0.87, 0.84, 0.85]

  const SIZE := 4

  const TAU := 6.283185307179586

  /** Machines in fleet order, the bias of each one's temperature sensor (when one was set), and simulated time. */
  datatype Plant = Plant(machines: seq<State>, bias: seq<Option<real>>, elapsed: real) {
    predicate Sized() { |machines| == |bias| == SIZE }
  }

  lemma FleetIsDistinct()
    ensures |FLEET| == |BASE_LOAD| == |BASE_COOLING| == SIZE && Distinct(FLEET)
  {
    assert FLEET[0][17] == '1' && FLEET[1][17] == '2' && FLEET[2][17] == '3' && FLEET[3][17] == '4';
  }

  predicate Known(c: RunConfig) { c.target in FLEET }

  function TargetIndex(c: RunConfig): (i: nat)
    requires Known(c)
    ensures i < SIZE && FLEET[i] == c.target
    ensures forall j :: 0 <= j < SIZE && FLEET[j] == c.target ==> j == i
  {
    FleetIsDistinct();
    IndexOf(FLEET, c.target)
  }

  /** `PlantAlphaFleet.create`, where only the target starts from the overridden load and temperature. */
  function Built(c: RunConfig, i: nat): State
    requires i < SIZE && Known(c)
  {
    var own := i == TargetIndex(c);
    WithCooling(WithTargetLoad(Warm(if own then 50.0 + c.conditions.loadOffset else 50.0,
                                    if own then 65.0 + c.conditions.temperatureOffset else 65.0),
                               BASE_LOAD[i]),
                BASE_COOLING[i])
  }

  function Warm(load: real, temperature: real): State { DEFAULT.(load := load, temperature := temperature) }

  function Created(c: RunConfig): (p: Plant)
    requires Known(c)
    ensures p.Sized()
  {
    Plant(seq(SIZE, i requires 0 <= i < SIZE => Built(c, i)), seq(SIZE, i => None), 0.0)
  }

  /** The overrides of the initial load and temperature are the target's: every other asset starts as it would in any
      other run, and each asset heads for its own baseline. */
  lemma OnlyTheTargetStartsElsewhere(c: RunConfig, other: RunConfig, i: nat)
    requires Known(c) && Known(other) && i < SIZE
    ensures var s, t := Created(c).machines[i], Created(other).machines[i];
            && (FLEET[i] != c.target && FLEET[i] != other.target ==> s == t)
            && (FLEET[i] == c.target ==>
                  s.load == 50.0 + c.conditions.loadOffset && s.temperature == 65.0 + c.conditions.temperatureOffset)
            && (FLEET[i] != c.target ==> s.load == 50.0 && s.temperature == 65.0)
            && s.targetLoad == t.targetLoad == BASE_LOAD[i] && s.targetCooling == t.targetCooling == BASE_COOLING[i]
  {
    FleetIsDistinct();
  }

  // --- the fault ------------------------------------------------------------------------------------

  /** The fault's own window, open at the right: once begun it never ends. */
  predicate Active(c: RunConfig, elapsed: real) {
    c.faultStart.Some? && c.faultDuration.Some? && elapsed >= c.faultStart.value
  }

  function Progress(c: RunConfig, elapsed: real): real
    requires Active(c, elapsed) && c.faultDuration.value > 0.0
  {
    Min(1.0, (elapsed - c.faultStart.value) / c.faultDuration.value)
  }

  /** The healthy end and the full-severity end of each scenario's ramp. */
  function RampStart(s: Scenario): real {
    match s case CoolingDegradation => 0.85 case HydrogenSupplyIssue => 1.0 case _ => 0.0
  }

  function RampLimit(s: Scenario): real {
    match s
    case CoolingDegradation => 0.55
    case HydrogenSupplyIssue => 0.6
    case SensorAnomaly => 12.0
    case NormalOperation => 0.0
  }

  /** `fault_ramp_endpoints`; a healthy scenario has none. */
  function FaultRampEndpoints(c: RunConfig): Option<(real, real)> {
    match c.scenario
    case CoolingDegradation => Some((0.85, 0.85 - c.severity * (0.85 - 0.55)))
    case HydrogenSupplyIssue => Some((1.0, 1.0 - c.severity * (1.0 - 0.6)))
    case SensorAnomaly => Some((0.0, c.severity * 12.0))
    case NormalOperation => None
  }

  /** The value `apply_fault_effect` asks for. */
  function Demanded(c: RunConfig, progress: real): real {
    match FaultRampEndpoints(c)
    case Some((start, end)) => start + (end - start) * progress
    case None => 0.0
  }

  /** The machine half of `apply_fault_effect`. */
  function Disturbed(c: RunConfig, s: State, progress: real): State {
    match c.scenario
    case CoolingDegradation => WithCooling(s, Demanded(c, progress))
    case HydrogenSupplyIssue => WithFuel(s, Demanded(c, progress))
    case _ => s
  }

  function Affected(c: RunConfig, p: Plant, progress: real): (q: Plant)
    requires Known(c) && p.Sized()
    ensures q.Sized()
  {
    var t := TargetIndex(c);
    p.(machines := p.machines[t := Disturbed(c, p.machines[t], progress)],
       bias := if c.scenario.SensorAnomaly? then p.bias[t := Some(Demanded(c, progress))] else p.bias)
  }

  // --- the run ------------------------------------------------------------------------------------------

  function LoadSetpoint(ph: Physics, c: RunConfig, i: nat, elapsed: real): real
    requires c.conditions.period > 0.0
  {
    var phase := TAU * (elapsed / c.conditions.period) + c.conditions.phase;
    c.conditions.baseline + i as real * 2.0 + c.conditions.amplitude * ph.sine(phase + i as real * 0.4)
  }

  /** `NormalOperationScenario.tick` on one machine. */
  function Operated(ph: Physics, c: RunConfig, i: nat, s: State, elapsed: real): State
    requires c.conditions.period > 0.0
  {
    WithTargetLoad(Ticked(ph, s, c.dt), LoadSetpoint(ph, c, i, elapsed))
  }

  function Baselined(ph: Physics, c: RunConfig, p: Plant): (q: Plant)
    requires p.Sized() && c.conditions.period > 0.0
    ensures q.Sized()
  {
    Plant(seq(SIZE, i requires 0 <= i < SIZE => Operated(ph, c, i, p.machines[i], p.elapsed + c.dt)),
          p.bias, p.elapsed + c.dt)
  }

  function Stepped(ph: Physics, c: RunConfig, p: Plant): (q: Plant)
    requires p.Sized() && Known(c) && c.Valid()
    ensures q.Sized()
  {
    var at := p.elapsed + c.dt;
    Baselined(ph, c, if Active(c, at) then Affected(c, p, Progress(c, at)) else p)
  }

  function PlantAfter(ph: Physics, c: RunConfig, k: nat): (p: Plant)
    requires Known(c) && c.Valid()
    ensures p.Sized()
  {
    if k == 0 then Created(c) else Stepped(ph, c, PlantAfter(ph, c, k - 1))
  }

  function TotalSteps(c: RunConfig): (n: nat)
    requires c.Valid()
  {
    var q := c.duration / c.dt;
    assert q > 0.0 by { QuotientPositive(c.duration, c.dt); }
    Round(q)
  }

  // --- labels -----------------------------------------------------------------------------------------------

  datatype FaultType = NoFault | CoolingFault | HydrogenFault

  datatype Corruption = NoCorruption | Bias

  datatype Truth = Truth(
    asset: string, elapsed: real, faultType: FaultType, active: bool, severity: real, since: Option<real>,
    corruption: Corruption)
  {
    /** The checks of `GroundTruthRecord` that its constructor makes on these fields. */
    predicate Consistent() {
      asset != "" && (active <==> since.Some?) && (!active ==> severity == 0.0)
    }
  }

  function ComputeGroundTruth(c: RunConfig, asset: string, elapsed: real): Truth
    requires c.Valid()
  {
    var own := asset == c.target;
    var kind := if !own then NoFault else match c.scenario
      case CoolingDegradation => CoolingFault case HydrogenSupplyIssue => HydrogenFault case _ => NoFault;
    var corruption := if own && c.scenario.SensorAnomaly? then Bias else NoCorruption;
    if own && Active(c, elapsed)
    then Truth(asset, elapsed, kind, true, c.severity * Progress(c, elapsed), Some(elapsed - c.faultStart.value),
               corruption)
    else Truth(asset, elapsed, kind, false, 0.0, None, corruption)
  }

  datatype Sample = Sample(elapsed: real, machines: seq<State>, bias: seq<Option<real>>, truths: seq<Truth>)

  function Observed(c: RunConfig, p: Plant): (s: Sample)
    requires c.Valid()
  {
    Sample(p.elapsed, p.machines, p.bias,
           seq(SIZE, i requires 0 <= i < SIZE => ComputeGroundTruth(c, FLEET[i], p.elapsed)))
  }

  /** The `k`-th sample of a run, counting from zero. */
  function SampleAt(ph: Physics, c: RunConfig, k: nat): Sample
    requires Known(c) && c.Valid()
  {
    Observed(c, PlantAfter(ph, c, k + 1))
  }

  /** The setpoint swings around the asset's own baseline by at most the amplitude. */
  lemma SetpointStaysInBand(ph: Physics, c: RunConfig, i: nat, elapsed: real)
    requires ph.Valid() && c.conditions.period > 0.0 && c.conditions.amplitude >= 0.0
    ensures Within(LoadSetpoint(ph, c, i, elapsed) - (c.conditions.baseline + 2.0 * i as real),
                   -c.conditions.amplitude, c.conditions.amplitude)
  {
    var x := ph.sine(TAU * (elapsed / c.conditions.period) + c.conditions.phase + i as real * 0.4);
    assert -1.0 <= x <= 1.0;
    assert c.conditions.amplitude * x == Times(x, c.conditions.amplitude);
    hide Times;
    TimesMonotone(x, 1.0, c.conditions.amplitude);
    TimesMonotone(-1.0, x, c.conditions.amplitude);
    TimesSplits(1.0, 0.0, c.conditions.amplitude);
    TimesUnits(c.conditions.amplitude);
  }

  // --- time -----------------------------------------------------------------------------------------------------

  lemma {:induction false} ElapsedIsOnGrid(ph: Physics, c: RunConfig, k: nat)
    requires Known(c) && c.Valid()
    ensures PlantAfter(ph, c, k).elapsed == k as real * c.dt
  {
    hide Stepped; hide Created;
    if k > 0 {
      ElapsedIsOnGrid(ph, c, k - 1);
      StepTakesTime(ph, c, PlantAfter(ph, c, k - 1));
      NextMultiple(k, c.dt);
    } else {
      StartsAtZero(c);
    }
  }

  lemma StartsAtZero(c: RunConfig)
    requires Known(c)
    ensures Created(c).elapsed == 0.0
  {
  }

  lemma StepTakesTime(ph: Physics, c: RunConfig, p: Plant)
    requires p.Sized() && Known(c) && c.Valid()
    ensures Stepped(ph, c, p).elapsed == p.elapsed + c.dt
  {
    hide Operated;
  }

  lemma NextMultiple(k: nat, dt: real)
    requires k > 0
    ensures k as real * dt == (k - 1) as real * dt + dt
  {
    var j := (k - 1) as real;
    assert (j + 1.0) * dt == j * dt + dt;
  }

  lemma GridIsIncreasing(j: nat, k: nat, dt: real)
    requires j <= k && dt > 0.0
    ensures j as real * dt <= k as real * dt
  {
    TimesMonotone(j as real, k as real, dt);
  }

  /** One step, seen from one asset. */
  lemma StepIsPointwise(ph: Physics, c: RunConfig, p: Plant, i: nat)
    requires p.Sized() && Known(c) && c.Valid() && i < SIZE
    ensures var at := p.elapsed + c.dt; var q := Stepped(ph, c, p);
            q.elapsed == at &&
            if i == TargetIndex(c) && Active(c, at) then
              q.machines[i] == Operated(ph, c, i, Disturbed(c, p.machines[i], Progress(c, at)), at) &&
              q.bias[i] == if c.scenario.SensorAnomaly? then Some(Demanded(c, Progress(c, at))) else p.bias[i]
            else
              q.machines[i] == Operated(ph, c, i, p.machines[i], at) && q.bias[i] == p.bias[i]
  {
    hide Operated; hide Disturbed; hide Demanded; hide Progress;
  }

  /** A tick under the baseline scenario leaves the two fault setpoints alone. */
  lemma OperatedKeepsSetpoints(ph: Physics, c: RunConfig, i: nat, s: State, elapsed: real)
    requires c.conditions.period > 0.0
    ensures var r := Operated(ph, c, i, s, elapsed); r.targetCooling == s.targetCooling && r.targetFuel == s.targetFuel
  {
    hide Lag; hide LoadSetpoint;
  }
}
