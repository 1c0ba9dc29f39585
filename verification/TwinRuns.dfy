/** A fault run against its healthy twin: the same configuration without the fault. What the labels of
    `backend/simulator/dataset` imply about the plant holds because only the named parameter of the named asset is
    ever disturbed. */
module TwinRuns {
  import opened Basics
  import opened RealFacts
  import opened Machine
  import opened Scenarios
  import opened DatasetRun
  import opened LabelledRun

  function HealthyTwin(c: RunConfig): (h: RunConfig)
    requires c.Valid()
    ensures h.Valid() && h.target == c.target && h.conditions == c.conditions && h.dt == c.dt
  {
    c.(scenario := NormalOperation, faultStart := None, faultDuration := None, severity := 0.0)
  }

  lemma SameStart(c: RunConfig)
    requires Known(c) && c.Valid()
    ensures Known(HealthyTwin(c)) && TargetIndex(HealthyTwin(c)) == TargetIndex(c)
    ensures Created(HealthyTwin(c)) == Created(c)
  {
    var h := HealthyTwin(c);
    hide WithCooling; hide WithTargetLoad;
    forall i | 0 <= i < SIZE ensures Built(h, i) == Built(c, i) { }
  }

  lemma SameOperation(ph: Physics, c: RunConfig, i: nat, s: State, elapsed: real)
    requires c.Valid()
    ensures Operated(ph, HealthyTwin(c), i, s, elapsed) == Operated(ph, c, i, s, elapsed)
  {
    hide Ticked; hide WithTargetLoad;
    assert LoadSetpoint(ph, HealthyTwin(c), i, elapsed) == LoadSetpoint(ph, c, i, elapsed);
    hide LoadSetpoint;
  }

  lemma {:induction false} SameClock(ph: Physics, c: RunConfig, k: nat)
    requires Known(c) && c.Valid() && Known(HealthyTwin(c))
    ensures PlantAfter(ph, c, k).elapsed == PlantAfter(ph, HealthyTwin(c), k).elapsed
  {
    hide Stepped; hide Created; hide Known;
    var h := HealthyTwin(c);
    if k == 0 {
      SameStart(c);
    } else {
      SameClock(ph, c, k - 1);
      StepTakesTime(ph, c, PlantAfter(ph, c, k - 1));
      StepTakesTime(ph, h, PlantAfter(ph, h, k - 1));
    }
  }

  /** What a fault run shares with its twin at asset `i` after `k` steps. */
  predicate Undisturbed(c: RunConfig, i: nat, elapsed: real)
    requires Known(c)
  {
    i != TargetIndex(c) || c.scenario.NormalOperation? || c.scenario.SensorAnomaly? || !Active(c, elapsed)
  }

  /** Every asset but the target, the target before its fault, and every machine under a sensor fault evolve exactly
      as in the healthy twin, whatever the fault; and no sensor but a corrupted target's is biased. */
  lemma {:induction false} OnlyTheTargetIsDisturbed(ph: Physics, c: RunConfig, k: nat, i: nat)
    requires Known(c) && c.Valid() && i < SIZE && Undisturbed(c, i, k as real * c.dt)
    ensures Known(HealthyTwin(c))
    ensures PlantAfter(ph, c, k).machines[i] == PlantAfter(ph, HealthyTwin(c), k).machines[i]
    ensures (i != TargetIndex(c) || !c.scenario.SensorAnomaly? || !Active(c, k as real * c.dt) || k == 0) ==>
            PlantAfter(ph, c, k).bias[i] == None
  {
    hide Stepped; hide Created; hide TargetIndex; hide Known; hide Operated; hide Demanded; hide Progress;
    var h := HealthyTwin(c);
    SameStart(c);
    if k == 0 {
      NoBias(c, i);
    } else {
      GridIsIncreasing(k - 1, k, c.dt);
      OnlyTheTargetIsDisturbed(ph, c, k - 1, i);
      ElapsedIsOnGrid(ph, c, k - 1);
      SameClock(ph, c, k - 1);
      NextMultiple(k, c.dt);
      var p, q := PlantAfter(ph, c, k - 1), PlantAfter(ph, h, k - 1);
      var at := p.elapsed + c.dt;
      assert at == k as real * c.dt && at == q.elapsed + h.dt;
      StepIsPointwise(ph, c, p, i);
      StepIsPointwise(ph, h, q, i);
      SameOperation(ph, c, i, q.machines[i], at);
    }
  }

  lemma NoBias(c: RunConfig, i: nat)
    requires Known(c) && i < SIZE
    ensures Created(c).bias[i] == None
  {
  }

  // --- the fleet stays inside the machine envelope -------------------------------------------------

  lemma BuiltInEnvelope(c: RunConfig, i: nat)
    requires Known(c) && c.Valid() && i < SIZE
    ensures Envelope(Created(c).machines[i])
  {
    assert Created(c).machines[i] == Built(c, i);
  }

  lemma OperatedInEnvelope(ph: Physics, c: RunConfig, i: nat, s: State, elapsed: real)
    requires ph.Valid() && c.Valid() && Envelope(s)
    ensures Envelope(Operated(ph, c, i, s, elapsed))
  {
    hide Envelope; hide Ticked; hide LoadSetpoint; hide WithTargetLoad;
    CommandKeepsEnvelope(ph, s, Command.Tick(c.dt));
    CommandKeepsEnvelope(ph, Ticked(ph, s, c.dt), SetLoad(LoadSetpoint(ph, c, i, elapsed)));
  }

  lemma DisturbedInEnvelope(c: RunConfig, s: State, progress: real)
    requires Envelope(s)
    ensures Envelope(Disturbed(c, s, progress))
  {
    hide Demanded;
  }

  /** Every machine of every run, faulted or not, stays inside the machine envelope. */
  lemma {:induction false} FleetStaysInEnvelope(ph: Physics, c: RunConfig, k: nat, i: nat)
    requires ph.Valid() && Known(c) && c.Valid() && i < SIZE
    ensures Envelope(PlantAfter(ph, c, k).machines[i])
  {
    hide Stepped; hide Created; hide Operated; hide Disturbed; hide Envelope; hide Progress; hide TargetIndex;
    hide Known;
    if k == 0 {
      BuiltInEnvelope(c, i);
    } else {
      var p := PlantAfter(ph, c, k - 1);
      FleetStaysInEnvelope(ph, c, k - 1, i);
      StepIsPointwise(ph, c, p, i);
      var at, s := p.elapsed + c.dt, p.machines[i];
      OperatedInEnvelope(ph, c, i, s, at);
      if i == TargetIndex(c) && Active(c, at) {
        DisturbedInEnvelope(c, s, Progress(c, at));
        OperatedInEnvelope(ph, c, i, Disturbed(c, s, Progress(c, at)), at);
      }
    }
  }

  // --- a cooling fault heats -----------------------------------------------------------------------------

  /** `s` is `h` with worse cooling: hotter, at lower pressure, and electrically the same. */
  predicate Overheated(s: State, h: State) {
    && s == h.(cooling := s.cooling, targetCooling := s.targetCooling, temperature := s.temperature,
               pressure := s.pressure)
    && s.cooling <= h.cooling && s.targetCooling <= h.targetCooling
    && s.temperature >= h.temperature && s.pressure <= h.pressure
  }

  lemma AdvanceOverheated(s: State, h: State, v: real, w1: real, w2: real, w3: real)
    requires Overheated(s, h) && 0.0 <= v <= 1.0
    ensures Overheated(Advance(s, v, w1, w2, w3), Advance(h, v, w1, w2, w3))
  {
    DecaysWithin(v);
    hide Lag; hide K30; hide K15; hide TargetVoltage; hide TargetHydrogen; hide FollowedCurrent; hide LimitedCurrent;
    var s', h' := Advance(s, v, w1, w2, w3), Advance(h, v, w1, w2, w3);
    LagMonotone(s.cooling, h.cooling, s.targetCooling, h.targetCooling, v);
    var hot, cool := TargetTemperature(s'.load, s'.cooling, w2), TargetTemperature(h'.load, h'.cooling, w2);
    assert cool <= hot;
    LagMonotone(h.temperature, s.temperature, cool, hot, v);
    LagMonotone(s.pressure, h.pressure, TargetPressure(s'.temperature, w3), TargetPressure(h'.temperature, w3), K30(v));
  }

  lemma OperatedOverheated(ph: Physics, c: RunConfig, i: nat, s: State, h: State, elapsed: real)
    requires ph.Valid() && c.Valid() && Overheated(s, h)
    ensures Overheated(Operated(ph, c, i, s, elapsed), Operated(ph, c, i, h, elapsed))
  {
    hide Advance; hide LoadSetpoint; hide Wiggle;
    var n := s.ticks + 1;
    AdvanceOverheated(s, h, ph.decay(c.dt), Wiggle(ph, n, 1.0, 0.002), Wiggle(ph, n, 2.0, 0.15),
                      Wiggle(ph, n, 3.0, 0.2));
  }

  lemma DisturbedOverheated(c: RunConfig, s: State, h: State, elapsed: real)
    requires c.Valid() && c.scenario.CoolingDegradation? && Active(c, elapsed)
    requires Overheated(s, h) && h.targetCooling >= 0.85
    ensures Overheated(Disturbed(c, s, Progress(c, elapsed)), h)
  {
    hide Demanded; hide Progress;
    ProgressWithin(c, elapsed);
    CoolingDemand(c, Progress(c, elapsed));
  }

  lemma CoolingDemand(c: RunConfig, progress: real)
    requires c.Valid() && c.scenario.CoolingDegradation? && Within(progress, 0.0, 1.0)
    ensures 0.55 <= Demanded(c, progress) <= 0.85
  {
    hide Demanded; hide Times;
    DemandIsShare(c, progress);
    TimesFraction(c.severity, progress);
  }

  /** The twin's cooling setpoint stays where the fleet put it. */
  lemma {:induction false} HealthySetpoints(ph: Physics, h: RunConfig, k: nat, i: nat)
    requires Known(h) && h.Valid() && h.scenario.NormalOperation? && i < SIZE
    ensures var s := PlantAfter(ph, h, k).machines[i];
            s.targetCooling == BASE_COOLING[i] && s.targetFuel == 1.0 && s.fuel == 1.0
  {
    hide Stepped; hide Created; hide Operated; hide TargetIndex; hide Known;
    if k == 0 {
      BuiltSetpoints(h, i);
    } else {
      var p := PlantAfter(ph, h, k - 1);
      HealthySetpoints(ph, h, k - 1, i);
      StepIsPointwise(ph, h, p, i);
      OperatedKeepsSetpoints(ph, h, i, p.machines[i], p.elapsed + h.dt);
      OperatedKeepsFullFuel(ph, h, i, p.machines[i], p.elapsed + h.dt);
    }
  }

  lemma BuiltSetpoints(c: RunConfig, i: nat)
    requires Known(c) && i < SIZE
    ensures var s := Created(c).machines[i]; s.targetCooling == BASE_COOLING[i] && s.targetFuel == 1.0 && s.fuel == 1.0
  {
    assert Created(c).machines[i] == Built(c, i);
  }

  lemma OperatedKeepsFullFuel(ph: Physics, c: RunConfig, i: nat, s: State, elapsed: real)
    requires c.conditions.period > 0.0 && s.fuel == s.targetFuel == 1.0
    ensures Operated(ph, c, i, s, elapsed).fuel == 1.0
  {
    hide LoadSetpoint; hide K30; hide K15;
    hide Lag; hide Times;
    DecayedLagIsSteady(K30(ph.decay(c.dt)));
  }

  lemma DecayedLagIsSteady(keep: real)
    ensures Lag(1.0, 1.0, keep) == 1.0
  {
    hide Times;
    TimesUnits(1.0 - keep);
  }

  /** A cooling fault on an asset whose own baseline is at least the ramp's start never cools it: at every sample it is
      at least as hot as its healthy twin and at no more pressure, and electrically identical. */
  lemma {:induction false} CoolingFaultHeats(ph: Physics, c: RunConfig, k: nat)
    requires ph.Valid() && Known(c) && c.Valid() && c.scenario.CoolingDegradation?
    requires BASE_COOLING[TargetIndex(c)] >= 0.85
    ensures Known(HealthyTwin(c))
    ensures Overheated(PlantAfter(ph, c, k).machines[TargetIndex(c)],
                       PlantAfter(ph, HealthyTwin(c), k).machines[TargetIndex(c)])
  {
    hide Stepped; hide Created; hide Operated; hide Disturbed; hide Progress; hide TargetIndex; hide Known;
    hide Overheated;
    var h, t := HealthyTwin(c), TargetIndex(c);
    SameStart(c);
    if k == 0 {
      SameIsOverheated(Created(c).machines[t]);
    } else {
      CoolingFaultHeats(ph, c, k - 1);
      var p, q := PlantAfter(ph, c, k - 1), PlantAfter(ph, h, k - 1);
      SameClock(ph, c, k - 1);
      var at := p.elapsed + c.dt;
      StepIsPointwise(ph, c, p, t);
      StepIsPointwise(ph, h, q, t);
      SameOperation(ph, c, t, q.machines[t], at);
      HealthySetpoints(ph, h, k - 1, t);
      var s := if Active(c, at) then Disturbed(c, p.machines[t], Progress(c, at)) else p.machines[t];
      if Active(c, at) {
        DisturbedOverheated(c, p.machines[t], q.machines[t], at);
      }
      OperatedOverheated(ph, c, t, s, q.machines[t], at);
    }
  }

  lemma SameIsOverheated(s: State)
    ensures Overheated(s, s)
  {
  }

  ghost predicate NeverCooler(ph: Physics, i: nat)
    requires i < SIZE
  {
    forall c: RunConfig, k: nat ::
      Known(c) && c.Valid() && Known(HealthyTwin(c)) && c.scenario.CoolingDegradation? && TargetIndex(c) == i ==>
      PlantAfter(ph, c, k).machines[i].temperature >= PlantAfter(ph, HealthyTwin(c), k).machines[i].temperature
  }

  /** A fault that starts with the first sample, aimed at asset `i`. */
  function Immediate(i: nat): RunConfig
    requires i < SIZE
  {
    RunConfig(CoolingDegradation, FLEET[i], 2.0, 1.0, Some(1.0), Some(1.0), 1.0,
              Conditions(60.0, 15.0, 300.0, 0.0, 0.0, 0.0))
  }

  lemma ImmediateIsValid(i: nat)
    requires i < SIZE
    ensures var c := Immediate(i);
            c.Valid() && Known(c) && TargetIndex(c) == i && Active(c, 1.0) && Progress(c, 1.0) == 0.0
    ensures Demanded(Immediate(i), 0.0) == 0.85
  {
    FleetIsDistinct();
  }

  /** The ramp of every cooling fault starts at 0.85, so an asset whose baseline is below that is first cooled better.
      "A cooling fault never leaves the asset cooler than its healthy twin" holds of exactly the other assets. */
  lemma CoolingFaultHeatsExactly(ph: Physics, i: nat)
    requires ph.Valid() && i < SIZE
    ensures NeverCooler(ph, i) <==> BASE_COOLING[i] >= 0.85
  {
    hide PlantAfter; hide TargetIndex; hide Known;
    if BASE_COOLING[i] >= 0.85 {
      forall c: RunConfig, k: nat
        | Known(c) && c.Valid() && Known(HealthyTwin(c)) && c.scenario.CoolingDegradation? && TargetIndex(c) == i
        ensures PlantAfter(ph, c, k).machines[i].temperature >=
                PlantAfter(ph, HealthyTwin(c), k).machines[i].temperature
      {
        CoolingFaultHeats(ph, c, k);
      }
    } else {
      var c := Immediate(i);
      ImmediateIsValid(i);
      SameStart(c);
      FirstStepCools(ph, i);
    }
  }

  lemma FirstStepCools(ph: Physics, i: nat)
    requires ph.Valid() && i < SIZE && BASE_COOLING[i] < 0.85
    requires var c := Immediate(i); c.Valid() && Known(c) && Known(HealthyTwin(c))
    ensures PlantAfter(ph, Immediate(i), 1).machines[i].temperature <
            PlantAfter(ph, HealthyTwin(Immediate(i)), 1).machines[i].temperature
  {
    hide Stepped; hide Created; hide Operated; hide Disturbed; hide TargetIndex; hide Known; hide Immediate;
    hide Demanded; hide Progress;
    var c := Immediate(i);
    ImmediateIsValid(i);
    var h := HealthyTwin(c);
    SameStart(c);
    StartsAtZero(c);
    var p := Created(c);
    assert PlantAfter(ph, c, 0) == p && PlantAfter(ph, h, 0) == p;
    ImmediateStep(i);
    StepIsPointwise(ph, c, p, i);
    StepIsPointwise(ph, h, p, i);
    SameOperation(ph, c, i, p.machines[i], 1.0);
    BuiltCooling(c, i);
    DisturbedCooling(c, p.machines[i], 0.0);
    BetterCooled(ph, c, i, p.machines[i]);
  }

  lemma ImmediateStep(i: nat)
    requires i < SIZE
    ensures Immediate(i).dt == 1.0 && Immediate(i).scenario.CoolingDegradation?
  {
  }

  lemma BuiltCooling(c: RunConfig, i: nat)
    requires Known(c) && i < SIZE
    ensures var s := Created(c).machines[i]; s.cooling == 0.85 && s.targetCooling == BASE_COOLING[i]
  {
    assert Created(c).machines[i] == Built(c, i);
  }

  lemma DisturbedCooling(c: RunConfig, s: State, progress: real)
    requires c.scenario.CoolingDegradation? && Demanded(c, progress) == 0.85
    ensures Disturbed(c, s, progress) == s.(targetCooling := 0.85)
  {
    hide Demanded;
  }

  lemma BetterCooled(ph: Physics, c: RunConfig, i: nat, s: State)
    requires ph.Valid() && c.Valid() && s.cooling == 0.85 && s.targetCooling < 0.85
    ensures Operated(ph, c, i, s.(targetCooling := 0.85), 1.0).temperature < Operated(ph, c, i, s, 1.0).temperature
  {
    var v := ph.decay(c.dt);
    var better, worse := Lag(0.85, 0.85, v), Lag(0.85, s.targetCooling, v);
    StrictLag(0.85, s.targetCooling, v);
    assert better == 0.85;
    var n := s.ticks + 1;
    var w := Wiggle(ph, n, 2.0, 0.15);
    var load := Lag(s.load, s.targetLoad, K30(v));
    var low, high := TargetTemperature(load, better, w), TargetTemperature(load, worse, w);
    StrictLagTarget(s.temperature, low, high, v);
    hide Lag; hide K30; hide K15; hide TargetVoltage; hide TargetHydrogen; hide FollowedCurrent; hide LimitedCurrent;
    hide Wiggle; hide LoadSetpoint; hide TargetPressure; hide TargetTemperature;
  }

  lemma StrictLag(x: real, target: real, keep: real)
    requires target < x && keep < 1.0
    ensures Lag(x, target, keep) < x
  {
    hide Times;
    var b := 1.0 - keep;
    TimesPositive(x - target, b);
    TimesSplits(x, target, b);
    TimesSplits(target, x, b);
  }

  lemma StrictLagTarget(x: real, low: real, high: real, keep: real)
    requires low < high && keep < 1.0
    ensures Lag(x, low, keep) < Lag(x, high, keep)
  {
    hide Lag; hide Times;
    var b := 1.0 - keep;
    TimesPositive(high - low, b);
    TimesSplits(high, low, b);
    LagMixes(x, high, keep, b);
    LagMixes(x, low, keep, b);
  }

  // --- a hydrogen fault starves ----------------------------------------------------------------------------

  /** `s` is `h` with less hydrogen: no more flow, air or current, and thermally the same. */
  predicate Underfed(s: State, h: State) {
    && s == h.(fuel := s.fuel, targetFuel := s.targetFuel, hydrogen := s.hydrogen, air := s.air,
               current := s.current, voltage := s.voltage)
    && s.fuel <= h.fuel && s.targetFuel <= h.targetFuel
    && s.hydrogen <= h.hydrogen && s.air <= h.air && s.current <= h.current
    && h.fuel == h.targetFuel == 1.0
  }

  lemma AdvanceUnderfed(s: State, h: State, v: real, w1: real, w2: real, w3: real)
    requires Underfed(s, h) && 0.0 <= v <= 1.0 && Within(s.load, 0.0, 100.0) && Within(s.targetLoad, 0.0, 100.0)
    ensures Underfed(Advance(s, v, w1, w2, w3), Advance(h, v, w1, w2, w3))
  {
    DecaysWithin(v);
    hide Lag; hide K30; hide K15; hide TargetVoltage; hide TargetHydrogen; hide TargetTemperature; hide TargetPressure;
    hide LimitedCurrent; hide FollowedCurrent;
    var s', h' := Advance(s, v, w1, w2, w3), Advance(h, v, w1, w2, w3);
    LagMonotone(s.fuel, h.fuel, s.targetFuel, h.targetFuel, K30(v));
    LagBetween(1.0, 1.0, K30(v));
    LagWithin(s.load, s.targetLoad, K30(v), 0.0, 100.0);
    FlowMonotone(s'.load, s'.fuel, h'.fuel);
    LagMonotone(s.hydrogen, h.hydrogen, TargetHydrogen(s'.load, s'.fuel), TargetHydrogen(s'.load, h'.fuel), K30(v));
    LagMonotone(s.air, h.air, s'.hydrogen * 4.0, h'.hydrogen * 4.0, K30(v));
    CurrentUnderfed(s.current, h.current, s'.load, s'.fuel, v);
  }

  lemma FlowMonotone(load: real, x: real, y: real)
    requires Within(load, 0.0, 100.0) && x <= y
    ensures TargetHydrogen(load, x) <= TargetHydrogen(load, y)
  {
    hide Times;
    var base := 1.5 + load / 100.0 * 1.0;
    TimesMonotone(x, y, base);
    TimesCommutes(x, base);
    TimesCommutes(y, base);
  }

  lemma CurrentUnderfed(x: real, y: real, load: real, fuel: real, v: real)
    requires x <= y && 0.0 <= v <= 1.0
    ensures LimitedCurrent(FollowedCurrent(x, load, v), load, fuel, v) <=
            LimitedCurrent(FollowedCurrent(y, load, v), load, 1.0, v)
  {
    DecaysWithin(v);
    hide Lag; hide K30; hide K15;
    var demand := load / 100.0 * 200.0;
    LagMonotone(x, y, demand, demand, K30(v));
    var a := FollowedCurrent(x, load, v);
    LagBetween(a, Min(a, Times(demand, fuel)), K15(v));
  }

  lemma OperatedUnderfed(ph: Physics, c: RunConfig, i: nat, s: State, h: State, elapsed: real)
    requires ph.Valid() && c.Valid() && Underfed(s, h) && Within(s.load, 0.0, 100.0) && Within(s.targetLoad, 0.0, 100.0)
    ensures Underfed(Operated(ph, c, i, s, elapsed), Operated(ph, c, i, h, elapsed))
  {
    hide Advance; hide LoadSetpoint; hide Wiggle;
    var n := s.ticks + 1;
    AdvanceUnderfed(s, h, ph.decay(c.dt), Wiggle(ph, n, 1.0, 0.002), Wiggle(ph, n, 2.0, 0.15), Wiggle(ph, n, 3.0, 0.2));
  }

  lemma DisturbedUnderfed(c: RunConfig, s: State, h: State, elapsed: real)
    requires c.Valid() && c.scenario.HydrogenSupplyIssue? && Active(c, elapsed) && Underfed(s, h)
    ensures var d := Disturbed(c, s, Progress(c, elapsed));
            Underfed(d, h) && d.load == s.load && d.targetLoad == s.targetLoad
  {
    hide Demanded; hide Progress;
  }

  /** A hydrogen-supply fault on any asset never feeds it: hydrogen flow, air flow and current are at no sample above
      those of the healthy twin, and temperature, pressure, cooling and load are untouched. */
  lemma {:induction false} HydrogenFaultStarves(ph: Physics, c: RunConfig, k: nat)
    requires ph.Valid() && Known(c) && c.Valid() && c.scenario.HydrogenSupplyIssue?
    ensures Known(HealthyTwin(c))
    ensures Underfed(PlantAfter(ph, c, k).machines[TargetIndex(c)],
                     PlantAfter(ph, HealthyTwin(c), k).machines[TargetIndex(c)])
  {
    hide Stepped; hide Created; hide Operated; hide Disturbed; hide Progress; hide TargetIndex; hide Known;
    hide Underfed;
    var h, t := HealthyTwin(c), TargetIndex(c);
    SameStart(c);
    if k == 0 {
      BuiltSetpoints(c, t);
      SameIsUnderfed(Created(c).machines[t]);
    } else {
      HydrogenFaultStarves(ph, c, k - 1);
      FleetStaysInEnvelope(ph, c, k - 1, t);
      var p, q := PlantAfter(ph, c, k - 1), PlantAfter(ph, h, k - 1);
      SameClock(ph, c, k - 1);
      var at := p.elapsed + c.dt;
      StepIsPointwise(ph, c, p, t);
      StepIsPointwise(ph, h, q, t);
      SameOperation(ph, c, t, q.machines[t], at);
      var s := if Active(c, at) then Disturbed(c, p.machines[t], Progress(c, at)) else p.machines[t];
      if Active(c, at) {
        DisturbedUnderfed(c, p.machines[t], q.machines[t], at);
      }
      OperatedUnderfed(ph, c, t, s, q.machines[t], at);
    }
  }

  lemma SameIsUnderfed(s: State)
    requires s.fuel == s.targetFuel == 1.0
    ensures Underfed(s, s)
  {
  }
}
