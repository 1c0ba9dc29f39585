/** The fuel-cell machine (`backend/simulator/machine.py`) over exact reals.

    A tick of `dt` seconds enters through `decay(dt)`, which stands for exp(-dt/60): the three time constants of
    the code are 60, 30 and 15 seconds, so their decays are `v`, `v*v` and `v*v*v*v`. The sine of the bounded
    variation is any function into [-1, 1]. */
module Machine {
  import opened RealFacts

  datatype Mode = Idle | Running | Ramping

  datatype State = State(
    load: real, targetLoad: real, current: real, voltage: real, temperature: real, pressure: real,
    hydrogen: real, air: real, cooling: real, targetCooling: real, fuel: real, targetFuel: real,
    mode: Mode, ticks: nat)

  datatype Physics = Physics(decay: real -> real, sine: real -> real) {
    ghost predicate Valid() {
      && (forall dt :: dt > 0.0 ==> 0.0 < decay(dt) < 1.0)
      && (forall x :: -1.0 <= sine(x) <= 1.0)
    }
  }

  const STARVATION_THRESHOLD := 0.98
  const MIN_FUEL := 0.4

  /** `_lag_toward` with coefficient 1 - keep. */
  function Lag(x: real, target: real, keep: real): real { x + Times(target - x, 1.0 - keep) }

  /** Decays of the 30- and 15-second lags, from the decay of the 60-second lag. */
  function K30(v: real): real { Times(v, v) }

  function K15(v: real): real { Times(K30(v), K30(v)) }

  /** The machine of `FuelCellMachine.default()`. */
  const DEFAULT := State(50.0, 50.0, 100.0, 0.76, 65.0, 152.0, 2.0, 8.0, 0.85, 0.85, 1.0, 1.0, Running, 0)

  // --- setters -----------------------------------------------------------------------------

  function WithTargetLoad(s: State, x: real): State {
    var target := Clamp(x, 0.0, 100.0);
    s.(targetLoad := target,
       mode := if Abs(target - s.load) > 1.0 then Ramping else if s.mode == Ramping then Running else s.mode)
  }

  function WithCooling(s: State, x: real): State { s.(targetCooling := Clamp(x, 0.4, 1.0)) }

  function WithFuel(s: State, x: real): State { s.(targetFuel := Clamp(x, MIN_FUEL, 1.0)) }

  // --- one tick -------------------------------------------------------------------------------

  /** `_fuel_starvation_voltage_penalty`. */
  function Penalty(fuel: real): real {
    if fuel >= STARVATION_THRESHOLD then 0.0
    else 0.06 * Min(1.0, (STARVATION_THRESHOLD - fuel) / (STARVATION_THRESHOLD - MIN_FUEL))
  }

  function TargetVoltage(current: real, fuel: real, wiggle: real): real {
    0.78 - current / 200.0 * 0.06 - Penalty(fuel) + wiggle
  }

  function TargetHydrogen(load: real, fuel: real): real { Times(1.5 + load / 100.0 * 1.0, fuel) }

  function TargetTemperature(load: real, cooling: real, wiggle: real): real {
    55.0 + load / 100.0 * 20.0 - (cooling - 0.8) * 10.0 + wiggle
  }

  function TargetPressure(temperature: real, wiggle: real): real { 160.0 - (temperature - 60.0) * 0.5 + wiggle }

  /** The current after it has followed the load, before starvation limits it. */
  function FollowedCurrent(current: real, load: real, v: real): real { Lag(current, load / 100.0 * 200.0, K30(v)) }

  function LimitedCurrent(current: real, load: real, fuel: real, v: real): real {
    if fuel >= STARVATION_THRESHOLD then current
    else Lag(current, Min(current, Times(load / 100.0 * 200.0, fuel)), K15(v))
  }

  /** `tick`, field by field in the order of the code; `v` is the decay of the 60-second lag. */
  function Advance(s: State, v: real, w1: real, w2: real, w3: real): State {
    var cooling := Lag(s.cooling, s.targetCooling, v);
    var fuel := Lag(s.fuel, s.targetFuel, K30(v));
    var load := Lag(s.load, s.targetLoad, K30(v));
    var mode := if Abs(s.targetLoad - load) <= 1.0 then Running else s.mode;
    var followed := FollowedCurrent(s.current, load, v);
    var voltage := Lag(s.voltage, TargetVoltage(followed, fuel, w1), K15(v));
    var hydrogen := Lag(s.hydrogen, TargetHydrogen(load, fuel), K30(v));
    var current := LimitedCurrent(followed, load, fuel, v);
    var air := Lag(s.air, hydrogen * 4.0, K30(v));
    var temperature := Lag(s.temperature, TargetTemperature(load, cooling, w2), v);
    var pressure := Lag(s.pressure, TargetPressure(temperature, w3), K30(v));
    State(load, s.targetLoad, current, voltage, temperature, pressure, hydrogen, air, cooling, s.targetCooling,
          fuel, s.targetFuel, mode, s.ticks + 1)
  }

  function Wiggle(ph: Physics, tick: nat, channel: real, amplitude: real): real {
    Times(ph.sine(tick as real * 0.17 + channel * 1.3), amplitude)
  }

  function Ticked(ph: Physics, s: State, dt: real): State {
    var n := s.ticks + 1;
    Advance(s, ph.decay(dt), Wiggle(ph, n, 1.0, 0.002), Wiggle(ph, n, 2.0, 0.15), Wiggle(ph, n, 3.0, 0.2))
  }

  // --- the operating envelope ---------------------------------------------------------------------

  predicate Within(x: real, lo: real, hi: real) { lo <= x <= hi }

  predicate Envelope(s: State) {
    && Within(s.load, 0.0, 100.0) && Within(s.targetLoad, 0.0, 100.0)
    && Within(s.current, 0.0, 200.0)
    && Within(s.cooling, 0.4, 1.0) && Within(s.targetCooling, 0.4, 1.0)
    && Within(s.fuel, 0.4, 1.0) && Within(s.targetFuel, 0.4, 1.0)
    && Within(s.voltage, 0.658, 0.782)
    && Within(s.hydrogen, 0.6, 2.5) && Within(s.air, 2.4, 10.0)
    && Within(s.temperature, 52.85, 79.15)
    && Within(s.pressure, 150.225, 163.775)
  }

  /** A lag stays between where it is and where it is going. */
  lemma LagWithin(x: real, target: real, keep: real, lo: real, hi: real)
    requires 0.0 <= keep <= 1.0 && Within(x, lo, hi) && Within(target, lo, hi)
    ensures Within(Lag(x, target, keep), lo, hi)
  {
    hide Lag;
    LagBetween(x, target, keep);
  }

  lemma LagBetween(x: real, target: real, keep: real)
    requires 0.0 <= keep <= 1.0
    ensures x <= target ==> x <= Lag(x, target, keep) <= target
    ensures target <= x ==> target <= Lag(x, target, keep) <= x
  {
    hide Times;
    var b := 1.0 - keep;
    if x <= target { TimesFraction(target - x, b); }
    if target <= x {
      TimesFraction(x - target, b);
      TimesSplits(x, target, b);
      TimesSplits(target, x, b);
    }
  }

  lemma LagMixes(x: real, target: real, keep: real, b: real)
    requires b == 1.0 - keep
    ensures Lag(x, target, keep) == Times(x, keep) + Times(target, b)
  {
    hide Times;
    TimesSplits(target, x, b);
    TimesComplement(keep, x);
  }

  lemma LagMonotone(x: real, y: real, target: real, goal: real, keep: real)
    requires x <= y && target <= goal && 0.0 <= keep <= 1.0
    ensures Lag(x, target, keep) <= Lag(y, goal, keep)
  {
    hide Lag; hide Times;
    var b := 1.0 - keep;
    LagMixes(x, target, keep, b);
    LagMixes(y, goal, keep, b);
    TimesMonotone(x, y, keep);
    TimesMonotone(target, goal, b);
  }

  lemma DecaysWithin(v: real)
    requires 0.0 <= v <= 1.0
    ensures 0.0 <= K30(v) <= 1.0 && 0.0 <= K15(v) <= 1.0
  {
    hide Times;
    TimesFraction(v, v);
    TimesFraction(K30(v), K30(v));
  }

  lemma PenaltyWithin(fuel: real)
    ensures Within(Penalty(fuel), 0.0, 0.06)
  {
  }

  lemma HydrogenWithin(load: real, fuel: real)
    requires Within(load, 0.0, 100.0) && Within(fuel, 0.4, 1.0)
    ensures Within(TargetHydrogen(load, fuel), 0.6, 2.5)
  {
    var base := 1.5 + load / 100.0 * 1.0;
    assert 1.5 <= base <= 2.5;
    assert Times(0.4, base) == 0.4 * base;
    hide Times;
    TimesFraction(base, fuel);
    TimesMonotone(0.4, fuel, base);
    TimesCommutes(base, fuel);
  }

  lemma LimitedWithin(current: real, load: real, fuel: real, v: real)
    requires Within(current, 0.0, 200.0) && Within(load, 0.0, 100.0) && Within(fuel, 0.4, 1.0) && 0.0 <= v <= 1.0
    ensures Within(LimitedCurrent(current, load, fuel, v), 0.0, 200.0)
  {
    DecaysWithin(v);
    hide Times;
    var supply := Times(load / 100.0 * 200.0, fuel);
    TimesPositive(load / 100.0 * 200.0, fuel);
    LagWithin(current, Min(current, supply), K15(v), 0.0, 200.0);
  }

  /** One tick of any size keeps every quantity inside its envelope. */
  lemma AdvanceKeepsEnvelope(s: State, v: real, w1: real, w2: real, w3: real)
    requires Envelope(s) && 0.0 <= v <= 1.0
    requires Within(w1, -0.002, 0.002) && Within(w2, -0.15, 0.15) && Within(w3, -0.2, 0.2)
    ensures Envelope(Advance(s, v, w1, w2, w3))
  {
    DecaysWithin(v);
    hide K30; hide K15; hide Lag;
    LagWithin(s.cooling, s.targetCooling, v, 0.4, 1.0);
    LagWithin(s.fuel, s.targetFuel, K30(v), 0.4, 1.0);
    LagWithin(s.load, s.targetLoad, K30(v), 0.0, 100.0);
    var r := Advance(s, v, w1, w2, w3);
    LagWithin(s.current, r.load / 100.0 * 200.0, K30(v), 0.0, 200.0);
    var followed := FollowedCurrent(s.current, r.load, v);
    PenaltyWithin(r.fuel);
    LagWithin(s.voltage, TargetVoltage(followed, r.fuel, w1), K15(v), 0.658, 0.782);
    HydrogenWithin(r.load, r.fuel);
    LagWithin(s.hydrogen, TargetHydrogen(r.load, r.fuel), K30(v), 0.6, 2.5);
    LimitedWithin(followed, r.load, r.fuel, v);
    LagWithin(s.air, r.hydrogen * 4.0, K30(v), 2.4, 10.0);
    LagWithin(s.temperature, TargetTemperature(r.load, r.cooling, w2), v, 52.85, 79.15);
    LagWithin(s.pressure, TargetPressure(r.temperature, w3), K30(v), 150.225, 163.775);
    hide TargetVoltage; hide TargetHydrogen; hide TargetTemperature; hide TargetPressure; hide LimitedCurrent;
  }

  datatype Command = SetLoad(x: real) | SetCooling(x: real) | SetFuel(x: real) | Tick(dt: real)

  /** A tick with a non-positive step is refused by the machine and changes nothing. */
  function Commanded(ph: Physics, s: State, c: Command): State {
    match c
    case SetLoad(x) => WithTargetLoad(s, x)
    case SetCooling(x) => WithCooling(s, x)
    case SetFuel(x) => WithFuel(s, x)
    case Tick(dt) => if dt <= 0.0 then s else Ticked(ph, s, dt)
  }

  function Run(ph: Physics, s: State, cs: seq<Command>): State {
    if cs == [] then s else Commanded(ph, Run(ph, s, cs[..|cs| - 1]), cs[|cs| - 1])
  }

  lemma CommandKeepsEnvelope(ph: Physics, s: State, c: Command)
    requires ph.Valid() && Envelope(s)
    ensures Envelope(Commanded(ph, s, c))
  {
    if c.Tick? && c.dt > 0.0 {
      hide Advance;
      var n := s.ticks + 1;
      WiggleWithin(ph, n, 1.0, 0.002);
      WiggleWithin(ph, n, 2.0, 0.15);
      WiggleWithin(ph, n, 3.0, 0.2);
      AdvanceKeepsEnvelope(s, ph.decay(c.dt), Wiggle(ph, n, 1.0, 0.002), Wiggle(ph, n, 2.0, 0.15),
                           Wiggle(ph, n, 3.0, 0.2));
    }
  }

  lemma WiggleWithin(ph: Physics, tick: nat, channel: real, amplitude: real)
    requires ph.Valid() && amplitude >= 0.0
    ensures Within(Wiggle(ph, tick, channel, amplitude), -amplitude, amplitude)
  {
    var x := ph.sine(tick as real * 0.17 + channel * 1.3);
    assert -1.0 <= x <= 1.0;
    hide Times;
    TimesMonotone(x, 1.0, amplitude);
    TimesMonotone(-1.0, x, amplitude);
    TimesSplits(1.0, 0.0, amplitude);
    TimesUnits(amplitude);
  }

  /** From the default machine, every sequence of setter calls and ticks stays inside the envelope. */
  lemma {:induction false} MachineStaysInEnvelope(ph: Physics, cs: seq<Command>)
    requires ph.Valid()
    ensures Envelope(Run(ph, DEFAULT, cs))
  {
    hide Commanded;
    if cs != [] {
      MachineStaysInEnvelope(ph, cs[..|cs| - 1]);
      CommandKeepsEnvelope(ph, Run(ph, DEFAULT, cs[..|cs| - 1]), cs[|cs| - 1]);
    }
  }

  // --- where a machine settles, and how fast ------------------------------------------------------------

  lemma LagFixed(x: real, target: real, keep: real)
    requires 0.0 <= keep < 1.0
    ensures Lag(x, target, keep) == x <==> x == target
  {
    TimesPositive(target - x, 1.0 - keep);
    TimesPositive(x - target, 1.0 - keep);
    TimesSplits(target, x, 1.0 - keep);
    TimesSplits(x, target, 1.0 - keep);
    hide Times;
  }

  lemma DecaysStrictly(v: real)
    requires 0.0 < v < 1.0
    ensures 0.0 < K30(v) < 1.0 && 0.0 < K15(v) < 1.0
  {
    SquareOfFraction(v);
    SquareOfFraction(K30(v));
    hide Times;
  }

  lemma SquareOfFraction(x: real)
    requires 0.0 < x < 1.0
    ensures 0.0 < Times(x, x) < 1.0
  {
    TimesPositive(x, x);
    TimesPositive(x, 1.0 - x);
    TimesComplement(x, x);
    hide Times;
  }

  predicate SameReadings(r: State, s: State) {
    && r.load == s.load && r.current == s.current && r.voltage == s.voltage && r.temperature == s.temperature
    && r.pressure == s.pressure && r.hydrogen == s.hydrogen && r.air == s.air && r.cooling == s.cooling
    && r.fuel == s.fuel
  }

  /** The steady state of a machine with enough fuel, as its quantities depend on load, cooling and fuel supply. */
  predicate Steady(s: State) {
    && s.load == s.targetLoad && s.cooling == s.targetCooling && s.fuel == s.targetFuel
    && s.current == 2.0 * s.load
    && s.voltage == 0.78 - 0.0006 * s.load
    && s.hydrogen == Times(1.5 + 0.01 * s.load, s.fuel) && s.air == 4.0 * s.hydrogen
    && s.temperature == 55.0 + 0.2 * s.load - 10.0 * (s.cooling - 0.8)
    && s.pressure == 160.0 - 0.5 * (s.temperature - 60.0)
  }

  /** With enough fuel and without the bounded variation, a tick of any size leaves every reading as it is if and only
      if the machine is in its steady state. */
  lemma SteadyExactly(s: State, v: real)
    requires 0.0 < v < 1.0 && s.fuel >= STARVATION_THRESHOLD && s.targetFuel >= STARVATION_THRESHOLD
    ensures SameReadings(Advance(s, v, 0.0, 0.0, 0.0), s) <==> Steady(s)
  {
    DecaysStrictly(v);
    LagFixed(s.cooling, s.targetCooling, v);
    LagFixed(s.fuel, s.targetFuel, K30(v));
    LagFixed(s.load, s.targetLoad, K30(v));
    LagBetween(s.fuel, s.targetFuel, K30(v));
    LagFixed(s.current, s.load / 100.0 * 200.0, K30(v));
    LagFixed(s.voltage, TargetVoltage(s.current, s.fuel, 0.0), K15(v));
    LagFixed(s.hydrogen, TargetHydrogen(s.load, s.fuel), K30(v));
    LagFixed(s.air, s.hydrogen * 4.0, K30(v));
    LagFixed(s.temperature, TargetTemperature(s.load, s.cooling, 0.0), v);
    LagFixed(s.pressure, TargetPressure(s.temperature, 0.0), K30(v));
    hide Lag; hide K30; hide K15; hide Times;
  }

  lemma LagStrictly(x: real, target: real, keep: real)
    requires 0.0 < keep < 1.0
    ensures x < target ==> x < Lag(x, target, keep) < target
    ensures target < x ==> target < Lag(x, target, keep) < x
  {
    LagBetween(x, target, keep);
    LagFixed(x, target, keep);
    LagGap(x, target, keep);
    TimesPositive(keep, x - target);
    TimesPositive(keep, target - x);
    TimesDistributes(keep, x, target);
    TimesDistributes(keep, target, x);
    hide Lag; hide Times;
  }

  /** A starved machine under load carries a current that no tick changes only strictly between what its fuel supply
      supports and what its load asks for. */
  lemma StarvedCurrentIsBetween(load: real, current: real, fuel: real, v: real)
    requires 0.0 < v < 1.0 && load > 0.0 && 0.0 < fuel < STARVATION_THRESHOLD
    requires LimitedCurrent(FollowedCurrent(current, load, v), load, fuel, v) == current
    ensures 2.0 * load * fuel < current < 2.0 * load
  {
    DecaysStrictly(v);
    var asked, followed := load / 100.0 * 200.0, FollowedCurrent(current, load, v);
    var supported := Times(asked, fuel);
    assert supported == 2.0 * load * fuel;
    TimesPositive(asked, fuel);
    TimesPositive(asked, 1.0 - fuel);
    TimesComplement(fuel, asked);
    hide Times; hide Lag; hide K30; hide K15;
    LagStrictly(current, asked, K30(v));
    LagFixed(current, asked, K30(v));
    LagStrictly(followed, supported, K15(v));
    LagFixed(followed, followed, K15(v));
  }

  /** `y` is as far from `target` as `x` was, times `keep`. */
  predicate Closes(x: real, y: real, target: real, keep: real) { y - target == Times(keep, x - target) }

  /** A current above what is supported is drawn towards that. */
  predicate HeldBack(x: real, y: real, supported: real, keep: real) {
    if x <= supported then y == x else Closes(x, y, supported, keep)
  }

  ghost predicate FollowsHeldBack(x: real, y: real, asked: real, supported: real, v2: real, v4: real) {
    exists followed: real :: Closes(x, followed, asked, v2) && HeldBack(followed, y, supported, v4)
  }

  /** What a tick of any size does to each reading that follows the others, in terms of the readings it leaves: the
      distance to where they put it shrinks by the decay of its own time constant (60, 30 or 15 seconds). A starved
      current first follows the load and is then held back towards what the fuel supports. */
  lemma TickClosesGaps(s: State, v: real, w1: real, w2: real, w3: real)
    ensures var r := Advance(s, v, w1, w2, w3); var v2 := Times(v, v); var v4 := Times(v2, v2);
            && Closes(s.hydrogen, r.hydrogen, Times(1.5 + 0.01 * r.load, r.fuel), v2)
            && Closes(s.air, r.air, 4.0 * r.hydrogen, v2)
            && Closes(s.temperature, r.temperature, 55.0 + 0.2 * r.load - 10.0 * (r.cooling - 0.8) + w2, v)
            && Closes(s.pressure, r.pressure, 160.0 - 0.5 * (r.temperature - 60.0) + w3, v2)
            && (r.fuel >= 0.98 ==> Closes(s.current, r.current, 2.0 * r.load, v2))
            && (r.fuel >= 0.98 ==> Closes(s.voltage, r.voltage, 0.78 - 0.0003 * r.current + w1, v4))
            && (r.fuel < 0.98 ==>
                  FollowsHeldBack(s.current, r.current, 2.0 * r.load, Times(2.0 * r.load, r.fuel), v2, v4))
  {
    var r := Advance(s, v, w1, w2, w3);
    var asked, followed := r.load / 100.0 * 200.0, FollowedCurrent(s.current, r.load, v);
    hide Times; hide Lag;
    assert K30(v) == Times(v, v);
    LagGap(s.hydrogen, TargetHydrogen(r.load, r.fuel), K30(v));
    LagGap(s.air, r.hydrogen * 4.0, K30(v));
    LagGap(s.temperature, TargetTemperature(r.load, r.cooling, w2), v);
    LagGap(s.pressure, TargetPressure(r.temperature, w3), K30(v));
    LagGap(s.current, asked, K30(v));
    LagGap(s.voltage, TargetVoltage(followed, r.fuel, w1), K15(v));
    LagGap(followed, Times(asked, r.fuel), K15(v));
    LagGap(followed, followed, K15(v));
    TimesUnits(K15(v));
    assert asked == 2.0 * r.load;
    var v2, supported := Times(v, v), Times(asked, r.fuel);
    assert Closes(s.current, followed, asked, v2);
    assert r.fuel < 0.98 ==> HeldBack(followed, r.current, supported, Times(v2, v2));
  }

  function Power(v: real, n: nat): real { if n == 0 then 1.0 else Times(v, Power(v, n - 1)) }

  function Ticks(ph: Physics, s: State, dt: real, n: nat): State {
    if n == 0 then s else Ticked(ph, Ticks(ph, s, dt, n - 1), dt)
  }

  lemma LagGap(x: real, target: real, keep: real)
    ensures Lag(x, target, keep) - target == Times(keep, x - target)
  {
    TimesComplement(keep, target - x);
    TimesCommutes(keep, target - x);
    TimesDistributes(keep, x, target);
    TimesDistributes(keep, target, x);
    hide Times;
    TimesCommutes(target - x, 1.0 - keep);
  }

  lemma OnePowerMore(v: real, n: nat, x: real)
    ensures Times(v, Times(Power(v, n), x)) == Times(Power(v, n + 1), x)
  {
    TimesAssociates(v, Power(v, n), x);
    hide Times;
  }

  /** Untouched between ticks, a machine approaches its setpoints geometrically: each tick leaves `decay(dt)` of the
      distance in cooling, and its square of the distances in load and fuel supply. */
  lemma {:induction false} GapsShrink(ph: Physics, s: State, dt: real, n: nat)
    ensures var r, v := Ticks(ph, s, dt, n), ph.decay(dt);
            && r.targetCooling == s.targetCooling && r.targetLoad == s.targetLoad && r.targetFuel == s.targetFuel
            && r.cooling - s.targetCooling == Times(Power(v, n), s.cooling - s.targetCooling)
            && r.load - s.targetLoad == Times(Power(K30(v), n), s.load - s.targetLoad)
            && r.fuel - s.targetFuel == Times(Power(K30(v), n), s.fuel - s.targetFuel)
  {
    var v := ph.decay(dt);
    hide Times; hide Lag; hide K30; hide Power;
    if n == 0 {
      NoPower(v, s.cooling - s.targetCooling);
      NoPower(K30(v), s.load - s.targetLoad);
      NoPower(K30(v), s.fuel - s.targetFuel);
    } else {
      GapsShrink(ph, s, dt, n - 1);
      var p := Ticks(ph, s, dt, n - 1);
      LagGap(p.cooling, p.targetCooling, v);
      LagGap(p.load, p.targetLoad, K30(v));
      LagGap(p.fuel, p.targetFuel, K30(v));
      OnePowerMore(v, n - 1, s.cooling - s.targetCooling);
      OnePowerMore(K30(v), n - 1, s.load - s.targetLoad);
      OnePowerMore(K30(v), n - 1, s.fuel - s.targetFuel);
    }
  }

  lemma NoPower(v: real, x: real)
    ensures Times(Power(v, 0), x) == x
  {
    TimesUnits(x);
    hide Times;
  }

  /** The mode says `Ramping` exactly while the load is more than one percent away from where it is going. */
  predicate ModeTells(s: State) { s.mode == if Abs(s.targetLoad - s.load) > 1.0 then Ramping else Running }

  lemma CommandKeepsMode(ph: Physics, s: State, c: Command)
    requires ph.Valid() && ModeTells(s)
    ensures ModeTells(Commanded(ph, s, c))
  {
    if c.Tick? && c.dt > 0.0 {
      var v := ph.decay(c.dt);
      DecaysWithin(v);
      LagBetween(s.load, s.targetLoad, K30(v));
      hide Lag; hide K30;
    }
  }

  /** So it does after every sequence of setter calls and ticks. */
  lemma {:induction false} ModeTellsAlways(ph: Physics, cs: seq<Command>)
    requires ph.Valid()
    ensures ModeTells(Run(ph, DEFAULT, cs))
  {
    hide Commanded;
    if cs != [] {
      ModeTellsAlways(ph, cs[..|cs| - 1]);
      CommandKeepsMode(ph, Run(ph, DEFAULT, cs[..|cs| - 1]), cs[|cs| - 1]);
    }
  }
}
