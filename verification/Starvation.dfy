/** Does starvation ever raise the voltage? The docstring of `_fuel_starvation_voltage_penalty`
    (`backend/simulator/machine.py`) says it never does. Twin machines at the same steady load, one starved and one
    not, show exactly when that is true. */
module Starvation {
  import opened RealFacts
  import opened Machine

  /** The current the supply allows at this load. */
  function Supply(load: real, fuel: real): real { Times(2.0 * load, fuel) }

  /** What the supply withholds, as a share of the largest current. */
  function Deficit(load: real, fuel: real): real { Times(load / 100.0, 1.0 - fuel) }

  /** One tick of both twins: its size, the supply setpoint of the starved twin, and the bounded variations. */
  datatype Drive = Drive(v: real, target: real, w1: real, w2: real, w3: real)

  function Step(s: State, d: Drive): State { Advance(s.(targetFuel := d.target), d.v, d.w1, d.w2, d.w3) }

  function TwinStep(t: State, d: Drive): State { Advance(t, d.v, d.w1, d.w2, d.w3) }

  /** The voltage each machine heads for in this tick. */
  function Heading(s: State, d: Drive): real {
    TargetVoltage(FollowedCurrent(s.current, s.load, d.v), Lag(s.fuel, d.target, K30(d.v)), d.w1)
  }

  function TwinHeading(t: State, d: Drive): real {
    TargetVoltage(FollowedCurrent(t.current, t.load, d.v), t.fuel, d.w1)
  }

  /** At this load and supply factor the penalty outweighs whatever current limiting can do. */
  predicate Benign(load: real, fuel: real) {
    fuel >= STARVATION_THRESHOLD || Deficit(load, fuel) * 0.58 <= STARVATION_THRESHOLD - fuel
  }

  /** Steady load `load`; the twin is unstarved at its equilibrium; the starved machine's current lies between
      what its present supply factor allows and the equilibrium, and is at equilibrium until starvation starts. */
  predicate Twins(s: State, t: State, load: real) {
    && 0.0 <= load <= 100.0
    && s.load == s.targetLoad == t.load == t.targetLoad == load
    && t.fuel == t.targetFuel == 1.0 && t.current == 2.0 * load
    && 0.4 <= s.fuel <= 1.0
    && Supply(load, s.fuel) <= s.current <= 2.0 * load
    && (s.fuel >= STARVATION_THRESHOLD ==> s.current == 2.0 * load)
  }

  /** The supply setpoint is never above the present factor, so the factor never rises. */
  predicate Starving(s: State, d: Drive) { 0.0 < d.v < 1.0 && 0.4 <= d.target <= s.fuel }

  // --- one tick -----------------------------------------------------------------------------------

  lemma SteadyLag(x: real, keep: real)
    ensures Lag(x, x, keep) == x
  {
    hide Times;
    TimesUnits(1.0 - keep);
  }

  lemma FuelFalls(s: State, d: Drive)
    requires Starving(s, d) && s.fuel <= 1.0
    ensures 0.4 <= Lag(s.fuel, d.target, K30(d.v)) <= s.fuel
  {
    DecaysWithin(d.v);
    hide K30; hide Lag;
    LagBetween(s.fuel, d.target, K30(d.v));
  }

  lemma SupplyMonotone(load: real, fuel: real, more: real)
    requires 0.0 <= load && fuel <= more
    ensures Supply(load, fuel) <= Supply(load, more)
    ensures more <= 1.0 ==> Supply(load, more) <= 2.0 * load
  {
    hide Times;
    var x := 2.0 * load;
    TimesMonotone(fuel, more, x);
    TimesCommutes(fuel, x);
    TimesCommutes(more, x);
    TimesUnits(x);
    if more <= 1.0 { TimesMonotone(more, 1.0, x); }
  }

  /** The demand of the load, in the code's units and in ours. */
  lemma Demand(load: real, fuel: real)
    ensures load / 100.0 * 200.0 == 2.0 * load
    ensures Times(load / 100.0 * 200.0, fuel) == Supply(load, fuel)
  {
    hide Times;
  }

  /** The shortfall of the supply, in amperes and as a share. */
  lemma Shortage(load: real, fuel: real)
    ensures 2.0 * load - Supply(load, fuel) == 200.0 * Deficit(load, fuel)
  {
    var x := load / 100.0;
    assert Times(200.0, x) == 2.0 * load && Times(200.0, Times(x, fuel)) == 200.0 * Times(x, fuel);
    hide Times;
    TimesAssociates(200.0, x, fuel);
    TimesComplement(fuel, x);
  }

  /** The starved current, having followed the load, is still at least what the new, lower factor allows. */
  lemma FollowedBounds(s: State, t: State, load: real, d: Drive)
    requires Twins(s, t, load) && Starving(s, d)
    ensures var fuel := Lag(s.fuel, d.target, K30(d.v));
            var c := FollowedCurrent(s.current, load, d.v);
            && Supply(load, fuel) <= c <= 2.0 * load && s.current <= c
            && (s.fuel >= STARVATION_THRESHOLD ==> c == 2.0 * load)
    ensures FollowedCurrent(t.current, load, d.v) == 2.0 * load
  {
    DecaysWithin(d.v);
    FuelFalls(s, d);
    Demand(load, s.fuel);
    SteadyLag(2.0 * load, K30(d.v));
    SupplyMonotone(load, Lag(s.fuel, d.target, K30(d.v)), s.fuel);
    hide Lag; hide K30; hide Supply;
    LagBetween(s.current, 2.0 * load, K30(d.v));
  }

  lemma LimitedBounds(c: real, load: real, fuel: real, v: real)
    requires 0.0 < v < 1.0 && 0.0 <= load && Supply(load, fuel) <= c <= 2.0 * load
    ensures Supply(load, fuel) <= LimitedCurrent(c, load, fuel, v) <= c
    ensures fuel >= STARVATION_THRESHOLD ==> LimitedCurrent(c, load, fuel, v) == c
  {
    DecaysWithin(v);
    Demand(load, fuel);
    hide Lag; hide K15; hide K30; hide Supply;
    LagBetween(c, Supply(load, fuel), K15(v));
  }

  lemma StepKeepsTwins(s: State, t: State, load: real, d: Drive)
    requires Twins(s, t, load) && Starving(s, d)
    ensures Twins(Step(s, d), TwinStep(t, d), load)
    ensures Step(s, d).fuel == Lag(s.fuel, d.target, K30(d.v)) <= s.fuel
  {
    hide Lag; hide K15; hide K30; hide Supply; hide FollowedCurrent; hide LimitedCurrent;
    hide TargetVoltage; hide TargetHydrogen; hide TargetTemperature; hide TargetPressure;
    FuelFalls(s, d);
    FollowedBounds(s, t, load, d);
    SteadyLag(load, K30(d.v));
    SteadyLag(1.0, K30(d.v));
    var fuel := Lag(s.fuel, d.target, K30(d.v));
    LimitedBounds(FollowedCurrent(s.current, load, d.v), load, fuel, d.v);
    UnlimitedTwin(2.0 * load, load, d.v);
  }

  lemma UnlimitedTwin(c: real, load: real, v: real)
    ensures LimitedCurrent(c, load, 1.0, v) == c
  {
  }

  /** The penalty is the depth of starvation on the code's scale. */
  lemma PenaltyIsDepth(fuel: real)
    requires 0.4 <= fuel < STARVATION_THRESHOLD
    ensures Penalty(fuel) == 0.06 * ((STARVATION_THRESHOLD - fuel) / 0.58)
  {
  }

  lemma HeadingGap(c: real, load: real, fuel: real, w: real)
    ensures TargetVoltage(c, fuel, w) <= TargetVoltage(2.0 * load, 1.0, w) <==>
            (2.0 * load - c) / 200.0 * 0.06 <= Penalty(fuel)
  {
    assert Penalty(1.0) == 0.0;
    hide Penalty;
  }

  lemma GapFits(c: real, load: real, fuel: real)
    requires 0.0 <= load && 0.4 <= fuel < STARVATION_THRESHOLD && Supply(load, fuel) <= c && Benign(load, fuel)
    ensures (2.0 * load - c) / 200.0 * 0.06 <= Penalty(fuel)
  {
    PenaltyIsDepth(fuel);
    Shortage(load, fuel);
    hide Penalty; hide Supply; hide Deficit;
  }

  /** In a tick that ends at a benign factor, the starved machine heads for no more voltage than its twin. */
  lemma BenignTick(s: State, t: State, load: real, d: Drive)
    requires Twins(s, t, load) && Starving(s, d) && Benign(load, Lag(s.fuel, d.target, K30(d.v)))
    ensures Heading(s, d) <= TwinHeading(t, d)
  {
    hide Lag; hide K30; hide FollowedCurrent; hide TargetVoltage; hide Benign; hide Supply;
    FuelFalls(s, d);
    FollowedBounds(s, t, load, d);
    var fuel := Lag(s.fuel, d.target, K30(d.v));
    var c := FollowedCurrent(s.current, load, d.v);
    HeadingGap(c, load, fuel, d.w1);
    if fuel < STARVATION_THRESHOLD {
      GapFits(c, load, fuel);
    } else {
      NoPenalty(fuel);
    }
  }

  lemma NoPenalty(fuel: real)
    requires fuel >= STARVATION_THRESHOLD
    ensures Penalty(fuel) == 0.0
  {
  }

  // --- whole runs ------------------------------------------------------------------------------------

  function Starved(s: State, ds: seq<Drive>): State {
    if ds == [] then s else Step(Starved(s, ds[..|ds| - 1]), ds[|ds| - 1])
  }

  function Twin(t: State, ds: seq<Drive>): State {
    if ds == [] then t else TwinStep(Twin(t, ds[..|ds| - 1]), ds[|ds| - 1])
  }

  predicate AllStarving(s: State, ds: seq<Drive>) {
    ds == [] || (AllStarving(s, ds[..|ds| - 1]) && Starving(Starved(s, ds[..|ds| - 1]), ds[|ds| - 1]))
  }

  predicate AllBenign(s: State, load: real, ds: seq<Drive>) {
    ds == [] || (AllBenign(s, load, ds[..|ds| - 1]) && Benign(load, Starved(s, ds).fuel))
  }

  /** At no tick does the starved machine head for more voltage than its twin. */
  predicate NeverAbove(s: State, t: State, ds: seq<Drive>) {
    ds == [] ||
    var n := |ds| - 1;
    NeverAbove(s, t, ds[..n]) && Heading(Starved(s, ds[..n]), ds[n]) <= TwinHeading(Twin(t, ds[..n]), ds[n])
  }

  /** In tick `k` the starved machine heads for no more voltage than its twin. */
  predicate HeadsNoHigher(s: State, t: State, ds: seq<Drive>, k: nat)
    requires k < |ds|
  {
    Heading(Starved(s, ds[..k]), ds[k]) <= TwinHeading(Twin(t, ds[..k]), ds[k])
  }

  lemma {:induction false} StarvingSoFar(s: State, ds: seq<Drive>, k: nat)
    requires AllStarving(s, ds) && k <= |ds|
    ensures AllStarving(s, ds[..k])
    ensures k < |ds| ==> Starving(Starved(s, ds[..k]), ds[k])
  {
    hide Starving; hide Starved;
    var n := |ds| - 1;
    if k < n {
      assert ds[..n][..k] == ds[..k];
      StarvingSoFar(s, ds[..n], k);
    } else {
      assert k == |ds| ==> ds[..k] == ds;
    }
  }

  /** Twins stay twins, whatever the factor does on its way down. */
  lemma {:induction false} TwinsThroughout(s: State, t: State, load: real, ds: seq<Drive>)
    requires Twins(s, t, load) && AllStarving(s, ds)
    ensures Twins(Starved(s, ds), Twin(t, ds), load)
  {
    hide Step; hide TwinStep; hide Twins; hide Lag; hide K30; hide Starving;
    if ds != [] {
      var n := |ds| - 1;
      TwinsThroughout(s, t, load, ds[..n]);
      StepKeepsTwins(Starved(s, ds[..n]), Twin(t, ds[..n]), load, ds[n]);
    }
  }

  /** Steady load, equilibrium current, any tick sizes and any non-increasing supply, from any starting factor: in every
      tick that ends at a benign factor the starved machine heads for no more voltage than its twin, whatever the
      factor was before. */
  lemma StarvationNeverRaisesVoltage(s: State, t: State, load: real, ds: seq<Drive>, k: nat)
    requires Twins(s, t, load) && AllStarving(s, ds) && k < |ds|
    ensures Twins(Starved(s, ds[..k + 1]), Twin(t, ds[..k + 1]), load)
    ensures Benign(load, Starved(s, ds[..k + 1]).fuel) ==> HeadsNoHigher(s, t, ds, k)
  {
    hide Step; hide TwinStep; hide Heading; hide TwinHeading; hide Twins; hide Benign; hide Lag; hide K30;
    hide Starving;
    StarvingSoFar(s, ds, k);
    StarvingSoFar(s, ds, k + 1);
    TwinsThroughout(s, t, load, ds[..k]);
    TwinsThroughout(s, t, load, ds[..k + 1]);
    var s', t', d := Starved(s, ds[..k]), Twin(t, ds[..k]), ds[k];
    assert ds[..k + 1][..k] == ds[..k] && Starved(s, ds[..k + 1]) == Step(s', d);
    StepKeepsTwins(s', t', load, d);
    if Benign(load, Step(s', d).fuel) {
      BenignTick(s', t', load, d);
    }
  }

  lemma {:induction false} FactorNeverRises(s: State, t: State, load: real, ds: seq<Drive>, j: nat, k: nat)
    requires Twins(s, t, load) && AllStarving(s, ds) && j <= k <= |ds|
    ensures Starved(s, ds[..k]).fuel <= Starved(s, ds[..j]).fuel
  {
    hide Step; hide TwinStep; hide Twins; hide Lag; hide K30; hide Starving;
    if j < k {
      FactorNeverRises(s, t, load, ds, j, k - 1);
      StarvingSoFar(s, ds, k - 1);
      TwinsThroughout(s, t, load, ds[..k - 1]);
      assert ds[..k][..k - 1] == ds[..k - 1];
      StepKeepsTwins(Starved(s, ds[..k - 1]), Twin(t, ds[..k - 1]), load, ds[k - 1]);
    }
  }

  /** Once the factor is at most 20/21, the starved machine never again heads for more voltage than its twin. */
  lemma NeverAboveOnceBelow(s: State, t: State, load: real, ds: seq<Drive>, j: nat, k: nat)
    requires Twins(s, t, load) && AllStarving(s, ds) && j <= k < |ds| && Starved(s, ds[..j + 1]).fuel <= 20.0 / 21.0
    ensures HeadsNoHigher(s, t, ds, k)
  {
    hide Starved; hide Twin; hide AllStarving; hide Benign; hide HeadsNoHigher;
    FactorNeverRises(s, t, load, ds, j + 1, k + 1);
    StarvationNeverRaisesVoltage(s, t, load, ds, k);
    BenignAtFullLoad(load, Starved(s, ds[..k + 1]).fuel);
  }

  /** While the factor is benign the starved machine also shows no more voltage than its twin. */
  lemma {:induction false} ShownVoltageStaysBelow(s: State, t: State, load: real, ds: seq<Drive>)
    requires Twins(s, t, load) && s.voltage <= t.voltage && AllStarving(s, ds) && AllBenign(s, load, ds)
    ensures NeverAbove(s, t, ds) && Starved(s, ds).voltage <= Twin(t, ds).voltage
  {
    hide Step; hide TwinStep; hide Heading; hide TwinHeading; hide Twins; hide Benign; hide Lag; hide K30;
    hide Starving;
    if ds != [] {
      var n := |ds| - 1;
      ShownVoltageStaysBelow(s, t, load, ds[..n]);
      TwinsThroughout(s, t, load, ds[..n]);
      var s', t', d := Starved(s, ds[..n]), Twin(t, ds[..n]), ds[n];
      StepKeepsTwins(s', t', load, d);
      BenignTick(s', t', load, d);
      VoltageStep(s', t', load, d);
    }
  }

  lemma VoltageStep(s: State, t: State, load: real, d: Drive)
    requires Twins(s, t, load) && Starving(s, d) && s.voltage <= t.voltage && Heading(s, d) <= TwinHeading(t, d)
    ensures Step(s, d).voltage <= TwinStep(t, d).voltage
  {
    DecaysWithin(d.v);
    hide Lag; hide K15; hide K30; hide TargetVoltage; hide FollowedCurrent; hide LimitedCurrent; hide Supply;
    hide TargetHydrogen; hide TargetTemperature; hide TargetPressure;
    SteadyLag(load, K30(d.v));
    SteadyLag(1.0, K30(d.v));
    LagMonotone(s.voltage, t.voltage, Heading(s, d), TwinHeading(t, d), K15(d.v));
  }

  // --- the exact condition ----------------------------------------------------------------------------

  /** A machine built at steady load `load`, equilibrium current and supply factor `fuel`. */
  function Steady(load: real, fuel: real): State {
    DEFAULT.(load := load, targetLoad := load, current := 2.0 * load, fuel := fuel, targetFuel := fuel)
  }

  predicate Constant(ds: seq<Drive>, fuel: real) {
    forall i :: 0 <= i < |ds| ==> 0.0 < ds[i].v < 1.0 && ds[i].target == fuel
  }

  lemma SteadyAreTwins(load: real, fuel: real)
    requires 0.0 <= load <= 100.0 && 0.4 <= fuel <= 1.0
    ensures Twins(Steady(load, fuel), Steady(load, 1.0), load)
  {
    hide Times;
    TimesFraction(2.0 * load, fuel);
  }

  lemma {:induction false} ConstantFactor(load: real, fuel: real, ds: seq<Drive>)
    requires 0.0 <= load <= 100.0 && 0.4 <= fuel <= 1.0 && Constant(ds, fuel)
    ensures Starved(Steady(load, fuel), ds).fuel == fuel
    ensures AllStarving(Steady(load, fuel), ds)
    ensures Benign(load, fuel) ==> AllBenign(Steady(load, fuel), load, ds)
  {
    hide Benign; hide Lag; hide K30; hide Step;
    if ds != [] {
      var n := |ds| - 1;
      ConstantFactor(load, fuel, ds[..n]);
      var s := Starved(Steady(load, fuel), ds[..n]);
      StepFuel(s, ds[n]);
      SteadyLag(fuel, K30(ds[n].v));
    }
  }

  lemma StepFuel(s: State, d: Drive)
    ensures Step(s, d).fuel == Lag(s.fuel, d.target, K30(d.v))
  {
  }

  /** What is left of one after the two ticks' decays. */
  function Shrink(e: real): real { Times(1.0 - K15(e), K30(1.0 - e)) }

  lemma LagShortfall(x: real, target: real, keep: real)
    ensures x - Lag(x, target, keep) == Times(x - target, 1.0 - keep)
  {
    hide Times;
    TimesSplits(x, target, 1.0 - keep);
    TimesSplits(target, x, 1.0 - keep);
  }

  lemma FollowShortfall(x: real, target: real, keep: real)
    ensures target - Lag(x, target, keep) == Times(target - x, keep)
  {
    hide Times;
    TimesComplement(keep, target - x);
  }

  /** One tick at the equilibrium current: the starved current falls short by the decayed part of the deficit. */
  lemma FirstTick(load: real, fuel: real, d: Drive)
    requires 0.0 <= load <= 100.0 && 0.4 <= fuel < STARVATION_THRESHOLD && d.target == fuel
    ensures var one := Step(Steady(load, fuel), d);
            && one.load == load && one.fuel == fuel
            && 2.0 * load - one.current == Times(2.0 * load - Supply(load, fuel), 1.0 - K15(d.v))
  {
    hide Lag; hide K15; hide K30; hide TargetVoltage; hide TargetHydrogen; hide TargetTemperature;
    hide TargetPressure; hide Times;
    SteadyLag(load, K30(d.v));
    SteadyLag(fuel, K30(d.v));
    Demand(load, fuel);
    SteadyLag(2.0 * load, K30(d.v));
    SupplyMonotone(load, fuel, 1.0);
    hide Supply;
    LagShortfall(2.0 * load, Supply(load, fuel), K15(d.v));
  }

  /** The shortfall of the current after one tick of each of two sizes. */
  lemma TwoTicks(load: real, fuel: real, e: real)
    requires 0.0 <= load <= 100.0 && 0.4 <= fuel < STARVATION_THRESHOLD && 0.0 < e < 1.0
    ensures var one := Step(Steady(load, fuel), Drive(e, fuel, 0.0, 0.0, 0.0));
            && one.load == load && one.fuel == fuel
            && 2.0 * load - FollowedCurrent(one.current, load, 1.0 - e) == Times(200.0 * Deficit(load, fuel), Shrink(e))
  {
    hide Step; hide Lag; hide K15; hide K30; hide Supply; hide Steady; hide Times; hide Deficit;
    var d := Drive(e, fuel, 0.0, 0.0, 0.0);
    FirstTick(load, fuel, d);
    var one := Step(Steady(load, fuel), d);
    Demand(load, fuel);
    Shortage(load, fuel);
    FollowShortfall(one.current, 2.0 * load, K30(1.0 - e));
    TimesAssociates(2.0 * load - Supply(load, fuel), 1.0 - K15(e), K30(1.0 - e));
  }

  /** Small enough, both factors of the shortfall are almost one. */
  lemma AlmostOne(e: real)
    requires 0.0 < e < 1.0
    ensures Shrink(e) >= 1.0 - 3.0 * e
  {
    hide K15; hide K30; hide Times;
    var q, r := K15(e), K30(1.0 - e);
    DecaysWithin(e);
    DecaysWithin(1.0 - e);
    FourthPowerSmall(e);
    SquareAlmostOne(e);
    TimesFraction(q, r);
    TimesComplement(q, r);
  }

  lemma FourthPowerSmall(e: real)
    requires 0.0 < e < 1.0
    ensures K15(e) <= e
  {
    hide Times;
    TimesFraction(e, e);
    TimesFraction(K30(e), K30(e));
  }

  lemma SquareAlmostOne(e: real)
    requires 0.0 < e
    ensures K30(1.0 - e) >= 1.0 - 2.0 * e
  {
    hide Times;
    TimesComplement(e, 1.0 - e);
    TimesComplement(e, e);
    TimesPositive(e, e);
  }

  /** The witness: one large tick and one small one, at a factor that is not benign. */
  lemma NotBenignRises(load: real, fuel: real) returns (ds: seq<Drive>)
    requires 0.0 <= load <= 100.0 && 0.4 <= fuel <= 1.0 && !Benign(load, fuel)
    ensures Constant(ds, fuel) && !NeverAbove(Steady(load, fuel), Steady(load, 1.0), ds)
  {
    hide Step; hide TwinStep; hide Steady; hide Lag; hide K30; hide K15; hide Shrink; hide TargetVoltage;
    hide FollowedCurrent;
    hide Supply; hide Deficit; hide Times; hide NeverAbove; hide Starved; hide Twin;
    var room, pull := STARVATION_THRESHOLD - fuel, Deficit(load, fuel) * 0.58;
    assert 0.0 < room < pull;
    hide Benign;
    var e := (pull - room) / (4.0 * pull);
    QuarterOfTheRest(room, pull, e);
    var d1, d2 := Drive(e, fuel, 0.0, 0.0, 0.0), Drive(1.0 - e, fuel, 0.0, 0.0, 0.0);
    ds := [d1, d2];
    TwoTicks(load, fuel, e);
    var one := Step(Steady(load, fuel), d1);
    var c := FollowedCurrent(one.current, load, 1.0 - e);
    AlmostOne(e);
    GapExceeds(load, fuel, c, e, Shrink(e));
    SteadyLag(fuel, K30(1.0 - e));
    SteadyTwin(load, d1);
    FollowedBoundsTwin(load, 1.0 - e);
    HeadingGap(c, load, fuel, 0.0);
    SecondTick(Steady(load, fuel), Steady(load, 1.0), d1, d2);
  }

  lemma SecondTick(s: State, t: State, d1: Drive, d2: Drive)
    ensures NeverAbove(s, t, [d1, d2]) ==> Heading(Step(s, d1), d2) <= TwinHeading(TwinStep(t, d1), d2)
  {
    hide Step; hide TwinStep; hide Heading; hide TwinHeading;
    var ds := [d1, d2];
    assert ds[..1] == [d1] && [d1][..0] == [] && ds[1] == d2;
    assert Starved(s, [d1]) == Step(s, d1);
    assert Twin(t, [d1]) == TwinStep(t, d1);
  }

  lemma QuarterOfTheRest(room: real, pull: real, e: real)
    requires 0.0 < room < pull && e == (pull - room) / (4.0 * pull)
    ensures 0.0 < e < 1.0 && Times(pull, 1.0 - 3.0 * e) > room
  {
    var k := 4.0 * pull;
    QuotientPositive(pull - room, k);
    TimesQuotient(k, pull - room);
    assert Times(k, e) == 4.0 * Times(pull, e);
    hide Times;
    TimesUnits(k);
    if e >= 1.0 {
      TimesMonotone(1.0, e, k);
      TimesCommutes(e, k);
    }
    ThreeTimes(pull, e);
  }

  lemma ThreeTimes(pull: real, e: real)
    ensures Times(pull, 1.0 - 3.0 * e) == pull - 3.0 * Times(pull, e)
  {
    assert Times(pull, 3.0 * e) == 3.0 * Times(pull, e);
    hide Times;
    TimesComplement(3.0 * e, pull);
  }

  lemma GapExceeds(load: real, fuel: real, c: real, e: real, shrink: real)
    requires 0.4 <= fuel < STARVATION_THRESHOLD && Deficit(load, fuel) > 0.0 && shrink >= 1.0 - 3.0 * e
    requires Times(Deficit(load, fuel) * 0.58, 1.0 - 3.0 * e) > STARVATION_THRESHOLD - fuel
    requires 2.0 * load - c == Times(200.0 * Deficit(load, fuel), shrink)
    ensures (2.0 * load - c) / 200.0 * 0.06 > Penalty(fuel)
  {
    PenaltyIsDepth(fuel);
    hide Penalty; hide Deficit;
    var x := Deficit(load, fuel);
    assert Times(200.0 * x, shrink) == 200.0 * Times(x, shrink) &&
        Times(x * 0.58, 1.0 - 3.0 * e) == 0.58 * Times(x, 1.0 - 3.0 * e);
    hide Times;
    TimesMonotone(1.0 - 3.0 * e, shrink, x);
    TimesCommutes(1.0 - 3.0 * e, x);
    TimesCommutes(shrink, x);
  }

  lemma SteadyTwin(load: real, d: Drive)
    requires 0.0 <= load <= 100.0 && 0.0 < d.v < 1.0
    ensures var t := TwinStep(Steady(load, 1.0), d); t.load == load && t.fuel == 1.0 && t.current == 2.0 * load
  {
    hide K15; hide K30; hide TargetVoltage; hide TargetHydrogen; hide TargetTemperature; hide TargetPressure; hide Lag;
    SteadyLag(load, K30(d.v));
    SteadyLag(1.0, K30(d.v));
    assert load / 100.0 * 200.0 == 2.0 * load;
    SteadyLag(2.0 * load, K30(d.v));
  }

  lemma FollowedBoundsTwin(load: real, v: real)
    ensures FollowedCurrent(2.0 * load, load, v) == 2.0 * load
  {
    assert load / 100.0 * 200.0 == 2.0 * load;
    SteadyLag(2.0 * load, K30(v));
  }

  /** The docstring's claim at a constant supply factor, for every sequence of tick sizes, holds if and only if the
      factor is benign at that load. */
  lemma StarvationClaimHoldsExactlyWhenBenign(load: real, fuel: real)
    requires 0.0 <= load <= 100.0 && 0.4 <= fuel <= 1.0
    ensures (forall ds :: Constant(ds, fuel) ==> NeverAbove(Steady(load, fuel), Steady(load, 1.0), ds)) <==>
            Benign(load, fuel)
  {
    hide Benign; hide NeverAbove; hide Steady; hide Constant;
    if Benign(load, fuel) {
      forall ds | Constant(ds, fuel) ensures NeverAbove(Steady(load, fuel), Steady(load, 1.0), ds) {
        ConstantFactor(load, fuel, ds);
        SteadyAreTwins(load, fuel);
        SteadyVoltage(load, fuel);
        ShownVoltageStaysBelow(Steady(load, fuel), Steady(load, 1.0), load, ds);
      }
    } else {
      var ds := NotBenignRises(load, fuel);
    }
  }

  lemma SteadyVoltage(load: real, fuel: real)
    ensures Steady(load, fuel).voltage == Steady(load, 1.0).voltage
  {
  }

  /** At full load that is a factor of at most 20/21 (or no starvation at all), and 20/21 is enough at every load. */
  lemma BenignAtFullLoad(load: real, fuel: real)
    requires 0.0 <= load <= 100.0 && 0.4 <= fuel <= 1.0
    ensures Benign(100.0, fuel) <==> fuel <= 20.0 / 21.0 || fuel >= STARVATION_THRESHOLD
    ensures fuel <= 20.0 / 21.0 ==> Benign(load, fuel)
  {
    hide Times;
    TimesMonotone(load / 100.0, 1.0, 1.0 - fuel);
    TimesUnits(1.0 - fuel);
  }
}
