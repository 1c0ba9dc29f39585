/** The run loop of `backend/simulator/dataset/runner.py` over the mutable fleet of `backend/simulator/plant.py`. */
module DatasetRunner {
  import opened Basics
  import opened Machine
  import opened FuelCellMachines
  import opened Scenarios
  import opened DatasetRun
  import opened LabelledRun

  class PlantAlphaFleet {
    var machines: seq<FuelCellMachine>
    var bias: seq<Option<real>>
    var elapsed: real

    ghost predicate Valid() reads this {
      |machines| == |bias| == SIZE && forall i, j :: 0 <= i < j < SIZE ==> machines[i] != machines[j]
    }

    ghost predicate Shows(p: Plant)
      reads this, machines
    {
      && Valid() && p.Sized() && bias == p.bias && elapsed == p.elapsed
      && forall i :: 0 <= i < SIZE ==> machines[i].View() == p.machines[i]
    }

    /** `PlantAlphaFleet.create` with the overrides `iter_samples` passes for its target. */
    constructor (c: RunConfig)
      requires Known(c)
      ensures Shows(Created(c))
      ensures forall i :: 0 <= i < |machines| ==> fresh(machines[i])
    {
      hide Built; hide FuelCellMachine.View;
      var built: seq<FuelCellMachine> := [];
      for i := 0 to SIZE
        invariant |built| == i && forall j :: 0 <= j < i ==> fresh(built[j])
        invariant forall j, k :: 0 <= j < k < i ==> built[j] != built[k]
        invariant forall j :: 0 <= j < i ==> built[j].View() == Built(c, j)
      {
        var m := BuildMachine(c, i);
        built := built + [m];
      }
      machines, bias, elapsed := built, seq(SIZE, i => None), 0.0;
    }

    /** `fleet.tick`: time first, then every machine. */
    method Tick(ph: Physics, dt: real, ghost p: Plant)
      requires ph.Valid() && Shows(p) && dt > 0.0
      modifies this`elapsed, machines
      ensures Shows(Plant(seq(SIZE, i requires 0 <= i < SIZE => Ticked(ph, p.machines[i], dt)), p.bias, p.elapsed + dt))
    {
      hide Ticked; hide FuelCellMachine.View; hide Envelope;
      elapsed := elapsed + dt;
      for i := 0 to SIZE
        invariant Valid() && elapsed == p.elapsed + dt && bias == p.bias
        invariant forall j :: 0 <= j < i ==> machines[j].View() == Ticked(ph, p.machines[j], dt)
        invariant forall j :: i <= j < SIZE ==> machines[j].View() == p.machines[j]
      {
        var _ := machines[i].Tick(ph, dt);
      }
    }

    /** `NormalOperationScenario.tick`. */
    method Operate(ph: Physics, c: RunConfig, ghost p: Plant)
      requires ph.Valid() && Shows(p) && c.Valid()
      modifies this`elapsed, machines
      ensures Shows(Baselined(ph, c, p))
    {
      hide Ticked; hide LoadSetpoint; hide WithTargetLoad; hide FuelCellMachine.View; hide Envelope;
      Tick(ph, c.dt, p);
      for i := 0 to SIZE
        invariant Valid()
        invariant elapsed == p.elapsed + c.dt && bias == p.bias
        invariant forall j :: 0 <= j < i ==> machines[j].View() == Operated(ph, c, j, p.machines[j], elapsed)
        invariant forall j :: i <= j < SIZE ==> machines[j].View() == Ticked(ph, p.machines[j], c.dt)
      {
        machines[i].SetTargetLoad(LoadSetpoint(ph, c, i, elapsed));
      }
    }

    /** `apply_fault_effect`; a healthy scenario is refused and changes nothing. */
    method ApplyFaultEffect(c: RunConfig, progress: real, ghost p: Plant) returns (ok: bool)
      requires Shows(p) && Known(c)
      modifies this`bias, machines
      ensures ok <==> c.scenario != NormalOperation
      ensures Shows(Affected(c, p, progress))
    {
      hide FuelCellMachine.View; hide WithCooling; hide WithFuel; hide Envelope;
      ok := true;
      var t := TargetIndex(c);
      match FaultRampEndpoints(c) {
        case None => ok := false;
        case Some((start, end)) =>
          var value := start + (end - start) * progress;
          assert value == Demanded(c, progress);
          hide Demanded;
          if c.scenario == CoolingDegradation {
            machines[t].SetCoolingEfficiency(value);
          } else if c.scenario == HydrogenSupplyIssue {
            machines[t].SetFuelSupplyFactor(value);
          } else {
            bias := bias[t := Some(value)];
          }
      }
    }

    /** The labels and the machine snapshots of one sample. */
    method Observe(c: RunConfig, ghost p: Plant) returns (s: Sample)
      requires Shows(p) && c.Valid()
      ensures s == Observed(c, p)
    {
      hide ComputeGroundTruth;
      var states: seq<State>, truths: seq<Truth> := [], [];
      for i := 0 to SIZE
        invariant |states| == |truths| == i
        invariant forall j :: 0 <= j < i ==>
                    states[j] == p.machines[j] && truths[j] == ComputeGroundTruth(c, FLEET[j], elapsed)
      {
        states := states + [machines[i].View()];
        truths := truths + [ComputeGroundTruth(c, FLEET[i], elapsed)];
      }
      s := Sample(elapsed, states, bias, truths);
    }
  }

  /** One machine of `PlantAlphaFleet.create`. */
  method BuildMachine(c: RunConfig, i: nat) returns (m: FuelCellMachine)
    requires i < SIZE && Known(c)
    ensures fresh(m) && m.View() == Built(c, i)
  {
    hide WithTargetLoad; hide WithCooling; hide FuelCellMachine.View;
    var own := i == TargetIndex(c);
    m := new FuelCellMachine(load := if own then 50.0 + c.conditions.loadOffset else 50.0,
                             temperature := if own then 65.0 + c.conditions.temperatureOffset else 65.0);
    m.SetTargetLoad(BASE_LOAD[i]);
    m.SetCoolingEfficiency(BASE_COOLING[i]);
  }

  /** `iter_samples`, drained: refused for an asset outside the fleet; otherwise one sample per step, each of them
      faithful to the plant. */
  method IterSamples(ph: Physics, c: RunConfig) returns (r: Option<seq<Sample>>)
    requires ph.Valid() && c.Valid()
    ensures r.Some? <==> Known(c)
    ensures r.Some? ==> |r.value| == TotalSteps(c) && forall k :: 0 <= k < |r.value| ==> Delivered(ph, c, k, r.value[k])
  {
    if c.target !in FLEET {
      return None;
    }
    hide Created; hide Known; hide Delivered; hide TotalSteps;
    var fleet := new PlantAlphaFleet(c);
    var samples := Drain(fleet, ph, c);
    r := Some(samples);
  }

  /** The `k`-th sample: on the time grid, as the model says, its labels faithful to its physics. */
  ghost predicate Delivered(ph: Physics, c: RunConfig, k: nat, s: Sample)
    requires Known(c) && c.Valid()
  {
    s == SampleAt(ph, c, k) && s.elapsed == (k + 1) as real * c.dt && Faithful(c, s)
  }

  method Drain(fleet: PlantAlphaFleet, ph: Physics, c: RunConfig) returns (samples: seq<Sample>)
    requires ph.Valid() && Known(c) && c.Valid() && fleet.Shows(Created(c))
    modifies fleet`bias, fleet`elapsed, fleet.machines
    ensures |samples| == TotalSteps(c) && forall k :: 0 <= k < |samples| ==> Delivered(ph, c, k, samples[k])
  {
    hide Stepped; hide Created; hide Known; hide Faithful; hide TotalSteps; hide SampleAt; hide PlantAlphaFleet.Shows;
    samples := [];
    for k := 0 to TotalSteps(c)
      invariant fleet.Shows(PlantAfter(ph, c, k))
      invariant |samples| == k
      invariant forall j :: 0 <= j < k ==> Delivered(ph, c, j, samples[j])
    {
      var s := TakeStep(fleet, ph, c, k);
      LabelsMatchPhysics(ph, c, k);
      samples := samples + [s];
    }
  }

  /** One pass of the loop: fault effect for the time this step will reach, then physics, then the sample. */
  method TakeStep(fleet: PlantAlphaFleet, ph: Physics, c: RunConfig, ghost k: nat) returns (s: Sample)
    requires ph.Valid() && Known(c) && c.Valid() && fleet.Shows(PlantAfter(ph, c, k))
    modifies fleet`bias, fleet`elapsed, fleet.machines
    ensures fleet.Shows(PlantAfter(ph, c, k + 1)) && s == SampleAt(ph, c, k)
  {
    hide Affected; hide Baselined; hide Progress; hide Observed;
    ghost var p := PlantAfter(ph, c, k);
    var predicted := fleet.elapsed + c.dt;
    if Active(c, predicted) {
      var _ := fleet.ApplyFaultEffect(c, Progress(c, predicted), p);
      p := Affected(c, p, Progress(c, predicted));
    }
    fleet.Operate(ph, c, p);
    s := fleet.Observe(c, PlantAfter(ph, c, k + 1));
  }
}
