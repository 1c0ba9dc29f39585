/** The machine object of `backend/simulator/machine.py`: its setters and `tick` update the fields in place. */
module FuelCellMachines {
  import opened RealFacts
  import opened Machine

  class FuelCellMachine {
    var load: real
    var targetLoad: real
    var current: real
    var voltage: real
    var temperature: real
    var pressure: real
    var hydrogen: real
    var air: real
    var cooling: real
    var targetCooling: real
    var fuel: real
    var targetFuel: real
    var mode: Mode
    var ticks: nat

    function View(): State reads this {
      State(load, targetLoad, current, voltage, temperature, pressure, hydrogen, air, cooling, targetCooling, fuel,
            targetFuel, mode, ticks)
    }

    /** Any initial values, by default those of a warm-running stack; both setpoints start where their factors are. */
    constructor (load: real := 50.0, targetLoad: real := 50.0, current: real := 100.0, voltage: real := 0.76,
                 temperature: real := 65.0, pressure: real := 152.0, hydrogen: real := 2.0, air: real := 8.0,
                 cooling: real := 0.85, fuel: real := 1.0, mode: Mode := Running)
      ensures View() == State(load, targetLoad, current, voltage, temperature, pressure, hydrogen, air,
                              cooling, cooling, fuel, fuel, mode, 0)
    {
      this.load, this.targetLoad, this.current, this.voltage := load, targetLoad, current, voltage;
      this.temperature, this.pressure, this.hydrogen, this.air := temperature, pressure, hydrogen, air;
      this.cooling, this.targetCooling, this.fuel, this.targetFuel := cooling, cooling, fuel, fuel;
      this.mode, ticks := mode, 0;
    }

    method SetTargetLoad(x: real)
      modifies this
      ensures View() == WithTargetLoad(old(View()), x)
      ensures old(Envelope(View())) ==> Envelope(View())
    {
      targetLoad := Clamp(x, 0.0, 100.0);
      if Abs(targetLoad - load) > 1.0 {
        mode := Ramping;
      } else if mode == Ramping {
        mode := Running;
      }
    }

    method SetCoolingEfficiency(x: real)
      modifies this
      ensures View() == WithCooling(old(View()), x)
      ensures old(Envelope(View())) ==> Envelope(View())
    {
      targetCooling := Clamp(x, 0.4, 1.0);
    }

    method SetFuelSupplyFactor(x: real)
      modifies this
      ensures View() == WithFuel(old(View()), x)
      ensures old(Envelope(View())) ==> Envelope(View())
    {
      targetFuel := Clamp(x, MIN_FUEL, 1.0);
    }

    /** A non-positive step is refused and changes nothing; any other advances the machine and keeps its envelope. */
    method Tick(ph: Physics, dt: real) returns (ok: bool)
      requires ph.Valid()
      modifies this
      ensures ok <==> dt > 0.0
      ensures View() == Commanded(ph, old(View()), Command.Tick(dt))
      ensures old(Envelope(View())) ==> Envelope(View())
    {
      ok := dt > 0.0;
      if ok {
        if Envelope(View()) {
          CommandKeepsEnvelope(ph, View(), Command.Tick(dt));
        }
        hide Envelope; hide Ticked;
        Advanced(ph, dt);
      }
    }

    /** The body of `tick` after its guard. */
    method Advanced(ph: Physics, dt: real)
      modifies this
      ensures View() == Ticked(ph, old(View()), dt)
    {
      hide Lag; hide K30; hide K15; hide TargetVoltage; hide TargetHydrogen; hide TargetTemperature;
      hide TargetPressure;
      hide FollowedCurrent; hide LimitedCurrent; hide Wiggle; hide Abs;
      ticks := ticks + 1;
      var v := ph.decay(dt);
      FollowSetpoints(v);
      current := FollowedCurrent(current, load, v);
      voltage := Lag(voltage, TargetVoltage(current, fuel, Wiggle(ph, ticks, 1.0, 0.002)), K15(v));
      hydrogen := Lag(hydrogen, TargetHydrogen(load, fuel), K30(v));
      current := LimitedCurrent(current, load, fuel, v);
      FollowThermals(v, Wiggle(ph, ticks, 2.0, 0.15), Wiggle(ph, ticks, 3.0, 0.2));
    }

    method FollowSetpoints(v: real)
      modifies this`cooling, this`fuel, this`load, this`mode
      ensures cooling == Lag(old(cooling), targetCooling, v)
      ensures fuel == Lag(old(fuel), targetFuel, K30(v))
      ensures load == Lag(old(load), targetLoad, K30(v))
      ensures mode == if Abs(targetLoad - load) <= 1.0 then Running else old(mode)
    {
      hide Lag; hide K30;
      cooling := Lag(cooling, targetCooling, v);
      fuel := Lag(fuel, targetFuel, K30(v));
      load := Lag(load, targetLoad, K30(v));
      if Abs(targetLoad - load) <= 1.0 {
        mode := Running;
      }
    }

    method FollowThermals(v: real, w2: real, w3: real)
      modifies this`air, this`temperature, this`pressure
      ensures air == Lag(old(air), hydrogen * 4.0, K30(v))
      ensures temperature == Lag(old(temperature), TargetTemperature(load, cooling, w2), v)
      ensures pressure == Lag(old(pressure), TargetPressure(temperature, w3), K30(v))
    {
      hide Lag; hide K30; hide TargetTemperature; hide TargetPressure;
      air := Lag(air, hydrogen * 4.0, K30(v));
      temperature := Lag(temperature, TargetTemperature(load, cooling, w2), v);
      pressure := Lag(pressure, TargetPressure(temperature, w3), K30(v));
    }
  }
}
