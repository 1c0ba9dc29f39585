/** Runtime telemetry samples (`backend/simulator/inference/telemetry.py`).

    Timestamps are instants, modelled as integers; readings are exact reals, and
    the two ways a raw observation can be unusable (an unsupported measurement
    name, a NaN or infinity) are explicit cases. */
module Telemetry {
  import opened Basics

  type AssetId = string
  type Timestamp = int

  datatype Measurement =
    | StackTemperature | StackPressure | Current | Voltage
    | FuelFlow | PowerOutput | CoolantFlow | Efficiency

  /** An observation's measurement name: a supported one, or any other text. */
  datatype MeasurementName = Supported(m: Measurement) | Unsupported(text: string)

  datatype FloatValue = Finite(r: real) | NonFinite

  datatype Observation = Observation(
    id: string, assetId: AssetId, timestamp: Timestamp,
    name: MeasurementName, value: FloatValue, unit: string)

  datatype TelemetrySample = TelemetrySample(
    assetId: AssetId, timestamp: Timestamp,
    values: map<Measurement, real>, units: map<Measurement, string>)

  datatype SampleError =
    | NoObservations | SpansAssets | SpansTimestamps
    | UnsupportedMeasurement | DuplicateMeasurement | UnitMismatch | NonFiniteReading
    | MissingMeasurement | EmptyAssetId

  function CanonicalUnit(m: Measurement): string {
    match m
    case StackTemperature => "celsius"
    case StackPressure => "kPa"
    case Current => "A"
    case Voltage => "V"
    case FuelFlow => "SLPM"
    case PowerOutput => "kW"
    case Efficiency => "percent"
    case CoolantFlow => "L/min"
  }

  /** The seven feature-relevant measurements; `Efficiency` is accepted but optional. */
  const REQUIRED: seq<Measurement> :=
    [StackTemperature, StackPressure, Current, Voltage, FuelFlow, PowerOutput, CoolantFlow]

  const MEASUREMENT_ORDER: seq<Measurement> := REQUIRED + [Efficiency]

  predicate IsRequired(m: Measurement) { m != Efficiency }

  lemma RequiredIsEveryMeasurementButEfficiency(m: Measurement)
    ensures m in REQUIRED <==> IsRequired(m)
    ensures m in MEASUREMENT_ORDER
  {
    assert REQUIRED[0] == StackTemperature && REQUIRED[1] == StackPressure && REQUIRED[2] == Current
        && REQUIRED[3] == Voltage && REQUIRED[4] == FuelFlow && REQUIRED[5] == PowerOutput
        && REQUIRED[6] == CoolantFlow;
    assert MEASUREMENT_ORDER[7] == Efficiency;
    assert IsRequired(m) ==> m in MEASUREMENT_ORDER[..7];
  }

  predicate HasAllRequired<V>(readings: map<Measurement, V>) {
    forall m :: IsRequired(m) ==> m in readings
  }

  /** What one observation contributes in isolation: nothing wrong, or the first check it fails. */
  function OwnFault(o: Observation): Option<SampleError> {
    if o.name.Unsupported? then Some(UnsupportedMeasurement)
    else if o.unit != CanonicalUnit(o.name.m) then Some(UnitMismatch)
    else if o.value.NonFinite? then Some(NonFiniteReading)
    else None
  }

  predicate RepeatsEarlierName(obs: seq<Observation>, i: nat)
    requires i < |obs|
  {
    exists j :: 0 <= j < i && obs[j].name == obs[i].name
  }

  /** Everything `from_observations` demands of a batch, said without reference to its loop. */
  predicate Acceptable(obs: seq<Observation>) {
    && obs != []
    && obs[0].assetId != ""
    && (forall i :: 0 <= i < |obs| ==> obs[i].assetId == obs[0].assetId)
    && (forall i :: 0 <= i < |obs| ==> obs[i].timestamp == obs[0].timestamp)
    && (forall i :: 0 <= i < |obs| ==> OwnFault(obs[i]).None?)
    && (forall i :: 0 <= i < |obs| ==> !RepeatsEarlierName(obs, i))
    && (forall m :: m in REQUIRED ==> NamedBefore(obs, |obs|, m))
  }

  predicate NamedBefore(obs: seq<Observation>, n: nat, m: Measurement)
    requires n <= |obs|
  {
    exists i :: 0 <= i < n && obs[i].name == Supported(m)
  }

  predicate Holds(values: map<Measurement, real>, units: map<Measurement, string>, o: Observation) {
    && o.name.Supported? && o.value.Finite?
    && o.name.m in values && o.name.m in units
    && values[o.name.m] == o.value.r && units[o.name.m] == o.unit
  }

  /** The maps hold exactly the first `n` readings of `obs`, no more and no less. */
  predicate CarriesExactly(values: map<Measurement, real>, units: map<Measurement, string>,
                           obs: seq<Observation>, n: nat)
    requires n <= |obs|
  {
    && values.Keys == units.Keys
    && (forall i :: 0 <= i < n ==> Holds(values, units, obs[i]))
    && (forall m :: m in values ==> NamedBefore(obs, n, m))
  }

  /** `TelemetrySample.from_observations`: accepts exactly the acceptable batches and
      copies their readings verbatim. */
  method FromObservations(obs: seq<Observation>) returns (r: Result<TelemetrySample, SampleError>)
    ensures r.Success? <==> Acceptable(obs)
    ensures r.Success? ==>
              && r.value.assetId == obs[0].assetId && r.value.timestamp == obs[0].timestamp
              && CarriesExactly(r.value.values, r.value.units, obs, |obs|)
    ensures r == Failure(DuplicateMeasurement) ==> exists i :: 0 <= i < |obs| && RepeatsEarlierName(obs, i)
    ensures r == Failure(MissingMeasurement) ==> exists m :: m in REQUIRED && !NamedBefore(obs, |obs|, m)
  {
    if obs == [] {
      return Failure(NoObservations);
    }
    if exists i :: 0 <= i < |obs| && obs[i].assetId != obs[0].assetId {
      return Failure(SpansAssets);
    }
    if exists i :: 0 <= i < |obs| && obs[i].timestamp != obs[0].timestamp {
      return Failure(SpansTimestamps);
    }
    var values: map<Measurement, real> := map[];
    var units: map<Measurement, string> := map[];
    for i := 0 to |obs|
      invariant forall k :: 0 <= k < i ==> OwnFault(obs[k]).None?
      invariant forall k :: 0 <= k < i ==> !RepeatsEarlierName(obs, k)
      invariant CarriesExactly(values, units, obs, i)
    {
      var fault := AddReading(values, units, obs, i);
      if fault.Some? {
        return Failure(fault.value);
      }
      values := values[obs[i].name.m := obs[i].value.r];
      units := units[obs[i].name.m := obs[i].unit];
    }
    if exists m :: m in REQUIRED && m !in values {
      return Failure(MissingMeasurement);
    }
    if obs[0].assetId == "" {
      return Failure(EmptyAssetId);
    }
    return Success(TelemetrySample(obs[0].assetId, obs[0].timestamp, values, units));
  }

  /** The checks the loop makes on observation `i`, in order. */
  method AddReading(values: map<Measurement, real>, units: map<Measurement, string>,
                    obs: seq<Observation>, i: nat)
    returns (fault: Option<SampleError>)
    requires i < |obs| && CarriesExactly(values, units, obs, i)
    ensures fault.None? <==> OwnFault(obs[i]).None? && !RepeatsEarlierName(obs, i)
    ensures fault.None? ==>
              CarriesExactly(values[obs[i].name.m := obs[i].value.r], units[obs[i].name.m := obs[i].unit], obs, i + 1)
    ensures fault == Some(DuplicateMeasurement) ==> RepeatsEarlierName(obs, i)
    ensures fault.Some? ==> fault.value != MissingMeasurement
  {
    var o := obs[i];
    if o.name.Unsupported? {
      return Some(UnsupportedMeasurement);
    }
    var m := o.name.m;
    if m in values {
      assert NamedBefore(obs, i, m);
      return Some(DuplicateMeasurement);
    }
    assert !RepeatsEarlierName(obs, i) by {
      forall j | 0 <= j < i ensures obs[j].name != o.name {
        assert Holds(values, units, obs[j]);
      }
    }
    if o.unit != CanonicalUnit(m) {
      return Some(UnitMismatch);
    }
    if o.value.NonFinite? {
      return Some(NonFiniteReading);
    }
    ghost var values' := values[m := o.value.r];
    forall k | k in values' ensures NamedBefore(obs, i + 1, k) {
      if k != m {
        assert NamedBefore(obs, i, k);
      } else {
        assert obs[i].name == Supported(k);
      }
    }
    return None;
  }
}
