/** Input-event validation (`backend/simulator/inference_worker/events.py`).

    A decoded message is any JSON value. Validation either accepts it, rejects it
    with one of its own error classes, or lets some other Python exception escape. */
module TelemetryEvents {
  import opened Basics
  import opened Telemetry

  datatype Json =
    | JNull | JBool(b: bool) | JInt(n: int) | JFloat(r: real) | JNonFinite
    | JStr(s: string) | JArr(items: seq<Json>) | JObj(fields: map<string, Json>)

  /** One validated canonical measurement reading (`TelemetryObservationEventV1`). */
  datatype Event = Event(
    eventId: string, assetId: AssetId, timestamp: Timestamp,
    measurement: Measurement, value: real, unit: string)
  {
    predicate Valid() {
      assetId != "" && unit == CanonicalUnit(measurement)
    }
  }

  datatype Reason =
    | MissingField | UnsupportedVersion | InvalidAssetId | MalformedTimestamp
    | UnsupportedName | WrongUnit | NonFiniteValue

  datatype Verdict = Accepted(event: Event) | Invalid(reason: Reason) | Escapes

  /** The library functions the worker calls: `datetime.fromisoformat`, `str`, and whether a text can be encoded in
      UTF-8 (one with a lone surrogate cannot). */
  datatype Library = Library(
    parseTimestamp: string -> Option<Timestamp>, render: Json -> string, encodes: string -> bool)

  const REQUIRED_FIELDS: seq<string> :=
    ["event_id", "event_version", "asset_id", "timestamp", "measurement_name", "value", "unit", "source"]

  function Pow2(n: nat): nat {
    if n == 0 then 1 else 2 * Pow2(n - 1)
  }

  /** `float(n)` raises OverflowError exactly from this magnitude on. */
  predicate OverflowsFloat(n: int) {
    var limit := Pow2(1024) - Pow2(970);
    n >= limit || n <= -limit
  }

  predicate Unhashable(j: Json) { j.JArr? || j.JObj? }

  predicate OccursAt(s: string, t: string, i: int) {
    0 <= i <= |s| - |t| && s[i..i + |t|] == t
  }

  predicate ContainsText(s: string, t: string) {
    exists i: int :: 0 <= i <= |s| && OccursAt(s, t, i)
  }

  function ParseName(s: string): Option<Measurement> {
    if s == "stack_temperature" then Some(StackTemperature)
    else if s == "stack_pressure" then Some(StackPressure)
    else if s == "current" then Some(Current)
    else if s == "voltage" then Some(Voltage)
    else if s == "fuel_flow" then Some(FuelFlow)
    else if s == "power_output" then Some(PowerOutput)
    else if s == "efficiency" then Some(Efficiency)
    else if s == "coolant_flow" then Some(CoolantFlow)
    else None
  }

  predicate Present(fields: map<string, Json>, name: string) {
    name in fields && !fields[name].JNull?
  }

  /** `validate_telemetry_event`, check by check. */
  function Validate(lib: Library, raw: Json): Verdict {
    match raw
    case JStr(s) => if ContainsText(s, "event_id") then Escapes else Invalid(MissingField)
    case JArr(items) => if JStr("event_id") in items then Escapes else Invalid(MissingField)
    case JObj(fields) =>
      if exists f :: f in REQUIRED_FIELDS && !Present(fields, f) then Invalid(MissingField)
      else
        assert forall k :: 0 <= k < |REQUIRED_FIELDS| ==> Present(fields, REQUIRED_FIELDS[k]);
        assert REQUIRED_FIELDS[0] == "event_id" && REQUIRED_FIELDS[1] == "event_version"
            && REQUIRED_FIELDS[2] == "asset_id" && REQUIRED_FIELDS[3] == "timestamp"
            && REQUIRED_FIELDS[4] == "measurement_name" && REQUIRED_FIELDS[5] == "value"
            && REQUIRED_FIELDS[6] == "unit";
        ValidateFields(lib, fields)
    case _ => Escapes
  }

  function ValidateFields(lib: Library, fields: map<string, Json>): Verdict
    requires Present(fields, "event_id") && Present(fields, "event_version") && Present(fields, "asset_id")
    requires Present(fields, "timestamp") && Present(fields, "measurement_name")
    requires Present(fields, "value") && Present(fields, "unit")
  {
    var version := fields["event_version"];
    var asset := fields["asset_id"];
    var stamp := fields["timestamp"];
    var name := fields["measurement_name"];
    if Unhashable(version) then Escapes
    else if version != JStr("v1") then Invalid(UnsupportedVersion)
    else if !asset.JStr? || asset.s == "" then Invalid(InvalidAssetId)
    else if !stamp.JStr? || lib.parseTimestamp(stamp.s).None? then Invalid(MalformedTimestamp)
    else if Unhashable(name) then Escapes
    else if !name.JStr? || ParseName(name.s).None? then Invalid(UnsupportedName)
    else
      var m := ParseName(name.s).value;
      var value := fields["value"];
      if fields["unit"] != JStr(CanonicalUnit(m)) then Invalid(WrongUnit)
      else if value.JInt? && OverflowsFloat(value.n) then Escapes
      else if !value.JInt? && !value.JFloat? then Invalid(NonFiniteValue)
      else Accepted(Event(lib.render(fields["event_id"]), asset.s, lib.parseTimestamp(stamp.s).value, m,
                          if value.JInt? then value.n as real else value.r, CanonicalUnit(m)))
  }

  /** A message every check passes. */
  predicate WellFormed(lib: Library, raw: Json) {
    && raw.JObj?
    && (forall f :: f in REQUIRED_FIELDS ==> Present(raw.fields, f))
    && Names(raw, "event_version", JStr("v1"))
    && HasText(raw, "asset_id", s => s != "")
    && HasText(raw, "timestamp", s => lib.parseTimestamp(s).Some?)
    && HasText(raw, "measurement_name",
               s => ParseName(s).Some? && Names(raw, "unit", JStr(CanonicalUnit(ParseName(s).value))))
    && "value" in raw.fields
    && (raw.fields["value"].JFloat? || (raw.fields["value"].JInt? && !OverflowsFloat(raw.fields["value"].n)))
  }

  predicate Names(raw: Json, field: string, j: Json)
    requires raw.JObj?
  {
    field in raw.fields && raw.fields[field] == j
  }

  predicate HasText(raw: Json, field: string, p: string -> bool)
    requires raw.JObj?
  {
    field in raw.fields && raw.fields[field].JStr? && p(raw.fields[field].s)
  }

  /** The inputs on which the documented promise "never raises anything other than a
      TelemetryEventValidationError" fails. */
  predicate EscapeGuard(lib: Library, raw: Json) {
    match raw
    case JStr(s) => ContainsText(s, "event_id")
    case JArr(items) => JStr("event_id") in items
    case JObj(fields) =>
      && (forall f :: f in REQUIRED_FIELDS ==> Present(fields, f))
      && "event_version" in fields
      && (Unhashable(fields["event_version"]) ||
          (&& Names(raw, "event_version", JStr("v1"))
           && HasText(raw, "asset_id", s => s != "")
           && HasText(raw, "timestamp", s => lib.parseTimestamp(s).Some?)
           && "measurement_name" in fields && "value" in fields
           && (Unhashable(fields["measurement_name"]) ||
               (&& HasText(raw, "measurement_name",
                           s => ParseName(s).Some? && Names(raw, "unit", JStr(CanonicalUnit(ParseName(s).value))))
                && fields["value"].JInt? && OverflowsFloat(fields["value"].n)))))
    case _ => true
  }

  /** Acceptance is exactly well-formedness, and accepted events are canonical. */
  lemma AcceptedExactly(lib: Library, raw: Json)
    ensures Validate(lib, raw).Accepted? <==> WellFormed(lib, raw)
    ensures Validate(lib, raw).Accepted? ==> Validate(lib, raw).event.Valid()
  {
    hide ParseName; hide CanonicalUnit; hide OverflowsFloat;
    RequiredFieldNames();
  }

  /** Some other exception escapes exactly on the guarded inputs. */
  lemma EscapesExactly(lib: Library, raw: Json)
    ensures Validate(lib, raw).Escapes? <==> EscapeGuard(lib, raw)
  {
    hide ParseName; hide CanonicalUnit; hide OverflowsFloat;
    RequiredFieldNames();
  }

  /** Concretely: the JSON document `5`, and a list of the field name, both escape. */
  lemma ValidationCanEscape(lib: Library)
    ensures Validate(lib, JInt(5)).Escapes?
    ensures Validate(lib, JArr([JStr("event_id")])).Escapes?
  {
    assert JStr("event_id") == [JStr("event_id")][0];
  }

  lemma RequiredFieldNames()
    ensures "event_id" in REQUIRED_FIELDS && "event_version" in REQUIRED_FIELDS && "asset_id" in REQUIRED_FIELDS
    ensures "timestamp" in REQUIRED_FIELDS && "measurement_name" in REQUIRED_FIELDS
    ensures "value" in REQUIRED_FIELDS && "unit" in REQUIRED_FIELDS
  {
    assert REQUIRED_FIELDS[0] == "event_id" && REQUIRED_FIELDS[1] == "event_version"
        && REQUIRED_FIELDS[2] == "asset_id" && REQUIRED_FIELDS[3] == "timestamp"
        && REQUIRED_FIELDS[4] == "measurement_name" && REQUIRED_FIELDS[5] == "value"
        && REQUIRED_FIELDS[6] == "unit";
  }

  // --- what an accepted event says --------------------------------------------------------------------

  /** The field of a decoded document. */
  function Field(raw: Json, name: string): Option<Json> {
    if raw.JObj? && name in raw.fields then Some(raw.fields[name]) else None
  }

  /** The number a JSON value is, if it is one. */
  function Number(j: Json): Option<real> {
    match j case JInt(n) => Some(n as real) case JFloat(r) => Some(r) case _ => None
  }

  /** The wire name of a measurement. */
  function NameOf(m: Measurement): string {
    match m
    case StackTemperature => "stack_temperature"
    case StackPressure => "stack_pressure"
    case Current => "current"
    case Voltage => "voltage"
    case FuelFlow => "fuel_flow"
    case PowerOutput => "power_output"
    case CoolantFlow => "coolant_flow"
    case Efficiency => "efficiency"
  }

  /** A text names a measurement exactly when it is its wire name. */
  lemma NamesExactly(s: string, m: Measurement)
    ensures ParseName(s) == Some(m) <==> s == NameOf(m)
  {
    var names := ["stack_temperature", "stack_pressure", "current", "voltage", "fuel_flow", "power_output",
                  "efficiency", "coolant_flow"];
    assert names[0][6] == 't' && names[1][6] == 'p' && names[2][0] == 'c' && names[2][1] == 'u' && names[3][0] == 'v'
        && names[4][0] == 'f' && names[5][0] == 'p' && names[6][0] == 'e' && names[7][0] == 'c' && names[7][1] == 'o'
        && names[0][0] == 's' && names[1][0] == 's';
  }

  /** An accepted event is what its document says: asset, instant, measurement, value, unit and id. */
  lemma AcceptedMeansDocument(lib: Library, raw: Json)
    requires Validate(lib, raw).Accepted?
    ensures var e := Validate(lib, raw).event;
            && Field(raw, "asset_id") == Some(JStr(e.assetId))
            && Field(raw, "measurement_name") == Some(JStr(NameOf(e.measurement)))
            && Field(raw, "unit") == Some(JStr(e.unit))
            && Field(raw, "value").Some? && Number(Field(raw, "value").value) == Some(e.value)
            && Field(raw, "timestamp").Some? && Field(raw, "timestamp").value.JStr?
            && lib.parseTimestamp(Field(raw, "timestamp").value.s) == Some(e.timestamp)
            && Field(raw, "event_id").Some? && lib.render(Field(raw, "event_id").value) == e.eventId
  {
    hide CanonicalUnit; hide OverflowsFloat; hide ParseName; hide NameOf;
    RequiredFieldNames();
    NamesExactly(raw.fields["measurement_name"].s, Validate(lib, raw).event.measurement);
  }

  function Text(j: Option<Json>): Option<string> { if j.Some? && j.value.JStr? then Some(j.value.s) else None }

  predicate IsMissing(raw: Json, name: string) { Field(raw, name) == None || Field(raw, name) == Some(JNull) }

  /** What each kind of rejection finds wrong with a document. */
  predicate Faulty(lib: Library, raw: Json, why: Reason) {
    match why
    case MissingField => exists f :: f in REQUIRED_FIELDS && IsMissing(raw, f)
    case UnsupportedVersion => Text(Field(raw, "event_version")) != Some("v1")
    case InvalidAssetId => Text(Field(raw, "asset_id")) in {None, Some("")}
    case MalformedTimestamp =>
      var t := Text(Field(raw, "timestamp")); t.None? || lib.parseTimestamp(t.value).None?
    case UnsupportedName => forall m: Measurement :: Text(Field(raw, "measurement_name")) != Some(NameOf(m))
    case WrongUnit =>
      exists m: Measurement :: Text(Field(raw, "measurement_name")) == Some(NameOf(m)) &&
        Text(Field(raw, "unit")) != Some(CanonicalUnit(m))
    case NonFiniteValue => Field(raw, "value").None? || Number(Field(raw, "value").value).None?
  }

  /** The order in which documents are checked. */
  const CHECKS: seq<Reason> := [MissingField, UnsupportedVersion, InvalidAssetId, MalformedTimestamp,
                                UnsupportedName, WrongUnit, NonFiniteValue]

  lemma NameIsParsed(s: string)
    ensures ParseName(s).None? ==> forall m: Measurement :: s != NameOf(m)
    ensures ParseName(s).Some? ==> s == NameOf(ParseName(s).value)
    ensures forall m :: s == NameOf(m) ==> ParseName(s) == Some(m)
  {
    forall m: Measurement ensures ParseName(s) == Some(m) <==> s == NameOf(m) { NamesExactly(s, m); }
  }

  /** A rejected document fails the check it is rejected for, and passes every check before that. */
  lemma RejectedForFirstFault(lib: Library, raw: Json, k: nat)
    requires k < |CHECKS| && Validate(lib, raw) == Invalid(CHECKS[k])
    ensures Faulty(lib, raw, CHECKS[k])
    ensures forall j :: 0 <= j < k ==> !Faulty(lib, raw, CHECKS[j])
  {
    hide CanonicalUnit; hide OverflowsFloat; hide ParseName; hide NameOf;
    RequiredFieldNames();
    if raw.JObj? && k > 0 {
      var name := Field(raw, "measurement_name");
      if name.value.JStr? { NameIsParsed(name.value.s); }
    } else {
      assert IsMissing(raw, REQUIRED_FIELDS[0]) || raw.JObj?;
    }
  }
}
