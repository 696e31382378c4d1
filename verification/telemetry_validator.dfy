/**
 * Type detection and field validation of a POST /v1/telemetry body
 * (src/validators/telemetry.validator.js).
 *
 * Timestamp parsing (`new Date(value)`) is the parameter `parse`: the
 * instant in milliseconds, or None when the Date is invalid.
 */
module TelemetryValidator {
  import opened Results
  import opened Json
  import opened Text
  import opened Validation

  const MeterType: string := "meter"
  const VehicleType: string := "vehicle"

  const NotObjectMessage: string := "Request body must be a JSON object"
  const UnknownTypeMessage: string := "Unknown telemetry type. Must include meterId or vehicleId"

  const MeterIdMessage: string := "meterId must be a non-empty string"
  const KwhConsumedAcMessage: string := "kwhConsumedAc must be a non-negative number"
  const VoltageMessage: string := "voltage must be a positive number"
  const TimestampMessage: string := "timestamp must be a valid ISO datetime string"

  const VehicleIdMessage: string := "vehicleId must be a non-empty string"
  const SocMessage: string := "soc must be an integer between 0 and 100"
  const KwhDeliveredDcMessage: string := "kwhDeliveredDc must be a non-negative number"
  const BatteryTempMessage: string := "batteryTemp must be a number"

  /** The cleaned meter payload. */
  datatype MeterTelemetry = MeterTelemetry(meterId: string, kwhConsumedAc: real, voltage: real, timestamp: string)

  /** The cleaned vehicle payload; `soc` is the integer the body carried. */
  datatype VehicleTelemetry = VehicleTelemetry(vehicleId: string, soc: int, kwhDeliveredDc: real, batteryTemp: real, timestamp: string)

  /** What every accepted meter payload satisfies. */
  predicate WellFormedMeter(d: MeterTelemetry, parse: string -> Option<int>) {
    !Blank(d.meterId) && Trim(d.meterId) == d.meterId
    && d.kwhConsumedAc >= 0.0 && d.voltage > 0.0 && parse(d.timestamp).Some?
  }

  /** What every accepted vehicle payload satisfies. */
  predicate WellFormedVehicle(d: VehicleTelemetry, parse: string -> Option<int>) {
    !Blank(d.vehicleId) && Trim(d.vehicleId) == d.vehicleId
    && 0 <= d.soc <= 100 && d.kwhDeliveredDc >= 0.0 && parse(d.timestamp).Some?
  }

  /**
   * `detectTelemetryType`: a truthy `meterId` makes the body a meter
   * reading, otherwise a truthy `vehicleId` a vehicle reading; a body that
   * is not an object, or has neither, is refused with a plain Error.
   */
  function DetectTelemetryType(body: Json): (r: Result<string>)
    ensures r.Ok? ==> r.value == MeterType || r.value == VehicleType
    ensures r.Err? ==> r.error.statusCode == None
    ensures !IsObject(body) <==> r == Err(JsError(NotObjectMessage, None))
    ensures r == Ok(MeterType) <==> IsObject(body) && Truthy(Prop(body, "meterId"))
    ensures r == Ok(VehicleType) <==>
      IsObject(body) && !Truthy(Prop(body, "meterId")) && Truthy(Prop(body, "vehicleId"))
    ensures r == Err(JsError(UnknownTypeMessage, None)) <==>
      IsObject(body) && !Truthy(Prop(body, "meterId")) && !Truthy(Prop(body, "vehicleId"))
  {
    if !IsObject(body) then Err(JsError(NotObjectMessage, None))
    else if Truthy(Prop(body, "meterId")) then Ok(MeterType)
    else if Truthy(Prop(body, "vehicleId")) then Ok(VehicleType)
    else Err(JsError(UnknownTypeMessage, None))
  }

  /** `isValidISODateString`: a string that `new Date` accepts. */
  predicate IsValidIsoDateString(p: Option<Json>, parse: string -> Option<int>) {
    IsString(p) && parse(p.value.s).Some?
  }

  /** The meter rules, in the order the validator pushes their messages. */
  function MeterChecks(body: Json, parse: string -> Option<int>): (checks: seq<Check>)
    ensures |checks| == 5
  {
    var kwh := Prop(body, "kwhConsumedAc");
    var voltage := Prop(body, "voltage");
    [ Check(IsObject(body), ObjectMessage),
      Check(NonBlankString(Prop(body, "meterId")), MeterIdMessage),
      Check(IsNumber(kwh) && kwh.value.n >= 0.0, KwhConsumedAcMessage),
      Check(IsNumber(voltage) && voltage.value.n > 0.0, VoltageMessage),
      Check(IsValidIsoDateString(Prop(body, "timestamp"), parse), TimestampMessage) ]
  }

  /**
   * `validateMeterTelemetry`: accepts exactly the objects with a non-blank
   * string `meterId`, a number `kwhConsumedAc` >= 0, a number `voltage` > 0
   * and a parseable string `timestamp`, and returns only those four fields
   * with `meterId` trimmed. On a `null` body the read of `body.meterId`
   * throws a TypeError.
   */
  function ValidateMeterTelemetry(body: Json, parse: string -> Option<int>): (r: Result<MeterTelemetry>)
    ensures body.JNull? ==> r == Err(NullPropertyError("meterId"))
    ensures r.Ok? <==>
      && body.JObj?
      && "meterId" in body.fields && body.fields["meterId"].JStr? && !Blank(body.fields["meterId"].s)
      && "kwhConsumedAc" in body.fields && body.fields["kwhConsumedAc"].JNum? && body.fields["kwhConsumedAc"].n >= 0.0
      && "voltage" in body.fields && body.fields["voltage"].JNum? && body.fields["voltage"].n > 0.0
      && "timestamp" in body.fields && body.fields["timestamp"].JStr? && parse(body.fields["timestamp"].s).Some?
    ensures r.Ok? ==> r.value == MeterTelemetry(
      Trim(body.fields["meterId"].s), body.fields["kwhConsumedAc"].n,
      body.fields["voltage"].n, body.fields["timestamp"].s)
    ensures r.Ok? ==> WellFormedMeter(r.value, parse)
    ensures r.Err? && !body.JNull? ==> r.error == Rejection(MeterChecks(body, parse))
  {
    if body.JNull? then Err(NullPropertyError("meterId"))
    else
      var checks := MeterChecks(body, parse);
      if Violations(checks) != [] then Err(Rejection(checks))
      else
        assert checks[1].ok && checks[2].ok && checks[3].ok && checks[4].ok;
        var id := Prop(body, "meterId").value.s;
        TrimIdempotent(id);
        Ok(MeterTelemetry(Trim(id), Prop(body, "kwhConsumedAc").value.n,
                          Prop(body, "voltage").value.n, Prop(body, "timestamp").value.s))
  }

  /** The vehicle rules, in the order the validator pushes their messages. */
  function VehicleChecks(body: Json, parse: string -> Option<int>): (checks: seq<Check>)
    ensures |checks| == 6
  {
    var soc := Prop(body, "soc");
    var dc := Prop(body, "kwhDeliveredDc");
    [ Check(IsObject(body), ObjectMessage),
      Check(NonBlankString(Prop(body, "vehicleId")), VehicleIdMessage),
      Check(IsNumber(soc) && IsInteger(soc.value.n) && 0.0 <= soc.value.n <= 100.0, SocMessage),
      Check(IsNumber(dc) && dc.value.n >= 0.0, KwhDeliveredDcMessage),
      Check(IsNumber(Prop(body, "batteryTemp")), BatteryTempMessage),
      Check(IsValidIsoDateString(Prop(body, "timestamp"), parse), TimestampMessage) ]
  }

  /**
   * `validateVehicleTelemetry`: accepts exactly the objects with a non-blank
   * string `vehicleId`, an integer `soc` in [0, 100], a number
   * `kwhDeliveredDc` >= 0, any number `batteryTemp` and a parseable string
   * `timestamp`, and returns only those five fields with `vehicleId` trimmed.
   */
  function ValidateVehicleTelemetry(body: Json, parse: string -> Option<int>): (r: Result<VehicleTelemetry>)
    ensures body.JNull? ==> r == Err(NullPropertyError("vehicleId"))
    ensures r.Ok? <==>
      && body.JObj?
      && "vehicleId" in body.fields && body.fields["vehicleId"].JStr? && !Blank(body.fields["vehicleId"].s)
      && "soc" in body.fields && body.fields["soc"].JNum? && IsInteger(body.fields["soc"].n)
      && 0.0 <= body.fields["soc"].n <= 100.0
      && "kwhDeliveredDc" in body.fields && body.fields["kwhDeliveredDc"].JNum? && body.fields["kwhDeliveredDc"].n >= 0.0
      && "batteryTemp" in body.fields && body.fields["batteryTemp"].JNum?
      && "timestamp" in body.fields && body.fields["timestamp"].JStr? && parse(body.fields["timestamp"].s).Some?
    ensures r.Ok? ==>
      && r.value.vehicleId == Trim(body.fields["vehicleId"].s)
      && r.value.soc as real == body.fields["soc"].n
      && r.value.kwhDeliveredDc == body.fields["kwhDeliveredDc"].n
      && r.value.batteryTemp == body.fields["batteryTemp"].n
      && r.value.timestamp == body.fields["timestamp"].s
    ensures r.Ok? ==> WellFormedVehicle(r.value, parse)
    ensures r.Err? && !body.JNull? ==> r.error == Rejection(VehicleChecks(body, parse))
  {
    if body.JNull? then Err(NullPropertyError("vehicleId"))
    else
      var checks := VehicleChecks(body, parse);
      if Violations(checks) != [] then Err(Rejection(checks))
      else
        assert checks[1].ok && checks[2].ok && checks[3].ok && checks[4].ok && checks[5].ok;
        var id := Prop(body, "vehicleId").value.s;
        TrimIdempotent(id);
        Ok(VehicleTelemetry(Trim(id), Prop(body, "soc").value.n.Floor, Prop(body, "kwhDeliveredDc").value.n,
                            Prop(body, "batteryTemp").value.n, Prop(body, "timestamp").value.s))
  }
}
