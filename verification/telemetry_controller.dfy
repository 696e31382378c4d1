/**
 * `TelemetryController.ingest` (src/controllers/telemetry.controller.js):
 * POST /v1/telemetry as a function from the store and the request body to
 * the new store and the response. A failure of the database is the
 * parameter `fault`: which of the service's two statements threw, and with
 * what error.
 */
module TelemetryController {
  import opened Results
  import opened Json
  import opened Text
  import opened Validation
  import opened Http
  import opened Schema
  import opened TelemetryValidator
  import opened TelemetryService

  const Accepted202: int := 202

  /**
   * A database error thrown by the history insert, or by the live-status
   * upsert after the insert committed. The driver's errors carry a message
   * and no `statusCode`.
   */
  datatype Fault = NoFault | HistoryFault(message: string) | LiveFault(message: string)

  /** The error the driver throws. */
  function DbError(message: string): (e: JsError)
    ensures e.statusCode.None?
  {
    JsError(message, None)
  }

  /** `{status: "accepted", type}`. */
  function AcceptedBody(kind: string): Json {
    JObj(map["status" := JStr("accepted"), "type" := JStr(kind)])
  }

  /** The 400 answer for a detected type that is neither "meter" nor "vehicle". */
  const UnknownTypeResponse: Response :=
    Response(400, JObj(map["error" := JStr("Invalid payload"), "message" := JStr("Unknown telemetry type")]))

  /** The body is detected as a meter reading and passes the meter rules. */
  predicate MeterAccepted(body: Json, parse: string -> Option<int>) {
    DetectTelemetryType(body) == Ok(MeterType) && ValidateMeterTelemetry(body, parse).Ok?
  }

  /** The body is detected as a vehicle reading and passes the vehicle rules. */
  predicate VehicleAccepted(body: Json, parse: string -> Option<int>) {
    DetectTelemetryType(body) == Ok(VehicleType) && ValidateVehicleTelemetry(body, parse).Ok?
  }

  /**
   * `TelemetryService.ingestMeter` with the database's behaviour: the store
   * it leaves and the error it throws. The service returns exactly when the
   * database did not fail, its errors never carry a status code, and
   * whatever happened, sending the same reading again reaches the store one
   * undisturbed ingest gives.
   */
  function RunIngestMeter(s: Store, d: MeterTelemetry, parse: string -> Option<int>, fault: Fault): (r: (Store, Option<JsError>))
    requires Parses(d.timestamp, parse)
    ensures r.1.None? <==> fault.NoFault?
    ensures r.1.Some? ==> r.1.value.statusCode.None? && r.1.value.message == fault.message
    ensures IngestMeter(r.0, d, parse) == IngestMeter(s, d, parse)
    ensures fault.NoFault? ==> r.0 == IngestMeter(s, d, parse)
    ensures fault.HistoryFault? ==> r.0 == s
    ensures fault.LiveFault? ==> r.0 == MeterHistoryInsert(s, d, parse)
  {
    match fault
    case NoFault =>
      IngestMeterIdempotent(s, d, parse);
      (IngestMeter(s, d, parse), None)
    case HistoryFault(e) => (s, Some(DbError(e)))
    case LiveFault(e) =>
      MeterRetryConverges(s, d, parse);
      (MeterHistoryInsert(s, d, parse), Some(DbError(e)))
  }

  /** `TelemetryService.ingestVehicle` with the database's behaviour, with the same guarantees. */
  function RunIngestVehicle(s: Store, d: VehicleTelemetry, parse: string -> Option<int>, fault: Fault): (r: (Store, Option<JsError>))
    requires Parses(d.timestamp, parse)
    ensures r.1.None? <==> fault.NoFault?
    ensures r.1.Some? ==> r.1.value.statusCode.None? && r.1.value.message == fault.message
    ensures IngestVehicle(r.0, d, parse) == IngestVehicle(s, d, parse)
    ensures fault.NoFault? ==> r.0 == IngestVehicle(s, d, parse)
    ensures fault.HistoryFault? ==> r.0 == s
    ensures fault.LiveFault? ==> r.0 == VehicleHistoryInsert(s, d, parse)
  {
    match fault
    case NoFault =>
      IngestVehicleIdempotent(s, d, parse);
      (IngestVehicle(s, d, parse), None)
    case HistoryFault(e) => (s, Some(DbError(e)))
    case LiveFault(e) =>
      VehicleRetryConverges(s, d, parse);
      (VehicleHistoryInsert(s, d, parse), Some(DbError(e)))
  }

  /** The end of the `try` block: 202 with the type when the service returned, the `catch` answer when it threw. */
  function Finish(kind: string, outcome: (Store, Option<JsError>)): (r: (Store, Response))
    requires outcome.1.Some? ==> outcome.1.value.statusCode.None?
    ensures r.0 == outcome.0
    ensures r.1.status == Accepted202 <==> outcome.1.None?
    ensures outcome.1.None? ==> r.1 == Response(Accepted202, AcceptedBody(kind))
    ensures outcome.1.Some? ==> r.1 == InvalidPayload(outcome.1.value)
  {
    match outcome.1
    case None => (outcome.0, Response(Accepted202, AcceptedBody(kind)))
    case Some(e) => (outcome.0, InvalidPayload(e))
  }

  /** The `type === "meter"` branch: validate, then ingest; a rejected body writes nothing. */
  function IngestMeterBody(s: Store, body: Json, parse: string -> Option<int>, fault: Fault): (r: (Store, Response))
    ensures ValidateMeterTelemetry(body, parse).Err? ==>
      r == (s, InvalidPayload(ValidateMeterTelemetry(body, parse).error))
    ensures ValidateMeterTelemetry(body, parse).Ok? ==>
      r == Finish(MeterType, RunIngestMeter(s, ValidateMeterTelemetry(body, parse).value, parse, fault))
    ensures !ValidateMeterTelemetry(body, parse).Ok? ==>
      r.0 == s && r.1.status == BadRequest && r.1.body.fields["error"] == JStr("Invalid payload")
    ensures r.1.status == Accepted202 <==> ValidateMeterTelemetry(body, parse).Ok? && fault.NoFault?
    ensures fault.HistoryFault? ==> r.0 == s
  {
    match ValidateMeterTelemetry(body, parse)
    case Err(e) => (s, InvalidPayload(e))
    case Ok(d) => Finish(MeterType, RunIngestMeter(s, d, parse, fault))
  }

  /** The `type === "vehicle"` branch: validate, then ingest; a rejected body writes nothing. */
  function IngestVehicleBody(s: Store, body: Json, parse: string -> Option<int>, fault: Fault): (r: (Store, Response))
    ensures ValidateVehicleTelemetry(body, parse).Err? ==>
      r == (s, InvalidPayload(ValidateVehicleTelemetry(body, parse).error))
    ensures ValidateVehicleTelemetry(body, parse).Ok? ==>
      r == Finish(VehicleType, RunIngestVehicle(s, ValidateVehicleTelemetry(body, parse).value, parse, fault))
    ensures !ValidateVehicleTelemetry(body, parse).Ok? ==>
      r.0 == s && r.1.status == BadRequest && r.1.body.fields["error"] == JStr("Invalid payload")
    ensures r.1.status == Accepted202 <==> ValidateVehicleTelemetry(body, parse).Ok? && fault.NoFault?
    ensures fault.HistoryFault? ==> r.0 == s
  {
    match ValidateVehicleTelemetry(body, parse)
    case Err(e) => (s, InvalidPayload(e))
    case Ok(d) => Finish(VehicleType, RunIngestVehicle(s, d, parse, fault))
  }

  /**
   * `ingest`: detect, validate, then ingest. Nothing is written unless the
   * body is accepted; an accepted body is ingested as the validator cleaned
   * it and answered 202 with its type; every thrown error becomes the
   * "Invalid payload" answer, with status 400 for every error the
   * validators throw. The "Unknown telemetry type" branch is dead: detection
   * returns only "meter" or "vehicle".
   */
  function Ingest(s: Store, body: Json, parse: string -> Option<int>, fault: Fault): (r: (Store, Response))
    ensures !MeterAccepted(body, parse) && !VehicleAccepted(body, parse) ==>
      && r.0 == s
      && r.1.status == BadRequest
      && r.1.body.JObj? && "error" in r.1.body.fields && r.1.body.fields["error"] == JStr("Invalid payload")
    ensures MeterAccepted(body, parse) && fault.NoFault? ==>
      r == (IngestMeter(s, ValidateMeterTelemetry(body, parse).value, parse), Response(Accepted202, AcceptedBody(MeterType)))
    ensures VehicleAccepted(body, parse) && fault.NoFault? ==>
      r == (IngestVehicle(s, ValidateVehicleTelemetry(body, parse).value, parse), Response(Accepted202, AcceptedBody(VehicleType)))
    ensures r.1.status == Accepted202 <==> (MeterAccepted(body, parse) || VehicleAccepted(body, parse)) && fault.NoFault?
    ensures fault.HistoryFault? ==> r.0 == s
  {
    match DetectTelemetryType(body)
    case Err(e) => (s, InvalidPayload(e))
    case Ok(kind) =>
      if kind == MeterType then IngestMeterBody(s, body, parse, fault)
      else if kind == VehicleType then IngestVehicleBody(s, body, parse, fault)
      else
        assert false;
        (s, UnknownTypeResponse)
  }

  /** The meter rules refuse a blank `meterId` with a message that opens with the meterId rule. */
  lemma BlankMeterIdRejection(fields: map<string, Json>, parse: string -> Option<int>) returns (e: JsError)
    requires "meterId" in fields && fields["meterId"].JStr? && Blank(fields["meterId"].s)
    ensures ValidateMeterTelemetry(JObj(fields), parse) == Err(e)
    ensures e.statusCode == Some(BadRequest)
    ensures |e.message| >= |MeterIdMessage| && e.message[..|MeterIdMessage|] == MeterIdMessage
  {
    var body := JObj(fields);
    var vr := ValidateMeterTelemetry(body, parse);
    assert !NonBlankString(Prop(body, "meterId"));
    assert vr.Err?;
    var checks := MeterChecks(body, parse);
    assert vr.error == Rejection(checks);
    var tail := checks[1..];
    assert checks[0].ok && !tail[0].ok && tail[0].message == MeterIdMessage;
    var v := Violations(checks);
    assert v == Violations(tail);
    assert v == [MeterIdMessage] + Violations(tail[1..]);
    assert Join(v, ", ")[..|MeterIdMessage|] == MeterIdMessage;
    e := vr.error;
  }

  /**
   * A `meterId` made only of whitespace is truthy, so the body is
   * classified as a meter reading, and then rejected by the meter rules:
   * 400, nothing written, and the message opens with the meterId rule.
   */
  lemma WhitespaceMeterIdRejected(s: Store, fields: map<string, Json>, parse: string -> Option<int>, fault: Fault)
    returns (e: JsError)
    requires "meterId" in fields && fields["meterId"].JStr?
    requires fields["meterId"].s != "" && Blank(fields["meterId"].s)
    ensures DetectTelemetryType(JObj(fields)) == Ok(MeterType)
    ensures Ingest(s, JObj(fields), parse, fault) == (s, InvalidPayload(e))
    ensures e.statusCode == Some(BadRequest)
    ensures |e.message| >= |MeterIdMessage| && e.message[..|MeterIdMessage|] == MeterIdMessage
  {
    e := BlankMeterIdRejection(fields, parse);
    assert DetectTelemetryType(JObj(fields)) == Ok(MeterType);
    assert Ingest(s, JObj(fields), parse, fault) == IngestMeterBody(s, JObj(fields), parse, fault);
  }

  /** A truthy `meterId` makes a meter reading even when a `vehicleId` is present too. */
  lemma MeterTakesPrecedence(fields: map<string, Json>)
    requires Truthy(Prop(JObj(fields), "meterId")) && Truthy(Prop(JObj(fields), "vehicleId"))
    ensures DetectTelemetryType(JObj(fields)) == Ok(MeterType)
  {
  }

  /** An empty-string `meterId` is falsy, so a body with a truthy `vehicleId` is a vehicle reading. */
  lemma EmptyMeterIdFallsThrough(fields: map<string, Json>)
    requires "meterId" in fields && fields["meterId"] == JStr("")
    requires Truthy(Prop(JObj(fields), "vehicleId"))
    ensures DetectTelemetryType(JObj(fields)) == Ok(VehicleType)
  {
  }

  /** `{hello: "world"}` has no type: 400 with the detection message, nothing written. */
  lemma HelloWorldIngestRejected(s: Store, parse: string -> Option<int>, fault: Fault)
    ensures Ingest(s, JObj(map["hello" := JStr("world")]), parse, fault)
         == (s, InvalidPayload(JsError(UnknownTypeMessage, None)))
  {
  }

  /** The test's bad meter reading: negative energy, zero voltage and an unparseable timestamp. */
  const BadMeterBody: Json := JObj(map["meterId" := JStr("m-101"), "kwhConsumedAc" := JNum(-1.0),
                                       "voltage" := JNum(0.0), "timestamp" := JStr("invalid-date")])

  /** The test's bad vehicle reading: soc above 100, negative energy, a string temperature, an unparseable timestamp. */
  const BadVehicleBody: Json := JObj(map["vehicleId" := JStr("v-900"), "soc" := JNum(150.0),
                                         "kwhDeliveredDc" := JNum(-2.0), "batteryTemp" := JStr("hot"),
                                         "timestamp" := JStr("invalid-date")])

  /** The bad readings' energy fields hold the negative figures sent. */
  lemma BadBodiesFields()
    ensures BadMeterBody.JObj? && "kwhConsumedAc" in BadMeterBody.fields
    ensures BadMeterBody.fields["kwhConsumedAc"] == JNum(-1.0)
    ensures Prop(BadMeterBody, "meterId") == Some(JStr("m-101"))
    ensures BadVehicleBody.JObj? && "kwhDeliveredDc" in BadVehicleBody.fields
    ensures BadVehicleBody.fields["kwhDeliveredDc"] == JNum(-2.0)
    ensures Prop(BadVehicleBody, "meterId") == None
    ensures Prop(BadVehicleBody, "vehicleId") == Some(JStr("v-900"))
  {
  }

  /** The bad meter reading is detected by its `meterId` and fails the meter rules, whatever the timestamp parser says. */
  lemma BadMeterBodyRefused(parse: string -> Option<int>)
    ensures DetectTelemetryType(BadMeterBody) == Ok(MeterType)
    ensures !MeterAccepted(BadMeterBody, parse) && !VehicleAccepted(BadMeterBody, parse)
  {
    BadBodiesFields();
    assert !ValidateMeterTelemetry(BadMeterBody, parse).Ok?;
  }

  /** The bad vehicle reading is detected by its `vehicleId` and fails the vehicle rules, whatever the timestamp parser says. */
  lemma BadVehicleBodyRefused(parse: string -> Option<int>)
    ensures DetectTelemetryType(BadVehicleBody) == Ok(VehicleType)
    ensures !MeterAccepted(BadVehicleBody, parse) && !VehicleAccepted(BadVehicleBody, parse)
  {
    BadBodiesFields();
    assert !ValidateVehicleTelemetry(BadVehicleBody, parse).Ok?;
  }

  /** A body that neither type accepts writes nothing and is answered 400 "Invalid payload". */
  lemma RefusedWritesNothing(s: Store, body: Json, parse: string -> Option<int>, fault: Fault)
    requires !MeterAccepted(body, parse) && !VehicleAccepted(body, parse)
    ensures var r := Ingest(s, body, parse, fault);
      && r.0 == s && r.1.status == BadRequest
      && r.1.body.JObj? && "error" in r.1.body.fields && r.1.body.fields["error"] == JStr("Invalid payload")
  {
  }

  /** The bad meter reading is detected as a meter reading and refused: 400 "Invalid payload", nothing written. */
  lemma BadMeterReadingRejected(s: Store, parse: string -> Option<int>, fault: Fault)
    ensures DetectTelemetryType(BadMeterBody) == Ok(MeterType)
    ensures var r := Ingest(s, BadMeterBody, parse, fault);
      && r.0 == s && r.1.status == BadRequest
      && r.1.body.JObj? && "error" in r.1.body.fields && r.1.body.fields["error"] == JStr("Invalid payload")
  {
    BadMeterBodyRefused(parse);
    RefusedWritesNothing(s, BadMeterBody, parse, fault);
  }

  /** The bad vehicle reading is detected as a vehicle reading and refused: 400 "Invalid payload", nothing written. */
  lemma BadVehicleReadingRejected(s: Store, parse: string -> Option<int>, fault: Fault)
    ensures DetectTelemetryType(BadVehicleBody) == Ok(VehicleType)
    ensures var r := Ingest(s, BadVehicleBody, parse, fault);
      && r.0 == s && r.1.status == BadRequest
      && r.1.body.JObj? && "error" in r.1.body.fields && r.1.body.fields["error"] == JStr("Invalid payload")
  {
    BadVehicleBodyRefused(parse);
    RefusedWritesNothing(s, BadVehicleBody, parse, fault);
  }

  /** A `null` body is not an object: 400 with the detection message, nothing written. */
  lemma NullIngestRejected(s: Store, parse: string -> Option<int>, fault: Fault)
    ensures Ingest(s, JNull, parse, fault) == (s, InvalidPayload(JsError(NotObjectMessage, None)))
  {
  }

  /**
   * When the live-status upsert threw after the history insert, resending
   * the same body leaves the store exactly as one undisturbed ingest would.
   */
  lemma RetryAfterLiveFault(s: Store, body: Json, parse: string -> Option<int>, e: string)
    ensures Ingest(Ingest(s, body, parse, LiveFault(e)).0, body, parse, NoFault).0
         == Ingest(s, body, parse, NoFault).0
  {
    match DetectTelemetryType(body)
    case Err(_) =>
    case Ok(kind) =>
      if kind == MeterType {
        var v := ValidateMeterTelemetry(body, parse);
        if v.Ok? {
          MeterRetryConverges(s, v.value, parse);
        }
      } else if kind == VehicleType {
        var v := ValidateVehicleTelemetry(body, parse);
        if v.Ok? {
          VehicleRetryConverges(s, v.value, parse);
        }
      }
  }

  /** Every request, accepted, rejected or interrupted by the database, leaves a valid store valid. */
  lemma IngestPreservesValid(s: Store, body: Json, parse: string -> Option<int>, fault: Fault)
    requires Valid(s)
    ensures Valid(Ingest(s, body, parse, fault).0)
  {
    match DetectTelemetryType(body)
    case Err(_) =>
    case Ok(kind) =>
      if kind == MeterType {
        var v := ValidateMeterTelemetry(body, parse);
        if v.Ok? {
          IngestMeterPreservesValid(s, v.value, parse);
        }
      } else if kind == VehicleType {
        var v := ValidateVehicleTelemetry(body, parse);
        if v.Ok? {
          IngestVehiclePreservesValid(s, v.value, parse);
        }
      }
  }

  /** A meter reading as a client sends it. */
  function MeterBody(meterId: string, kwhConsumedAc: real, voltage: real, timestamp: string): Json {
    JObj(map["meterId" := JStr(meterId), "kwhConsumedAc" := JNum(kwhConsumedAc),
             "voltage" := JNum(voltage), "timestamp" := JStr(timestamp)])
  }

  /** A vehicle reading as a client sends it. */
  function VehicleBody(vehicleId: string, soc: int, kwhDeliveredDc: real, batteryTemp: real, timestamp: string): Json {
    JObj(map["vehicleId" := JStr(vehicleId), "soc" := JNum(soc as real), "kwhDeliveredDc" := JNum(kwhDeliveredDc),
             "batteryTemp" := JNum(batteryTemp), "timestamp" := JStr(timestamp)])
  }

  /** The fields of a meter body hold exactly what was sent. */
  lemma MeterBodyFields(meterId: string, kwh: real, voltage: real, t: string)
    ensures var body := MeterBody(meterId, kwh, voltage, t);
      && body.JObj?
      && "meterId" in body.fields && body.fields["meterId"] == JStr(meterId)
      && "kwhConsumedAc" in body.fields && body.fields["kwhConsumedAc"] == JNum(kwh)
      && "voltage" in body.fields && body.fields["voltage"] == JNum(voltage)
      && "timestamp" in body.fields && body.fields["timestamp"] == JStr(t)
  {
  }

  /** The fields of a vehicle body hold exactly what was sent. */
  lemma VehicleBodyFields(vehicleId: string, soc: int, dc: real, temp: real, t: string)
    ensures var body := VehicleBody(vehicleId, soc, dc, temp, t);
      && body.JObj?
      && "vehicleId" in body.fields && body.fields["vehicleId"] == JStr(vehicleId)
      && "soc" in body.fields && body.fields["soc"] == JNum(soc as real)
      && "kwhDeliveredDc" in body.fields && body.fields["kwhDeliveredDc"] == JNum(dc)
      && "batteryTemp" in body.fields && body.fields["batteryTemp"] == JNum(temp)
      && "timestamp" in body.fields && body.fields["timestamp"] == JStr(t)
  {
  }

  /** A meter reading within the rules passes validation unchanged. */
  lemma MeterBodyValidates(meterId: string, kwh: real, voltage: real, t: string, parse: string -> Option<int>)
    requires !Blank(meterId) && Trim(meterId) == meterId && kwh >= 0.0 && voltage > 0.0 && parse(t).Some?
    ensures ValidateMeterTelemetry(MeterBody(meterId, kwh, voltage, t), parse) == Ok(MeterTelemetry(meterId, kwh, voltage, t))
  {
    var body := MeterBody(meterId, kwh, voltage, t);
    MeterBodyFields(meterId, kwh, voltage, t);
    var v := ValidateMeterTelemetry(body, parse);
    assert v.Ok?;
    assert v.value.meterId == meterId;
  }

  /** A meter reading with a non-empty `meterId` is detected as a meter reading. */
  lemma MeterBodyDetected(meterId: string, kwh: real, voltage: real, t: string)
    requires meterId != ""
    ensures DetectTelemetryType(MeterBody(meterId, kwh, voltage, t)) == Ok(MeterType)
  {
    assert Prop(MeterBody(meterId, kwh, voltage, t), "meterId") == Some(JStr(meterId));
  }

  /** A meter reading within the rules is ingested exactly as sent and answered 202 "meter". */
  lemma MeterBodyIngested(s: Store, meterId: string, kwh: real, voltage: real, t: string, parse: string -> Option<int>)
    requires !Blank(meterId) && Trim(meterId) == meterId && kwh >= 0.0 && voltage > 0.0 && parse(t).Some?
    ensures Ingest(s, MeterBody(meterId, kwh, voltage, t), parse, NoFault)
         == (IngestMeter(s, MeterTelemetry(meterId, kwh, voltage, t), parse), Response(Accepted202, AcceptedBody(MeterType)))
  {
    MeterBodyValidates(meterId, kwh, voltage, t, parse);
    assert meterId != "";
    var body := MeterBody(meterId, kwh, voltage, t);
    var d := MeterTelemetry(meterId, kwh, voltage, t);
    MeterBodyDetected(meterId, kwh, voltage, t);
    assert IngestMeterBody(s, body, parse, NoFault) == Finish(MeterType, RunIngestMeter(s, d, parse, NoFault));
    assert Ingest(s, body, parse, NoFault) == IngestMeterBody(s, body, parse, NoFault);
  }

  /** A vehicle reading within the rules passes validation unchanged. */
  lemma VehicleBodyValidates(vehicleId: string, soc: int, dc: real, temp: real, t: string, parse: string -> Option<int>)
    requires !Blank(vehicleId) && Trim(vehicleId) == vehicleId && 0 <= soc <= 100 && dc >= 0.0 && parse(t).Some?
    ensures ValidateVehicleTelemetry(VehicleBody(vehicleId, soc, dc, temp, t), parse)
         == Ok(VehicleTelemetry(vehicleId, soc, dc, temp, t))
  {
    var body := VehicleBody(vehicleId, soc, dc, temp, t);
    VehicleBodyFields(vehicleId, soc, dc, temp, t);
    WholeIsInteger(soc);
    var v := ValidateVehicleTelemetry(body, parse);
    assert v.Ok?;
    assert v.value.vehicleId == vehicleId;
    assert v.value.soc as real == soc as real;
  }

  /** A vehicle reading with a non-empty `vehicleId` and no `meterId` is detected as a vehicle reading. */
  lemma VehicleBodyDetected(vehicleId: string, soc: int, dc: real, temp: real, t: string)
    requires vehicleId != ""
    ensures DetectTelemetryType(VehicleBody(vehicleId, soc, dc, temp, t)) == Ok(VehicleType)
  {
    var body := VehicleBody(vehicleId, soc, dc, temp, t);
    assert Prop(body, "meterId") == None;
    assert Prop(body, "vehicleId") == Some(JStr(vehicleId));
  }

  /** A vehicle reading within the rules is ingested exactly as sent and answered 202 "vehicle". */
  lemma VehicleBodyIngested(s: Store, vehicleId: string, soc: int, dc: real, temp: real, t: string, parse: string -> Option<int>)
    requires !Blank(vehicleId) && Trim(vehicleId) == vehicleId && 0 <= soc <= 100 && dc >= 0.0 && parse(t).Some?
    ensures Ingest(s, VehicleBody(vehicleId, soc, dc, temp, t), parse, NoFault)
         == (IngestVehicle(s, VehicleTelemetry(vehicleId, soc, dc, temp, t), parse), Response(Accepted202, AcceptedBody(VehicleType)))
  {
    VehicleBodyValidates(vehicleId, soc, dc, temp, t, parse);
    assert vehicleId != "";
    VehicleBodyDetected(vehicleId, soc, dc, temp, t);
    var body := VehicleBody(vehicleId, soc, dc, temp, t);
    var d := VehicleTelemetry(vehicleId, soc, dc, temp, t);
    assert IngestVehicleBody(s, body, parse, NoFault) == Finish(VehicleType, RunIngestVehicle(s, d, parse, NoFault));
    assert Ingest(s, body, parse, NoFault) == IngestVehicleBody(s, body, parse, NoFault);
  }
}
