/**
 * The analytics test's fixture (tests/analytics.test.js) run through the
 * controllers: link v-900 to m-101 on empty tables, post two meter and two
 * vehicle readings one minute apart, then ask for the vehicle's
 * performance. `t1` and `t2` are the two ISO strings, which parse to one
 * minute before `now` and to `now`.
 */
module Scenario {
  import opened Results
  import opened Json
  import opened Text
  import opened Tables
  import opened Schema
  import opened Sums
  import opened TelemetryValidator
  import opened TelemetryService
  import opened TelemetryController
  import opened LinksValidator
  import LinksController
  import opened AnalyticsService
  import AnalyticsController

  const Vehicle: string := "v-900"
  const Meter: string := "m-101"
  const MinuteMs: int := 60 * 1000

  const LinkBody: Json := JObj(map["vehicleId" := JStr(Vehicle), "meterId" := JStr(Meter)])

  /** The tables after the link and the four readings. */
  function Fixture(t1: string, t2: string, parse: string -> Option<int>): Store {
    var s1 := LinksController.Create(Empty, LinkBody, None).0;
    var s2 := Ingest(s1, MeterBody(Meter, 10.0, 230.0, t1), parse, NoFault).0;
    var s3 := Ingest(s2, MeterBody(Meter, 5.0, 229.0, t2), parse, NoFault).0;
    var s4 := Ingest(s3, VehicleBody(Vehicle, 50, 8.0, 35.0, t1), parse, NoFault).0;
    Ingest(s4, VehicleBody(Vehicle, 55, 4.0, 37.0, t2), parse, NoFault).0
  }

  /** The vehicle identifier is already trimmed and not blank. */
  lemma VehicleTrimmed()
    ensures Trim(Vehicle) == Vehicle && !Blank(Vehicle)
  {
    var s := Vehicle;
    assert s[0] == 'v' && s[|s| - 1] == '0';
    TrimOfTrimmed(s);
  }

  /** The meter identifier is already trimmed and not blank. */
  lemma MeterTrimmed()
    ensures Trim(Meter) == Meter && !Blank(Meter)
  {
    var s := Meter;
    assert s[0] == 'm' && s[|s| - 1] == '1';
    TrimOfTrimmed(s);
  }

  /** POST /v1/links on empty tables stores the one link. */
  lemma LinkStep()
    ensures LinksController.Create(Empty, LinkBody, None).0 == Empty.(links := map[Vehicle := Meter])
  {
    VehicleTrimmed();
    MeterTrimmed();
    assert LinkBody.fields["vehicleId"] == JStr(Vehicle);
    assert LinkBody.fields["meterId"] == JStr(Meter);
    assert ValidateLinkPayload(LinkBody) == Ok(LinkPayload(Vehicle, Meter));
  }

  /** One meter reading for a new instant, through the controller. */
  lemma MeterStep(s: Store, kwh: real, voltage: real, t: string, parse: string -> Option<int>)
    requires kwh >= 0.0 && voltage > 0.0 && parse(t).Some?
    requires (Meter, parse(t).value) !in s.meters.history
    ensures Ingest(s, MeterBody(Meter, kwh, voltage, t), parse, NoFault).0
         == s.(meters := DeviceTables(
                 s.meters.history[(Meter, parse(t).value) := MeterRow(kwh, voltage)],
                 s.meters.live[Meter := MeterLive(kwh, voltage, parse(t).value)]))
  {
    MeterTrimmed();
    var d := MeterTelemetry(Meter, kwh, voltage, t);
    MeterBodyIngested(s, Meter, kwh, voltage, t, parse);
    IngestMeterIsApply(s, d, parse);
    ApplyFresh(s.meters, MeterWrite(d, parse));
  }

  /** One vehicle reading for a new instant, through the controller. */
  lemma VehicleStep(s: Store, soc: int, dc: real, temp: real, t: string, parse: string -> Option<int>)
    requires 0 <= soc <= 100 && dc >= 0.0 && parse(t).Some?
    requires (Vehicle, parse(t).value) !in s.vehicles.history
    ensures Ingest(s, VehicleBody(Vehicle, soc, dc, temp, t), parse, NoFault).0
         == s.(vehicles := DeviceTables(
                 s.vehicles.history[(Vehicle, parse(t).value) := VehicleRow(soc, dc, temp)],
                 s.vehicles.live[Vehicle := VehicleLive(soc, dc, temp, parse(t).value)]))
  {
    VehicleTrimmed();
    var d := VehicleTelemetry(Vehicle, soc, dc, temp, t);
    VehicleBodyIngested(s, Vehicle, soc, dc, temp, t, parse);
    IngestVehicleIsApply(s, d, parse);
    ApplyFresh(s.vehicles, VehicleWrite(d, parse));
  }

  /** The tables after the link and the first meter reading. */
  function AfterMeter1(now: int): Store {
    Store(DeviceTables(map[(Meter, now - MinuteMs) := MeterRow(10.0, 230.0)],
                       map[Meter := MeterLive(10.0, 230.0, now - MinuteMs)]),
          DeviceTables(map[], map[]),
          map[Vehicle := Meter])
  }

  /** The tables after both meter readings. */
  function AfterMeter2(now: int): Store {
    Store(DeviceTables(map[(Meter, now - MinuteMs) := MeterRow(10.0, 230.0), (Meter, now) := MeterRow(5.0, 229.0)],
                       map[Meter := MeterLive(5.0, 229.0, now)]),
          DeviceTables(map[], map[]),
          map[Vehicle := Meter])
  }

  /** The tables after both meter readings and the first vehicle reading. */
  function AfterVehicle1(now: int): Store {
    AfterMeter2(now).(vehicles := DeviceTables(map[(Vehicle, now - MinuteMs) := VehicleRow(50, 8.0, 35.0)],
                                               map[Vehicle := VehicleLive(50, 8.0, 35.0, now - MinuteMs)]))
  }

  /** The tables at the end of the fixture. */
  function Final(now: int): Store {
    AfterMeter2(now).(vehicles := DeviceTables(
      map[(Vehicle, now - MinuteMs) := VehicleRow(50, 8.0, 35.0), (Vehicle, now) := VehicleRow(55, 4.0, 37.0)],
      map[Vehicle := VehicleLive(55, 4.0, 37.0, now)]))
  }

  lemma Meter1(t1: string, parse: string -> Option<int>, now: int)
    requires parse(t1) == Some(now - MinuteMs)
    ensures Ingest(Empty.(links := map[Vehicle := Meter]), MeterBody(Meter, 10.0, 230.0, t1), parse, NoFault).0
         == AfterMeter1(now)
  {
    MeterStep(Empty.(links := map[Vehicle := Meter]), 10.0, 230.0, t1, parse);
  }

  /** The second meter reading is for a new instant and lands as `AfterMeter2`. */
  lemma Meter2Shape(now: int)
    ensures (Meter, now) !in AfterMeter1(now).meters.history
    ensures AfterMeter1(now).(meters := DeviceTables(
              AfterMeter1(now).meters.history[(Meter, now) := MeterRow(5.0, 229.0)],
              AfterMeter1(now).meters.live[Meter := MeterLive(5.0, 229.0, now)]))
         == AfterMeter2(now)
  {
    var s := AfterMeter1(now);
    assert (Meter, now) != (Meter, now - MinuteMs);
    assert s.meters.live[Meter := MeterLive(5.0, 229.0, now)] == AfterMeter2(now).meters.live;
  }

  lemma Meter2(t2: string, parse: string -> Option<int>, now: int)
    requires parse(t2) == Some(now)
    ensures Ingest(AfterMeter1(now), MeterBody(Meter, 5.0, 229.0, t2), parse, NoFault).0 == AfterMeter2(now)
  {
    Meter2Shape(now);
    MeterStep(AfterMeter1(now), 5.0, 229.0, t2, parse);
  }

  lemma Vehicle1(t1: string, parse: string -> Option<int>, now: int)
    requires parse(t1) == Some(now - MinuteMs)
    ensures Ingest(AfterMeter2(now), VehicleBody(Vehicle, 50, 8.0, 35.0, t1), parse, NoFault).0 == AfterVehicle1(now)
  {
    VehicleStep(AfterMeter2(now), 50, 8.0, 35.0, t1, parse);
  }

  /** The second vehicle reading is for a new instant and lands as `Final`. */
  lemma Vehicle2Shape(now: int)
    ensures (Vehicle, now) !in AfterVehicle1(now).vehicles.history
    ensures AfterVehicle1(now).(vehicles := DeviceTables(
              AfterVehicle1(now).vehicles.history[(Vehicle, now) := VehicleRow(55, 4.0, 37.0)],
              AfterVehicle1(now).vehicles.live[Vehicle := VehicleLive(55, 4.0, 37.0, now)]))
         == Final(now)
  {
    var s := AfterVehicle1(now);
    assert (Vehicle, now) != (Vehicle, now - MinuteMs);
    assert s.vehicles.live[Vehicle := VehicleLive(55, 4.0, 37.0, now)] == Final(now).vehicles.live;
  }

  lemma Vehicle2(t2: string, parse: string -> Option<int>, now: int)
    requires parse(t2) == Some(now)
    ensures Ingest(AfterVehicle1(now), VehicleBody(Vehicle, 55, 4.0, 37.0, t2), parse, NoFault).0 == Final(now)
  {
    Vehicle2Shape(now);
    VehicleStep(AfterVehicle1(now), 55, 4.0, 37.0, t2, parse);
  }

  /** The five tables after the fixture, row by row. */
  lemma FixtureTables(t1: string, t2: string, parse: string -> Option<int>, now: int)
    requires parse(t1) == Some(now - MinuteMs) && parse(t2) == Some(now)
    ensures Fixture(t1, t2, parse) == Final(now)
  {
    LinkStep();
    Meter1(t1, parse, now);
    Meter2(t2, parse, now);
    Vehicle1(t1, parse, now);
    Vehicle2(t2, parse, now);
  }

  /** Both vehicle readings fall in the window: DC 8 + 4. */
  lemma FinalDcWindow(now: int)
    ensures SumOf(Project(Final(now).vehicles.history, Vehicle, now, DcColumn)) == 12.0
  {
    var h := Final(now).vehicles.history;
    var a, b := (Vehicle, now - MinuteMs), (Vehicle, now);
    assert Project(h, Vehicle, now, DcColumn) == map[a := 8.0, b := 4.0];
    SumOfPair(a, 8.0, b, 4.0);
  }

  /** Both vehicle readings fall in the window: temperatures 35 and 37 over two rows. */
  lemma FinalTempWindow(now: int)
    ensures SumOf(Project(Final(now).vehicles.history, Vehicle, now, TempColumn)) == 72.0
    ensures |Project(Final(now).vehicles.history, Vehicle, now, TempColumn)| == 2
  {
    var h := Final(now).vehicles.history;
    var a, b := (Vehicle, now - MinuteMs), (Vehicle, now);
    var p := Project(h, Vehicle, now, TempColumn);
    assert p == map[a := 35.0, b := 37.0];
    SumOfPair(a, 35.0, b, 37.0);
    assert p.Keys == {a, b};
  }

  /** Both meter readings fall in the window: AC 10 + 5. */
  lemma FinalMeterWindow(now: int)
    ensures SumOf(Project(Final(now).meters.history, Meter, now, AcColumn)) == 15.0
  {
    var h := Final(now).meters.history;
    var a, b := (Meter, now - MinuteMs), (Meter, now);
    assert Project(h, Meter, now, AcColumn) == map[a := 10.0, b := 5.0];
    SumOfPair(a, 10.0, b, 5.0);
  }

  /**
   * The fixture's performance: AC 10 + 5 = 15, DC 8 + 4 = 12, ratio
   * 12 / 15 = 0.8 and mean temperature (35 + 37) / 2 = 36, so the test's
   * expectations (totals and mean above 0, ratio in (0, 1]) hold.
   */
  lemma FixturePerformance(t1: string, t2: string, parse: string -> Option<int>, now: int)
    requires parse(t1) == Some(now - MinuteMs) && parse(t2) == Some(now)
    ensures Performance(Fixture(t1, t2, parse), Vehicle, now) == Some(Expected)
  {
    FixtureTables(t1, t2, parse, now);
    FinalDcWindow(now);
    FinalTempWindow(now);
    FinalMeterWindow(now);
  }

  /** The fixture's record. */
  const Expected: PerformanceRow := PerformanceRow(Vehicle, Meter, 15.0, 12.0, 0.8, 36.0)

  /** The success answer for the fixture's record meets every expectation of the test. */
  lemma ExpectedResponse()
    ensures var r := AnalyticsController.PerformanceResponse(Some(Expected));
      && r.status == 200
      && r.body.fields["vehicleId"] == JStr(Vehicle) && r.body.fields["meterId"] == JStr(Meter)
      && r.body.fields["totalAcConsumed"].n > 0.0 && r.body.fields["totalDcDelivered"].n > 0.0
      && 0.0 < r.body.fields["efficiencyRatio"].n <= 1.0
      && r.body.fields["avgBatteryTemp"].n > 0.0
  {
    AnalyticsController.ResponseCarriesRow(Expected);
  }

  /** The answer GET /v1/analytics/performance/v-900 gives for the fixture. */
  lemma FixtureResponse(t1: string, t2: string, parse: string -> Option<int>, now: int)
    requires parse(t1) == Some(now - MinuteMs) && parse(t2) == Some(now)
    ensures AnalyticsController.PerformanceResponse(Performance(Fixture(t1, t2, parse), Vehicle, now))
         == AnalyticsController.PerformanceResponse(Some(Expected))
  {
    FixturePerformance(t1, t2, parse, now);
  }

  /** GET /v1/analytics/performance/v-unknown on the fixture answers 404. */
  lemma UnknownVehicleNotLinked(t1: string, t2: string, parse: string -> Option<int>, now: int)
    requires parse(t1) == Some(now - MinuteMs) && parse(t2) == Some(now)
    ensures AnalyticsController.PerformanceResponse(Performance(Fixture(t1, t2, parse), "v-unknown", now))
         == AnalyticsController.NotLinked
  {
    FixtureTables(t1, t2, parse, now);
  }
}
