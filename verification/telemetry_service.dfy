/**
 * `ingestMeter` and `ingestVehicle` (src/services/telemetry.service.js): a
 * history insert that ignores a repeated (device, instant) key, then an
 * unconditional live-status upsert. The two statements are separate
 * functions so that a crash between them can be reasoned about.
 */
module TelemetryService {
  import opened Results
  import opened Tables
  import opened Schema
  import opened TelemetryValidator
  import opened Text

  /** `new Date(timestamp)` succeeded: the only timestamps the controller lets through. */
  predicate Parses(timestamp: string, parse: string -> Option<int>) {
    parse(timestamp).Some?
  }

  /** The writes one meter reading makes; both tables use the parsed instant, not the raw string. */
  function MeterWrite(d: MeterTelemetry, parse: string -> Option<int>): (w: Write<MeterRow, MeterLive>)
    requires Parses(d.timestamp, parse)
    ensures w.device == d.meterId && w.instant == parse(d.timestamp).value
    ensures w.row == MeterRow(d.kwhConsumedAc, d.voltage)
    ensures w.status == MeterLive(d.kwhConsumedAc, d.voltage, w.instant)
  {
    var ts := parse(d.timestamp).value;
    Write(d.meterId, ts, MeterRow(d.kwhConsumedAc, d.voltage), MeterLive(d.kwhConsumedAc, d.voltage, ts))
  }

  /** The writes one vehicle reading makes. */
  function VehicleWrite(d: VehicleTelemetry, parse: string -> Option<int>): (w: Write<VehicleRow, VehicleLive>)
    requires Parses(d.timestamp, parse)
    ensures w.device == d.vehicleId && w.instant == parse(d.timestamp).value
    ensures w.row == VehicleRow(d.soc, d.kwhDeliveredDc, d.batteryTemp)
    ensures w.status == VehicleLive(d.soc, d.kwhDeliveredDc, d.batteryTemp, w.instant)
  {
    var ts := parse(d.timestamp).value;
    Write(d.vehicleId, ts, VehicleRow(d.soc, d.kwhDeliveredDc, d.batteryTemp),
          VehicleLive(d.soc, d.kwhDeliveredDc, d.batteryTemp, ts))
  }

  /** `INSERT INTO meter_telemetry … ON CONFLICT (meter_id, ts) DO NOTHING`. */
  function MeterHistoryInsert(s: Store, d: MeterTelemetry, parse: string -> Option<int>): (r: Store)
    requires Parses(d.timestamp, parse)
    ensures r.vehicles == s.vehicles && r.links == s.links && r.meters.live == s.meters.live
    ensures var key := (d.meterId, parse(d.timestamp).value);
      && r.meters.history.Keys == s.meters.history.Keys + {key}
      && (key in s.meters.history ==> r == s)
      && (key !in s.meters.history ==> r.meters.history[key] == MeterRow(d.kwhConsumedAc, d.voltage))
    ensures forall k :: k in s.meters.history ==> r.meters.history[k] == s.meters.history[k]
  {
    s.(meters := InsertHistory(s.meters, MeterWrite(d, parse)))
  }

  /** `INSERT INTO meter_live_status … ON CONFLICT (meter_id) DO UPDATE SET …`. */
  function MeterLiveUpsert(s: Store, d: MeterTelemetry, parse: string -> Option<int>): (r: Store)
    requires Parses(d.timestamp, parse)
    ensures r.vehicles == s.vehicles && r.links == s.links && r.meters.history == s.meters.history
    ensures r.meters.live.Keys == s.meters.live.Keys + {d.meterId}
    ensures r.meters.live[d.meterId] == MeterLive(d.kwhConsumedAc, d.voltage, parse(d.timestamp).value)
    ensures forall m :: m in s.meters.live && m != d.meterId ==> r.meters.live[m] == s.meters.live[m]
  {
    s.(meters := UpsertLive(s.meters, MeterWrite(d, parse)))
  }

  /**
   * `ingestMeter`: the meter's history gains the reading unless its
   * (meterId, instant) row exists, and the meter's live status becomes the
   * reading even when the history insert did nothing. Vehicle tables,
   * links and other meters are untouched.
   */
  function IngestMeter(s: Store, d: MeterTelemetry, parse: string -> Option<int>): (r: Store)
    requires Parses(d.timestamp, parse)
    ensures r.vehicles == s.vehicles && r.links == s.links
    ensures var key := (d.meterId, parse(d.timestamp).value);
      && r.meters.history.Keys == s.meters.history.Keys + {key}
      && (key in s.meters.history ==> r.meters.history == s.meters.history)
      && (key !in s.meters.history ==> r.meters.history[key] == MeterRow(d.kwhConsumedAc, d.voltage))
    ensures forall k :: k in s.meters.history ==> r.meters.history[k] == s.meters.history[k]
    ensures r.meters.live.Keys == s.meters.live.Keys + {d.meterId}
    ensures r.meters.live[d.meterId] == MeterLive(d.kwhConsumedAc, d.voltage, parse(d.timestamp).value)
    ensures forall m :: m in s.meters.live && m != d.meterId ==> r.meters.live[m] == s.meters.live[m]
  {
    MeterLiveUpsert(MeterHistoryInsert(s, d, parse), d, parse)
  }

  /** `INSERT INTO vehicle_telemetry … ON CONFLICT (vehicle_id, ts) DO NOTHING`. */
  function VehicleHistoryInsert(s: Store, d: VehicleTelemetry, parse: string -> Option<int>): (r: Store)
    requires Parses(d.timestamp, parse)
    ensures r.meters == s.meters && r.links == s.links && r.vehicles.live == s.vehicles.live
    ensures var key := (d.vehicleId, parse(d.timestamp).value);
      && r.vehicles.history.Keys == s.vehicles.history.Keys + {key}
      && (key in s.vehicles.history ==> r == s)
      && (key !in s.vehicles.history ==>
            r.vehicles.history[key] == VehicleRow(d.soc, d.kwhDeliveredDc, d.batteryTemp))
    ensures forall k :: k in s.vehicles.history ==> r.vehicles.history[k] == s.vehicles.history[k]
  {
    s.(vehicles := InsertHistory(s.vehicles, VehicleWrite(d, parse)))
  }

  /** `INSERT INTO vehicle_live_status … ON CONFLICT (vehicle_id) DO UPDATE SET …`. */
  function VehicleLiveUpsert(s: Store, d: VehicleTelemetry, parse: string -> Option<int>): (r: Store)
    requires Parses(d.timestamp, parse)
    ensures r.meters == s.meters && r.links == s.links && r.vehicles.history == s.vehicles.history
    ensures r.vehicles.live.Keys == s.vehicles.live.Keys + {d.vehicleId}
    ensures r.vehicles.live[d.vehicleId]
         == VehicleLive(d.soc, d.kwhDeliveredDc, d.batteryTemp, parse(d.timestamp).value)
    ensures forall v :: v in s.vehicles.live && v != d.vehicleId ==> r.vehicles.live[v] == s.vehicles.live[v]
  {
    s.(vehicles := UpsertLive(s.vehicles, VehicleWrite(d, parse)))
  }

  /**
   * `ingestVehicle`: the same two statements as `ingestMeter` on the
   * vehicle tables, with soc, DC energy and battery temperature.
   */
  function IngestVehicle(s: Store, d: VehicleTelemetry, parse: string -> Option<int>): (r: Store)
    requires Parses(d.timestamp, parse)
    ensures r.meters == s.meters && r.links == s.links
    ensures var key := (d.vehicleId, parse(d.timestamp).value);
      && r.vehicles.history.Keys == s.vehicles.history.Keys + {key}
      && (key in s.vehicles.history ==> r.vehicles.history == s.vehicles.history)
      && (key !in s.vehicles.history ==>
            r.vehicles.history[key] == VehicleRow(d.soc, d.kwhDeliveredDc, d.batteryTemp))
    ensures forall k :: k in s.vehicles.history ==> r.vehicles.history[k] == s.vehicles.history[k]
    ensures r.vehicles.live.Keys == s.vehicles.live.Keys + {d.vehicleId}
    ensures r.vehicles.live[d.vehicleId]
         == VehicleLive(d.soc, d.kwhDeliveredDc, d.batteryTemp, parse(d.timestamp).value)
    ensures forall v :: v in s.vehicles.live && v != d.vehicleId ==> r.vehicles.live[v] == s.vehicles.live[v]
  {
    VehicleLiveUpsert(VehicleHistoryInsert(s, d, parse), d, parse)
  }

  /** A meter ingest is the generic table step on the meter tables. */
  lemma IngestMeterIsApply(s: Store, d: MeterTelemetry, parse: string -> Option<int>)
    requires Parses(d.timestamp, parse)
    ensures IngestMeter(s, d, parse) == s.(meters := Apply(s.meters, MeterWrite(d, parse)))
  {
  }

  /** A vehicle ingest is the generic table step on the vehicle tables. */
  lemma IngestVehicleIsApply(s: Store, d: VehicleTelemetry, parse: string -> Option<int>)
    requires Parses(d.timestamp, parse)
    ensures IngestVehicle(s, d, parse) == s.(vehicles := Apply(s.vehicles, VehicleWrite(d, parse)))
  {
  }

  /** Ingesting the same meter reading twice gives the state ingesting it once gives. */
  lemma IngestMeterIdempotent(s: Store, d: MeterTelemetry, parse: string -> Option<int>)
    requires Parses(d.timestamp, parse)
    ensures IngestMeter(IngestMeter(s, d, parse), d, parse) == IngestMeter(s, d, parse)
  {
    ApplyIdempotent(s.meters, MeterWrite(d, parse));
  }

  /** Ingesting the same vehicle reading twice gives the state ingesting it once gives. */
  lemma IngestVehicleIdempotent(s: Store, d: VehicleTelemetry, parse: string -> Option<int>)
    requires Parses(d.timestamp, parse)
    ensures IngestVehicle(IngestVehicle(s, d, parse), d, parse) == IngestVehicle(s, d, parse)
  {
    ApplyIdempotent(s.vehicles, VehicleWrite(d, parse));
  }

  /** A meter ingest retried after only its history insert ran converges to the uninterrupted result. */
  lemma MeterRetryConverges(s: Store, d: MeterTelemetry, parse: string -> Option<int>)
    requires Parses(d.timestamp, parse)
    ensures IngestMeter(MeterHistoryInsert(s, d, parse), d, parse) == IngestMeter(s, d, parse)
  {
    RetryAfterHistoryConverges(s.meters, MeterWrite(d, parse));
  }

  /** A vehicle ingest retried after only its history insert ran converges to the uninterrupted result. */
  lemma VehicleRetryConverges(s: Store, d: VehicleTelemetry, parse: string -> Option<int>)
    requires Parses(d.timestamp, parse)
    ensures IngestVehicle(VehicleHistoryInsert(s, d, parse), d, parse) == IngestVehicle(s, d, parse)
  {
    RetryAfterHistoryConverges(s.vehicles, VehicleWrite(d, parse));
  }

  /**
   * Two timestamp strings naming the same instant hit the same history row:
   * the second reading leaves the meter history as the first left it, while
   * the live status still takes the second reading.
   */
  lemma MeterTimestampCollision(s: Store, d1: MeterTelemetry, d2: MeterTelemetry, parse: string -> Option<int>)
    requires Parses(d1.timestamp, parse) && Parses(d2.timestamp, parse)
    requires d1.meterId == d2.meterId && parse(d1.timestamp) == parse(d2.timestamp)
    ensures var once := IngestMeter(s, d1, parse);
      && IngestMeter(once, d2, parse).meters.history == once.meters.history
      && IngestMeter(once, d2, parse).meters.history[(d1.meterId, parse(d1.timestamp).value)]
         == (if (d1.meterId, parse(d1.timestamp).value) in s.meters.history
             then s.meters.history[(d1.meterId, parse(d1.timestamp).value)]
             else MeterRow(d1.kwhConsumedAc, d1.voltage))
      && IngestMeter(once, d2, parse).meters.live[d2.meterId]
         == MeterLive(d2.kwhConsumedAc, d2.voltage, parse(d2.timestamp).value)
  {
  }

  /** The vehicle counterpart of the timestamp collision. */
  lemma VehicleTimestampCollision(s: Store, d1: VehicleTelemetry, d2: VehicleTelemetry, parse: string -> Option<int>)
    requires Parses(d1.timestamp, parse) && Parses(d2.timestamp, parse)
    requires d1.vehicleId == d2.vehicleId && parse(d1.timestamp) == parse(d2.timestamp)
    ensures var once := IngestVehicle(s, d1, parse);
      IngestVehicle(once, d2, parse).vehicles.history == once.vehicles.history
  {
  }

  /** Every meter reading's timestamp parses. */
  predicate MetersParse(ds: seq<MeterTelemetry>, parse: string -> Option<int>) {
    forall i :: 0 <= i < |ds| ==> Parses(ds[i].timestamp, parse)
  }

  /** Every vehicle reading's timestamp parses. */
  predicate VehiclesParse(ds: seq<VehicleTelemetry>, parse: string -> Option<int>) {
    forall i :: 0 <= i < |ds| ==> Parses(ds[i].timestamp, parse)
  }

  /** Meter readings ingested one after another, in arrival order. */
  function IngestMeters(s: Store, ds: seq<MeterTelemetry>, parse: string -> Option<int>): Store
    requires MetersParse(ds, parse)
    decreases |ds|
  {
    if ds == [] then s
    else IngestMeter(IngestMeters(s, ds[..|ds| - 1], parse), ds[|ds| - 1], parse)
  }

  /** Vehicle readings ingested one after another, in arrival order. */
  function IngestVehicles(s: Store, ds: seq<VehicleTelemetry>, parse: string -> Option<int>): Store
    requires VehiclesParse(ds, parse)
    decreases |ds|
  {
    if ds == [] then s
    else IngestVehicle(IngestVehicles(s, ds[..|ds| - 1], parse), ds[|ds| - 1], parse)
  }

  /** The writes of a run of meter readings, in arrival order. */
  function MeterWrites(ds: seq<MeterTelemetry>, parse: string -> Option<int>): (ws: seq<Write<MeterRow, MeterLive>>)
    requires MetersParse(ds, parse)
    ensures |ws| == |ds| && forall i :: 0 <= i < |ds| ==> ws[i] == MeterWrite(ds[i], parse)
  {
    if ds == [] then [] else MeterWrites(ds[..|ds| - 1], parse) + [MeterWrite(ds[|ds| - 1], parse)]
  }

  /** The writes of a run of vehicle readings, in arrival order. */
  function VehicleWrites(ds: seq<VehicleTelemetry>, parse: string -> Option<int>): (ws: seq<Write<VehicleRow, VehicleLive>>)
    requires VehiclesParse(ds, parse)
    ensures |ws| == |ds| && forall i :: 0 <= i < |ds| ==> ws[i] == VehicleWrite(ds[i], parse)
  {
    if ds == [] then [] else VehicleWrites(ds[..|ds| - 1], parse) + [VehicleWrite(ds[|ds| - 1], parse)]
  }

  /** A run of meter ingests is the generic table fold over their writes, and touches nothing else. */
  lemma {:induction false} IngestMetersIsApplyAll(s: Store, ds: seq<MeterTelemetry>, parse: string -> Option<int>)
    requires MetersParse(ds, parse)
    ensures IngestMeters(s, ds, parse) == s.(meters := ApplyAll(s.meters, MeterWrites(ds, parse)))
    decreases |ds|
  {
    if ds != [] {
      var n := |ds| - 1;
      var ws := MeterWrites(ds, parse);
      IngestMetersIsApplyAll(s, ds[..n], parse);
      assert ws[..n] == MeterWrites(ds[..n], parse);
      var prev := IngestMeters(s, ds[..n], parse);
      IngestMeterIsApply(prev, ds[n], parse);
    }
  }

  /** A run of vehicle ingests is the generic table fold over their writes, and touches nothing else. */
  lemma {:induction false} IngestVehiclesIsApplyAll(s: Store, ds: seq<VehicleTelemetry>, parse: string -> Option<int>)
    requires VehiclesParse(ds, parse)
    ensures IngestVehicles(s, ds, parse) == s.(vehicles := ApplyAll(s.vehicles, VehicleWrites(ds, parse)))
    decreases |ds|
  {
    if ds != [] {
      var n := |ds| - 1;
      var ws := VehicleWrites(ds, parse);
      IngestVehiclesIsApplyAll(s, ds[..n], parse);
      assert ws[..n] == VehicleWrites(ds[..n], parse);
      var prev := IngestVehicles(s, ds[..n], parse);
      IngestVehicleIsApply(prev, ds[n], parse);
    }
  }

  /**
   * After any run of meter ingests, a meter's live status is the reading
   * that arrived last for it, whatever the timestamps say.
   */
  lemma MeterLiveIsLastIngested(s: Store, ds: seq<MeterTelemetry>, parse: string -> Option<int>, id: string)
    requires MetersParse(ds, parse)
    requires exists i :: 0 <= i < |ds| && ds[i].meterId == id
    ensures id in IngestMeters(s, ds, parse).meters.live
    ensures exists i :: (0 <= i < |ds| && ds[i].meterId == id
      && (forall j :: i < j < |ds| ==> ds[j].meterId != id)
      && IngestMeters(s, ds, parse).meters.live[id]
         == MeterLive(ds[i].kwhConsumedAc, ds[i].voltage, parse(ds[i].timestamp).value))
  {
    IngestMetersIsApplyAll(s, ds, parse);
    var ws := MeterWrites(ds, parse);
    var i0 :| 0 <= i0 < |ds| && ds[i0].meterId == id;
    assert ws[i0].device == id;
    LiveIsLastArrival(s.meters, ws, id);
    var i :| IsLastFor(ws, i, id) && ApplyAll(s.meters, ws).live[id] == ws[i].status;
    assert forall j :: i < j < |ds| ==> ds[j].meterId == ws[j].device;
  }

  /**
   * After any run of vehicle ingests, a vehicle's live status is the
   * reading that arrived last for it, whatever the timestamps say.
   */
  lemma VehicleLiveIsLastIngested(s: Store, ds: seq<VehicleTelemetry>, parse: string -> Option<int>, id: string)
    requires VehiclesParse(ds, parse)
    requires exists i :: 0 <= i < |ds| && ds[i].vehicleId == id
    ensures id in IngestVehicles(s, ds, parse).vehicles.live
    ensures exists i :: (0 <= i < |ds| && ds[i].vehicleId == id
      && (forall j :: i < j < |ds| ==> ds[j].vehicleId != id)
      && IngestVehicles(s, ds, parse).vehicles.live[id]
         == VehicleLive(ds[i].soc, ds[i].kwhDeliveredDc, ds[i].batteryTemp, parse(ds[i].timestamp).value))
  {
    IngestVehiclesIsApplyAll(s, ds, parse);
    var ws := VehicleWrites(ds, parse);
    var i0 :| 0 <= i0 < |ds| && ds[i0].vehicleId == id;
    assert ws[i0].device == id;
    LiveIsLastArrival(s.vehicles, ws, id);
    var i :| IsLastFor(ws, i, id) && ApplyAll(s.vehicles, ws).live[id] == ws[i].status;
    assert forall j :: i < j < |ds| ==> ds[j].vehicleId == ws[j].device;
  }

  /** `HistoryFirstWrite` read back through `MeterWrite`: the first meter reading with the key supplies its row. */
  lemma MeterFirstWrite(t: DeviceTables<MeterRow, MeterLive>, ds: seq<MeterTelemetry>, parse: string -> Option<int>, key: (string, int))
    returns (i: int)
    requires MetersParse(ds, parse)
    requires key !in t.history
    requires exists i :: 0 <= i < |ds| && (ds[i].meterId, parse(ds[i].timestamp).value) == key
    ensures key in ApplyAll(t, MeterWrites(ds, parse)).history
    ensures 0 <= i < |ds| && (ds[i].meterId, parse(ds[i].timestamp).value) == key
    ensures forall j :: 0 <= j < i ==> (ds[j].meterId, parse(ds[j].timestamp).value) != key
    ensures ApplyAll(t, MeterWrites(ds, parse)).history[key] == MeterRow(ds[i].kwhConsumedAc, ds[i].voltage)
  {
    var ws := MeterWrites(ds, parse);
    assert forall j :: 0 <= j < |ds| ==> ws[j].Key() == (ds[j].meterId, parse(ds[j].timestamp).value);
    var i0 :| 0 <= i0 < |ds| && (ds[i0].meterId, parse(ds[i0].timestamp).value) == key;
    assert ws[i0].Key() == key;
    HistoryFirstWrite(t, ws, key);
    i :| IsFirstFor(ws, i, key) && ApplyAll(t, ws).history[key] == ws[i].row;
    assert ws[i].row == MeterRow(ds[i].kwhConsumedAc, ds[i].voltage);
  }

  /**
   * First write wins across a run of meter ingests: a (meter, instant) row
   * absent at the start holds the values of the first reading for it.
   */
  lemma MeterHistoryIsFirstIngested(s: Store, ds: seq<MeterTelemetry>, parse: string -> Option<int>, key: (string, int))
    requires MetersParse(ds, parse)
    requires key !in s.meters.history
    requires exists i :: 0 <= i < |ds| && (ds[i].meterId, parse(ds[i].timestamp).value) == key
    ensures key in IngestMeters(s, ds, parse).meters.history
    ensures exists i :: (0 <= i < |ds| && (ds[i].meterId, parse(ds[i].timestamp).value) == key
      && (forall j :: 0 <= j < i ==> (ds[j].meterId, parse(ds[j].timestamp).value) != key)
      && IngestMeters(s, ds, parse).meters.history[key] == MeterRow(ds[i].kwhConsumedAc, ds[i].voltage))
  {
    IngestMetersIsApplyAll(s, ds, parse);
    var i := MeterFirstWrite(s.meters, ds, parse, key);
  }

  /** `HistoryFirstWrite` read back through `VehicleWrite`: the first vehicle reading with the key supplies its row. */
  lemma VehicleFirstWrite(t: DeviceTables<VehicleRow, VehicleLive>, ds: seq<VehicleTelemetry>, parse: string -> Option<int>, key: (string, int))
    returns (i: int)
    requires VehiclesParse(ds, parse)
    requires key !in t.history
    requires exists i :: 0 <= i < |ds| && (ds[i].vehicleId, parse(ds[i].timestamp).value) == key
    ensures key in ApplyAll(t, VehicleWrites(ds, parse)).history
    ensures 0 <= i < |ds| && (ds[i].vehicleId, parse(ds[i].timestamp).value) == key
    ensures forall j :: 0 <= j < i ==> (ds[j].vehicleId, parse(ds[j].timestamp).value) != key
    ensures ApplyAll(t, VehicleWrites(ds, parse)).history[key] == VehicleRow(ds[i].soc, ds[i].kwhDeliveredDc, ds[i].batteryTemp)
  {
    var ws := VehicleWrites(ds, parse);
    assert forall j :: 0 <= j < |ds| ==> ws[j].Key() == (ds[j].vehicleId, parse(ds[j].timestamp).value);
    var i0 :| 0 <= i0 < |ds| && (ds[i0].vehicleId, parse(ds[i0].timestamp).value) == key;
    assert ws[i0].Key() == key;
    HistoryFirstWrite(t, ws, key);
    i :| IsFirstFor(ws, i, key) && ApplyAll(t, ws).history[key] == ws[i].row;
    assert ws[i].row == VehicleRow(ds[i].soc, ds[i].kwhDeliveredDc, ds[i].batteryTemp);
  }

  /**
   * First write wins across a run of vehicle ingests: a (vehicle, instant)
   * row absent at the start holds the values of the first reading for it.
   */
  lemma VehicleHistoryIsFirstIngested(s: Store, ds: seq<VehicleTelemetry>, parse: string -> Option<int>, key: (string, int))
    requires VehiclesParse(ds, parse)
    requires key !in s.vehicles.history
    requires exists i :: 0 <= i < |ds| && (ds[i].vehicleId, parse(ds[i].timestamp).value) == key
    ensures key in IngestVehicles(s, ds, parse).vehicles.history
    ensures exists i :: (0 <= i < |ds| && (ds[i].vehicleId, parse(ds[i].timestamp).value) == key
      && (forall j :: 0 <= j < i ==> (ds[j].vehicleId, parse(ds[j].timestamp).value) != key)
      && IngestVehicles(s, ds, parse).vehicles.history[key]
         == VehicleRow(ds[i].soc, ds[i].kwhDeliveredDc, ds[i].batteryTemp))
  {
    IngestVehiclesIsApplyAll(s, ds, parse);
    var i := VehicleFirstWrite(s.vehicles, ds, parse, key);
  }

  /** Redelivering a whole run of meter readings after it was ingested changes nothing. */
  lemma MeterReplayConverges(s: Store, ds: seq<MeterTelemetry>, parse: string -> Option<int>)
    requires MetersParse(ds, parse)
    ensures IngestMeters(IngestMeters(s, ds, parse), ds, parse) == IngestMeters(s, ds, parse)
  {
    IngestMetersIsApplyAll(s, ds, parse);
    IngestMetersIsApplyAll(IngestMeters(s, ds, parse), ds, parse);
    ReplayConverges(s.meters, MeterWrites(ds, parse));
  }

  /** Redelivering a whole run of vehicle readings after it was ingested changes nothing. */
  lemma VehicleReplayConverges(s: Store, ds: seq<VehicleTelemetry>, parse: string -> Option<int>)
    requires VehiclesParse(ds, parse)
    ensures IngestVehicles(IngestVehicles(s, ds, parse), ds, parse) == IngestVehicles(s, ds, parse)
  {
    IngestVehiclesIsApplyAll(s, ds, parse);
    IngestVehiclesIsApplyAll(IngestVehicles(s, ds, parse), ds, parse);
    ReplayConverges(s.vehicles, VehicleWrites(ds, parse));
  }

  /** A validated meter reading keeps the store valid, after the history insert alone and after both statements. */
  lemma IngestMeterPreservesValid(s: Store, d: MeterTelemetry, parse: string -> Option<int>)
    requires Valid(s) && WellFormedMeter(d, parse)
    ensures Valid(MeterHistoryInsert(s, d, parse))
    ensures Valid(IngestMeter(s, d, parse))
  {
    var h := MeterHistoryInsert(s, d, parse);
    forall k | k in h.meters.history
      ensures !Blank(k.0) && h.meters.history[k].kwhConsumedAc >= 0.0 && h.meters.history[k].voltage > 0.0
    {
      if k !in s.meters.history {
        assert k == (d.meterId, parse(d.timestamp).value);
      }
    }
    var r := IngestMeter(s, d, parse);
    assert r.meters.history == h.meters.history;
    forall m | m in r.meters.live
      ensures !Blank(m) && r.meters.live[m].kwhConsumedAc >= 0.0 && r.meters.live[m].voltage > 0.0
    {
      if m != d.meterId {
        assert m in s.meters.live;
      }
    }
  }

  /** A validated vehicle reading keeps the store valid, after the history insert alone and after both statements. */
  lemma IngestVehiclePreservesValid(s: Store, d: VehicleTelemetry, parse: string -> Option<int>)
    requires Valid(s) && WellFormedVehicle(d, parse)
    ensures Valid(VehicleHistoryInsert(s, d, parse))
    ensures Valid(IngestVehicle(s, d, parse))
  {
    var h := VehicleHistoryInsert(s, d, parse);
    forall k | k in h.vehicles.history
      ensures !Blank(k.0) && h.vehicles.history[k].kwhDeliveredDc >= 0.0 && 0 <= h.vehicles.history[k].soc <= 100
    {
      if k !in s.vehicles.history {
        assert k == (d.vehicleId, parse(d.timestamp).value);
      }
    }
    var r := IngestVehicle(s, d, parse);
    assert r.vehicles.history == h.vehicles.history;
    forall v | v in r.vehicles.live
      ensures !Blank(v) && r.vehicles.live[v].kwhDeliveredDc >= 0.0 && 0 <= r.vehicles.live[v].soc <= 100
    {
      if v != d.vehicleId {
        assert v in s.vehicles.live;
      }
    }
  }
}
