/**
 * The database the services share: meter and vehicle history
 * (`meter_telemetry`, `vehicle_telemetry`), their live status
 * (`meter_live_status`, `vehicle_live_status`) and the vehicle-to-meter
 * links (`fleet_links`), as one immutable value.
 */
module Schema {
  import opened Tables
  import opened Text

  /** A `meter_telemetry` row's non-key columns. */
  datatype MeterRow = MeterRow(kwhConsumedAc: real, voltage: real)

  /** A `meter_live_status` row's non-key columns. */
  datatype MeterLive = MeterLive(kwhConsumedAc: real, voltage: real, lastSeen: int)

  /** A `vehicle_telemetry` row's non-key columns. */
  datatype VehicleRow = VehicleRow(soc: int, kwhDeliveredDc: real, batteryTemp: real)

  /** A `vehicle_live_status` row's non-key columns. */
  datatype VehicleLive = VehicleLive(soc: int, kwhDeliveredDc: real, batteryTemp: real, lastSeen: int)

  /** The five tables; `links` maps `vehicle_id` to `meter_id`. */
  datatype Store = Store(
    meters: DeviceTables<MeterRow, MeterLive>,
    vehicles: DeviceTables<VehicleRow, VehicleLive>,
    links: map<string, string>)

  /** The tables right after the test suites' `DELETE FROM …` clean-up. */
  const Empty: Store := Store(DeviceTables(map[], map[]), DeviceTables(map[], map[]), map[])

  /** Meter history rows: non-blank meter id, non-negative AC energy, positive voltage. */
  ghost predicate ValidMeterRows(h: map<(string, int), MeterRow>) {
    forall k :: k in h ==> !Blank(k.0) && h[k].kwhConsumedAc >= 0.0 && h[k].voltage > 0.0
  }

  /** Meter live status: the same bounds as the history. */
  ghost predicate ValidMeterLive(l: map<string, MeterLive>) {
    forall m :: m in l ==> !Blank(m) && l[m].kwhConsumedAc >= 0.0 && l[m].voltage > 0.0
  }

  /** Vehicle history rows: non-blank vehicle id, non-negative DC energy, state of charge in [0, 100]. */
  ghost predicate ValidVehicleRows(h: map<(string, int), VehicleRow>) {
    forall k :: k in h ==> !Blank(k.0) && h[k].kwhDeliveredDc >= 0.0 && 0 <= h[k].soc <= 100
  }

  /** Vehicle live status: the same bounds as the history. */
  ghost predicate ValidVehicleLive(l: map<string, VehicleLive>) {
    forall v :: v in l ==> !Blank(v) && l[v].kwhDeliveredDc >= 0.0 && 0 <= l[v].soc <= 100
  }

  /** Links: both identifiers non-blank. */
  ghost predicate ValidLinks(links: map<string, string>) {
    forall v :: v in links ==> !Blank(v) && !Blank(links[v])
  }

  /** What the validators guarantee about every stored row, table by table. */
  ghost predicate Valid(s: Store) {
    && ValidMeterRows(s.meters.history) && ValidMeterLive(s.meters.live)
    && ValidVehicleRows(s.vehicles.history) && ValidVehicleLive(s.vehicles.live)
    && ValidLinks(s.links)
  }
}
