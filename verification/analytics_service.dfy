/**
 * `getPerformance` (src/services/analytics.service.js): resolve the
 * vehicle's meter, aggregate both histories over the trailing 24 hours, and
 * combine them into one record with a division guarded against a zero AC
 * total. `now` stands for the database's `NOW()`; instants are milliseconds.
 */
module AnalyticsService {
  import opened Results
  import opened Tables
  import opened Schema
  import opened Sums

  /** `INTERVAL '24 hours'` in milliseconds. */
  const WindowMs: int := 24 * 60 * 60 * 1000

  /** `ts >= NOW() - INTERVAL '24 hours'`: inclusive lower bound, no upper bound. */
  predicate InWindow(ts: int, now: int) {
    ts >= now - WindowMs
  }

  /**
   * The rows `WHERE <device> = id AND ts >= NOW() - INTERVAL '24 hours'`,
   * each mapped to the aggregated column.
   */
  function Project<R>(hist: map<(string, int), R>, id: string, now: int, column: R -> real): (p: map<(string, int), real>)
    ensures forall k :: k in p <==> k in hist && k.0 == id && InWindow(k.1, now)
    ensures forall k :: k in p ==> p[k] == column(hist[k])
  {
    map k | k in hist && k.0 == id && InWindow(k.1, now) :: column(hist[k])
  }

  function DcColumn(r: VehicleRow): real { r.kwhDeliveredDc }
  function TempColumn(r: VehicleRow): real { r.batteryTemp }
  function AcColumn(r: MeterRow): real { r.kwhConsumedAc }

  /** `CASE WHEN total_ac = 0 THEN 0 ELSE total_dc / total_ac END`. */
  function Ratio(dc: real, ac: real): (r: real)
    ensures ac == 0.0 ==> r == 0.0
    ensures ac != 0.0 ==> r * ac == dc
    ensures dc >= 0.0 && ac >= 0.0 ==> r >= 0.0
  {
    if ac == 0.0 then 0.0 else dc / ac
  }

  /** `COALESCE(AVG(x), 0)` given the sum and the number of rows. */
  function Average(sum: real, count: nat): (a: real)
    ensures count == 0 ==> a == 0.0
    ensures count > 0 ==> a * (count as real) == sum
  {
    if count == 0 then 0.0 else sum / (count as real)
  }

  /** The query's single result row. */
  datatype PerformanceRow = PerformanceRow(
    vehicleId: string, meterId: string,
    totalAc: real, totalDc: real, efficiencyRatio: real, avgTemp: real)

  /**
   * The query's `SELECT` list over the aggregates: the echoed ids, both
   * totals, the guarded ratio and the averaged temperature.
   */
  function Combine(vehicleId: string, meterId: string, totalAc: real, totalDc: real, tempSum: real, tempCount: nat)
    : (r: PerformanceRow)
    ensures r.vehicleId == vehicleId && r.meterId == meterId
    ensures r.totalAc == totalAc && r.totalDc == totalDc
    ensures r.efficiencyRatio == Ratio(totalDc, totalAc)
    ensures r.avgTemp == Average(tempSum, tempCount)
  {
    PerformanceRow(vehicleId, meterId, totalAc, totalDc, Ratio(totalDc, totalAc), Average(tempSum, tempCount))
  }

  /**
   * The aggregate statement for a linked pair: the windowed sums (0 when no
   * row qualifies), the guarded ratio and the average temperature (0 when no
   * row qualifies).
   */
  ghost function Aggregate(vehicles: map<(string, int), VehicleRow>, meters: map<(string, int), MeterRow>,
                           vehicleId: string, meterId: string, now: int): (r: PerformanceRow)
    ensures r.vehicleId == vehicleId && r.meterId == meterId
    ensures r.efficiencyRatio == Ratio(r.totalDc, r.totalAc)
  {
    var dc := Project(vehicles, vehicleId, now, DcColumn);
    var temps := Project(vehicles, vehicleId, now, TempColumn);
    var ac := Project(meters, meterId, now, AcColumn);
    Combine(vehicleId, meterId, SumOf(ac), SumOf(dc), SumOf(temps), |temps|)
  }

  /**
   * The two SQL statements as a definition: null without a link, otherwise
   * the aggregate over the vehicle's and its meter's histories.
   */
  ghost function Performance(s: Store, vehicleId: string, now: int): (r: Option<PerformanceRow>)
    ensures r.None? <==> vehicleId !in s.links
    ensures r.Some? ==> r.value.vehicleId == vehicleId && r.value.meterId == s.links[vehicleId]
    ensures r.Some? ==> r.value.efficiencyRatio == Ratio(r.value.totalDc, r.value.totalAc)
  {
    if vehicleId !in s.links then None
    else Some(Aggregate(s.vehicles.history, s.meters.history, vehicleId, s.links[vehicleId], now))
  }

  /** Taking one row out of a table takes its value out of the window's sum and count when it lies in the window. */
  lemma ProjectRemove<R>(hist: map<(string, int), R>, k: (string, int), id: string, now: int, column: R -> real)
    requires k in hist
    ensures var p, q := Project(hist, id, now, column), Project(hist - {k}, id, now, column);
      if k.0 == id && InWindow(k.1, now)
      then SumOf(p) == column(hist[k]) + SumOf(q) && |p| == |q| + 1
      else SumOf(p) == SumOf(q) && |p| == |q|
  {
    var p, q := Project(hist, id, now, column), Project(hist - {k}, id, now, column);
    if k.0 == id && InWindow(k.1, now) {
      assert q == p - {k};
      assert (p - {k}).Keys == p.Keys - {k};
      SumOfRemove(p, k);
    } else {
      assert q == p;
    }
  }

  /** One window scan: the sum of `column` over the device's rows in the window, and how many there are. */
  method WindowSum<R>(hist: map<(string, int), R>, id: string, now: int, column: R -> real)
    returns (total: real, count: nat)
    ensures total == SumOf(Project(hist, id, now, column))
    ensures count == |Project(hist, id, now, column)|
  {
    total, count := 0.0, 0;
    var rest := hist;
    while rest != map[]
      invariant total + SumOf(Project(rest, id, now, column)) == SumOf(Project(hist, id, now, column))
      invariant count + |Project(rest, id, now, column)| == |Project(hist, id, now, column)|
      decreases |rest|
    {
      var k :| k in rest;
      ProjectRemove(rest, k, id, now, column);
      if k.0 == id && InWindow(k.1, now) {
        total := total + column(rest[k]);
        count := count + 1;
      }
      rest := rest - {k};
    }
    assert Project(rest, id, now, column) == map[];
  }

  /**
   * The `vehicle_agg` scan: one pass over the vehicle history giving the DC
   * total, the temperature total and the number of the vehicle's rows in the
   * window.
   */
  method VehicleWindow(hist: map<(string, int), VehicleRow>, id: string, now: int)
    returns (dc: real, temp: real, count: nat)
    ensures dc == SumOf(Project(hist, id, now, DcColumn))
    ensures temp == SumOf(Project(hist, id, now, TempColumn))
    ensures count == |Project(hist, id, now, TempColumn)|
  {
    dc, temp, count := 0.0, 0.0, 0;
    var rest := hist;
    while rest != map[]
      invariant dc + SumOf(Project(rest, id, now, DcColumn)) == SumOf(Project(hist, id, now, DcColumn))
      invariant temp + SumOf(Project(rest, id, now, TempColumn)) == SumOf(Project(hist, id, now, TempColumn))
      invariant count + |Project(rest, id, now, TempColumn)| == |Project(hist, id, now, TempColumn)|
      decreases |rest|
    {
      var k :| k in rest;
      ProjectRemove(rest, k, id, now, DcColumn);
      ProjectRemove(rest, k, id, now, TempColumn);
      if k.0 == id && InWindow(k.1, now) {
        dc := dc + rest[k].kwhDeliveredDc;
        temp := temp + rest[k].batteryTemp;
        count := count + 1;
      }
      rest := rest - {k};
    }
    assert Project(rest, id, now, DcColumn) == map[];
    assert Project(rest, id, now, TempColumn) == map[];
  }

  /**
   * `getPerformance`: resolves the link, then scans the vehicle history once
   * and the meter history once, and agrees with the definition above on
   * every store.
   */
  method GetPerformance(s: Store, vehicleId: string, now: int) returns (r: Option<PerformanceRow>)
    ensures r == Performance(s, vehicleId, now)
    ensures r.None? <==> vehicleId !in s.links
  {
    if vehicleId !in s.links {
      return None;
    }
    var meterId := s.links[vehicleId];
    var dc, temp, n := VehicleWindow(s.vehicles.history, vehicleId, now);
    var ac, _ := WindowSum(s.meters.history, meterId, now, AcColumn);
    r := Some(Combine(vehicleId, meterId, ac, dc, temp, n));
  }

  /**
   * The window is `now - 24h <= ts` with no upper bound: a row exactly 24
   * hours old is counted, one a millisecond older is not, and a row dated
   * after `now` is counted.
   */
  lemma WindowBounds(hist: map<(string, int), VehicleRow>, id: string, now: int)
    ensures (id, now - WindowMs) in hist ==> (id, now - WindowMs) in Project(hist, id, now, DcColumn)
    ensures (id, now - WindowMs - 1) !in Project(hist, id, now, DcColumn)
    ensures forall t :: t > now && (id, t) in hist ==> (id, t) in Project(hist, id, now, DcColumn)
  {
  }

  /** On a store of validated readings the totals, and therefore the ratio, are never negative. */
  lemma RatioNonNegative(s: Store, vehicleId: string, now: int)
    requires Valid(s) && vehicleId in s.links
    ensures Performance(s, vehicleId, now).value.totalAc >= 0.0
    ensures Performance(s, vehicleId, now).value.totalDc >= 0.0
    ensures Performance(s, vehicleId, now).value.efficiencyRatio >= 0.0
  {
    var meterId := s.links[vehicleId];
    SumOfNonNegative(Project(s.vehicles.history, vehicleId, now, DcColumn));
    SumOfNonNegative(Project(s.meters.history, meterId, now, AcColumn));
  }

  /** A linked meter with no AC reading in the window yields ratio 0, whatever the vehicle delivered. */
  lemma ZeroAcGivesZeroRatio(s: Store, vehicleId: string, now: int)
    requires vehicleId in s.links
    requires forall k :: k in s.meters.history && k.0 == s.links[vehicleId] ==> !InWindow(k.1, now)
    ensures Performance(s, vehicleId, now).value.totalAc == 0.0
    ensures Performance(s, vehicleId, now).value.efficiencyRatio == 0.0
  {
    assert Project(s.meters.history, s.links[vehicleId], now, AcColumn) == map[];
  }
}
