/**
 * `AnalyticsController.performance` (src/controllers/analytics.controller.js):
 * GET /v1/analytics/performance/:vehicleId over the service's record.
 */
module AnalyticsController {
  import opened Results
  import opened Json
  import opened Http
  import opened Schema
  import AnalyticsService

  const NotFound404: int := 404

  const NotLinked: Response := Response(NotFound404, JObj(map["error" := JStr("Vehicle not linked to a meter")]))

  /** The label every success answer carries: the window is fixed at 24 hours. */
  const WindowLabel: string := "24h"

  /**
   * The answer for the service's result: 404 "Vehicle not linked to a
   * meter" for null, otherwise 200 with the ids, the "24h" label and the
   * four figures under their response names.
   */
  function PerformanceResponse(data: Option<AnalyticsService.PerformanceRow>): (r: Response)
    ensures data.None? <==> r == NotLinked
    ensures data.Some? ==>
      && r.status == Ok200 && r.body.JObj?
      && r.body.fields.Keys == {"vehicleId", "meterId", "window", "totalAcConsumed",
                                "totalDcDelivered", "efficiencyRatio", "avgBatteryTemp"}
      && r.body.fields["window"] == JStr(WindowLabel)
  {
    match data
    case None => NotLinked
    case Some(row) =>
      Response(Ok200, JObj(map[
        "vehicleId" := JStr(row.vehicleId),
        "meterId" := JStr(row.meterId),
        "window" := JStr(WindowLabel),
        "totalAcConsumed" := JNum(row.totalAc),
        "totalDcDelivered" := JNum(row.totalDc),
        "efficiencyRatio" := JNum(row.efficiencyRatio),
        "avgBatteryTemp" := JNum(row.avgTemp)]))
  }

  /** Reads the record back from a success answer. */
  function RowOf(body: Json): (r: Option<AnalyticsService.PerformanceRow>)
    ensures r.Some? ==> body.JObj?
  {
    if body.JObj? && "vehicleId" in body.fields && body.fields["vehicleId"].JStr?
       && "meterId" in body.fields && body.fields["meterId"].JStr?
       && "totalAcConsumed" in body.fields && body.fields["totalAcConsumed"].JNum?
       && "totalDcDelivered" in body.fields && body.fields["totalDcDelivered"].JNum?
       && "efficiencyRatio" in body.fields && body.fields["efficiencyRatio"].JNum?
       && "avgBatteryTemp" in body.fields && body.fields["avgBatteryTemp"].JNum?
    then Some(AnalyticsService.PerformanceRow(
      body.fields["vehicleId"].s, body.fields["meterId"].s,
      body.fields["totalAcConsumed"].n, body.fields["totalDcDelivered"].n,
      body.fields["efficiencyRatio"].n, body.fields["avgBatteryTemp"].n))
    else None
  }

  /** A success answer carries the whole record: every figure reads back as the service computed it. */
  lemma ResponseCarriesRow(row: AnalyticsService.PerformanceRow)
    ensures RowOf(PerformanceResponse(Some(row)).body) == Some(row)
  {
  }

  /**
   * `performance`: 404 exactly when the vehicle has no link, otherwise 200
   * with the ids echoed and the record of the trailing 24 hours as of `now`.
   */
  method Performance(s: Store, vehicleId: string, now: int) returns (r: Response)
    ensures r == PerformanceResponse(AnalyticsService.Performance(s, vehicleId, now))
    ensures r == NotLinked <==> vehicleId !in s.links
    ensures vehicleId in s.links ==>
      && r.status == Ok200
      && RowOf(r.body) == AnalyticsService.Performance(s, vehicleId, now)
      && r.body.fields["vehicleId"] == JStr(vehicleId)
      && r.body.fields["meterId"] == JStr(s.links[vehicleId])
  {
    var data := AnalyticsService.GetPerformance(s, vehicleId, now);
    r := PerformanceResponse(data);
    if data.Some? {
      ResponseCarriesRow(data.value);
    }
  }
}
