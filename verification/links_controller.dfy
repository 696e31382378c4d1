/**
 * `LinksController` (src/controllers/links.controller.js): POST /v1/links,
 * GET /v1/links/:vehicleId and GET /v1/links. A failure of the upsert
 * statement is the parameter `fault`: the driver's error message, if any.
 */
module LinksController {
  import opened Results
  import opened Json
  import opened Http
  import Validation
  import opened Schema
  import opened LinksValidator
  import opened LinksService

  const Created201: int := 201
  const NotFound404: int := 404

  /** `{vehicleId, meterId}`, the shape of a link in every answer. */
  function LinkJson(row: LinkRow): Json {
    JObj(map["vehicleId" := JStr(row.vehicleId), "meterId" := JStr(row.meterId)])
  }

  /** Reads a link back from its JSON shape. */
  function LinkOf(j: Json): (r: Option<LinkRow>)
    ensures r.Some? <==> (j.JObj? && "vehicleId" in j.fields && j.fields["vehicleId"].JStr?
                          && "meterId" in j.fields && j.fields["meterId"].JStr?)
  {
    if j.JObj? && "vehicleId" in j.fields && j.fields["vehicleId"].JStr?
       && "meterId" in j.fields && j.fields["meterId"].JStr?
    then Some(LinkRow(j.fields["vehicleId"].s, j.fields["meterId"].s))
    else None
  }

  /** Every link the controllers write can be read back unchanged. */
  lemma LinkJsonRoundTrip(row: LinkRow)
    ensures LinkOf(LinkJson(row)) == Some(row)
  {
  }

  /** `{message: "Link saved", vehicleId, meterId}`. */
  function SavedBody(row: LinkRow): Json {
    JObj(map["message" := JStr("Link saved"), "vehicleId" := JStr(row.vehicleId), "meterId" := JStr(row.meterId)])
  }

  const LinkNotFound: Response := Response(NotFound404, JObj(map["error" := JStr("Link not found")]))

  /** What `create` does once the validator has answered `v`. */
  function CreateFrom(s: Store, v: Result<LinkPayload>, fault: Option<string>): (r: (Store, Response))
    requires v.Err? ==> v.error.statusCode in {None, Some(BadRequest)}
    ensures v.Err? ==> r == (s, InvalidPayload(v.error))
    ensures v.Ok? && fault.None? ==>
      && r.0 == UpsertLink(s, v.value.vehicleId, v.value.meterId).0
      && r.1 == Response(Created201, SavedBody(LinkRow(v.value.vehicleId, v.value.meterId)))
    ensures fault.Some? ==> r.0 == s
    ensures r.1.status == Created201 <==> v.Ok? && fault.None?
    ensures r.1.status != Created201 ==>
      && r.0 == s && r.1.status == BadRequest
      && r.1.body.JObj? && "error" in r.1.body.fields && r.1.body.fields["error"] == JStr("Invalid payload")
  {
    match v
    case Err(e) => (s, InvalidPayload(e))
    case Ok(p) =>
      if fault.Some? then (s, InvalidPayload(JsError(fault.value, None)))
      else
        var (next, saved) := UpsertLink(s, p.vehicleId, p.meterId);
        (next, Response(Created201, SavedBody(saved)))
  }

  /**
   * `create`: validate, then upsert. A rejected body and a failed upsert
   * write nothing and answer "Invalid payload" with status 400 (the
   * validator's statusCode, or the fallback for the driver's errors, which
   * have none); a saved link answers 201 with the stored pair.
   */
  function Create(s: Store, body: Json, fault: Option<string>): (r: (Store, Response))
    ensures ValidateLinkPayload(body).Err? ==> r == (s, InvalidPayload(ValidateLinkPayload(body).error))
    ensures ValidateLinkPayload(body).Ok? && fault.None? ==>
      var p := ValidateLinkPayload(body).value;
      && r.0 == UpsertLink(s, p.vehicleId, p.meterId).0
      && r.1 == Response(Created201, SavedBody(LinkRow(p.vehicleId, p.meterId)))
    ensures fault.Some? ==> r.0 == s
    ensures r.1.status == Created201 <==> ValidateLinkPayload(body).Ok? && fault.None?
    ensures r.1.status != Created201 ==>
      && r.0 == s && r.1.status == BadRequest
      && r.1.body.JObj? && "error" in r.1.body.fields && r.1.body.fields["error"] == JStr("Invalid payload")
  {
    var v := ValidateLinkPayload(body);
    assert v.Err? ==> v.error.statusCode in {None, Some(BadRequest)} by {
      if v.Err? && !body.JNull? {
        assert v.error == Validation.Rejection(LinkChecks(body));
      }
    }
    CreateFrom(s, v, fault)
  }

  /** `get`: 404 "Link not found" for an unlinked vehicle, otherwise 200 with its pair. */
  function Get(s: Store, vehicleId: string): (r: Response)
    ensures vehicleId !in s.links <==> r == LinkNotFound
    ensures vehicleId in s.links ==> r.status == Ok200 && LinkOf(r.body) == Some(LinkRow(vehicleId, s.links[vehicleId]))
  {
    match GetLink(s, vehicleId)
    case None => LinkNotFound
    case Some(row) => Response(Ok200, LinkJson(row))
  }

  /** `{count, links}` for the given rows, in their order. */
  function ListBody(rows: seq<LinkRow>): (j: Json)
    ensures j.JObj? && "count" in j.fields && "links" in j.fields && j.fields["links"].JArr?
    ensures j.fields["count"] == JNum(|rows| as real)
    ensures |j.fields["links"].items| == |rows|
    ensures forall i :: 0 <= i < |rows| ==> LinkOf(j.fields["links"].items[i]) == Some(rows[i])
  {
    JObj(map["count" := JNum(|rows| as real), "links" := JArr(seq(|rows|, i requires 0 <= i < |rows| => LinkJson(rows[i])))])
  }

  /**
   * `list`: 200 with the number of links and every link exactly once,
   * ascending by vehicle id. The listing is the unique sorted listing of
   * the link table (`SortedListingUnique`), so the answer is determined by
   * the store.
   */
  method List(s: Store) returns (r: Response, rows: seq<LinkRow>)
    ensures IsSortedListing(s.links, rows)
    ensures r == Response(Ok200, ListBody(rows))
    ensures r.body.fields["count"] == JNum(|s.links| as real)
  {
    rows := ListLinks(s);
    r := Response(Ok200, ListBody(rows));
  }

  /** After a successful `create`, `get` answers 200 with the trimmed pair that was sent. */
  lemma CreateThenGet(s: Store, body: Json)
    requires ValidateLinkPayload(body).Ok?
    ensures var p := ValidateLinkPayload(body).value;
      Get(Create(s, body, None).0, p.vehicleId) == Response(Ok200, LinkJson(LinkRow(p.vehicleId, p.meterId)))
  {
  }

  /** `{hello: "world"}` is refused with 400 and both messages, and the links are untouched. */
  lemma HelloWorldCreateRejected(s: Store, fault: Option<string>)
    ensures var r := Create(s, JObj(map["hello" := JStr("world")]), fault);
      && r.0 == s
      && r.1.status == BadRequest
      && r.1.body.fields["message"] == JStr(VehicleIdMessage + ", " + MeterIdMessage)
  {
    var body := JObj(map["hello" := JStr("world")]);
    HelloWorldRejected();
    var e := JsError(VehicleIdMessage + ", " + MeterIdMessage, Some(400));
    assert Create(s, body, fault) == (s, InvalidPayload(e));
    assert InvalidPayload(e).body.fields["message"] == JStr(e.message);
  }

  /** Every `create`, accepted or refused, leaves a valid store valid. */
  lemma CreatePreservesValid(s: Store, body: Json, fault: Option<string>)
    requires Valid(s)
    ensures Valid(Create(s, body, fault).0)
  {
    var v := ValidateLinkPayload(body);
    if v.Ok? && fault.None? {
      UpsertLinkPreservesValid(s, v.value.vehicleId, v.value.meterId);
    }
  }
}
