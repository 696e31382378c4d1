/** What a controller hands to Express: a status code and a JSON body. */
module Http {
  import opened Results
  import opened Json

  datatype Response = Response(status: int, body: Json)

  /** Status code Express uses for `res.json(...)` without an explicit `res.status`. */
  const Ok200: int := 200

  /**
   * The `catch` block shared by the ingest and link-create handlers:
   * status `err.statusCode || 400`, body `{error: "Invalid payload",
   * message: err.message || "Bad Request"}`. The client never sees status
   * 0 or an empty message: a falsy status code (absent or 0) becomes 400,
   * and a falsy message becomes "Bad Request".
   */
  function InvalidPayload(e: JsError): (r: Response)
    ensures r.body.JObj? && r.body.fields.Keys == {"error", "message"}
    ensures r.body.fields["error"] == JStr("Invalid payload")
    ensures r.status != 0
    ensures r.body.fields["message"].JStr? && r.body.fields["message"].s != ""
    ensures e.statusCode == None || e.statusCode == Some(0) ==> r.status == 400
    ensures e.statusCode.Some? && e.statusCode.value != 0 ==> r.status == e.statusCode.value
    ensures e.message != "" ==> r.body.fields["message"] == JStr(e.message)
    ensures e.message == "" ==> r.body.fields["message"] == JStr("Bad Request")
  {
    var status := if e.statusCode.Some? && e.statusCode.value != 0 then e.statusCode.value else 400;
    var message := if e.message != "" then e.message else "Bad Request";
    Response(status, JObj(map["error" := JStr("Invalid payload"), "message" := JStr(message)]))
  }
}
