/** Validation of a POST /v1/links body (src/validators/links.validator.js). */
module LinksValidator {
  import opened Results
  import opened Json
  import opened Text
  import opened Validation

  const VehicleIdMessage: string := "vehicleId must be a non-empty string"
  const MeterIdMessage: string := "meterId must be a non-empty string"

  /** The cleaned link payload: both identifiers trimmed, nothing else. */
  datatype LinkPayload = LinkPayload(vehicleId: string, meterId: string)

  /** The link rules, in the order the validator pushes their messages. */
  function LinkChecks(body: Json): (checks: seq<Check>)
    ensures |checks| == 3
  {
    [ Check(IsObject(body), ObjectMessage),
      Check(NonBlankString(Prop(body, "vehicleId")), VehicleIdMessage),
      Check(NonBlankString(Prop(body, "meterId")), MeterIdMessage) ]
  }

  /**
   * `validateLinkPayload`: accepts exactly the objects whose `vehicleId` and
   * `meterId` are strings that are not blank, and returns the two trimmed
   * identifiers. On a `null` body the read of `body.vehicleId` throws a
   * TypeError.
   */
  function ValidateLinkPayload(body: Json): (r: Result<LinkPayload>)
    ensures body.JNull? ==> r == Err(NullPropertyError("vehicleId"))
    ensures r.Ok? <==>
      && body.JObj?
      && "vehicleId" in body.fields && body.fields["vehicleId"].JStr? && !Blank(body.fields["vehicleId"].s)
      && "meterId" in body.fields && body.fields["meterId"].JStr? && !Blank(body.fields["meterId"].s)
    ensures r.Ok? ==> r.value == LinkPayload(Trim(body.fields["vehicleId"].s), Trim(body.fields["meterId"].s))
    ensures r.Ok? ==> !Blank(r.value.vehicleId) && !Blank(r.value.meterId)
    ensures r.Err? && !body.JNull? ==> r.error == Rejection(LinkChecks(body))
  {
    if body.JNull? then Err(NullPropertyError("vehicleId"))
    else
      var checks := LinkChecks(body);
      if Violations(checks) != [] then Err(Rejection(checks))
      else
        assert checks[1].ok && checks[2].ok;
        var v := Prop(body, "vehicleId").value.s;
        var m := Prop(body, "meterId").value.s;
        TrimIdempotent(v);
        TrimIdempotent(m);
        Ok(LinkPayload(Trim(v), Trim(m)))
  }

  /** The cleaned payload written back as a JSON object. */
  function PayloadJson(p: LinkPayload): Json {
    JObj(map["vehicleId" := JStr(p.vehicleId), "meterId" := JStr(p.meterId)])
  }

  /** Validating an accepted payload again accepts it unchanged: trimming is idempotent. */
  lemma RevalidationIsIdentity(body: Json)
    requires ValidateLinkPayload(body).Ok?
    ensures ValidateLinkPayload(PayloadJson(ValidateLinkPayload(body).value)) == ValidateLinkPayload(body)
  {
    var p := ValidateLinkPayload(body).value;
    TrimIdempotent(body.fields["vehicleId"].s);
    TrimIdempotent(body.fields["meterId"].s);
    assert PayloadJson(p).fields["vehicleId"].s == p.vehicleId;
    assert PayloadJson(p).fields["meterId"].s == p.meterId;
  }

  /** Extra fields never reach the cleaned payload. */
  lemma ExtraFieldsDropped(fields: map<string, Json>, key: string, extra: Json)
    requires key != "vehicleId" && key != "meterId"
    ensures ValidateLinkPayload(JObj(fields[key := extra])) == ValidateLinkPayload(JObj(fields - {key}))
  {
    var a := JObj(fields[key := extra]);
    var b := JObj(fields - {key});
    assert Prop(a, "vehicleId") == Prop(b, "vehicleId");
    assert Prop(a, "meterId") == Prop(b, "meterId");
    assert LinkChecks(a) == LinkChecks(b);
  }

  /** The test body `{hello: "world"}` is refused with both messages, vehicleId's first. */
  lemma HelloWorldRejected()
    ensures ValidateLinkPayload(JObj(map["hello" := JStr("world")]))
         == Err(JsError(VehicleIdMessage + ", " + MeterIdMessage, Some(400)))
  {
    var body := JObj(map["hello" := JStr("world")]);
    assert Prop(body, "vehicleId") == None;
    assert Prop(body, "meterId") == None;
    var c := LinkChecks(body);
    assert c[0].ok && !c[1].ok && !c[2].ok;
    assert Violations(c[2..]) == [MeterIdMessage];
    assert c[1..][1..] == c[2..];
    assert Violations(c[1..]) == [VehicleIdMessage, MeterIdMessage];
  }
}
