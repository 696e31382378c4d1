/**
 * The pattern both hand-written validators follow: run every field check in
 * order, collect the messages of the failed ones, and throw one error whose
 * message is those messages joined by ", " and whose statusCode is 400.
 */
module Validation {
  import opened Results
  import opened Json
  import opened Text

  /** One field rule: whether it holds, and the message pushed when it does not. */
  datatype Check = Check(ok: bool, message: string)

  /** The message pushed by every validator when the body is not an object. */
  const ObjectMessage: string := "Body must be a JSON object"

  /** The `errors` array after all checks ran: the failed checks' messages, in check order. */
  function Violations(checks: seq<Check>): (r: seq<string>)
    ensures |r| <= |checks|
    ensures r == [] <==> forall i :: 0 <= i < |checks| ==> checks[i].ok
    ensures forall m :: m in r ==> exists i :: 0 <= i < |checks| && !checks[i].ok && checks[i].message == m
    ensures forall i :: 0 <= i < |checks| && !checks[i].ok ==> checks[i].message in r
  {
    if checks == [] then []
    else if checks[0].ok then Violations(checks[1..])
    else [checks[0].message] + Violations(checks[1..])
  }

  /**
   * The messages keep the order of the checks: the violations of two runs
   * of checks, one after the other, are those of the first run followed by
   * those of the second.
   */
  lemma {:induction false} ViolationsAppend(a: seq<Check>, b: seq<Check>)
    ensures Violations(a + b) == Violations(a) + Violations(b)
    decreases |a|
  {
    if a != [] {
      assert (a + b)[0] == a[0];
      assert (a + b)[1..] == a[1..] + b;
      ViolationsAppend(a[1..], b);
    } else {
      assert a + b == b;
    }
  }

  /** When exactly one check fails, the error lists exactly its message. */
  lemma {:induction false} SingleViolation(checks: seq<Check>, k: int)
    requires 0 <= k < |checks| && !checks[k].ok
    requires forall i :: 0 <= i < |checks| && i != k ==> checks[i].ok
    ensures Violations(checks) == [checks[k].message]
    decreases |checks|
  {
    if k > 0 {
      SingleViolation(checks[1..], k - 1);
    } else {
      assert forall i :: 0 <= i < |checks[1..]| ==> checks[1..][i].ok by {
        forall i | 0 <= i < |checks[1..]|
          ensures checks[1..][i].ok
        {
          assert checks[1..][i] == checks[i + 1];
        }
      }
    }
  }

  /** The error a validator throws for the given checks: statusCode 400 and the joined messages. */
  function Rejection(checks: seq<Check>): (e: JsError)
    ensures e.statusCode == Some(BadRequest)
  {
    JsError(Join(Violations(checks), ", "), Some(BadRequest))
  }

  /** `typeof p === "string" && p.trim() !== ""`. */
  predicate NonBlankString(p: Option<Json>) {
    p.Some? && p.value.JStr? && !Blank(p.value.s)
  }
}
