/** Failure-carrying values shared by the validators, services and controllers. */
module Results {

  /** A value that may be missing: SQL NULL, an undefined property, a lookup miss. */
  datatype Option<+T> = None | Some(value: T)

  /**
   * A thrown JavaScript `Error`: its `message` and, when the thrower set one,
   * its `statusCode` property. Errors raised by the language runtime (a
   * TypeError) or by the type probe carry no status code.
   */
  datatype JsError = JsError(message: string, statusCode: Option<int>)

  /** The outcome of a call that either returns a value or throws a `JsError`. */
  datatype Result<+T> = Ok(value: T) | Err(error: JsError)

  /** The status code every validator attaches to the error it throws. */
  const BadRequest: int := 400
}
