/**
 * Parsed JSON request bodies and the JavaScript operations the validators
 * apply to them: property reads, `typeof … === "object"` and truthiness.
 */
module Json {
  import opened Results

  /**
   * A value produced by `JSON.parse`. Numbers are exact reals (JSON has no
   * NaN or Infinity); an object keeps one value per key, as `JSON.parse`
   * keeps the last of duplicated keys.
   */
  datatype Json =
    | JNull
    | JBool(b: bool)
    | JNum(n: real)
    | JStr(s: string)
    | JArr(items: seq<Json>)
    | JObj(fields: map<string, Json>)

  /** `v && typeof v === "object"`: objects and arrays, but not `null`. */
  predicate IsObject(v: Json) {
    v.JObj? || v.JArr?
  }

  /**
   * Reading `v[key]` on a non-null value: the field of an object, and
   * `undefined` (None) for a missing field, an array, or a primitive.
   */
  function Prop(v: Json, key: string): (r: Option<Json>)
    ensures r.Some? <==> v.JObj? && key in v.fields
    ensures r.Some? ==> r.value == v.fields[key]
  {
    match v
    case JObj(fields) => if key in fields then Some(fields[key]) else None
    case _ => None
  }

  /** JavaScript truthiness of a property read; `undefined` is falsy. */
  predicate Truthy(p: Option<Json>) {
    match p
    case None => false
    case Some(JNull) => false
    case Some(JBool(b)) => b
    case Some(JNum(n)) => n != 0.0
    case Some(JStr(s)) => s != ""
    case Some(JArr(_)) => true
    case Some(JObj(_)) => true
  }

  /** `typeof p === "string"`, with the string. */
  predicate IsString(p: Option<Json>) {
    p.Some? && p.value.JStr?
  }

  /** `typeof p === "number"`. */
  predicate IsNumber(p: Option<Json>) {
    p.Some? && p.value.JNum?
  }

  /** `Number.isInteger(n)` for a finite number. */
  predicate IsInteger(n: real) {
    n.Floor as real == n
  }

  /** Every whole number passes `Number.isInteger`. */
  lemma WholeIsInteger(n: int)
    ensures IsInteger(n as real)
  {
    assert (n as real).Floor == n;
  }

  /** The TypeError V8 raises when a property of `null` is read. */
  function NullPropertyError(key: string): (e: JsError)
    ensures e.statusCode == None
  {
    JsError("Cannot read properties of null (reading '" + key + "')", None)
  }
}
