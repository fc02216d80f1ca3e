/**
 * What travels between the client and the handlers: JSON request bodies,
 * JavaScript truthiness of their values, and the errors a handler raises
 * after `res.status(n)`.
 */
module Http {
  import opened Wrappers

  /** A value of a JSON request body: a string or `null` (other JSON types are not modelled). */
  datatype Value = Str(s: string) | Null

  /** A parsed JSON object body, `req.body`. */
  type Body = map<string, Value>

  /**
   * A handler failure. `Http` is the `res.status(n); throw new Error(message)`
   * pattern; `SchemaViolation` is a validation or cast error raised by the
   * schema layer, whose status code the error middleware decides.
   */
  datatype Error = Http(status: nat, message: string) | SchemaViolation(path: string)

  /** `body[key]`, `undefined` being `None`. */
  function Field(body: Body, key: string): (r: Option<Value>)
    ensures r.Some? <==> key in body
    ensures r.Some? ==> r.value == body[key]
  {
    if key in body then Some(body[key]) else None
  }

  /** JavaScript truthiness of an optional string or JSON value. */
  predicate NonEmpty(s: Option<string>) {
    s.Some? && s.value != ""
  }

  predicate Truthy(v: Option<Value>) {
    v.Some? && v.value.Str? && v.value.s != ""
  }
}
