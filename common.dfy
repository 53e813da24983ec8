/** Values shared by the controllers: optional values, error kinds, and the
    request-body values the handlers inspect. */
module Common {

  datatype Option<+T> = None | Some(value: T)

  /** The answers a handler gives other than success, with their HTTP status:
      Validation 400, Forbidden 403, NotFound 404, Internal 500 (the catch
      block, reached here only when the database refuses a statement). */
  datatype Error = Validation | Forbidden | NotFound | Internal

  datatype Result<+T> = Ok(value: T) | Err(error: Error)

  /** One property of a JSON request body as a handler reads it: absent
      (`undefined`), an explicit `null`, or a string. */
  datatype Json = Undefined | Null | Str(s: string)

  /** JavaScript truthiness of a body property: only a non-empty string. */
  predicate Truthy(v: Json)
  {
    v.Str? && v.s != ""
  }

  /** `v || null` as the value of a nullable column: a falsy value is stored as NULL. */
  function OrNull(v: Json): Option<string>
  {
    if Truthy(v) then Some(v.s) else None
  }

  /** The SQL value a bound parameter becomes: node-postgres sends `null`
      and `undefined` alike as NULL. */
  function Bound(v: Json): Option<string>
  {
    if v.Str? then Some(v.s) else None
  }
}
