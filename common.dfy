/** Values shared by every handler: optional values, request fields as JSON
    delivers them, and the HTTP error outcomes the controllers return. */
module Common {

  datatype Option<+T> = None | Some(value: T)

  /** A field of a request body. JavaScript distinguishes a missing key
      (`undefined`), an explicit `null` and a supplied value; the controllers
      test each of these differently. */
  datatype Field<+T> = Absent | Null | Given(value: T)

  /** `field !== undefined` */
  predicate Defined<T>(f: Field<T>) {
    !f.Absent?
  }

  /** JavaScript truthiness of a string field: supplied and not "". */
  predicate TruthyStr(f: Field<string>) {
    f.Given? && f.value != ""
  }

  /** JavaScript truthiness of a number field: supplied and not 0. A
      `Field<nat>` is a `Field<int>`, so ids use it too. */
  predicate TruthyInt(f: Field<int>) {
    f.Given? && f.value != 0
  }

  /** The value a `$set` / `SET col = ?` stores for a defined field:
      `null` stores null, a value stores itself. */
  function Stored<T>(f: Field<T>): (r: Option<T>)
    requires Defined(f)
    ensures r.None? <==> f.Null?
    ensures r.Some? ==> r.value == f.value
  {
    if f.Given? then Some(f.value) else None
  }

  /** `value || null` for a string: only a truthy value survives. */
  function OrNullStr(f: Field<string>): (r: Option<string>)
    ensures r.Some? <==> TruthyStr(f)
    ensures r.Some? ==> r.value == f.value
  {
    if TruthyStr(f) then Some(f.value) else None
  }

  /** `value || null` for a number. */
  function OrNullInt(f: Field<int>): (r: Option<int>)
    ensures r.Some? <==> TruthyInt(f)
    ensures r.Some? ==> r.value == f.value
  {
    if TruthyInt(f) then Some(f.value) else None
  }

  /** `value || null` for an id: the same test as `OrNullInt`. It is kept
      apart because its result fills a `nat` column (a record's
      `appointment_id`), and an `Option<int>` cannot be passed there. */
  function OrNullNat(f: Field<nat>): (r: Option<nat>)
    ensures r.Some? <==> TruthyInt(f)
    ensures r.Some? ==> r.value == f.value
  {
    if TruthyInt(f) then Some(f.value) else None
  }

  /** `value !== undefined && value !== null ? value : null`: every supplied
      value survives, 0 included. */
  function GivenOrNull<T>(f: Field<T>): (r: Option<T>)
    ensures r.Some? <==> f.Given?
    ensures r.Some? ==> r.value == f.value
  {
    if f.Given? then Some(f.value) else None
  }

  /** A nullable column that a handler overwrites only when the field is defined. */
  function Patched<T>(current: Option<T>, f: Field<T>): (r: Option<T>)
    ensures !Defined(f) ==> r == current
    ensures Defined(f) ==> r == Stored(f)
  {
    if Defined(f) then Stored(f) else current
  }

  /** The error responses of the controllers, with their messages. */
  datatype Error =
    | Invalid(errors: seq<string>)   // 400, the route validators' messages
    | BadRequest(message: string)    // 400
    | Unauthorized(message: string)  // 401
    | Forbidden(message: string)     // 403
    | NotFound(message: string)      // 404
    | ServerError(message: string)   // 500, an exception caught by the handler

  /** The message every catch block answers with. */
  const ServerFault: string := "Server error"

  datatype Result<+T> = Ok(value: T) | Err(error: Error)
}
