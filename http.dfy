/**
 * How a handler ends, in Express terms. A handler either answers with a
 * status and a value, or it fails: it set `res.status(preset)` (200 when it
 * did not) and then threw or passed an error to `next`. The central error
 * handler (module ErrorMiddleware) turns a failure into the JSON response.
 */
module Http {
  import opened Js

  /** The fields of a thrown error that the error handler inspects. */
  datatype JsError = JsError(
    name: string,                     // err.name
    message: string,                  // err.message ("" when absent)
    kind: string,                     // CastError: err.kind
    value: string,                    // CastError: err.value
    code: Option<int>,                // MongoServerError: err.code
    keyValue: seq<(string, string)>,  // duplicate key: Object.entries(err.keyValue)
    errors: seq<string>,              // ValidationError: messages of err.errors, in path order
    statusCode: Option<int>)          // ErrorResponse: err.statusCode

  /** `new Error(message)` */
  function PlainError(message: string): JsError
  {
    JsError("Error", message, "", "", None, [], [], None)
  }

  /** `new ErrorResponse(message, statusCode)` of the authentication middleware. */
  function StatusError(message: string, statusCode: int): JsError
  {
    JsError("Error", message, "", "", None, [], [], Some(statusCode))
  }

  /** One failed schema validator: the path and its message. */
  type Violation = (string, string)

  function Check(failed: bool, path: string, message: string): seq<Violation>
  {
    if failed then [(path, message)] else []
  }

  function Describe(vs: seq<Violation>): seq<string>
  {
    if vs == [] then [] else [vs[0].0 + ": " + vs[0].1] + Describe(vs[1..])
  }

  function Messages(vs: seq<Violation>): (ms: seq<string>)
    ensures |ms| == |vs|
    ensures forall i :: 0 <= i < |vs| ==> ms[i] == vs[i].1
  {
    if vs == [] then [] else [vs[0].1] + Messages(vs[1..])
  }

  /** The ValidationError Mongoose raises when a document fails its schema. */
  function ValidationError(model: string, vs: seq<Violation>): JsError
  {
    JsError("ValidationError", model + " validation failed: " + Join(Describe(vs), ", "),
            "", "", None, [], Messages(vs), None)
  }

  /** The error of a write that breaks a unique index. */
  function DuplicateKeyError(field: string, value: string): JsError
  {
    JsError("MongoServerError", "E11000 duplicate key error", "", "", Some(11000),
            [(field, value)], [], None)
  }

  /** The error `findById` raises for an id that is not an ObjectId. */
  function ObjectIdCastError(value: string): JsError
  {
    JsError("CastError", "Cast to ObjectId failed for value \"" + value + "\"",
            "ObjectId", value, None, [], [], None)
  }

  /** The validators of a required String path with a `maxlength`: the
      `required` message for the empty string, otherwise the `maxlength`
      message when the value is longer than `max` UTF-16 code units. */
  function RequiredWithMax(path: string, value: string, max: int, missing: string, tooLong: string)
    : (vs: seq<Violation>)
    ensures vs == [] <==> value != "" && Length(value) <= max
    ensures value == "" ==> vs == [(path, missing)]
    ensures value != "" && Length(value) > max ==> vs == [(path, tooLong)]
  {
    if value == "" then [(path, missing)] else Check(Length(value) > max, path, tooLong)
  }

  /** The path a record keeps for a file multer stored under `dir`: the
      directory followed by the stored name. */
  function StoredPath(dir: string, filename: string): (p: string)
    ensures |p| == |dir| + |filename|
    ensures p[..|dir|] == dir && p[|dir|..] == filename
  {
    dir + filename
  }

  /** The path a record keeps for an optional upload stored under `dir`
      (`req.file ? dir + req.file.filename : null`). */
  function UploadedPath(dir: string, file: Option<string>): (r: Option<string>)
    ensures file.None? <==> r.None?
    ensures file.Some? ==> r == Some(StoredPath(dir, file.value))
  {
    if file.Some? then Some(StoredPath(dir, file.value)) else None
  }

  datatype Outcome<+T> = Ok(status: int, value: T) | Fail(preset: int, error: JsError)

  /** `res.status(status); throw new Error(message);` */
  function Throw<T>(status: int, message: string): Outcome<T>
  {
    Fail(status, PlainError(message))
  }

  /** `next(error)` or an exception, with no status set on the response. */
  function Forward<T>(error: JsError): Outcome<T>
  {
    Fail(200, error)
  }
}
