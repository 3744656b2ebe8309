/**
 * The central Express error handler: picks the status and the message of the
 * JSON error response. Each later test overrides what an earlier one chose,
 * and an error that carries its own `statusCode` overrides all of them.
 */
module ErrorMiddleware {
  import opened Js
  import opened Http

  datatype ErrorBody = ErrorBody(status: int, success: bool, error: string, stack: Option<string>)

  const DefaultMessage := "Internal Server Error"

  /** `if (err.statusCode)`: a present, non-zero status code. */
  predicate HasStatusCode(err: JsError)
  {
    err.statusCode.Some? && err.statusCode.value != 0
  }

  predicate IsObjectIdCast(err: JsError)
  {
    err.name == "CastError" && err.kind == "ObjectId"
  }

  predicate IsDuplicateKey(err: JsError)
  {
    err.code == Some(11000)
  }

  predicate IsValidation(err: JsError)
  {
    err.name == "ValidationError"
  }

  /** The duplicate-key message names the first key of `err.keyValue`;
      with no key both placeholders print as `undefined`. */
  function DuplicateMessage(kv: seq<(string, string)>): string
  {
    var field := if kv == [] then "undefined" else kv[0].0;
    var value := if kv == [] then "undefined" else kv[0].1;
    "Duplicate field value entered: '" + value + "' for field '" + field + "'. Please use another value."
  }

  /** The first line of `err.stack` (the frames below it are not modelled). */
  function StackOf(err: JsError): string
  {
    err.name + ": " + err.message
  }

  function ErrorHandler(err: JsError, resStatus: int, production: bool): (r: ErrorBody)
    ensures !r.success
    ensures r.stack.None? <==> production
    ensures HasStatusCode(err) ==> r.status == err.statusCode.value && r.error == err.message
    ensures !HasStatusCode(err) && IsValidation(err) ==>
              r.status == 400 && r.error == "Invalid input data: " + Join(err.errors, ". ")
    ensures !HasStatusCode(err) && !IsValidation(err) && IsDuplicateKey(err) ==>
              r.status == 400 && r.error == DuplicateMessage(err.keyValue)
    ensures !HasStatusCode(err) && !IsValidation(err) && !IsDuplicateKey(err) && IsObjectIdCast(err) ==>
              r.status == 404 && r.error == "Resource not found. Invalid ID format used: " + err.value
    ensures !HasStatusCode(err) && !IsValidation(err) && !IsDuplicateKey(err) && !IsObjectIdCast(err) ==>
              r.status == (if resStatus == 200 then 500 else resStatus) &&
              r.error == (if err.message == "" then DefaultMessage else err.message)
  {
    var status0 := if resStatus == 200 then 500 else resStatus;
    var message0 := if err.message != "" then err.message else DefaultMessage;
    var (status1, message1) :=
      if IsObjectIdCast(err) then (404, "Resource not found. Invalid ID format used: " + err.value)
      else (status0, message0);
    var (status2, message2) :=
      if IsDuplicateKey(err) then (400, DuplicateMessage(err.keyValue)) else (status1, message1);
    var (status3, message3) :=
      if IsValidation(err) then (400, "Invalid input data: " + Join(err.errors, ". "))
      else (status2, message2);
    var (status4, message4) :=
      if HasStatusCode(err) then (err.statusCode.value, err.message) else (status3, message3);
    ErrorBody(status4, false, message4, if production then None else Some(StackOf(err)))
  }

  /** The error response a failed handler outcome produces. */
  function Respond<T>(o: Outcome<T>, production: bool): (r: ErrorBody)
    requires o.Fail?
    ensures !r.success && (r.stack.None? <==> production)
    ensures HasStatusCode(o.error) ==> r.status == o.error.statusCode.value && r.error == o.error.message
    ensures !HasStatusCode(o.error) && (IsValidation(o.error) || IsDuplicateKey(o.error)) ==> r.status == 400
    ensures !HasStatusCode(o.error) && !IsValidation(o.error) && !IsDuplicateKey(o.error) && IsObjectIdCast(o.error) ==>
              r.status == 404
    ensures !HasStatusCode(o.error) && !IsValidation(o.error) && !IsDuplicateKey(o.error) && !IsObjectIdCast(o.error) ==>
              r.status == (if o.preset == 200 then 500 else o.preset)
  {
    ErrorHandler(o.error, o.preset, production)
  }

  /** The handlers' idiom `res.status(s); throw new Error(m)` answers with
      exactly that status and message. */
  lemma ThrowAnswersAsSet<T>(s: int, m: string, production: bool)
    requires s != 200 && m != ""
    ensures Respond(Throw<T>(s, m), production).status == s
    ensures Respond(Throw<T>(s, m), production).error == m
  {
  }

  /** An error forwarded with no status set and no specific kind is a 500. */
  lemma ForwardedPlainIs500<T>(m: string, production: bool)
    ensures Respond(Forward<T>(PlainError(m)), production).status == 500
  {
  }

  /** A schema validation failure is a 400 whatever status was preset. */
  lemma ValidationIs400(model: string, vs: seq<Violation>, preset: int, production: bool)
    ensures ErrorHandler(ValidationError(model, vs), preset, production).status == 400
    ensures ErrorHandler(ValidationError(model, vs), preset, production).error
            == "Invalid input data: " + Join(Messages(vs), ". ")
  {
  }

  /** A unique-index violation is a 400 naming the field and the value. */
  lemma DuplicateIs400(field: string, value: string, preset: int, production: bool)
    ensures ErrorHandler(DuplicateKeyError(field, value), preset, production).status == 400
    ensures ErrorHandler(DuplicateKeyError(field, value), preset, production).error
            == "Duplicate field value entered: '" + value + "' for field '" + field + "'. Please use another value."
  {
  }

  /** The authentication middleware's ErrorResponse keeps its own status,
      whatever status the response had. */
  lemma StatusCodeWins(m: string, code: int, preset: int, production: bool)
    requires code != 0
    ensures ErrorHandler(StatusError(m, code), preset, production).status == code
    ensures ErrorHandler(StatusError(m, code), preset, production).error == m
  {
  }
}
