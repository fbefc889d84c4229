/**
 * The handlers' error type and its HTTP response (src/error.rs): a missing
 * record is a 404, anything else a 500, each with a fixed body that never
 * carries the underlying error's text.
 */
module Errors {
  import Orders
  import opened Wrappers

  const OK: int := 200
  const NOT_FOUND: int := 404
  const INTERNAL_SERVER_ERROR: int := 500

  const NotFoundBody: string := "404 Record not found"
  const OtherBody: string := "Something went wrong!"

  /** `CustomError`: a lookup that found nothing, or any failure underneath. */
  datatype CustomError = RecordNotFound | Other(cause: Orders.EngineError)

  /** The `#[from]` conversion: every underlying error becomes `Other`, keeping it as its cause. */
  function FromEngine(e: Orders.EngineError): (c: CustomError)
    ensures c.Other? && c.cause == e
  {
    Other(e)
  }

  /** The body of an HTTP response. */
  datatype Body<+T> = Json(value: T) | Text(text: string) | NoContent

  datatype Response<+T> = Response(status: int, body: Body<T>)

  /** The status and message `CustomError::into_response` picks for each variant. */
  function StatusAndMessage(e: CustomError): (r: (int, string))
    ensures r.0 == NOT_FOUND <==> e.RecordNotFound?
    ensures r.0 == INTERNAL_SERVER_ERROR <==> e.Other?
    ensures r.1 == NotFoundBody <==> e.RecordNotFound?
    ensures r.1 == OtherBody <==> e.Other?
  {
    match e
    case RecordNotFound => (NOT_FOUND, NotFoundBody)
    case Other(_) => (INTERNAL_SERVER_ERROR, OtherBody)
  }

  /** `CustomError::into_response`: the chosen status, with the message as a text body. */
  function IntoResponse<T>(e: CustomError): (r: Response<T>)
    ensures e.RecordNotFound? ==> r == Response(NOT_FOUND, Text(NotFoundBody))
    ensures e.Other? ==> r == Response(INTERNAL_SERVER_ERROR, Text(OtherBody))
  {
    var (status, message) := StatusAndMessage(e);
    Response(status, Text(message))
  }

  /** A handler returning `Result<Json<T>>`: the value as a 200 JSON body, or the error's response. */
  function RespondJson<T>(r: Result<T, CustomError>): (resp: Response<T>)
    ensures r.Success? <==> resp.status == OK
    ensures r.Success? ==> resp.body == Json(r.value)
    ensures r.Failure? ==> resp == IntoResponse(r.error)
  {
    match r
    case Success(v) => Response(OK, Json(v))
    case Failure(e) => IntoResponse(e)
  }

  /** A handler returning `Result<()>`: an empty 200, or the error's response. */
  function RespondEmpty(r: Result<(), CustomError>): (resp: Response<()>)
    ensures r.Success? <==> resp.status == OK
    ensures r.Success? ==> resp.body == NoContent
    ensures r.Failure? ==> resp == IntoResponse(r.error)
  {
    match r
    case Success(_) => Response(OK, NoContent)
    case Failure(e) => IntoResponse(e)
  }

  /** The error response does not depend on which underlying error occurred. */
  lemma OtherHidesCause<T>(a: Orders.EngineError, b: Orders.EngineError)
    ensures IntoResponse<T>(Other(a)) == IntoResponse<T>(Other(b))
    ensures IntoResponse<T>(FromEngine(a)) == Response(INTERNAL_SERVER_ERROR, Text(OtherBody))
  {
  }

  /** Every error response carries one of the two fixed texts, and only those. */
  lemma ErrorBodyIsFixed<T>(e: CustomError)
    ensures IntoResponse<T>(e).body in {Text(NotFoundBody), Text(OtherBody)}
  {
  }
}
