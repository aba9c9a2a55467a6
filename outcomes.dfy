/**
 * How a request handler ends. A handler either sends a response or throws;
 * a thrown `ApiError` reaches the client with its own status code, while any
 * other exception (a TypeError on an `undefined` field, a schema or
 * duplicate-key error from the store, a bcrypt argument error) becomes 500.
 */
module Outcomes {
  import opened ApiResponses
  import opened ApiErrors

  /** Exceptions that are not `ApiError`s. */
  datatype Fault =
    | TypeError(what: string)          // a property read on `undefined` or `null`
    | SchemaViolation(path: string)    // a `required` schema rule failed at create time
    | DuplicateKey(path: string)       // the store's unique index refused a write
    | BcryptArgument                   // bcrypt was called with an `undefined` argument

  datatype Failure = Api(error: ApiError) | Crash(fault: Fault)

  /** `res.cookie(name, value)` or `res.clearCookie(name)`; cookie attributes are not modelled. */
  datatype CookieOp = SetCookie(name: string, value: string) | ClearCookie(name: string)

  datatype Outcome<+T> =
    | Sent(status: int, cookies: seq<CookieOp>, body: ApiResponse<T>)
    | Threw(failure: Failure)

  /** The HTTP status the client sees. */
  function HttpStatus<T>(o: Outcome<T>): (s: int)
    ensures o.Threw? && o.failure.Crash? ==> s == 500
    ensures o.Threw? && o.failure.Api? ==> s == o.failure.error.statusCode
    ensures o.Sent? ==> s == o.status
  {
    match o
    case Sent(status, _, _) => status
    case Threw(Api(e)) => e.statusCode
    case Threw(Crash(_)) => 500
  }

  /** `throw new ApiError(statusCode, message)` as a handler outcome. */
  function Throw<T>(statusCode: int, message: string): (o: Outcome<T>)
    ensures o.Threw? && o.failure.Api? && HttpStatus(o) == statusCode
    ensures o.failure.error.message == message && !o.failure.error.success
  {
    Threw(Api(Raise(statusCode, message)))
  }
}
