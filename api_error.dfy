/** The error envelope: `{statusCode, data: null, message, success: false, error}`. */
module ApiErrors {
  import opened Wrappers

  /** `data` is JavaScript `null` when None; `error` is the list passed to the constructor (an empty array by default). */
  datatype ApiError = ApiError(statusCode: int, data: Option<string>, message: string, success: bool, error: seq<string>)

  const DefaultErrorMessage: string := "Something went wrong"

  /**
   * `new ApiError(statusCode, message, error)`; an argument that is `undefined`
   * (None) takes its default value. The stack trace is not modelled.
   */
  function NewApiError(statusCode: int, message: Option<string>, error: Option<seq<string>>): (e: ApiError)
    ensures e.statusCode == statusCode
    ensures e.data.None? && !e.success
    ensures e.message == (if message.Some? then message.value else DefaultErrorMessage)
    ensures e.error == (if error.Some? then error.value else [])
  {
    ApiError(statusCode, None, message.GetOr(DefaultErrorMessage), false, error.GetOr([]))
  }

  /** `new ApiError(statusCode, message)`, the form every handler uses. */
  function Raise(statusCode: int, message: string): (e: ApiError)
    ensures e.statusCode == statusCode && e.message == message && e.error == [] && !e.success
  {
    NewApiError(statusCode, Some(message), None)
  }
}
