/** The success envelope every handler sends: `{statusCode, data, message, success}`. */
module ApiResponses {
  import opened Wrappers

  datatype ApiResponse<+T> = ApiResponse(statusCode: int, data: T, message: string, success: bool)

  /** The message used when the caller passes none. */
  const DefaultMessage: string := "Success"

  /**
   * `new ApiResponse(statusCode, data, message)`; `message` is None when the
   * argument is `undefined`, which selects the default parameter value.
   */
  function NewApiResponse<T>(statusCode: int, data: T, message: Option<string>): (r: ApiResponse<T>)
    ensures r.statusCode == statusCode && r.data == data
    ensures r.success <==> statusCode < 400
    ensures message.None? ==> r.message == DefaultMessage
    ensures message.Some? ==> r.message == message.value
  {
    ApiResponse(statusCode, data, message.GetOr(DefaultMessage), statusCode < 400)
  }

  /** A response is consistent when its `success` flag agrees with its status code. */
  predicate Consistent<T>(r: ApiResponse<T>) {
    r.success <==> r.statusCode < 400
  }
}
