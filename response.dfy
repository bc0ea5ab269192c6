/**
 * `ApiResponse`, the result record every service returns. A field the
 * JavaScript object literal leaves out is `None` here; `data: Some(d)` means the
 * `data` key is present (its value may itself be null, as in `success(null, ...)`).
 */
module Response {
  import opened Wrappers

  const DefaultSuccessMessage: string := "Operação realizada com sucesso"
  const DefaultErrorStatus: int := 400

  datatype ApiResponse<D> = ApiResponse(
    success: bool,
    message: string,
    data: Option<D>,
    statusCode: Option<int>,
    errors: Option<seq<string>>)

  /** The two shapes a response can take: a success with data, or an error with a status. */
  ghost predicate WellFormed<D>(r: ApiResponse<D>) {
    if r.success then r.data.Some? && r.statusCode.None? && r.errors.None?
    else r.data.None? && r.statusCode.Some?
  }

  /** `ApiResponse.success(data, message = DefaultSuccessMessage)`. */
  function Success<D>(data: D, message: Option<string>): (r: ApiResponse<D>)
    ensures WellFormed(r) && r.success
    ensures r.data == Some(data)
    ensures message.Some? ==> r.message == message.value
    ensures message.None? ==> r.message == DefaultSuccessMessage
  {
    ApiResponse(true, if message.Some? then message.value else DefaultSuccessMessage, Some(data), None, None)
  }

  /**
   * `ApiResponse.error(message, statusCode = 400, errors = null)`. An `errors`
   * argument is given as `Some` exactly when it is truthy; only then is the
   * `errors` key added.
   */
  function Error<D>(message: string, statusCode: Option<int>, errors: Option<seq<string>>): (r: ApiResponse<D>)
    ensures WellFormed(r) && !r.success
    ensures r.message == message
    ensures r.statusCode == Some(if statusCode.Some? then statusCode.value else DefaultErrorStatus)
    ensures r.errors.Some? <==> errors.Some?
    ensures r.errors == errors
  {
    ApiResponse(false, message, None, Some(if statusCode.Some? then statusCode.value else DefaultErrorStatus), errors)
  }

  /** The error every service builds: a message and an explicit status, no `errors` list. */
  function Fail<D>(message: string, status: int): (r: ApiResponse<D>)
    ensures WellFormed(r) && !r.success && r.data.None?
    ensures r.message == message && r.statusCode == Some(status) && r.errors.None?
  {
    Error(message, Some(status), None)
  }
}
