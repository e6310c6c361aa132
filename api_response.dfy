/** The JSON envelope every controller answers with:
    `{ success, message, data }` sent with an HTTP status code. */
module ApiResponse {
  import opened Common

  datatype Envelope<+D> = Envelope(statusCode: int, success: bool, message: string, data: Option<D>)

  /** `ApiResponse.success(res, statusCode, message, data = null)`. */
  function Success<D>(statusCode: int, message: string, data: Option<D> := None): (r: Envelope<D>)
    ensures r.success
    ensures r.statusCode == statusCode && r.message == message && r.data == data
  {
    Envelope(statusCode, true, message, data)
  }

  /** `ApiResponse.error(res, statusCode, message, data = null)`. */
  function Error<D>(statusCode: int, message: string, data: Option<D> := None): (r: Envelope<D>)
    ensures !r.success
    ensures r.statusCode == statusCode && r.message == message && r.data == data
  {
    Envelope(statusCode, false, message, data)
  }
}
