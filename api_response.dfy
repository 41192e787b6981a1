/** The uniform `{success, message, data}` envelope of every backend response. */
module ApiResponses {
  import opened Wrappers

  datatype ApiResponse<T> = ApiResponse(success: bool, message: string, data: Option<T>)

  const DEFAULT_SUCCESS_MESSAGE := "Operation successful"

  /** `ApiResponse.success(data, message)`; `data` may be `null`. */
  function Success<T>(data: Option<T>, message: string): (r: ApiResponse<T>)
    ensures r.success
    ensures r.data == data && r.message == message
  {
    ApiResponse(true, message, data)
  }

  /** `ApiResponse.success(data)`: the same envelope with the default message. */
  function SuccessDefault<T>(data: Option<T>): (r: ApiResponse<T>)
    ensures r.success && r.data == data
    ensures r.message == "Operation successful"
  {
    Success(data, DEFAULT_SUCCESS_MESSAGE)
  }

  /** `ApiResponse.error(message)`: a failed envelope never carries data. */
  function Error<T>(message: string): (r: ApiResponse<T>)
    ensures !r.success && r.data == None
    ensures r.message == message
  {
    ApiResponse(false, message, None)
  }
}
