/** The `ApiResponse` envelope of every successful reply
    (discord/utils/apiResponse.js). */
module ApiResponses {
  import opened Text

  datatype ApiResponse<T> = ApiResponse(statusCode: int, data: T, message: string, success: bool)

  const DefaultMessage: string := "Success"

  /** `new ApiResponse(statusCode, data, message?)`: status and data are kept
      as given, the message defaults to "Success", and `success` is derived
      from the status alone. Any status is accepted. */
  function NewApiResponse<T>(statusCode: int, data: T, message: Option<string>): (r: ApiResponse<T>)
    ensures r.statusCode == statusCode && r.data == data
    ensures r.success <==> statusCode < 400
    ensures message.None? ==> r.message == DefaultMessage
    ensures message.Some? ==> r.message == message.value
  {
    ApiResponse(statusCode, data, if message.Some? then message.value else DefaultMessage, statusCode < 400)
  }

  /** The form the controllers use. */
  function Respond<T>(statusCode: int, data: T, message: string): (r: ApiResponse<T>)
    ensures r.statusCode == statusCode && r.data == data && r.message == message
    ensures r.success <==> statusCode < 400
  {
    NewApiResponse(statusCode, data, Some(message))
  }
}
