/** The `ApiError` record every controller throws (discord/utils/errorHandler.js). */
module ErrorHandler {
  import opened Text

  /** The only value the `data` field ever holds. */
  datatype Null = Null

  /** An error with the HTTP status the thrower chose (`statusCode`), a
      message, a list of details, and the fixed fields `data` and `success`.
      The stack trace is not modelled. */
  datatype ApiError = ApiError(
    statusCode: int,
    message: string,
    errorDetails: seq<string>,
    data: Null,
    success: bool)

  const DefaultMessage: string := "Something went wrong"

  /** `new ApiError(statusCode, message?, errorDetails?)`; an argument left
      `undefined` is `None` and takes its default. */
  function NewApiError(statusCode: int, message: Option<string>, errorDetails: Option<seq<string>>): (e: ApiError)
    ensures e.statusCode == statusCode
    ensures message.None? ==> e.message == DefaultMessage
    ensures message.Some? ==> e.message == message.value
    ensures errorDetails.None? ==> e.errorDetails == []
    ensures errorDetails.Some? ==> e.errorDetails == errorDetails.value
    ensures !e.success
  {
    ApiError(
      statusCode,
      if message.Some? then message.value else DefaultMessage,
      if errorDetails.Some? then errorDetails.value else [],
      Null,
      false)
  }

  /** The form the controllers use: a status and a message. */
  function Raise(statusCode: int, message: string): (e: ApiError)
    ensures e.statusCode == statusCode && e.message == message
    ensures e.errorDetails == [] && !e.success
  {
    NewApiError(statusCode, Some(message), None)
  }
}
