/** `errorHandlerMiddleware(err, req, res)`: the response an error that
    reaches the end of the chain gets. Logging is left out. */
module ErrorHandler {
  import opened Common

  const GenericMessage: string := "Something went wrong."

  /** The JSON body of an error response. */
  datatype ErrorBody = ErrorBody(status: string, message: string)

  datatype ErrorResponse = ErrorResponse(statusCode: int, body: ErrorBody)

  /** An operational error answers with its own message and its own status,
      400 when it has none (or a falsy 0); any other error answers 500 with a
      generic message that reveals nothing of the error. The body's `status`
      is always 'error'. */
  function ErrorHandlerMiddleware(err: Error): (r: ErrorResponse)
    ensures r.body.status == "error"
    ensures err.isOperational ==> r.body.message == err.message
    ensures err.isOperational && err.statusCode.Some? && err.statusCode.value != 0 ==>
      r.statusCode == err.statusCode.value
    ensures err.isOperational && (err.statusCode.None? || err.statusCode.value == 0) ==> r.statusCode == 400
    ensures !err.isOperational ==> r == ErrorResponse(500, ErrorBody("error", GenericMessage))
  {
    if err.isOperational then
      ErrorResponse(NumberOr(err.statusCode, 400), ErrorBody("error", err.message))
    else
      ErrorResponse(500, ErrorBody("error", GenericMessage))
  }

  /** An `AppError` answers with the status it was given; a plain `Error`,
      whatever its message, answers 500. */
  lemma AppErrorsKeepTheirStatus(message: string, status: int, other: string)
    requires status != 0
    ensures ErrorHandlerMiddleware(AppError(message, status)) == ErrorResponse(status, ErrorBody("error", message))
    ensures ErrorHandlerMiddleware(PlainError(other)).statusCode == 500
    ensures ErrorHandlerMiddleware(PlainError(other)).body.message == GenericMessage
  {
  }

  /** The response depends on a non-operational error in no way at all. */
  lemma NonOperationalErrorsAreIndistinguishable(e1: Error, e2: Error)
    requires !e1.isOperational && !e2.isOperational
    ensures ErrorHandlerMiddleware(e1) == ErrorHandlerMiddleware(e2)
  {
  }
}
