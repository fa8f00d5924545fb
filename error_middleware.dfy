/** The boundary error handler: every error that reaches it becomes exactly one
    JSON response `{status: 'error', message}` with an HTTP status. */
module ErrorMiddleware {
  import opened Wrappers
  import opened Errors

  /** The one response the handler writes. */
  datatype ErrorResponse = ErrorResponse(httpStatus: int, status: string, message: string)

  const InvalidToken := "Invalid token"
  const InternalServerError := "Internal server error"

  /** `errorHandler`: an ordered chain of checks on the error. */
  function HandleError(err: Error): (r: ErrorResponse)
    ensures r.status == "error"
    ensures r.httpStatus in {401, 500} || (err.IsAppError() && r.httpStatus == err.statusCode.value)
  {
    if err.name == "UnauthorizedError" then
      ErrorResponse(401, "error", InvalidToken)
    else if err.IsAppError() then
      ErrorResponse(err.statusCode.value, "error", err.message)
    else
      ErrorResponse(500, "error", InternalServerError)
  }

  /** A token error from the JWT layer answers 401 "Invalid token" whatever its own
      message, and also when the value is an `AppError`: the name test comes first. */
  lemma UnauthorizedNameWins(err: Error)
    requires err.name == "UnauthorizedError"
    ensures HandleError(err) == ErrorResponse(401, "error", InvalidToken)
    ensures forall m :: HandleError(err.(message := m)) == HandleError(err)
  {
  }

  /** An `AppError` otherwise answers with its own status and message. */
  lemma AppErrorPassesThrough(err: Error)
    requires err.name != "UnauthorizedError" && err.IsAppError()
    ensures HandleError(err).httpStatus == err.statusCode.value
    ensures HandleError(err).message == err.message
  {
  }

  /** Every other error answers 500 with a fixed text: the error's own message
      never reaches the client. */
  lemma UnexpectedErrorDoesNotLeak(err: Error, other: string)
    requires err.name != "UnauthorizedError" && !err.IsAppError()
    ensures HandleError(err) == ErrorResponse(500, "error", InternalServerError)
    ensures HandleError(err.(message := other)) == HandleError(err)
  {
  }

  /** NotFoundError('User not found') answers 404 "User not found". */
  lemma NotFoundMapsTo404()
    ensures HandleError(NotFoundError(UserNotFound)) == ErrorResponse(404, "error", UserNotFound)
  {
  }
}
