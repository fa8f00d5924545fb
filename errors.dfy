/** The errors the core throws. An `Error` records the three things the error
    handler looks at: the JavaScript `name`, whether the value is an `AppError`
    (and then its `statusCode`), and the `message`. The `AppError` subclasses
    live in utils/errors.ts, which is not part of this model: their statuses are
    the conventional ones of the error taxonomy, and they are assumed to keep the
    inherited name "Error". */
module Errors {
  import opened Wrappers

  datatype Error = Error(name: string, statusCode: Option<int>, message: string) {
    /** `err instanceof AppError`. */
    predicate IsAppError() { statusCode.Some? }
  }

  const InheritedName := "Error"

  function NotFoundError(message: string): Error { Error(InheritedName, Some(404), message) }
  function UnauthorizedError(message: string): Error { Error(InheritedName, Some(401), message) }
  function ForbiddenError(message: string): Error { Error(InheritedName, Some(403), message) }
  function ValidationError(message: string): Error { Error(InheritedName, Some(400), message) }

  /** Errors raised by the document store itself (not `AppError`s). */
  function SchemaValidationError(message: string): Error { Error("ValidationError", None, message) }
  function DuplicateKeyError(message: string): Error { Error("MongoServerError", None, message) }
  function CastError(message: string): Error { Error("CastError", None, message) }

  /** A plain `new Error(message)`. */
  function PlainError(message: string): Error { Error(InheritedName, None, message) }

  const UserNotFound := "User not found"
}
