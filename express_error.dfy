/**
  The error values the core throws or hands to Express's next, and the
  completion of an evaluation that may throw one. The error classes come from
  the application's expressError module, which is not part of this model; only
  their HTTP status codes are used.
*/
module ExpressError {

  datatype ErrorValue =
    | BadRequestError(message: string)
    | NotFoundError(message: string)
    | UnauthorizedError
      /** A plain object literal such as { status: 401, message: "Unauthorized" }. */
    | StatusObject(status: int, message: string)
      /** What JavaScript throws when a property of undefined is read. */
    | TypeError

  /** The HTTP status the application's error handler answers with. */
  function Status(e: ErrorValue): int
  {
    match e
    case BadRequestError(_) => 400
    case NotFoundError(_) => 404
    case UnauthorizedError => 401
    case StatusObject(status, _) => status
    case TypeError => 500
  }

  /** The completion of a JavaScript evaluation: a value, or a thrown error. */
  datatype Completion<+T> = Normal(value: T) | Thrown(error: ErrorValue)
}
