/**
 * The error taxonomy of the API and the global error handler that turns a
 * thrown error into the `{ error: { code, message, details? } }` envelope.
 */
module Errors {
  import opened Wrappers

  datatype ErrorCode = ValidationError | NotFound | Conflict | InternalError {
    /** The code as it appears on the wire. */
    function Name(): string {
      match this
      case ValidationError => "VALIDATION_ERROR"
      case NotFound => "NOT_FOUND"
      case Conflict => "CONFLICT"
      case InternalError => "INTERNAL_ERROR"
    }
  }

  /** Messages per field path. */
  type Details = map<string, seq<string>>

  /** The `error` member of the response envelope. */
  datatype ApiError = ApiError(code: ErrorCode, message: string, details: Option<Details>)

  /** `AppError`: an error that knows its HTTP status. */
  datatype AppError = AppError(statusCode: int, code: ErrorCode, message: string, details: Option<Details>)

  /** `new NotFoundError(resource, id)`. */
  function NotFoundError(resource: string, id: string): (e: AppError)
    ensures e.statusCode == 404 && e.code == NotFound && e.details.None?
    ensures e.message == resource + " with id '" + id + "' not found"
  {
    AppError(404, NotFound, resource + " with id '" + id + "' not found", None)
  }

  /** `new ConflictError(message)`. */
  function ConflictError(message: string): (e: AppError)
    ensures e.statusCode == 409 && e.code == Conflict && e.details.None?
    ensures e.message == message
  {
    AppError(409, Conflict, message, None)
  }

  /** What reaches the error handler: an `AppError`, or any other exception. */
  datatype Thrown = App(error: AppError) | Unexpected(message: string)

  /** `res.status(status).json({ error: body })`. */
  datatype ErrorResponse = ErrorResponse(status: int, body: ApiError)

  const UnexpectedMessage := "An unexpected error occurred"

  /**
   * `errorHandler`: an `AppError` keeps its own status, code, message and
   * details; anything else becomes a 500 `INTERNAL_ERROR` with a fixed
   * message and no details, so nothing about the fault leaks out.
   */
  function ErrorHandler(err: Thrown): (r: ErrorResponse)
    ensures err.App? ==> r.status == err.error.statusCode && r.body.code == err.error.code
                         && r.body.message == err.error.message && r.body.details == err.error.details
    ensures err.Unexpected? ==> r.status == 500 && r.body.code == InternalError
                                && r.body.message == UnexpectedMessage && r.body.details.None?
  {
    match err
    case App(e) => ErrorResponse(e.statusCode, ApiError(e.code, e.message, e.details))
    case Unexpected(_) => ErrorResponse(500, ApiError(InternalError, UnexpectedMessage, None))
  }

  /** The HTTP status the API pairs with each code. */
  function StatusFor(code: ErrorCode): int {
    match code
    case ValidationError => 400
    case NotFound => 404
    case Conflict => 409
    case InternalError => 500
  }

  /** The error kinds the controllers raise, whatever their message. */
  ghost predicate Raised(e: AppError) {
    (exists resource: string, id: string :: e == NotFoundError(resource, id))
    || (exists message: string :: e == ConflictError(message))
  }

  /**
   * Every failure reaches the client with a status that agrees with its
   * code: the raised errors and unexpected faults alike.
   */
  lemma {:induction false} StatusMatchesCode(err: Thrown)
    requires err.App? ==> Raised(err.error)
    ensures ErrorHandler(err).status == StatusFor(ErrorHandler(err).body.code)
  {
    if err.App? {
      if exists resource: string, id: string :: err.error == NotFoundError(resource, id) {
        var resource: string, id: string :| err.error == NotFoundError(resource, id);
      } else {
        var message: string :| err.error == ConflictError(message);
      }
    }
  }

  /** Distinct codes have distinct wire names. */
  lemma CodeNamesDistinct(a: ErrorCode, b: ErrorCode)
    requires a != b
    ensures a.Name() != b.Name()
  {
  }
}
