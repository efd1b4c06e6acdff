/** Error kinds and the HTTP error envelope `{error: {code, message}}`. */
module Errors {

  /** The error codes the handlers and the lookup service attach to errors. */
  datatype ErrorCode = InvalidArgument | NotFound | RateLimited | ExternalServiceError | InternalError {

    /** The wire spelling of the code. */
    function Name(): string {
      match this
      case InvalidArgument => "INVALID_ARGUMENT"
      case NotFound => "NOT_FOUND"
      case RateLimited => "RATE_LIMITED"
      case ExternalServiceError => "EXTERNAL_SERVICE_ERROR"
      case InternalError => "INTERNAL_ERROR"
    }
  }

  /** An error response: HTTP status plus the `code` and `message` of the body.
      The code is a string because one handler echoes whatever code a thrown
      error happens to carry. */
  datatype HttpError = HttpError(status: int, code: string, message: string)

  function ErrorResponse(status: int, code: ErrorCode, message: string): HttpError {
    HttpError(status, code.Name(), message)
  }

  /** An error thrown by the document store. JavaScript reads its fields with
      `||`, so an absent field is modelled by its falsy value (0 or ""). */
  datatype Fault = Fault(status: int, code: string, message: string)

  /** The catch block shared by the `server/` handlers: the thrown error's own
      status, code and message, each replaced by a default when falsy. */
  function CaughtByServer(f: Fault): (r: HttpError)
    ensures f.status == 0 ==> r.status == 500
    ensures f.status != 0 ==> r.status == f.status
    ensures f.code == "" ==> r.code == InternalError.Name()
    ensures f.code != "" ==> r.code == f.code
    ensures f.message == "" ==> r.message == "An internal error occurred"
    ensures f.message != "" ==> r.message == f.message
    ensures r.message != ""
  {
    HttpError(
      if f.status != 0 then f.status else 500,
      if f.code != "" then f.code else InternalError.Name(),
      if f.message != "" then f.message else "An internal error occurred")
  }
}
