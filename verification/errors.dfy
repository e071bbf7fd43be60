/** The exceptions the services raise, grouped by the HTTP status they carry. */
module Errors {

  /**
   * `NotFound`, `BadRequest`, `Conflict`, `Forbidden` and `Unauthorized` are the
   * framework's HTTP exceptions (404, 400, 409, 403, 401); `Internal` is a plain
   * `Error` (or a runtime failure such as a database error), which the global
   * exception filter turns into a 500 response.
   */
  datatype Error =
    | NotFound(message: string)
    | BadRequest(message: string)
    | Conflict(message: string)
    | Forbidden(message: string)
    | Unauthorized(message: string)
    | Internal(message: string)
  {
    /** Whether the error is one of the framework's HTTP exceptions. */
    predicate IsHttp() {
      !Internal?
    }
  }

  /** The HTTP status code each exception class carries. */
  function Status(e: Error): (code: int)
    ensures 400 <= code <= 500
    ensures code == 500 <==> e.Internal?
  {
    match e
    case NotFound(_) => 404
    case BadRequest(_) => 400
    case Conflict(_) => 409
    case Forbidden(_) => 403
    case Unauthorized(_) => 401
    case Internal(_) => 500
  }
}
