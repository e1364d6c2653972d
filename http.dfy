/** Outcomes of the request handlers: either a success status with a body, or
    the HTTP error the handler raises. Raising an HTTPException mid-handler
    becomes returning a Failure value. */
module Http {

  datatype Option<+T> = None | Some(value: T)

  /** Keeps the supplied value, or falls back to the current one. */
  function OrElse<T>(o: Option<T>, current: T): T
  {
    match o
    case Some(v) => v
    case None => current
  }

  const Created := 201
  const OkStatus := 200
  const NoContent := 204
  const BadRequest := 400
  const Unauthorized := 401
  const Forbidden := 403
  const NotFound := 404
  const Conflict := 409
  const Unprocessable := 422
  const ServerError := 500

  /** An HTTPException: status, detail text, and whether it carries the
      `WWW-Authenticate: Bearer` header. */
  datatype HttpError = HttpError(status: int, detail: string, bearerChallenge: bool)

  function Error(status: int, detail: string): HttpError
  {
    HttpError(status, detail, false)
  }

  datatype Outcome<+T> = Success(status: int, value: T) | Failure(error: HttpError)
  {
    /** The status code the client sees. */
    function Code(): int
    {
      match this
      case Success(s, _) => s
      case Failure(e) => e.status
    }
  }

  /** A step that either yields a value or raises before the handler body:
      body validation, token decoding, user resolution. */
  datatype Result<+T> = Ok(value: T) | Err(error: HttpError)

  /** The empty body of a 204 response. */
  datatype Unit = Unit
}
