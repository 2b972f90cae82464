/** The translation of a thrown exception into the error body the client sees. */
module GlobalExceptionHandler {
  import opened Common

  /** The `{timestamp, status, error, message}` body; `timestamp` is the clock
      reading taken by the handler. */
  datatype ErrorResponse = ErrorResponse(timestamp: int, status: int, error: string, message: string)

  /** The three handlers as one total function from exception to response:
      not-found is 404, an illegal argument 400, anything else 500, and the
      exception's message goes through unchanged. */
  function Handle(ex: Exception, now: int): (r: ErrorResponse)
    ensures r.timestamp == now && r.message == ex.message
    ensures ex.ResourceNotFound? ==> r.status == 404 && r.error == "Not Found"
    ensures ex.IllegalArgument? ==> r.status == 400 && r.error == "Bad Request"
    ensures ex.Runtime? ==> r.status == 500 && r.error == "Internal Server Error"
  {
    match ex
    case ResourceNotFound(m) => ErrorResponse(now, 404, "Not Found", m)
    case IllegalArgument(m) => ErrorResponse(now, 400, "Bad Request", m)
    case Runtime(m) => ErrorResponse(now, 500, "Internal Server Error", m)
  }

  /** No handler ever answers 401 or 403: a refusal reaches the client either
      as a client error (400 or 404) or as a server error (500). */
  lemma HandleNeverForbidden(ex: Exception, now: int)
    ensures Handle(ex, now).status in {400, 404, 500}
    ensures Handle(ex, now).status != 403 && Handle(ex, now).status != 401
  {
  }
}
