/** `TodoErrors`, the error type of the todo handlers and of the guard, with its
    conversions and the reply it renders as. */
module TodoErrors {
  import opened Common
  import opened SessionStore
  import opened TodoModels

  datatype TodoError = Forbidden | Db(cause: PgError) | Server

  /** `From<RedisError>`: whatever went wrong with the session store denies access. */
  function FromRedisError(e: RedisError): (r: TodoError)
    ensures r == Forbidden
  {
    Forbidden
  }

  /** `actix_web::error::BlockingError`: the closure's own error, or the thread pool gave up on it. */
  datatype BlockingError = Error(cause: PgError) | Canceled

  /** `DbErrors`, the intermediate error the handlers map a blocking failure to. */
  datatype DbErrors = Postgres(cause: PgError) | Runtime

  /** The handlers' `map_err` on the result of `web::block`. */
  function FromBlocking(e: BlockingError): DbErrors {
    match e
    case Error(cause) => Postgres(cause)
    case Canceled => Runtime
  }

  /** The handlers' final `match err`. */
  function FromDbErrors(e: DbErrors): TodoError {
    match e
    case Postgres(cause) => Db(cause)
    case Runtime => Server
  }

  /** A failed DB call surfaces as `Db` with the same Postgres error, a canceled one as `Server`. */
  lemma BlockingFailureMapping(e: BlockingError)
    ensures FromDbErrors(FromBlocking(e)) == (if e.Canceled? then Server else Db(e.cause))
  {
  }

  /** `ResponseError::status_code`. */
  function StatusCode(e: TodoError): (status: int)
    ensures status == StatusForbidden <==> e.Forbidden?
    ensures status == StatusInternalServerError <==> (e.Db? || e.Server?)
  {
    match e
    case Forbidden => StatusForbidden
    case _ => StatusInternalServerError
  }

  /** The `error` text of `ResponseError::error_response` (the "Interval" misspelling is the source's). */
  function Message(e: TodoError): string {
    match e
    case Forbidden => "Access forbidden"
    case Server => "Interval server error"
    case Db(_) => "DB error"
  }

  /** `ResponseError::error_response`: status, JSON content type, `{data: (), meta: {error}}`. */
  function Reply(e: TodoError): (r: ErrorResponse)
    ensures r.status == StatusCode(e) && r.contentType == JsonContentType
    ensures r.body.meta.error == Message(e)
  {
    ErrorReply(StatusCode(e), Message(e))
  }

  /** The three replies, and distinct errors kinds never share a message. */
  lemma RepliesOfEachError(cause: PgError)
    ensures Reply(Forbidden) == ErrorReply(403, "Access forbidden")
    ensures Reply(Server) == ErrorReply(500, "Interval server error")
    ensures Reply(Db(cause)) == ErrorReply(500, "DB error")
    ensures Message(Forbidden) != Message(Server) && Message(Server) != Message(Db(cause))
  {
  }

  /** Any store failure becomes a 403 "Access forbidden" reply. */
  lemma StoreFailureRepliesForbidden(e: RedisError)
    ensures Reply(FromRedisError(e)) == ErrorReply(StatusForbidden, "Access forbidden")
  {
  }
}
