/**
  * The error values of pkg/util/errors.go and pkg/util/db.go.
  *
  * Go's `error` interface is modelled as the datatype `Error`: an `*AppError`
  * (a kind, which fixes the HTTP status, plus a message), an error coming
  * back from the database, or a plain `errors.New` value.
  */
module Errors {
  import opened Wrappers

  /** The five kinds of `AppError` the constructors can build. */
  datatype ErrorKind = Conflict | NotFound | Unauthorized | BadRequest | InternalServer

  /** The HTTP status each kind carries. */
  function StatusCode(k: ErrorKind): (code: int)
    ensures 400 <= code <= 500
    ensures KindOf(code) == Some(k)
  {
    match k
    case Conflict => 409
    case NotFound => 404
    case Unauthorized => 401
    case BadRequest => 400
    case InternalServer => 500
  }

  /** The kind whose status is `code`, if any. */
  function KindOf(code: int): Option<ErrorKind>
  {
    if code == 409 then Some(Conflict)
    else if code == 404 then Some(NotFound)
    else if code == 401 then Some(Unauthorized)
    else if code == 400 then Some(BadRequest)
    else if code == 500 then Some(InternalServer)
    else None
  }

  /** What the database layer can report. */
  datatype DbError = UniqueViolation | RecordNotFound | Unavailable(detail: string)

  datatype Error =
    | App(kind: ErrorKind, message: string)
    | Db(cause: DbError)
    | Plain(text: string)

  /** The text `Error()` returns. */
  function Message(e: Error): string
  {
    match e
    case App(_, msg) => msg
    case Db(UniqueViolation) => "duplicate key value violates unique constraint"
    case Db(RecordNotFound) => "record not found"
    case Db(Unavailable(detail)) => detail
    case Plain(text) => text
  }

  /** `util.IsUniqueViolation`: a database error with the unique-violation code. */
  predicate IsUniqueViolation(e: Error)
  {
    e.Db? && e.cause.UniqueViolation?
  }

  /** The error a create path reports a failed INSERT with: a unique violation becomes a Conflict. */
  function CreateFailure(e: Error, conflict: string): (reported: Error)
    ensures IsUniqueViolation(e) ==> reported == ErrConflict(conflict)
    ensures !IsUniqueViolation(e) ==> reported == e
  {
    if IsUniqueViolation(e) then ErrConflict(conflict) else e
  }

  /** The status line and `error` field of the JSON body `WriteError` sends. */
  datatype Response = Response(status: int, message: string)

  function WriteError(e: Error): (resp: Response)
    ensures KindOf(resp.status).Some?
    ensures e.App? ==> KindOf(resp.status) == Some(e.kind) && resp.message == Message(e)
    ensures !e.App? ==> resp == Response(500, "internal server error")
  {
    if e.App? then Response(StatusCode(e.kind), e.message)
    else Response(500, "internal server error")
  }

  function ErrConflict(msg: string): (e: Error)
    ensures WriteError(e) == Response(409, msg) && Message(e) == msg
  {
    App(Conflict, msg)
  }

  function ErrNotFound(msg: string): (e: Error)
    ensures WriteError(e) == Response(404, msg) && Message(e) == msg
  {
    App(NotFound, msg)
  }

  function ErrUnauthorized(msg: string): (e: Error)
    ensures WriteError(e) == Response(401, msg) && Message(e) == msg
  {
    App(Unauthorized, msg)
  }

  function ErrBadRequest(msg: string): (e: Error)
    ensures WriteError(e) == Response(400, msg) && Message(e) == msg
  {
    App(BadRequest, msg)
  }

  function ErrInternalServer(msg: string): (e: Error)
    ensures WriteError(e) == Response(500, msg) && Message(e) == msg
  {
    App(InternalServer, msg)
  }

  /** A Go `(T, error)` pair where exactly one side is meaningful. */
  datatype Result<+T> = Success(value: T) | Failure(error: Error)

  /** A Go function that returns only `error`. */
  datatype Outcome = Pass | Fail(error: Error)
}
