/**
  The error table and the error factory (src/common/util/api-error.ts) and
  its older copy (src/common/util/api.error.util.ts), plus `Fault`, the shape
  of everything a service call can throw.
*/
module ApiError {
  import opened Wrappers

  /** The error kinds of `ErrorEnum`. */
  datatype ErrorKind =
    | GenericError
    | NotFoundError
    | NotFoundRouteError
    | ForbiddenError
    | UnauthorizedError
    | BadRequestError
    | ConflictError
    | InvalidJwtFormat
    | EmailAlreadyRegisteredOrInvalid
    | ValidationFailed
    | InvalidCredentials
    | NoAuthorized
    | InsufficientPermissions
    | UserNotFound
    | ServerError
    | InvalidJwtSignature
    | JwtExpired
    | JwtNotActive
    | MissingAuthHeader
    | BearerTokenMalformed
      // `ErrorEnum` of src/common/enums.ts declares no `DB_ERROR`: at run time
      // the member reads as `undefined`, and the table row is keyed "undefined".
      // Every call site overrides message and status, so only the error's
      // `type` field differs from this model.
    | DbError

  /** One row of `errorConfig`: an HTTP status and the default message. */
  datatype Entry = Entry(status: int, msg: string)

  /**
    A structured error. The constructor of the source stores the kind twice,
    as the `name` inherited from `Error` and as `type`.
  */
  datatype ErrorObj = ErrorObj(name: ErrorKind, status: int, msg: string, kind: ErrorKind)

  /** What `toJSON` serialises. */
  datatype ErrorJson = ErrorJson(status: int, msg: string)

  /** `new ErrorObj(status, msg, type)`. */
  function NewErrorObj(status: int, msg: string, kind: ErrorKind): (e: ErrorObj)
    ensures e.name == kind && e.kind == kind
    ensures e.status == status && e.msg == msg
  {
    ErrorObj(kind, status, msg, kind)
  }

  /** `toJSON()`: exactly the status and the message, nothing else. */
  function ToJson(e: ErrorObj): (j: ErrorJson)
    ensures j.status == e.status && j.msg == e.msg
  {
    ErrorJson(e.status, e.msg)
  }

  /** `errorConfig` of api-error.ts: every kind has a row. */
  function Table(kind: ErrorKind): Option<Entry> {
    Some(match kind
      case GenericError => Entry(500, "An unexpected error occurred. Please try again later.")
      case NotFoundError => Entry(404, "Resource not found.")
      case NotFoundRouteError => Entry(404, "Route not found.")
      case ForbiddenError => Entry(403, "Forbidden access.")
      case UnauthorizedError => Entry(401, "Unauthorized access.")
      case BadRequestError => Entry(400, "Bad request.")
      case ConflictError => Entry(409, "Conflict detected.")
      case InvalidJwtFormat => Entry(400, "Invalid JWT format.")
      case EmailAlreadyRegisteredOrInvalid => Entry(400, "Email already registered or invalid data.")
      case ValidationFailed => Entry(422, "Validation failed.")
      case InvalidCredentials => Entry(401, "Invalid email or password.")
      case NoAuthorized => Entry(401, "Unauthorized.")
      case InsufficientPermissions => Entry(403, "Insufficient permissions.")
      case UserNotFound => Entry(404, "User not found.")
      case ServerError => Entry(500, "Internal server error.")
      case InvalidJwtSignature => Entry(401, "Invalid JWT signature.")
      case JwtExpired => Entry(401, "JWT has expired.")
      case JwtNotActive => Entry(401, "JWT not active yet (nbf).")
      case MissingAuthHeader => Entry(401, "Missing Authorization header.")
      case BearerTokenMalformed => Entry(400, "Malformed Bearer token.")
      case DbError => Entry(500, "Database error."))
  }

  /** `errorConfig` of api.error.util.ts: the same rows, except that `DB_ERROR` has none. */
  function LegacyTable(kind: ErrorKind): Option<Entry> {
    if kind == DbError then None else Table(kind)
  }

  /** `errorConfig[type] ?? errorConfig[GENERIC_ERROR]`. */
  function Lookup(table: ErrorKind -> Option<Entry>, kind: ErrorKind): Entry
    requires table(GenericError).Some?
  {
    match table(kind)
    case Some(e) => e
    case None => table(GenericError).value
  }

  /**
    `getError(type, overrideMsg?, overrideStatus?)` of api-error.ts: each
    override that is present wins over the table.
  */
  function GetError(kind: ErrorKind, overrideMsg: Option<string>, overrideStatus: Option<int>): (e: ErrorObj)
    ensures e.name == kind && e.kind == kind
    ensures overrideStatus.Some? ==> e.status == overrideStatus.value
    ensures overrideMsg.Some? ==> e.msg == overrideMsg.value
    ensures overrideStatus.None? ==> e.status == Lookup(Table, kind).status
    ensures overrideMsg.None? ==> e.msg == Lookup(Table, kind).msg
  {
    var cfg := Lookup(Table, kind);
    NewErrorObj(overrideStatus.GetOr(cfg.status), overrideMsg.GetOr(cfg.msg), kind)
  }

  /** `getError` of api.error.util.ts: the same override-first factory over the older table. */
  function LegacyGetError(kind: ErrorKind, overrideMsg: Option<string>, overrideStatus: Option<int>): (e: ErrorObj)
    ensures e.name == kind && e.kind == kind
    ensures overrideStatus.Some? ==> e.status == overrideStatus.value
    ensures overrideMsg.Some? ==> e.msg == overrideMsg.value
    ensures overrideStatus.None? ==> e.status == Lookup(LegacyTable, kind).status
    ensures overrideMsg.None? ==> e.msg == Lookup(LegacyTable, kind).msg
  {
    var cfg := Lookup(LegacyTable, kind);
    NewErrorObj(overrideStatus.GetOr(cfg.status), overrideMsg.GetOr(cfg.msg), kind)
  }

  /** `getErrorFirts` of api.error.util.ts: takes no overrides and always uses the table. */
  function LegacyGetErrorFirst(kind: ErrorKind): (e: ErrorObj)
    ensures e.name == kind && e.kind == kind
    ensures e.status == Lookup(LegacyTable, kind).status
    ensures e.msg == Lookup(LegacyTable, kind).msg
  {
    var cfg := Lookup(LegacyTable, kind);
    NewErrorObj(cfg.status, cfg.msg, kind)
  }

  /** The statuses of the kinds the core raises. */
  lemma {:induction false} StatusMapping()
    ensures GetError(NotFoundError, None, None).status == 404
    ensures GetError(UnauthorizedError, None, None).status == 401
    ensures GetError(BadRequestError, None, None).status == 400
    ensures GetError(ConflictError, None, None).status == 409
    ensures GetError(GenericError, None, None).status == 500
    ensures GetError(DbError, None, None).status == 500
  {
    ErrorStatus(NotFoundError);
    ErrorStatus(UnauthorizedError);
    ErrorStatus(BadRequestError);
    ErrorStatus(ConflictError);
    ErrorStatus(GenericError);
    ErrorStatus(DbError);
  }

  /** Every default status of the table is an HTTP error status, 4xx or 5xx. */
  lemma {:induction false} DefaultStatusesAreErrors()
    ensures forall kind :: 400 <= GetError(kind, None, None).status <= 599
  {
    forall kind
      ensures 400 <= GetError(kind, None, None).status <= 599
    {
      ErrorStatus(kind);
    }
  }

  lemma {:induction false} ErrorStatus(kind: ErrorKind)
    ensures 400 <= Table(kind).value.status <= 599
    ensures GetError(kind, None, None).status == Table(kind).value.status
  {
  }

  /** api-error.ts maps every kind, so its fallback to the generic row never fires. */
  lemma {:induction false} TableIsTotal(kind: ErrorKind)
    ensures Table(kind).Some?
    ensures Lookup(Table, kind) == Table(kind).value
  {
  }

  /**
    The older table maps the kinds both files share to the same rows, and an
    unmapped kind (`DB_ERROR`) falls back to the generic 500 row.
  */
  lemma {:induction false} LegacyTableAgrees(kind: ErrorKind)
    ensures kind != DbError ==> Lookup(LegacyTable, kind) == Lookup(Table, kind)
    ensures kind == DbError ==> Lookup(LegacyTable, kind) == Entry(500, "An unexpected error occurred. Please try again later.")
    ensures kind == DbError ==> Lookup(Table, kind).status == 500
  {
  }

  /**
    With both overrides given, as every call site in the core does, the two
    factories build the same error: the core's choice of file does not matter.
  */
  lemma {:induction false} OverriddenErrorsAgree(kind: ErrorKind, msg: string, status: int)
    ensures GetError(kind, Some(msg), Some(status)) == LegacyGetError(kind, Some(msg), Some(status))
    ensures ToJson(GetError(kind, Some(msg), Some(status))) == ErrorJson(status, msg)
  {
  }

  /**
    Everything a call of the core can throw: a structured `ErrorObj`, a plain
    `Error` on which the source set a `status` field, or any other error (one
    raised by the database driver, a `TypeError`), which carries no status.
  */
  datatype Fault = Api(obj: ErrorObj) | Plain(status: int, msg: string) | Other(msg: string) {

    /** The status field the thrown error carries. */
    predicate HasStatus(s: int) {
      (Api? && obj.status == s) || (Plain? && status == s)
    }
  }

  /** `throw getError(kind, msg, status)`, the form every call site of the core uses. */
  function Raise(kind: ErrorKind, msg: string, status: int): (f: Fault)
    ensures f.Api? && f.obj.kind == kind && f.HasStatus(status) && f.obj.msg == msg
  {
    Api(GetError(kind, Some(msg), Some(status)))
  }
}
