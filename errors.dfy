/**
 * The server's error type, how each variant becomes an HTTP response, and the
 * two `map_err` helpers that wrap lower-level failures into it.
 */
module Errors {
  import opened Wrappers

  /** The kinds of `std::io::Error` the core distinguishes. */
  datatype IoErrorKind = NotFound | PermissionDenied | WriteZero | Other

  datatype IoError = IoError(kind: IoErrorKind, message: string)

  /**
   * `AppError`. Library error payloads (tera, sqlx, serde_json, the S3 SDK,
   * UTF-8 decoding) are carried as their rendered text.
   */
  datatype AppError =
    | TemplateError(detail: string)
    | DBInitError(path: string, source: string)
    | DBError(message: string, source: string)
    | NoTokenFound(reason: string)
    | MigrationError(detail: string)
    | UploadError(io: IoError)
    | InvalidUrlToken(token: string, source: string)
    | UnknownStorageBackend(backendType: string)
    | UploadBackendError(context: BackendContext, cause: IoError)
    | InvalidStorageBackendJSON(source: string)
    | NotFound(body: string)
    | S3ReadError(detail: string)
    | S3DeleteError(detail: string)
    | DeleteBlobError(fileId: int, tokenId: int, inner: AppError)

  /** `{:?}` of a path: the path between double quotes (escaping of special characters is not modelled). */
  function DebugPath(p: string): string { "\"" + p + "\"" }

  /** What a storage backend was doing, and to which path, when an io error stopped it. */
  datatype BackendContext = CannotSave(path: string) | CannotSync(path: string) | CannotDelete(path: string) | CannotOpen(path: string)

  /** The message `with_context` attaches for each context. */
  function ContextMessage(c: BackendContext): (m: string)
    ensures |m| > |DebugPath(c.path)| && m[|m| - |DebugPath(c.path)|..] == DebugPath(c.path)
  {
    var prefix := match c
      case CannotSave(_) => "Cannot save file to "
      case CannotSync(_) => "Cannot sync all to "
      case CannotDelete(_) => "Cannot delete file at "
      case CannotOpen(_) => "Cannot open file at ";
    assert (prefix + DebugPath(c.path))[|prefix|..] == DebugPath(c.path);
    prefix + DebugPath(c.path)
  }

  const StatusNotFound: int := 404
  const StatusInternalServerError: int := 500

  /** A response body: an HTML page, or the `{:?}` rendering of an error. */
  datatype Body = Html(text: string) | DebugOf(err: AppError)

  datatype Response = Response(status: int, body: Body)

  /**
   * `IntoResponse for AppError`: a `NotFound` becomes a 404 carrying its own
   * HTML body; every other variant is a 500 whose body is the error's debug text.
   */
  function IntoResponse(e: AppError): (r: Response)
    ensures r.status == StatusNotFound <==> e.NotFound?
    ensures r.status == StatusNotFound || r.status == StatusInternalServerError
    ensures e.NotFound? ==> r.body == Html(e.body)
    ensures !e.NotFound? ==> r.body == DebugOf(e)
  {
    match e
    case NotFound(body) => Response(StatusNotFound, Html(body))
    case _ => Response(StatusInternalServerError, DebugOf(e))
  }

  /** `From<MultipartError>`: the multipart error's debug text inside an io error of kind Other. */
  function FromMultipartError(debugText: string): (e: AppError)
    ensures e.UploadError? && e.io.kind == Other && e.io.message == debugText
    ensures IntoResponse(e).status == StatusInternalServerError
  {
    UploadError(IoError(Other, debugText))
  }

  /** `DBErrorContext::with_context`: `Ok` passes through, a database error becomes `DBError` with the message. */
  function DbWithContext<T>(r: Result<T, string>, message: string): (out: Result<T, AppError>)
    ensures r.Ok? <==> out.Ok?
    ensures r.Ok? ==> out.value == r.value
    ensures r.Err? ==> out.error == DBError(message, r.error)
  {
    match r
    case Ok(v) => Ok(v)
    case Err(source) => Err(DBError(message, source))
  }

  /** `BackendErrorContext::with_context`: `Ok` passes through, an io error becomes `UploadBackendError` with the context. */
  function BackendWithContext<T>(r: Result<T, IoError>, context: BackendContext): (out: Result<T, AppError>)
    ensures r.Ok? <==> out.Ok?
    ensures r.Ok? ==> out.value == r.value
    ensures r.Err? ==> out.error == UploadBackendError(context, r.error)
  {
    match r
    case Ok(v) => Ok(v)
    case Err(source) => Err(UploadBackendError(context, source))
  }

  /** The `?` conversion `From<std::io::Error>` for `AppError`. */
  function FromIo(e: IoError): (a: AppError)
    ensures a.UploadError? && a.io == e
    ensures IntoResponse(a).status == StatusInternalServerError && IntoResponse(a).body == DebugOf(a)
  {
    UploadError(e)
  }
}
