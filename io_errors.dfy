/**
 * Classification of the standard library's I/O errors into the crate's `IOError`
 * (src/fs/errors.rs).
 */
module IoErrors {

  /** The kinds of `std::io::ErrorKind`; every kind not named here is `Uncategorized`. */
  datatype ErrorKind =
    | NotFound
    | PermissionDenied
    | ConnectionRefused
    | ConnectionReset
    | AlreadyExists
    | WouldBlock
    | InvalidInput
    | InvalidData
    | TimedOut
    | WriteZero
    | Interrupted
    | Unsupported
    | UnexpectedEof
    | OutOfMemory
    | Other
    | Uncategorized

  /** A `std::io::Error`: its kind and the rest of what it carries (an OS code or a message). */
  datatype IoError = IoError(kind: ErrorKind, detail: string)

  /** The crate's `IOError`; every variant keeps the original error as its source. */
  datatype IOError =
    | AccessDeniedError(source: IoError)
    | FileNotFoundError(source: IoError)
    | Interrupted(source: IoError)
    | InvalidInput(source: IoError)
    | Generic(source: IoError)

  /** Only an interrupted call may be retried by its caller. */
  predicate IsRetryable(e: IOError) {
    e.Interrupted?
  }

  /** `impl From<std::io::Error> for IOError`: one variant per error kind, the error kept as source. */
  function FromIoError(e: IoError): (r: IOError)
    ensures r.source == e
    ensures r.AccessDeniedError? <==> e.kind == ErrorKind.PermissionDenied
    ensures r.FileNotFoundError? <==> e.kind == ErrorKind.NotFound
    ensures r.Interrupted? <==> e.kind == ErrorKind.Interrupted
    ensures r.InvalidInput? <==> e.kind == ErrorKind.InvalidInput
    ensures IsRetryable(r) <==> e.kind == ErrorKind.Interrupted
    ensures r.Generic? <==> e.kind !in {ErrorKind.PermissionDenied, ErrorKind.NotFound,
                                       ErrorKind.Interrupted, ErrorKind.InvalidInput}
  {
    match e.kind
    case PermissionDenied => AccessDeniedError(e)
    case NotFound => FileNotFoundError(e)
    case Interrupted => IOError.Interrupted(e)
    case InvalidInput => IOError.InvalidInput(e)
    case _ => Generic(e)
  }

  /** The conversion loses nothing: distinct I/O errors stay distinct. */
  lemma FromIoErrorInjective(a: IoError, b: IoError)
    ensures FromIoError(a) == FromIoError(b) ==> a == b
  {
    assert FromIoError(a).source == a && FromIoError(b).source == b;
  }
}
