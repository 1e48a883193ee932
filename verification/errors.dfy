/** The domain error classes of the service and the plain runtime errors that
    library code and the bootstrap path throw. Only the kind and the status
    code matter to callers; the message and details are carried along. */
module Errors {
  import opened Wrappers

  datatype ErrorKind = BadRequest | UnauthorizedAccess | ForbiddenAccess | NotFound

  type Details = map<string, string>

  datatype Error =
    | DomainError(kind: ErrorKind, message: string, details: Details)
    | RuntimeError(message: string)

  /** HTTP status code attached to each domain error kind. */
  function StatusCode(kind: ErrorKind): (code: nat)
    ensures 400 <= code < 500
    ensures kind == BadRequest ==> code == 400
    ensures kind == UnauthorizedAccess ==> code == 401
    ensures kind == ForbiddenAccess ==> code == 403
    ensures kind == NotFound ==> code == 404
  {
    match kind
    case BadRequest => 400
    case UnauthorizedAccess => 401
    case ForbiddenAccess => 403
    case NotFound => 404
  }

  /** The constructor of every domain error class: omitted details become an
      empty record. */
  function MakeError(kind: ErrorKind, message: string, details: Option<Details>): (e: Error)
    ensures e.DomainError? && e.kind == kind && e.message == message
    ensures details.None? ==> e.details == map[]
    ensures details.Some? ==> e.details == details.value
  {
    DomainError(kind, message, if details.Some? then details.value else map[])
  }

  /** Shorthand for a domain error thrown without details. */
  function Raise(kind: ErrorKind, message: string): (e: Error)
    ensures e == MakeError(kind, message, None)
  {
    DomainError(kind, message, map[])
  }

  predicate IsKind(e: Error, kind: ErrorKind) {
    e.DomainError? && e.kind == kind
  }

  /** Distinct error kinds never share a status code, so the code identifies
      the kind. */
  lemma StatusCodeInjective(a: ErrorKind, b: ErrorKind)
    ensures StatusCode(a) == StatusCode(b) <==> a == b
  {
  }
}
