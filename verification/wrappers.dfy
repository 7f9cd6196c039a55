/** Failure-carrying wrappers shared by every module: `Option` for values the
    source returns as `None`, and `Result` for the exceptions it raises. */
module Wrappers {

  /** A Python value that may be `None`. */
  datatype Option<T> = None | Some(value: T)

  /** Python's `d.get(key, fallback)` once the lookup is done: the value found,
      or `fallback`. */
  function OrElse<T>(o: Option<T>, fallback: T): T {
    if o.Some? then o.value else fallback
  }

  /** The exceptions the modelled code raises, by kind. */
  datatype Error =
    | NotAuthorized              // "You are not authorized to perform operations"
    | InvalidCredentials         // "invalid credentials"
    | InvalidToken               // "Invalid token or has expired"
    | MissingKey(key: string)    // a `KeyError` from subscripting a claims dict
    | NotComparable(key: string) // a `TypeError` from ordering a number against a non-number

  /** The outcome of a call that may raise: a returned value or a raised error. */
  datatype Result<T> = Ok(value: T) | Raised(error: Error)
}
