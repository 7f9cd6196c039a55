/** The authorization guard (`is_authenticated`): a decorator that lets an
    operation run only for a request with a resolved user. Operations are
    modelled as state transformers so that "it never runs" is observable as
    "the state is unchanged and the result does not depend on it". */
module Guard {
  import opened Wrappers

  /** The request-scoped context: the raw Authorization header and the user
      the authentication middleware attached (`None` when anonymous). */
  datatype Request<U> = Request(authorization: Option<string>, user: Option<U>)

  /** A resolver or mutation: given the application state, the request and
      its arguments, the new state and its returned value or raised error. */
  type Operation<!S, !U, !A, R> = (S, Request<U>, A) -> (S, Result<R>)

  /** The wrapped operation: raises `NotAuthorized` before running `op` when
      the request has no user, and otherwise is `op` itself, called with the
      same state, request and arguments. */
  function IsAuthenticated<S, U, A, R>(op: Operation<S, U, A, R>, s: S, info: Request<U>, args: A): (r: (S, Result<R>))
    ensures info.user.None? ==> r.0 == s && r.1 == Raised(NotAuthorized)
    ensures info.user.Some? ==> r == op(s, info, args)
  {
    if info.user.None? then (s, Raised(NotAuthorized))
    else op(s, info, args)
  }

  /** An anonymous request cannot observe the wrapped operation: any two
      operations give the same state and the same error. */
  lemma AnonymousNeverRuns<S, U, A, R>(op1: Operation<S, U, A, R>, op2: Operation<S, U, A, R>,
                                       s: S, info: Request<U>, args: A)
    requires info.user.None?
    ensures IsAuthenticated(op1, s, info, args) == IsAuthenticated(op2, s, info, args)
    ensures IsAuthenticated(op1, s, info, args).0 == s
  {
  }

  /** Decorating an already decorated operation changes nothing. */
  lemma GuardIdempotent<S, U, A, R>(op: Operation<S, U, A, R>, s: S, info: Request<U>, args: A)
    ensures IsAuthenticated((s': S, i: Request<U>, a: A) => IsAuthenticated(op, s', i, a), s, info, args)
            == IsAuthenticated(op, s, info, args)
  {
  }
}
