/** The two GraphQL middlewares: authentication runs on every field resolve
    and attaches the user to the request; pagination recognises fields whose
    type a `Paginate` call built and turns their result into a page. */
module Middlewares {
  import opened Wrappers
  import opened Values
  import opened Tokens
  import opened Authentication
  import opened Guard
  import opened Pagination

  /** `CustomAuthMiddleware.resolve`: authenticates the request, overwrites
      its user with the outcome, and calls the next resolver with it. An
      error raised while authenticating propagates and `next` is not called. */
  function ResolveAuth<U, A, R>(c: Codec, lookup: Value -> Option<U>, info: Request<U>, args: A, now: int,
                                next: (Request<U>, A) -> R): (r: Result<R>)
    ensures r.Raised? <==> Authenticate(c, lookup, info.authorization, now).Raised?
    ensures r.Raised? ==> r.error == Authenticate(c, lookup, info.authorization, now).error
    ensures r.Ok? ==>
      r.value == next(Request(info.authorization, Authenticate(c, lookup, info.authorization, now).value), args)
  {
    match Authenticate(c, lookup, info.authorization, now)
    case Raised(e) => Raised(e)
    case Ok(user) => Ok(next(info.(user := user), args))
  }

  /** Whatever user the request carried before is discarded: only the
      header decides what the next resolver sees. */
  lemma PriorUserIgnored<U, A, R>(c: Codec, lookup: Value -> Option<U>, authorization: Option<string>,
                                  u1: Option<U>, u2: Option<U>, args: A, now: int, next: (Request<U>, A) -> R)
    ensures ResolveAuth(c, lookup, Request(authorization, u1), args, now, next)
         == ResolveAuth(c, lookup, Request(authorization, u2), args, now, next)
  {
  }

  /** End to end: a request without an Authorization header that reaches a
      guarded operation is refused with `NotAuthorized`, even if a user had
      been attached before, and the operation's state change never happens. */
  lemma AnonymousRequestRefused<S, U, A, R>(c: Codec, lookup: Value -> Option<U>, stale: Option<U>,
                                            op: Operation<S, U, A, R>, s: S, args: A, now: int)
    ensures ResolveAuth(c, lookup, Request(None, stale), args, now,
                        (i: Request<U>, a: A) => IsAuthenticated(op, s, i, a))
         == Ok((s, Raised(NotAuthorized)))
  {
  }

  /** End to end: a live token for a user the lookup finds lets the guarded
      operation run, with the found user on the request. */
  lemma AuthenticatedRequestRuns<S, U, A, R>(c: Codec, lookup: Value -> Option<U>, scheme: string,
                                             id: Value, issuedAt: int, now: int,
                                             op: Operation<S, U, A, R>, s: S, args: A)
    requires Sound(c)
    requires |scheme| == SchemeLength
    requires issuedAt <= now <= issuedAt + AccessMinutes * 60
    requires lookup(id).Some?
    ensures var header := Some(scheme + GetAccess(c, map["user_id" := id], issuedAt));
      ResolveAuth(c, lookup, Request(header, None), args, now,
                  (i: Request<U>, a: A) => IsAuthenticated(op, s, i, a))
      == Ok(op(s, Request(header, lookup(id)), args))
  {
    AnyTokenTypeAuthenticates(c, lookup, scheme, AccessType, AccessMinutes, id, issuedAt, now);
  }

  /** The return type of a field as the middleware reads it: a named type,
      or a wrapper type (a list or non-null) that has no name, on which
      reading the name raises and the field counts as not paginated. */
  datatype ReturnType = Named(name: string) | Unnamed

  /** Python's `s[-n:]`: the last `n` characters, or all of a shorter `s`. */
  function LastChars(s: string, n: nat): (r: string)
    ensures |r| == if |s| >= n then n else |s|
    ensures s[..|s| - |r|] + r == s
  {
    if |s| >= n then s[|s| - n..] else s
  }

  /** A field is paginated when its type name ends in "Paginated". */
  predicate IsPaginated(t: ReturnType): (b: bool)
    ensures b <==> t.Named? && |t.name| >= |PaginatedSuffix| && t.name[|t.name| - |PaginatedSuffix|..] == PaginatedSuffix
  {
    match t
    case Named(name) => LastChars(name, 9) == PaginatedSuffix
    case Unnamed => false
  }

  /** The suffix test holds of exactly the names some model name followed by
      "Paginated" spells, so it holds of every type `Paginate` builds. */
  lemma IsPaginatedIff(name: string)
    ensures IsPaginated(Named(name)) <==> exists model :: name == model + PaginatedSuffix
  {
    if IsPaginated(Named(name)) {
      var model := name[..|name| - 9];
      assert name == model + PaginatedSuffix;
    }
    if exists model :: name == model + PaginatedSuffix {
      var model :| name == model + PaginatedSuffix;
      assert name[|name| - 9..] == PaginatedSuffix;
    }
  }

  lemma PaginateRecognised(model: string)
    ensures IsPaginated(Named(Paginate(model).name))
  {
    IsPaginatedIff(Paginate(model).name);
  }

  /** What a field resolves to: the next resolver's value, or a page. */
  datatype Resolved<R, T> = Passed(value: R) | Paged(page: Page<T>)

  /** The requested page argument: `kwargs.pop("page", 1)`. */
  function PageArgument(kwargs: map<string, Value>): (v: Value)
    ensures "page" in kwargs ==> v == kwargs["page"]
    ensures "page" !in kwargs ==> v == Int(1)
  {
    if "page" in kwargs then kwargs["page"] else Int(1)
  }

  /** `CustomPaginationMiddleware.resolve`: for a paginated field, the "page"
      argument is taken out of the keyword arguments, the next resolver runs
      on the rest, and its items are paginated at the requested page; any
      other field is passed through untouched. `items` reads the item
      sequence out of the next resolver's result. */
  function ResolvePagination<R, T>(t: ReturnType, kwargs: map<string, Value>, next: map<string, Value> -> R,
                                   items: R -> seq<T>, setting: Option<int>): (r: Resolved<R, T>)
    requires setting.Some? ==> setting.value > 0
    ensures r.Paged? <==> IsPaginated(t)
    ensures r.Passed? ==> r.value == next(kwargs)
    ensures r.Paged? ==>
      exists forwarded: map<string, Value> ::
        && forwarded.Keys == kwargs.Keys - {"page"}
        && (forall k :: k in forwarded ==> forwarded[k] == kwargs[k])
        && r.page == ResolvePaginated(items(next(forwarded)), setting, PageRequestOf(PageArgument(kwargs)))
  {
    if IsPaginated(t) then
      var forwarded := kwargs - {"page"};
      Paged(ResolvePaginated(items(next(forwarded)), setting, PageRequestOf(PageArgument(kwargs))))
    else Passed(next(kwargs))
  }

  /** The next resolver of a paginated field never receives a "page"
      argument: two resolvers that agree on every argument map without one
      give the same page. */
  lemma PageNotForwarded<R, T>(t: ReturnType, kwargs: map<string, Value>,
                               next1: map<string, Value> -> R, next2: map<string, Value> -> R,
                               items: R -> seq<T>, setting: Option<int>)
    requires setting.Some? ==> setting.value > 0
    requires IsPaginated(t)
    requires forall kw: map<string, Value> :: "page" !in kw ==> next1(kw) == next2(kw)
    ensures ResolvePagination(t, kwargs, next1, items, setting) == ResolvePagination(t, kwargs, next2, items, setting)
  {
    assert "page" !in kwargs - {"page"};
  }

  /** A paginated field asked for no page serves the first page. */
  lemma MissingPageIsFirst<R, T>(model: string, kwargs: map<string, Value>, next: map<string, Value> -> R,
                                 items: R -> seq<T>, setting: Option<int>)
    requires setting.Some? ==> setting.value > 0
    requires "page" !in kwargs
    ensures var r := ResolvePagination(Named(Paginate(model).name), kwargs, next, items, setting);
      r.Paged? && r.page.current == 1 && !r.page.hasPrev
  {
    PaginateRecognised(model);
  }
}
