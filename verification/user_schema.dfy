/** The two user mutations that issue tokens: logging in, and exchanging a
    refresh token for a new access token. */
module UserSchema {
  import opened Wrappers
  import opened Values
  import opened Tokens

  /** What a successful login returns. */
  datatype LoginPayload<U> = LoginPayload(access: string, refresh: string, user: U)

  /** `LoginUser.mutate`: checks the credentials through the injected
      `credentials` (Django's `authenticate`), and for a user found issues an
      access and a refresh token carrying the user's id under "user_id". */
  function LoginUser<U>(c: Codec, credentials: (string, string) -> Option<U>, idOf: U -> Value,
                        email: string, password: string, now: int): (r: Result<LoginPayload<U>>)
    ensures r.Raised? <==> credentials(email, password).None?
    ensures r.Raised? ==> r.error == InvalidCredentials
    ensures r.Ok? ==>
      && Some(r.value.user) == credentials(email, password)
      && r.value.access == GetAccess(c, map["user_id" := idOf(r.value.user)], now)
      && r.value.refresh == GetRefresh(c, map["user_id" := idOf(r.value.user)], now)
  {
    match credentials(email, password)
    case None => Raised(InvalidCredentials)
    case Some(user) =>
      var payload := map["user_id" := idOf(user)];
      Ok(LoginPayload(GetAccess(c, payload, now), GetRefresh(c, payload, now), user))
  }

  /** `GetAccess.mutate`: decodes the refresh token and, when it is live and
      typed "refresh", issues a fresh access token for its "user_id". A token
      that does not decode, has expired or has another type raises
      `InvalidToken`; one lacking "type" or "user_id" raises `KeyError`. */
  function GetAccessMutation(c: Codec, refresh: string, now: int): (r: Result<string>)
    ensures DecodeToken(c, refresh, now).Raised? ==> r == Raised(DecodeToken(c, refresh, now).error)
    ensures DecodeToken(c, refresh, now) == Ok(None) ==> r == Raised(InvalidToken)
    ensures (DecodeToken(c, refresh, now).Ok? && DecodeToken(c, refresh, now).value.Some? &&
             "type" !in DecodeToken(c, refresh, now).value.value)
            ==> r == Raised(MissingKey("type"))
    ensures (DecodeToken(c, refresh, now).Ok? && DecodeToken(c, refresh, now).value.Some? &&
             "type" in DecodeToken(c, refresh, now).value.value &&
             DecodeToken(c, refresh, now).value.value["type"] == Str(RefreshType) &&
             "user_id" !in DecodeToken(c, refresh, now).value.value)
            ==> r == Raised(MissingKey("user_id"))
    ensures r.Ok? <==>
      && DecodeToken(c, refresh, now).Ok?
      && DecodeToken(c, refresh, now).value.Some?
      && "type" in DecodeToken(c, refresh, now).value.value
      && DecodeToken(c, refresh, now).value.value["type"] == Str(RefreshType)
      && "user_id" in DecodeToken(c, refresh, now).value.value
    ensures r.Ok? ==>
      r.value == GetAccess(c, map["user_id" := DecodeToken(c, refresh, now).value.value["user_id"]], now)
    ensures (DecodeToken(c, refresh, now).Ok? && DecodeToken(c, refresh, now).value.Some? &&
             "type" in DecodeToken(c, refresh, now).value.value &&
             DecodeToken(c, refresh, now).value.value["type"] != Str(RefreshType))
            ==> r == Raised(InvalidToken)
  {
    match DecodeToken(c, refresh, now)
    case Raised(e) => Raised(e)
    case Ok(None) => Raised(InvalidToken)
    case Ok(Some(token)) =>
      if "type" !in token then Raised(MissingKey("type"))
      else if token["type"] != Str(RefreshType) then Raised(InvalidToken)
      else if "user_id" !in token then Raised(MissingKey("user_id"))
      else Ok(GetAccess(c, map["user_id" := token["user_id"]], now))
  }

  /** The claims a login token decodes to. */
  function LoginClaims(id: Value, exp: int, tokenType: string): Claims {
    map["exp" := Int(exp), "type" := Str(tokenType), "user_id" := id]
  }

  /** Both login tokens decode, within their lifetimes, to the user's id,
      their type and their expiry: one day for access, seven for refresh. */
  lemma LoginTokensDecode<U>(c: Codec, credentials: (string, string) -> Option<U>, idOf: U -> Value,
                             email: string, password: string, now: int, later: int)
    requires Sound(c)
    requires LoginUser(c, credentials, idOf, email, password, now).Ok?
    ensures var r := LoginUser(c, credentials, idOf, email, password, now).value;
      && (later <= now + 86400 ==>
            DecodeToken(c, r.access, later) == Ok(Some(LoginClaims(idOf(r.user), now + 86400, "access"))))
      && (later <= now + 604800 ==>
            DecodeToken(c, r.refresh, later) == Ok(Some(LoginClaims(idOf(r.user), now + 604800, "refresh"))))
  {
    var r := LoginUser(c, credentials, idOf, email, password, now).value;
    var payload := map["user_id" := idOf(r.user)];
    assert IssuedClaims(payload, AccessMinutes, AccessType, now) == LoginClaims(idOf(r.user), now + 86400, "access");
    assert IssuedClaims(payload, RefreshMinutes, RefreshType, now) == LoginClaims(idOf(r.user), now + 604800, "refresh");
  }

  /** The login's refresh token is exchangeable for seven days, and the
      access token it yields is the one a login at that moment would give. */
  lemma RefreshExchange<U>(c: Codec, credentials: (string, string) -> Option<U>, idOf: U -> Value,
                           email: string, password: string, now: int, later: int)
    requires Sound(c)
    requires LoginUser(c, credentials, idOf, email, password, now).Ok?
    requires later <= now + RefreshMinutes * 60
    ensures var r := LoginUser(c, credentials, idOf, email, password, now).value;
      GetAccessMutation(c, r.refresh, later) == Ok(GetAccess(c, map["user_id" := idOf(r.user)], later))
  {
    var r := LoginUser(c, credentials, idOf, email, password, now).value;
    RoundTrip(c, RefreshMinutes, map["user_id" := idOf(r.user)], RefreshType, now, later);
  }

  /** An access token is never exchangeable: live, it has the wrong type;
      expired, it does not decode to claims. */
  lemma AccessTokenNotExchangeable(c: Codec, id: Value, issuedAt: int, now: int)
    requires Sound(c)
    ensures GetAccessMutation(c, GetAccess(c, map["user_id" := id], issuedAt), now) == Raised(InvalidToken)
  {
  }

  /** Once expired, a refresh token is refused like any invalid one. */
  lemma ExpiredRefreshRefused(c: Codec, id: Value, issuedAt: int, now: int)
    requires Sound(c)
    requires now > issuedAt + RefreshMinutes * 60
    ensures GetAccessMutation(c, GetRefresh(c, map["user_id" := id], issuedAt), now) == Raised(InvalidToken)
  {
  }
}
