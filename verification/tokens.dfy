/** The token manager: issuing signed, expiring, typed tokens and decoding
    them back. The HS256 signature under the process secret is injected as a
    `Codec`; time is whole seconds since the epoch, passed in. */
module Tokens {
  import opened Wrappers
  import opened Values

  /** Lifetime of an access token, in minutes (one day). */
  const AccessMinutes: int := 24 * 60
  /** Lifetime of a refresh token, in minutes (seven days). */
  const RefreshMinutes: int := 7 * 24 * 60

  const AccessType: string := "access"
  const RefreshType: string := "refresh"

  /** The signing scheme: `encode` signs a claims dict into a token string,
      `decode` checks the signature and returns the claims, or `None` where
      the library raises a decode error. */
  datatype Codec = Codec(encode: Claims -> string, decode: string -> Option<Claims>)

  /** A codec that decodes every token it issued back to the claims it signed. */
  ghost predicate Sound(c: Codec) {
    forall cl: Claims :: c.decode(c.encode(cl)) == Some(cl)
  }

  /** The claims an issued token carries: an expiry `minutes` after `now` and
      the type tag, overlaid by the caller's payload, so that a payload key
      named "exp" or "type" wins over the computed one. */
  function IssuedClaims(payload: Claims, minutes: int, tokenType: string, now: int): (cl: Claims)
    ensures cl.Keys == payload.Keys + {"exp", "type"}
    ensures forall k :: k in payload ==> cl[k] == payload[k]
    ensures "exp" !in payload ==> cl["exp"] == Int(now + minutes * 60)
    ensures "type" !in payload ==> cl["type"] == Str(tokenType)
  {
    map["exp" := Int(now + minutes * 60), "type" := Str(tokenType)] + payload
  }

  /** Issues a token of the given type living `minutes` from `now`. */
  function GetToken(c: Codec, minutes: int, payload: Claims, tokenType: string, now: int): (token: string)
    ensures Sound(c) ==> c.decode(token) == Some(IssuedClaims(payload, minutes, tokenType, now))
  {
    c.encode(IssuedClaims(payload, minutes, tokenType, now))
  }

  /** Without "exp" or "type" in the payload, the issued claims are the
      payload with exactly those two keys added. */
  lemma IssuedClaimsFresh(payload: Claims, minutes: int, tokenType: string, now: int)
    ensures "exp" !in payload && "type" !in payload ==>
      IssuedClaims(payload, minutes, tokenType, now) == payload["exp" := Int(now + minutes * 60)]["type" := Str(tokenType)]
  {
    if "exp" !in payload && "type" !in payload {
      var cl := IssuedClaims(payload, minutes, tokenType, now);
      var expected := payload["exp" := Int(now + minutes * 60)]["type" := Str(tokenType)];
      assert cl.Keys == expected.Keys;
      forall k | k in cl ensures cl[k] == expected[k] {
      }
    }
  }

  /** An access token: type "access", living one day. */
  function GetAccess(c: Codec, payload: Claims, now: int): (token: string)
    ensures Sound(c) && "exp" !in payload && "type" !in payload ==>
      c.decode(token) == Some(payload["exp" := Int(now + 86400)]["type" := Str("access")])
  {
    IssuedClaimsFresh(payload, AccessMinutes, AccessType, now);
    GetToken(c, AccessMinutes, payload, AccessType, now)
  }

  /** A refresh token: type "refresh", living seven days. */
  function GetRefresh(c: Codec, payload: Claims, now: int): (token: string)
    ensures Sound(c) && "exp" !in payload && "type" !in payload ==>
      c.decode(token) == Some(payload["exp" := Int(now + 604800)]["type" := Str("refresh")])
  {
    IssuedClaimsFresh(payload, RefreshMinutes, RefreshType, now);
    GetToken(c, RefreshMinutes, payload, RefreshType, now)
  }

  /** Decodes a token at time `now`: `Ok(None)` for a token that fails to
      decode or whose expiry lies strictly before `now`, `Ok(Some(claims))`
      with the claims untouched otherwise. Subscripting a missing "exp" raises
      `KeyError`, and comparing `now` with a non-numeric one raises `TypeError`. */
  function DecodeToken(c: Codec, token: string, now: int): (r: Result<Option<Claims>>)
    ensures c.decode(token).None? ==> r == Ok(None)
    ensures r.Raised? <==>
      c.decode(token).Some? &&
      ("exp" !in c.decode(token).value || AsNumber(c.decode(token).value["exp"]).None?)
    ensures r.Raised? && "exp" !in c.decode(token).value ==> r.error == MissingKey("exp")
    ensures r.Raised? && "exp" in c.decode(token).value ==> r.error == NotComparable("exp")
    ensures r.Ok? && r.value.Some? <==>
      c.decode(token).Some? && "exp" in c.decode(token).value &&
      AsNumber(c.decode(token).value["exp"]).Some? &&
      now <= AsNumber(c.decode(token).value["exp"]).value
    ensures r.Ok? && r.value.Some? ==> r.value == c.decode(token)
  {
    match c.decode(token)
    case None => Ok(None)
    case Some(decoded) =>
      if "exp" !in decoded then Raised(MissingKey("exp"))
      else match AsNumber(decoded["exp"])
        case None => Raised(NotComparable("exp"))
        case Some(exp) => if now > exp then Ok(None) else Ok(Some(decoded))
  }

  /** Round trip: a token issued at `issuedAt` decodes, at any time up to and
      including its expiry, to exactly the claims it was issued with. */
  lemma RoundTrip(c: Codec, minutes: int, payload: Claims, tokenType: string, issuedAt: int, now: int)
    requires Sound(c)
    requires "exp" !in payload
    requires now <= issuedAt + minutes * 60
    ensures DecodeToken(c, GetToken(c, minutes, payload, tokenType, issuedAt), now)
            == Ok(Some(IssuedClaims(payload, minutes, tokenType, issuedAt)))
  {
  }

  /** Expiry: one second past its expiry, the same token decodes to `None`;
      the comparison is strict, so the token is still accepted at the expiry
      instant itself (see `RoundTrip`). */
  lemma ExpiredAfterLifetime(c: Codec, minutes: int, payload: Claims, tokenType: string, issuedAt: int, now: int)
    requires Sound(c)
    requires "exp" !in payload
    requires now > issuedAt + minutes * 60
    ensures DecodeToken(c, GetToken(c, minutes, payload, tokenType, issuedAt), now) == Ok(None)
  {
  }

  /** A token issued with a negative lifetime is rejected from the moment it
      is issued. */
  lemma NegativeLifetimeRejected(c: Codec, payload: Claims, tokenType: string, issuedAt: int, now: int)
    requires Sound(c)
    requires "exp" !in payload
    requires now >= issuedAt
    ensures DecodeToken(c, GetToken(c, -1, payload, tokenType, issuedAt), now) == Ok(None)
  {
  }

  /** The payload is spread last: an "exp" in the payload replaces the computed
      expiry, so the lifetime argument no longer matters, and a "type" in the
      payload replaces the token type. */
  lemma PayloadOverridesClaims(c: Codec, minutes: int, payload: Claims, tokenType: string, issuedAt: int, now: int, exp: int)
    requires Sound(c)
    requires "exp" in payload && payload["exp"] == Int(exp)
    ensures DecodeToken(c, GetToken(c, minutes, payload, tokenType, issuedAt), now)
            == (if now > exp then Ok(None) else Ok(Some(IssuedClaims(payload, minutes, tokenType, issuedAt))))
    ensures "type" in payload ==>
      IssuedClaims(payload, minutes, tokenType, issuedAt)["type"] == payload["type"]
  {
  }

  /** The two presets: an access token lives one day and is typed "access";
      a refresh token lives seven days and is typed "refresh". */
  lemma PresetLifetimes(c: Codec, payload: Claims, now: int)
    requires Sound(c)
    requires "exp" !in payload && "type" !in payload
    ensures c.decode(GetAccess(c, payload, now)).Some?
    ensures c.decode(GetAccess(c, payload, now)).value["exp"] == Int(now + 86400)
    ensures c.decode(GetAccess(c, payload, now)).value["type"] == Str("access")
    ensures c.decode(GetRefresh(c, payload, now)).Some?
    ensures c.decode(GetRefresh(c, payload, now)).value["exp"] == Int(now + 604800)
    ensures c.decode(GetRefresh(c, payload, now)).value["type"] == Str("refresh")
  {
  }
}
