/** Request authentication: reading the Authorization header, decoding the
    bearer token in it and resolving the principal through an injected
    lookup (the ORM's `User.objects.get`, with `DoesNotExist` as `None`). */
module Authentication {
  import opened Wrappers
  import opened Values
  import opened Tokens

  /** How many leading characters of the header are dropped as the scheme
      and its separator; no search for a space is made. */
  const SchemeLength: nat := 4

  /** The token part of a header, as Python's `header[4:]`: everything after
      the fourth character, or the empty string for a shorter header. */
  function BearerToken(header: string): (token: string)
    ensures |header| >= SchemeLength ==> header[..SchemeLength] + token == header
    ensures |header| < SchemeLength ==> token == ""
  {
    if |header| >= SchemeLength then header[SchemeLength..] else ""
  }

  /** `validate_request`: the decoded claims of the request's token, or
      `None` when the header is absent or empty or the token does not decode. */
  function ValidateRequest(c: Codec, authorization: Option<string>, now: int): (r: Result<Option<Claims>>)
    ensures authorization.None? || authorization == Some("") ==> r == Ok(None)
    ensures authorization.Some? && authorization.value != "" ==>
      r == DecodeToken(c, BearerToken(authorization.value), now)
  {
    match authorization
    case None => Ok(None)
    case Some(header) =>
      if header == "" then Ok(None)
      else DecodeToken(c, BearerToken(header), now)
  }

  /** `authenticate`: the user named by the token's "user_id" claim, or `None`
      when there is no valid token or no such user. The token's "type" is not
      looked at. A valid token without "user_id" raises `KeyError`. */
  function Authenticate<U>(c: Codec, lookup: Value -> Option<U>, authorization: Option<string>, now: int): (r: Result<Option<U>>)
    ensures ValidateRequest(c, authorization, now).Raised? ==> r == Raised(ValidateRequest(c, authorization, now).error)
    ensures ValidateRequest(c, authorization, now) == Ok(None) ==> r == Ok(None)
    ensures r.Ok? && r.value.Some? ==>
      exists cl :: ValidateRequest(c, authorization, now) == Ok(Some(cl)) &&
        "user_id" in cl && lookup(cl["user_id"]) == r.value
    ensures r == Raised(MissingKey("user_id")) <==>
      ValidateRequest(c, authorization, now).Ok? &&
      ValidateRequest(c, authorization, now).value.Some? &&
      "user_id" !in ValidateRequest(c, authorization, now).value.value
    ensures
      var v := ValidateRequest(c, authorization, now);
      v.Ok? && v.value.Some? && "user_id" in v.value.value ==> r == Ok(lookup(v.value.value["user_id"]))
    ensures r.Raised? ==>
      ValidateRequest(c, authorization, now).Raised? || r == Raised(MissingKey("user_id"))
  {
    match ValidateRequest(c, authorization, now)
    case Raised(e) => Raised(e)
    case Ok(None) => Ok(None)
    case Ok(Some(data)) =>
      if "user_id" !in data then Raised(MissingKey("user_id"))
      else Ok(lookup(data["user_id"]))
  }

  /** With no header, or an empty one, nothing is decoded: the answer is
      `None` whatever the codec and the lookup. */
  lemma NoHeaderNoDecode<U>(c1: Codec, c2: Codec, l1: Value -> Option<U>, l2: Value -> Option<U>,
                            authorization: Option<string>, t1: int, t2: int)
    requires authorization.None? || authorization == Some("")
    ensures Authenticate(c1, l1, authorization, t1) == Ok(None)
    ensures Authenticate(c1, l1, authorization, t1) == Authenticate(c2, l2, authorization, t2)
  {
  }

  /** Only the position of the token matters: any four characters in front
      of it, whether "JWT ", "Bear" or anything else, are dropped alike. */
  lemma SchemeIsNotChecked(c: Codec, scheme: string, token: string, now: int)
    requires |scheme| == SchemeLength
    ensures ValidateRequest(c, Some(scheme + token), now) == DecodeToken(c, token, now)
  {
    assert (scheme + token)[SchemeLength..] == token;
  }

  /** A non-empty header shorter than the scheme decodes the empty string. */
  lemma ShortHeaderDecodesEmpty(c: Codec, header: string, now: int)
    requires 0 < |header| < SchemeLength
    ensures ValidateRequest(c, Some(header), now) == DecodeToken(c, "", now)
  {
  }

  /** A live token issued for `id`, whatever its type, authenticates as the
      user the lookup finds for `id`: a refresh token is accepted exactly like
      an access token. */
  lemma AnyTokenTypeAuthenticates<U>(c: Codec, lookup: Value -> Option<U>, scheme: string,
                                     tokenType: string, minutes: int, id: Value, issuedAt: int, now: int)
    requires Sound(c)
    requires |scheme| == SchemeLength
    requires now <= issuedAt + minutes * 60
    ensures Authenticate(c, lookup, Some(scheme + GetToken(c, minutes, map["user_id" := id], tokenType, issuedAt)), now)
            == Ok(lookup(id))
  {
    var token := GetToken(c, minutes, map["user_id" := id], tokenType, issuedAt);
    SchemeIsNotChecked(c, scheme, token, now);
    RoundTrip(c, minutes, map["user_id" := id], tokenType, issuedAt, now);
  }

  /** Both presets in particular: within its lifetime, a refresh token from
      `GetRefresh` authenticates the same user as an access token from
      `GetAccess`. */
  lemma RefreshTokenAuthenticatesLikeAccess<U>(c: Codec, lookup: Value -> Option<U>, scheme: string,
                                               id: Value, issuedAt: int, now: int)
    requires Sound(c)
    requires |scheme| == SchemeLength
    requires issuedAt <= now <= issuedAt + AccessMinutes * 60
    ensures Authenticate(c, lookup, Some(scheme + GetRefresh(c, map["user_id" := id], issuedAt)), now)
            == Authenticate(c, lookup, Some(scheme + GetAccess(c, map["user_id" := id], issuedAt)), now)
            == Ok(lookup(id))
  {
    AnyTokenTypeAuthenticates(c, lookup, scheme, RefreshType, RefreshMinutes, id, issuedAt, now);
    AnyTokenTypeAuthenticates(c, lookup, scheme, AccessType, AccessMinutes, id, issuedAt, now);
  }
}
