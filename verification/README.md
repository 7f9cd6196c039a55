# Identity and query-shaping layer of an e-commerce GraphQL API, in Dafny

This project models the part of the e-commerce API that is not framework
wiring:

- the **token manager** issues and decodes signed, expiring, typed tokens (`tokens.dfy`);
- **request authentication** reads the Authorization header, decodes its token and looks up the user (`authentication.dfy`);
- the **authorization guard** refuses an operation when the request has no user (`guard.dfy`);
- **pagination** covers the generated page type and how a page is cut out of a result sequence (`pagination.dfy`);
- the **search compiler** has two parts:
  - a tokenizer that splits a free-text query into terms (`search.dfy`);
  - a compiler that folds those terms into an AND-of-ORs filter over named fields (`search_query.dfy`);
- the two **GraphQL middlewares** attach the user to each request and turn results into pages (`middlewares.dfy`);
- the two **token-issuing mutations**, log-in and refresh-for-access exchange (`user_schema.dfy`).

Everything is a pure function over immutable datatypes. These outside pieces are passed in as parameters:

- the HS256 signer/verifier, as a `Codec` of `encode` and `decode`. Lemmas that need "decoding what was encoded gives it back" assume `Sound(codec)`;
- the user lookup (`User.objects.get`, with not-found as `None`);
- Django's credential check;
- the next resolver in the middleware chain;
- the database's evaluation of a single `icontains` lookup (`hit`);
- the current time, in whole seconds.

Python exceptions are modelled as `Result.Raised(error)` (`wrappers.dfy`). Claims dicts and keyword arguments are `map<string, Value>` (`values.dfy`).

Behaviour of the code worth knowing, all of it modelled as written:

- A requested page below 1 is served the **last** page. Django raises `EmptyPage` for it and the code maps `EmptyPage` to the last page. Only a page that is not an integer gets page 1.
- `get_query` uses the field names it is given. It does not check them against an allow-list.
- Authentication drops exactly the first four characters of the header. It never checks the scheme word or the token's `type`, so a refresh token authenticates a request.
- A decoded token with no `"exp"` raises `KeyError`, and a non-numeric `exp` raises `TypeError`. Authenticating with a valid token that has no `"user_id"` also raises `KeyError`. None of these are folded into "no user".
- The payload is spread after `exp` and `type`, so a payload key with either name overrides the computed value.

## Model

| member | source | states |
|---|---|---|
| Tokens.IssuedClaims | ecommerce_api/authentication.py:8-11 | The claims are `exp = now + minutes*60` and `type`, overlaid by the payload. Keys are the payload's plus `exp` and `type`, and a payload value wins on a collision. |
| Tokens.GetToken | ecommerce_api/authentication.py:7-14 | With a sound codec, the issued token decodes to exactly the issued claims: expiry, type tag and payload. |
| Tokens.GetAccess | ecommerce_api/authentication.py:28-30 | An access token for a payload without `exp` or `type` decodes to the payload plus `exp = now + 86400` and `type = "access"`. |
| Tokens.GetRefresh | ecommerce_api/authentication.py:32-34 | A refresh token for a payload without `exp` or `type` decodes to the payload plus `exp = now + 604800` and `type = "refresh"`. |
| Tokens.DecodeToken | ecommerce_api/authentication.py:17-26 | A decode error gives `None`. A missing `exp` raises `KeyError` and a non-numeric one `TypeError`. Otherwise the result is `None` exactly when `now > exp`, and the decoded claims unchanged when `now <= exp`. |
| Tokens.RoundTrip | ecommerce_api/authentication.py:7-26 | Decoding a freshly issued token at any time up to and including its expiry returns exactly the issued claims. |
| Tokens.ExpiredAfterLifetime | ecommerce_api/authentication.py:23-24 | After its expiry, an issued token decodes to `None`. |
| Tokens.NegativeLifetimeRejected | ecommerce_api/authentication.py:23-24 | A token issued with a lifetime of -1 minutes is rejected from the moment it is issued. |
| Tokens.PayloadOverridesClaims | ecommerce_api/authentication.py:11 | An `exp` in the payload decides expiry and the lifetime argument is ignored. A `type` in the payload replaces the token type. |
| Tokens.PresetLifetimes | ecommerce_api/authentication.py:28-34 | Access tokens expire after 86400 s and have type "access". Refresh tokens expire after 604800 s and have type "refresh". |
| Values.AsNumber | ecommerce_api/authentication.py:23 | Ordering `now > exp` is defined for integers and booleans (as 0/1) and raises for strings and `None`. |
| Authentication.BearerToken | ecommerce_api/authentication.py:55 | The token is the header with exactly its first four characters removed, or "" for a shorter header. |
| Authentication.ValidateRequest | ecommerce_api/authentication.py:49-61 | A missing or empty header gives `None`. Any other header gives the decode result of its bearer token. |
| Authentication.Authenticate | ecommerce_api/authentication.py:41-47 | A validation error propagates and an invalid token gives `None`. A valid token with `user_id` gives exactly `lookup(user_id)`, and one without it raises `KeyError`. Nothing else raises. |
| Authentication.NoHeaderNoDecode | ecommerce_api/authentication.py:49-53 | Without a header the result is `None`, whatever the codec, lookup or time, so nothing is decoded. |
| Authentication.SchemeIsNotChecked | ecommerce_api/authentication.py:55 | Any four characters in front of a token are dropped alike, so the scheme word is never checked. |
| Authentication.ShortHeaderDecodesEmpty | ecommerce_api/authentication.py:55 | A non-empty header shorter than four characters decodes the empty string. |
| Authentication.AnyTokenTypeAuthenticates | ecommerce_api/authentication.py:41-47 | A live token issued for `id`, of any type, authenticates as `lookup(id)`. |
| Authentication.RefreshTokenAuthenticatesLikeAccess | ecommerce_api/authentication.py:41-47 | Within a day of issue, a refresh token and an access token for the same id authenticate the same user. |
| Guard.IsAuthenticated | ecommerce_api/permissions.py:7-15 | With no user: `NotAuthorized` is raised and the state is unchanged. With a user: the result is the wrapped operation's own result on the same state, request and arguments. |
| Guard.AnonymousNeverRuns | ecommerce_api/permissions.py:9-11 | For an anonymous request, any two wrapped operations give identical results and leave the state untouched, so the operation is never observed. |
| Guard.GuardIdempotent | ecommerce_api/permissions.py:7-15 | Guarding an already guarded operation changes nothing. |
| Pagination.Paginate | ecommerce_api/permissions.py:18-29 | The page type for model `M` is named `M` followed by "Paginated". Its fields, in order, are `total`, `size` and `current` (Int), `has_next` and `has_prev` (Boolean), and `results` (a list of `M`). |
| Pagination.PageSize | ecommerce_api/permissions.py:33 | The page size is the configured `PAGE_SIZE`, or 10 when none is configured. |
| Pagination.NumPages | ecommerce_api/permissions.py:40 | The page count is at least 1 and is the ceiling of count/size (1 for an empty sequence). |
| Pagination.ServedPage | ecommerce_api/permissions.py:43-48 | The served page lies in `[1, numPages]`. A non-integer gives 1, an integer outside the range gives `numPages`, and a valid page is kept. |
| Pagination.PageRequestOf | ecommerce_api/permissions.py:43-46 | A value counts as a page number exactly when `int(...)` accepts it, and the number is that conversion. |
| Pagination.ResolvePaginated | ecommerce_api/permissions.py:31-61 | `1 <= current <= total` and `total` is the page count. `size` is the item count. `has_next` iff `current < total` and `has_prev` iff `current > 1`. `current` is `ServedPage(req, total)`: 1 for a non-integer request, the last page for an integer outside `[1, total]`, and the requested page otherwise. Results are `items[(current-1)*pageSize .. min(current*pageSize, count)]`, and non-empty when there are items. |
| Pagination.PageSlice | ecommerce_api/permissions.py:40-56 | Page `p` holds exactly the items between the end of page `p - 1` and `min(p * size, count)`. |
| Pagination.PagesCoverItems | ecommerce_api/permissions.py:40-56 | Concatenating the results of pages 1 to `numPages` gives back exactly the item sequence. |
| Pagination.BelowOneServesLastPage | ecommerce_api/permissions.py:47-48 | A requested page below 1 serves the last page, which has no next page. |
| Pagination.NinetyFiveItems | ecommerce_api/permissions.py:40-57 | With 95 items and size 20: page 0 serves page 5; page 999 serves page 5 (items 80..95, no next, has previous); a non-integer serves page 1. |
| Pagination.EmptyItems | ecommerce_api/permissions.py:40-57 | An empty sequence gives one empty page with no neighbours, whatever page is requested. |
| Values.ParseShowInt | ecommerce_api/permissions.py:43-46 | `int(...)` parses back every integer's decimal numeral, so a numeric string page works like the integer. |
| Values.ParseInt | ecommerce_api/permissions.py:43-46 | `int(...)` on a string succeeds exactly on an optional sign followed by ASCII digits. The result's sign follows the leading `-`. |
| Values.ParseIntForms | ecommerce_api/permissions.py:43-46 | A digit string parses to the number it denotes. A leading `+` or leading zero changes nothing, and a leading `-` negates. |
| Values.ToInt | ecommerce_api/permissions.py:43-46 | `int(...)` keeps integers, reads booleans as 0/1 and parses strings. It fails exactly on `None` and on strings `ParseInt` rejects. |
| Search.Strip | ecommerce_api/permissions.py:64 | The stripped term is a contiguous slice of the input, and only whitespace is cut from either end. It has no whitespace at either end. |
| Search.Collapse | ecommerce_api/permissions.py:63-64 | After `\s{2,}` → `' '`, no two whitespace characters are adjacent. Non-whitespace characters, emptiness and the whitespace-ness of both ends are preserved. |
| Search.NormalizeTerm | ecommerce_api/permissions.py:64 | A normalized term has no edge whitespace and no whitespace run, and keeps the non-whitespace characters. |
| Search.CollapseSplit | ecommerce_api/permissions.py:64 | A whitespace run of length two or more between two parts becomes exactly one space, and each part is collapsed on its own. With `CollapseNoDoubleSpace` (a string without such a run is unchanged, so a lone tab stays), this determines the collapse. |
| Search.CollapseNoDoubleSpace | ecommerce_api/permissions.py:64 | A string with no run of two whitespace characters is left exactly as it is. |
| Search.NormalizeJoinsWords | ecommerce_api/permissions.py:64 | Two words separated by two or more whitespace characters normalize to the two words joined by a single space. |
| Search.NormalizeIdempotent | ecommerce_api/permissions.py:64 | Normalizing twice equals normalizing once. |
| Search.NormalizeQuery | ecommerce_api/permissions.py:63-64 | Every term is normalized. There are no terms exactly when the query is all whitespace. |
| Search.PhraseScan | ecommerce_api/permissions.py:63-64 | A quote, one or more non-quote characters and a closing quote give one term: the inner text, normalized. Scanning then continues after the closing quote. |
| Search.WordScan | ecommerce_api/permissions.py:63-64 | A maximal non-whitespace run that does not open a phrase (no leading quote, or no closing quote for it) is one term, unchanged. |
| Search.UnclosedQuoteScan | ecommerce_api/permissions.py:63 | A quote that no other quote follows opens no phrase: it stays in the `\S+` word it starts, as `"abc def` gives `"abc` and `def`. |
| Search.UnquotedIsSplit | ecommerce_api/permissions.py:63-64 | For a query without quotes the terms are exactly Python's `str.split()`, here written as an independent fold. |
| Search.RenderRoundTrip | ecommerce_api/permissions.py:63-64 | Typing well-formed words and quoted phrases separated by spaces, then tokenizing, gives back their texts in order. |
| Search.PhraseThenWord | ecommerce_api/permissions.py:63-64 | `"red shoes" small` gives the two terms `red shoes` and `small`. |
| Search.BlankPhraseIsEmptyTerm | ecommerce_api/permissions.py:64 | A quoted phrase of only whitespace yields the empty term. |
| SearchQuery.OrLoop | ecommerce_api/permissions.py:71-77 | The inner loop is a left-nested OR whose operands are `field__icontains=term` for each field, in field order. It is `None` only with no fields. |
| SearchQuery.AndLoop | ecommerce_api/permissions.py:70-81 | The outer loop produces no filter exactly when nothing was accumulated and either no terms remain or there are no fields. |
| SearchQuery.AndLoopConjuncts | ecommerce_api/permissions.py:70-81 | The outer loop keeps the conjuncts already accumulated and appends one per term, in term order. Each is that term's disjunction over the fields. |
| SearchQuery.GetQuery | ecommerce_api/permissions.py:67-82 | `None` iff the query has no terms or there are no fields. Otherwise a left-nested AND with one conjunct per term, in order, each the term's OR over the fields in order. |
| SearchQuery.HoldsConjuncts | ecommerce_api/permissions.py:78-81 | A left-nested AND selects a row iff all its operands do. |
| SearchQuery.HoldsDisjuncts | ecommerce_api/permissions.py:74-77 | A left-nested OR selects a row iff one of its operands does. |
| SearchQuery.SearchSemantics | ecommerce_api/permissions.py:67-82 | A row matches the compiled filter iff every term is found, through `icontains`, in at least one of the fields. |
| SearchQuery.RedShoesSmall | ecommerce_api/permissions.py:67-82 | `"red shoes" small` over `name`, `desc` compiles to `(name∨desc for "red shoes") ∧ (name∨desc for "small")`. |
| Middlewares.ResolveAuth | ecommerce_api/middlewares.py:5-13 | The next resolver is called with the request's user replaced by the outcome of authentication. An authentication error propagates unchanged instead. |
| Middlewares.PriorUserIgnored | ecommerce_api/middlewares.py:6 | The user a request carried before does not affect the outcome. |
| Middlewares.AnonymousRequestRefused | ecommerce_api/middlewares.py:5-7 | A request without a header that reaches a guarded operation gets `NotAuthorized` with the state unchanged, even if a stale user was set. |
| Middlewares.AuthenticatedRequestRuns | ecommerce_api/middlewares.py:5-7 | A live access token for a known user runs the guarded operation with that user on the request. |
| Middlewares.LastChars | ecommerce_api/middlewares.py:19 | Python's `s[-n:]`: the last `n` characters, or the whole of a shorter string. |
| Middlewares.IsPaginated | ecommerce_api/middlewares.py:18-22 | A field is paginated exactly when its return type has a name whose last nine characters are "Paginated". |
| Middlewares.IsPaginatedIff | ecommerce_api/middlewares.py:18-22 | The suffix test holds of a name iff it is some model name followed by "Paginated". |
| Middlewares.PaginateRecognised | ecommerce_api/permissions.py:29 | Every type name that `paginate` produces is classified as paginated. |
| Middlewares.PageArgument | ecommerce_api/middlewares.py:25 | The requested page is the `page` argument when given, and 1 otherwise. |
| Middlewares.ResolvePagination | ecommerce_api/middlewares.py:17-28 | A field is paged iff its type is paginated. Otherwise the next resolver's result on the unchanged arguments is returned. A page is cut from what `next` returns for the arguments without "page", at the requested page. |
| Middlewares.PageNotForwarded | ecommerce_api/middlewares.py:25-26 | The next resolver of a paginated field never receives a "page" argument. |
| Middlewares.MissingPageIsFirst | ecommerce_api/middlewares.py:25 | A paginated field asked for no page serves page 1. |
| UserSchema.LoginUser | user_controller/schema.py:68-84 | Bad credentials raise "invalid credentials" and issue nothing. Otherwise one access and one refresh token are issued, both with payload `{"user_id": id}`. |
| UserSchema.GetAccessMutation | user_controller/schema.py:93-103 | An error from decoding propagates unchanged. An undecodable or expired token, or a type other than "refresh", raises "Invalid token or has expired". A live token without `type`, or a live refresh token without `user_id`, raises `KeyError` for that key. Success happens iff the token is a live refresh token with a `user_id`, and then an access token for that `user_id` is issued. |
| UserSchema.LoginTokensDecode | user_controller/schema.py:77-78 | Within their lifetimes, the login tokens decode to `{exp, type, user_id}`, with one day for access and seven days for refresh. |
| UserSchema.RefreshExchange | user_controller/schema.py:93-99 | The login's refresh token can be exchanged for seven days, and gives the access token for the same user. |
| UserSchema.AccessTokenNotExchangeable | user_controller/schema.py:96-97 | An access token is refused for exchange at any time. |
| UserSchema.ExpiredRefreshRefused | user_controller/schema.py:94-97 | An expired refresh token is refused like an invalid one. |

## Left out

- HS256 signing and PyJWT are an injected `Codec`. Only the round-trip law (`Sound`) is assumed, and only in the lemmas that need it. Tamper sensitivity is a property of HMAC and is not modelled.
- PyJWT's own `exp` check inside `jwt.decode` is not modelled. It raises `ExpiredSignatureError`, which the code does not catch. The model keeps only the code's own `now > exp` comparison.
- Timestamps are whole seconds passed in as parameters. `datetime.now().timestamp()` returns a float with sub-second precision.
- The user lookup returns an option. Lookup failures other than `DoesNotExist` (a database error, a malformed id) are not modelled.
- `Pagination.ResolvePaginated` takes a sequence. The model's `seq` stands for a queryset, whose argument-free `count()` does not fail; the `raise Exception(qs)` path (permissions.py:35-38) is not modelled. A page size of 0 or below is excluded by a precondition because Django divides by it.
- Values.ParseInt accepts an optional sign followed by ASCII digits. It does not accept the surrounding whitespace, underscores, non-ASCII digits or integral floats that Python's `int(...)` also accepts.
- The promise unwrapping `.value` in the pagination middleware is the injected `items` function.
- The `cls` argument of the guard's wrapper is part of the opaque arguments.
- `LoginUser` also sets `user.last_login` and saves the user. That database write is not modelled.
- The database's `icontains` evaluation is the injected `hit` function, and only the filter expression is built.
- These parts of the repository are outside the model:
  - the resolvers and mutations of the product controller;
  - registration and image upload, and the GraphQL type declarations;
  - the Django models, admin, URL and schema wiring;
  - the settings. Only `PAGE_SIZE = 20` is used, as `Pagination.ConfiguredPageSize`.
