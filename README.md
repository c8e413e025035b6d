# isAuth: access-token check, refresh-token rotation and revocation

This project models the authentication middleware of the SOY back end,
`back/middlewares/auth.js`: `isAuth` and its helper `invalidateRefreshToken`.
Every request that carries a `Cookie` header goes through these steps:

1. **Rate limit.** The request is counted against a fixed one-hour window for
   its client address. The eleventh request in a window is rejected.
2. **Cookie scan.** The header is split on `;`. Each piece is split on `=`.
   Every `access_token` piece is verified, and each one that verifies calls
   `next()` with its claims. The last `refresh_token` piece is remembered.
3. **Refresh branch.** This runs when no access token was seen, or one has
   expired. It then does one of five things:
   - revokes a refresh token whose registered access token is still live (theft);
   - rotates the access token once the registered one has expired;
   - rejects with 401 "Unauthenticated" or "Token has been invalidated";
   - rejects with 403 "Refresh token expired";
   - answers 500.

The model has four parts:

- `Cookies`: the hand-written splitting and how a piece becomes a key and a value.
  - `Split`, `CookieKey` and `CookieValue` are the parsing.
  - `Render` builds a `Cookie` header the way RFC 6265 section 5.4 formats it.
  - `RenderRoundTrip` proves that parsing a rendered header gives back every cookie.
- `RateLimit`: the fixed-window limiter.
  - `Admit` is one attempt.
  - `Attempts` is a run of attempts, and `TenAttemptsPerWindow` proves the budget of ten per hour.
- `Tokens`: the session a token carries, and the three answers of JWT verification: the claims, expired, or invalid. A cookie with no value or an empty value never reaches the verifier's signature check: `jwt.verify` refuses it as invalid, never as expired.
- `Auth`: the middleware itself.
  - `ScanAll` specifies the cookie loop. The method `ScanCookies` runs it as a loop, proved equal to it.
  - `Step` is the spec function for one request: the stores after it, and its `Outcome`.
  - An `Outcome` is the sessions `next()` was called with, the cookie set, and the response written.
  - The class `AuthMiddleware` owns the three stores: `rateLimiter`, `tokenList` and `invalidatedTokens`. Its method `IsAuth` handles a request step by step and is proved equal to `Step`. It also keeps the store invariant `StoresValid`: a revoked token is never registered.
  - `AuthProperties` states the promises of `isAuth` as lemmas about `Step`, including a theft-then-replay scenario over two requests.

The collaborators are function parameters (`Oracles`): JWT verification, JWT signing, the user lookup by e-mail, and whether `res.cookie` accepts a duration as a cookie's `maxAge`. The clock, the client address and `ACCESS_TOKEN_DURATION` are request and configuration fields.

The code's own comments (lines 82-83 call a live registered access token a sign of
theft; line 87 calls an expired one a legitimate user) and its 403 for theft suggest a
stricter design than it implements. The model follows the code as written:

- A revoked refresh token is answered 401 "Token has been invalidated", not 403.
- A refresh token with no registry entry makes line 81 read a property of `undefined`. That TypeError gives 500, not a rotation.
- A token replayed after it was revoked therefore gets 401.
- A rejected request still counts against the limiter. A throttled request keeps its incremented count.
- An access token that fails verification without having expired leaves the request unanswered. `foundToken` is set, so the refresh branch is skipped.
- Several verifying `access_token` cookies call `next()` several times.
- A request can call `next()` in the loop and then still receive a status from the refresh branch. This happens with one valid and one expired access token.
- The stored access token is verified like a cookie value, so an empty one is invalid and gives 500.
- A rotation registers the new token (line 102) before it sets the cookie (line 103). When `res.cookie` throws, for example on a `maxAge` of "15m" that `jwt.sign` accepts, the answer is 403 "Refresh token expired" and the registry keeps a token the client never received. A retry while that token is live is then treated as theft.

## Model

| member | source | states |
|---|---|---|
| `Cookies.Split` | back/middlewares/auth.js:27 | `split` on one character: at least one piece, no piece holds the separator, and joining the pieces with it gives back the input |
| `Cookies.SplitHead` | back/middlewares/auth.js:46 | the first piece is the longest separator-free prefix; there is one piece exactly when the input has no separator |
| `Cookies.SplitJoin` | back/middlewares/auth.js:27 | splitting undoes joining when no piece holds the separator |
| `Cookies.CookieKey` | back/middlewares/auth.js:46-52 | the key is the longest `=`-free prefix of the piece, less one leading space, and holds no `=` |
| `Cookies.CookieValue` | back/middlewares/auth.js:56 | `cookieArray[1]`: undefined exactly when the piece has no `=`; otherwise the `=`-free text after the first `=`, up to the next `=` or the end |
| `Cookies.ValueStopsAtSecondEquals` | back/middlewares/auth.js:46-56 | a value that itself holds `=` is cut at it |
| `Cookies.ParseRenderedPiece` | back/middlewares/auth.js:46-52 | a rendered `name=value` piece, with or without its leading space, parses back to that name and value |
| `Cookies.RenderRoundTrip` | back/middlewares/auth.js:27-52 | a header rendered from well-formed cookies parses into one piece per cookie, in order, each with its name as key and its value |
| `Cookies.SingleCookieHeader` | back/middlewares/auth.js:27-52 | a header of one well-formed cookie is one piece with that key and value |
| `RateLimit.Admit` | back/middlewares/auth.js:35-44 | a missing or expired entry restarts at count 1 and is admitted; inside the hour the count goes up by one, the start stays, and the attempt is admitted exactly when the count stays at most 10 |
| `RateLimit.AttemptsInWindow` | back/middlewares/auth.js:37-41 | inside one window the k-th further attempt is admitted exactly when the count it reaches is at most 10, and all attempts are counted |
| `RateLimit.TenAttemptsPerWindow` | back/middlewares/auth.js:33-44 | from a fresh or expired entry, exactly the first ten attempts of the hour are admitted, and the entry ends with the number of attempts |
| `Tokens.VerifyCookie` | back/middlewares/auth.js:56-58 | an undefined or empty token value is invalid (never expired) without consulting the signature; any other value gets the verifier's verdict |
| `Tokens.WithDefaultLocale` | back/middlewares/auth.js:58-61 | the session has a locale: the token's own when it has one, "en" otherwise; no other claim changes |
| `Auth.AccessTokenExpiration` | back/middlewares/auth.js:100 | a set, non-empty duration is used as is, otherwise "300000"; never empty |
| `Auth.Revoke` | back/middlewares/auth.js:9-13 | the token leaves the registry and joins the revoked set; every other token and the limiter are unchanged |
| `Auth.ScanCookies` | back/middlewares/auth.js:45-72 | the loop's `foundToken`, `tokenExpired`, `refreshToken` and `next()` calls equal the loop specification `ScanAll` over the parsed pieces |
| `Auth.StepKeepsStoresValid` | back/middlewares/auth.js:24-122 | no request registers a revoked token or leaves a limiter count below one |
| `Auth.RenewKeepsStoresValid` | back/middlewares/auth.js:74-116 | the refresh branch registers only tokens it found unrevoked, and unregisters a token before revoking it |
| `Auth.AuthMiddleware.constructor` | back/middlewares/auth.js:3-6 | empty limiter and revoked set, the given registry, and the store invariant holds |
| `Auth.AuthMiddleware.InvalidateRefreshToken` | back/middlewares/auth.js:9-13 | the stores become `Revoke` of the old stores |
| `Auth.AuthMiddleware.Evict` | back/middlewares/auth.js:16-18 | the expiry timer removes the token from the revoked set only, and keeps the store invariant |
| `Auth.AuthMiddleware.Throttle` | back/middlewares/auth.js:33-44 | the client's entry becomes the one `Admit` gives, and the request passes exactly when `Admit` admits it; other stores unchanged |
| `Auth.AuthMiddleware.RotateAccessToken` | back/middlewares/auth.js:89-108 | the stores and outcome are the rotation's: new registry entry, cookie and `next()` with the user; 403 "Refresh token expired" with no store change when the refresh token does not verify, no user is found or signing fails; 403 "Refresh token expired" with the new entry kept when `res.cookie` refuses the lifetime |
| `Auth.AuthMiddleware.HandleRefresh` | back/middlewares/auth.js:73-116 | the stores and outcome are those of the refresh-branch specification `Renew` |
| `Auth.AuthMiddleware.IsAuth` | back/middlewares/auth.js:24-122 | the stores and outcome are those of `Step` on the old stores, and the store invariant is kept |
| `AuthProperties.ScanAllSnoc` | back/middlewares/auth.js:45-72 | one more turn of the loop: how each loop variable and the `next()` calls change with the last piece |
| `AuthProperties.FoundTokenIffAccessCookie` | back/middlewares/auth.js:54-55 | `foundToken` holds exactly when some piece has the key `access_token`, whatever its value |
| `AuthProperties.TokenExpiredIffExpiredAccessCookie` | back/middlewares/auth.js:63-66 | `tokenExpired` holds exactly when some `access_token` piece verifies as expired; a later valid one does not clear it |
| `AuthProperties.LastRefreshCookieWins` | back/middlewares/auth.js:69-71 | the refresh token is the value of the last `refresh_token` piece, even an undefined one |
| `AuthProperties.NoRefreshCookie` | back/middlewares/auth.js:69-71 | without a `refresh_token` piece there is no refresh token |
| `AuthProperties.NextsAreVerifiedAccessCookies` | back/middlewares/auth.js:57-62 | `next()` is called once per verifying `access_token` piece, in header order, with its claims and the defaulted locale |
| `AuthProperties.NoCookieHeaderDoesNothing` | back/middlewares/auth.js:26 | without a non-empty `Cookie` header no store changes, nothing is sent and `next()` is not called |
| `AuthProperties.RenewNeverThrottles` | back/middlewares/auth.js:73-116 | the refresh branch never answers with the limiter's message |
| `AuthProperties.FirstAttemptOpensWindow` | back/middlewares/auth.js:35-36 | a client with no entry or an expired one gets count 1 at the current time and is not throttled |
| `AuthProperties.AttemptCountedInWindow` | back/middlewares/auth.js:37-41 | inside the hour the count goes up and the start stays; 401 "Too many refresh attempts" exactly when the count passes ten, and then only the count changes |
| `AuthProperties.OtherClientsUntouched` | back/middlewares/auth.js:33-44 | a request changes no other client's limiter entry |
| `AuthProperties.ThrottledBeforeVerification` | back/middlewares/auth.js:35-45 | a throttled request's result does not depend on token verification, signing or the user lookup |
| `AuthProperties.AccessTokenSkipsRefresh` | back/middlewares/auth.js:73 | with an access token seen and none expired, only the limiter changes, nothing is sent, and `next()` is called once per verified token |
| `AuthProperties.ValidAccessTokenProceeds` | back/middlewares/auth.js:54-62 | a lone non-empty verifying access token calls `next()` once with its claims and the defaulted locale, and nothing else happens |
| `AuthProperties.InvalidAccessTokenGetsNoResponse` | back/middlewares/auth.js:63-67 | a lone access token that is invalid but not expired gets no response and no `next()` |
| `AuthProperties.DuplicateAccessTokensCallNextTwice` | back/middlewares/auth.js:45-62 | two verifying `access_token` cookies call `next()` twice |
| `AuthProperties.MissingRefreshTokenUnauthenticated` | back/middlewares/auth.js:114-116 | on the refresh branch, a missing, undefined or empty refresh token gets 401 "Unauthenticated" with no store change beyond the count |
| `AuthProperties.RevokedRefreshTokenRejected` | back/middlewares/auth.js:76-78 | a revoked refresh token gets 401 "Token has been invalidated" before the registry is read |
| `AuthProperties.UnregisteredRefreshTokenIsServerError` | back/middlewares/auth.js:81 | a refresh token without a registry entry gets 500, not a rotation |
| `AuthProperties.LiveRegisteredTokenRevokes` | back/middlewares/auth.js:80-85 | a refresh token whose registered access token still verifies is revoked and answered 403 |
| `AuthProperties.RevokeIdempotent` | back/middlewares/auth.js:11-13 | revoking twice is revoking once |
| `AuthProperties.ExpiredRegisteredTokenRotates` | back/middlewares/auth.js:87-105 | expired registered token, verifying refresh token, user found, token signed, lifetime accepted as `maxAge`: the entry pairs a newly signed token with the refresh token, the cookie carries it with the configured lifetime, and `next()` gets the user |
| `AuthProperties.RotationFailureRejects` | back/middlewares/auth.js:106-108 | an expired registered token with an unverifiable refresh token, no user, or a failed signing (a duration `jwt.sign` rejects) gets 403 "Refresh token expired", no store change |
| `AuthProperties.RejectedCookieKeepsNewRegistration` | back/middlewares/auth.js:101-107 | when `res.cookie` refuses the lifetime after signing, the new token stays registered, no cookie is set, `next()` is not called, and the answer is 403 "Refresh token expired" |
| `AuthProperties.InvalidRegisteredTokenIsServerError` | back/middlewares/auth.js:110-112 | a registered token that is invalid but not expired gets 500, no store change |
| `AuthProperties.RepliesAreMapped` | back/middlewares/auth.js:119-121 | every response is a 401, 403 or 500, and every 401 carries one of the three thrown messages |
| `AuthProperties.RevocationOnlyGrows` | back/middlewares/auth.js:76-85 | no request un-revokes a token; one that revokes unregisters it and answers 403 |
| `AuthProperties.RegistryChangesOnlyByRotationOrRevocation` | back/middlewares/auth.js:80-105 | the registry changes only with a rotation (which sets the cookie, or answers 403 "Refresh token expired" when the cookie is refused) or a 403 revocation; a revoked token's entry, or its absence, never changes |
| `AuthProperties.RegistryStaysKeyed` | back/middlewares/auth.js:102 | every registry entry stays keyed by its own refresh token |
| `AuthProperties.EvictedTokenNeverRotates` | back/middlewares/auth.js:16-18 | eviction only bounds memory: an evicted token was unregistered when revoked, so the refresh branch answers it 500 and never rotates it, and eviction keeps the store invariant |
| `AuthProperties.EvictedTokenRequestIsServerError` | back/middlewares/auth.js:76-112 | a request presenting an evicted token on the refresh branch gets 500 and changes nothing but its limiter count |
| `AuthProperties.TheftThenReplay` | back/middlewares/auth.js:76-85 | a refresh token shown while its access token is live is revoked with 403; shown again it gets 401 "Token has been invalidated", whatever its signature, and the registry and revoked set stay as they are |
| `AuthProperties.RejectedCookieThenRetryRevokes` | back/middlewares/auth.js:80-107 | a rotation whose cookie is refused answers 403 and registers a token the client never got; a retry with the same refresh token while that token is live is revoked as theft with 403 |

## Left out

- JWT signing and verification, and the secret `SECRET_JWT`: `verify` and `sign` are parameters. A verdict is the decoded claims, "expired" or "invalid". Claims are assumed to have the session's shape. Signing may fail (`None`), which stands for `jwt.sign` throwing on an `expiresIn` it cannot read; which durations it rejects is left to the parameter. Likewise `acceptsMaxAge` stands for `res.cookie` throwing on a `maxAge` it cannot serialize; which durations Express and its cookie serializer refuse is left to that parameter.
- `ModelPlageUser.getUserByEmailId`: it is the `lookup` parameter. A failed or rejected lookup and a missing user are all modelled as `None`, since each ends at line 107.
- `Date.now()`, `req.ip` and `process.env.ACCESS_TOKEN_DURATION` are request and configuration fields.
- The 24-hour `setTimeout` is modelled only as the operation `Evict`. When the timer fires is not modelled.
- `console.log` is left out.
- The response body shape (`res.status(...).json({message})`) and the cookie options `httpOnly` and `SameSite` are left out. A response is its status and message. The cookie is its value and its `maxAge`, kept as the string the code passes.
- `req.session` is not modelled as a field. It is visible as the session passed with each `next()` call.
- What `next()` does is not modelled: whether it throws, and whether it has already written a response before the refresh branch writes one.
- Concurrency is not modelled. Requests are atomic steps, and the interleavings at the `await`s on lines 84 and 91 are not modelled.
- `rateLimiter` is never declared in `auth.js`. Read literally, line 35 would throw a ReferenceError, which would give 401 for every request with cookies, unless another module defines a global of that name. The model treats it as a process-wide map owned by the middleware.
- JavaScript object-key quirks are not modelled. Keys such as `__proto__` or `constructor` in `tokenList` and `rateLimiter` behave as ordinary missing keys. For `tokenList`, line 81 then gives 500 in the source too.
- Who fills `tokenList` at login is not part of this model. The login controller is not part of this model, and the constructor takes its registry as given.
