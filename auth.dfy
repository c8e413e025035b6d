/**
 * The `isAuth` middleware and its helper `invalidateRefreshToken`: a per-request state
 * machine over three process-wide stores (the rate limiter, the refresh-token registry
 * `tokenList` and the revoked-token set `invalidatedTokens`).
 *
 * `Step` states what one request does, as a function of the stores before it; the
 * class `AuthMiddleware` owns the stores and its method `IsAuth` carries the request
 * out step by step, proved equal to `Step`.
 */
module Auth {
  import opened Wrappers
  import opened Cookies
  import opened RateLimit
  import opened Tokens

  const AccessTokenCookie: string := "access_token"
  const RefreshTokenCookie: string := "refresh_token"

  // The messages of the responses.
  const TooManyAttempts: string := "Too many refresh attempts"
  const TokenInvalidated: string := "Token has been invalidated"
  const Unauthenticated: string := "Unauthenticated"
  const SecurityViolation: string := "Security violation detected. Please re-authenticate."
  const RefreshExpired: string := "Refresh token expired"
  const ServerError: string := "Server error analyzing the token"

  /** Access-token lifetime used when the environment sets none. */
  const DefaultAccessTokenDuration: string := "300000"

  /** The three stores the middleware shares between requests. */
  datatype Stores = Stores(
    rateLimiter: map<string, Window>,
    tokenList: map<string, TokenPair>,
    invalidatedTokens: set<string>)

  /** What a request brings: the clock reading, the client address and the `Cookie` header, if any. */
  datatype Request = Request(now: int, ip: string, cookieHeader: Option<string>)

  /** The environment setting `ACCESS_TOKEN_DURATION`, if any. */
  datatype Config = Config(accessTokenDuration: Option<string>)

  /**
   * The collaborators: JWT verification and signing under the process secret (at the
   * time of the request), the user lookup by e-mail, and whether `res.cookie` accepts a
   * duration as the cookie's `maxAge`. Signing fails (`None`) when `jwt.sign` throws, as
   * it does for an `expiresIn` it cannot read as a duration; `res.cookie` throws on a
   * `maxAge` that is not a number, such as "15m", which `jwt.sign` accepts.
   */
  datatype Oracles = Oracles(
    verify: string -> Verdict,
    lookup: string -> Option<Session>,
    sign: (Session, string) -> Option<string>,
    acceptsMaxAge: string -> bool)

  /** The response written, if any. */
  datatype Reply = NoResponse | Status(code: nat, message: string)

  /** The `access_token` cookie set on a rotation, with its `maxAge`. */
  datatype AccessCookie = AccessCookie(token: string, maxAge: string)

  /**
   * Everything a request does outside the stores, in order: the sessions with which
   * `next()` was called, the cookie set, and the response written last.
   */
  datatype Outcome = Outcome(nexts: seq<Session>, cookie: Option<AccessCookie>, reply: Reply)

  /** Only a response, nothing else. */
  function Responds(reply: Reply): Outcome
  {
    Outcome([], None, reply)
  }

  /** The closing `catch` of isAuth: a thrown message becomes a 401 that carries it. */
  function Rejected(message: string): Reply
  {
    Status(401, message)
  }

  /** `process.env.ACCESS_TOKEN_DURATION || "300000"`: an unset or empty setting falls back to the default. */
  function AccessTokenExpiration(cfg: Config): (duration: string)
    ensures duration != ""
    ensures cfg.accessTokenDuration.Some? && cfg.accessTokenDuration.value != "" ==>
      duration == cfg.accessTokenDuration.value
    ensures cfg.accessTokenDuration.None? || cfg.accessTokenDuration.value == "" ==>
      duration == DefaultAccessTokenDuration
  {
    match cfg.accessTokenDuration
    case Some(d) => if d != "" then d else DefaultAccessTokenDuration
    case None => DefaultAccessTokenDuration
  }

  /** The limiter entry of a client, if it has one. */
  function EntryOf(rateLimiter: map<string, Window>, ip: string): Option<Window>
  {
    if ip in rateLimiter then Some(rateLimiter[ip]) else None
  }

  /** The stores every request keeps: revoked tokens are out of the registry, and every limiter entry counts an attempt. */
  predicate StoresValid(s: Stores)
  {
    && (forall r :: r in s.tokenList ==> r !in s.invalidatedTokens)
    && (forall ip :: ip in s.rateLimiter ==> s.rateLimiter[ip].count >= 1)
  }

  // ---------------------------------------------------------------------------
  // The cookie loop (auth.js lines 45-72)
  // ---------------------------------------------------------------------------

  /** The variables the cookie loop updates, and the sessions `next()` was called with. */
  datatype Scan = Scan(foundToken: bool, tokenExpired: bool, refreshToken: Option<string>, nexts: seq<Session>)

  /** Nothing seen yet. */
  const NoCookies: Scan := Scan(false, false, None, [])

  /** One turn of the loop, on one piece of the header. */
  function ScanPiece(st: Scan, piece: Piece, verify: string -> Verdict): Scan
  {
    var afterAccess :=
      if piece.key != AccessTokenCookie then st
      else match VerifyCookie(verify, piece.value)
        case Valid(claims) => st.(foundToken := true, nexts := st.nexts + [WithDefaultLocale(claims)])
        case Expired => st.(foundToken := true, tokenExpired := true)
        case Invalid => st.(foundToken := true);
    if piece.key == RefreshTokenCookie then afterAccess.(refreshToken := piece.value) else afterAccess
  }

  /** The loop run over all pieces, in order. */
  function ScanAll(pieces: seq<Piece>, verify: string -> Verdict): Scan
    decreases |pieces|
  {
    if pieces == [] then NoCookies
    else ScanPiece(ScanAll(pieces[..|pieces| - 1], verify), pieces[|pieces| - 1], verify)
  }

  /** The `forEach` over the pieces of the header, setting `foundToken`, `tokenExpired` and `refreshToken`. */
  method ScanCookies(cookies: seq<string>, verify: string -> Verdict)
    returns (foundToken: bool, tokenExpired: bool, refreshToken: Option<string>, nexts: seq<Session>)
    ensures Scan(foundToken, tokenExpired, refreshToken, nexts) == ScanAll(Pieces(cookies), verify)
  {
    ghost var pieces := Pieces(cookies);
    foundToken, tokenExpired, refreshToken, nexts := false, false, None, [];
    for i := 0 to |cookies|
      invariant Scan(foundToken, tokenExpired, refreshToken, nexts) == ScanAll(pieces[..i], verify)
    {
      var key := CookieKey(cookies[i]);
      var value := CookieValue(cookies[i]);
      assert pieces[i] == Piece(key, value);
      if key == AccessTokenCookie {
        foundToken := true;
        match VerifyCookie(verify, value) {
          case Valid(claims) =>
            nexts := nexts + [WithDefaultLocale(claims)];
          case Expired =>
            tokenExpired := true;
          case Invalid =>
        }
      }
      if key == RefreshTokenCookie {
        refreshToken := value;
      }
      assert pieces[..i + 1][..i] == pieces[..i];
    }
    assert pieces[..|cookies|] == pieces;
  }

  // ---------------------------------------------------------------------------
  // The decision (auth.js lines 73-121) and the whole request
  // ---------------------------------------------------------------------------

  /** `invalidateRefreshToken` (auth.js lines 9-13): the token leaves the registry and joins the revoked set. */
  function Revoke(s: Stores, refreshToken: string): (s': Stores)
    ensures refreshToken !in s'.tokenList && refreshToken in s'.invalidatedTokens
    ensures forall r :: r != refreshToken ==>
      (r in s'.tokenList <==> r in s.tokenList) && (r in s'.invalidatedTokens <==> r in s.invalidatedTokens)
    ensures forall r :: r in s'.tokenList ==> s'.tokenList[r] == s.tokenList[r]
    ensures s'.rateLimiter == s.rateLimiter
  {
    s.(tokenList := s.tokenList - {refreshToken}, invalidatedTokens := s.invalidatedTokens + {refreshToken})
  }

  /**
   * The rotation attempt once the registered access token has expired (auth.js lines
   * 89-108): the refresh token must verify and its e-mail must find a user.
   */
  function Rotate(s: Stores, refreshToken: string, cfg: Config, o: Oracles): (Stores, Outcome)
  {
    match o.verify(refreshToken)
    case Valid(claims) =>
      (match o.lookup(claims.email)
       case Some(user) =>
         var duration := AccessTokenExpiration(cfg);
         (match o.sign(user, duration)
          case Some(token) =>
            var registered := s.(tokenList := s.tokenList[refreshToken := TokenPair(token, refreshToken)]);
            if o.acceptsMaxAge(duration) then
              (registered, Outcome([user], Some(AccessCookie(token, duration)), NoResponse))
            else
              // `res.cookie` throws after the new token has been registered
              (registered, Responds(Status(403, RefreshExpired)))
          case None => (s, Responds(Status(403, RefreshExpired))))
       case None => (s, Responds(Status(403, RefreshExpired))))
    case _ => (s, Responds(Status(403, RefreshExpired)))
  }

  /** The refresh branch, taken when no access token verified or one had expired (auth.js lines 74-116). */
  function Renew(s: Stores, refreshToken: Option<string>, cfg: Config, o: Oracles): (Stores, Outcome)
  {
    match refreshToken
    case None => (s, Responds(Rejected(Unauthenticated)))
    case Some(r) =>
      if r == "" then (s, Responds(Rejected(Unauthenticated)))
      else if r in s.invalidatedTokens then (s, Responds(Rejected(TokenInvalidated)))
      else if r !in s.tokenList then (s, Responds(Status(500, ServerError)))
      else match VerifyCookie(o.verify, Some(s.tokenList[r].accessToken))
        case Valid(_) => (Revoke(s, r), Responds(Status(403, SecurityViolation)))
        case Expired => Rotate(s, r, cfg, o)
        case Invalid => (s, Responds(Status(500, ServerError)))
  }

  /** One request through isAuth: the stores after it and what it did. */
  function Step(s: Stores, req: Request, cfg: Config, o: Oracles): (Stores, Outcome)
  {
    if req.cookieHeader.None? || req.cookieHeader.value == "" then (s, Responds(NoResponse))
    else
      var (window, admitted) := Admit(EntryOf(s.rateLimiter, req.ip), req.now);
      var counted := s.(rateLimiter := s.rateLimiter[req.ip := window]);
      if !admitted then (counted, Responds(Rejected(TooManyAttempts)))
      else
        var scan := ScanAll(ParseHeader(req.cookieHeader.value), o.verify);
        if scan.foundToken && !scan.tokenExpired then (counted, Outcome(scan.nexts, None, NoResponse))
        else
          var (s', tail) := Renew(counted, scan.refreshToken, cfg, o);
          (s', tail.(nexts := scan.nexts + tail.nexts))
  }

  /** No request breaks the store invariant: a token is never both registered and revoked, and limiter counts stay positive. */
  lemma StepKeepsStoresValid(s: Stores, req: Request, cfg: Config, o: Oracles)
    requires StoresValid(s)
    ensures StoresValid(Step(s, req, cfg, o).0)
  {
    if req.cookieHeader.Some? && req.cookieHeader.value != "" {
      var (window, admitted) := Admit(EntryOf(s.rateLimiter, req.ip), req.now);
      var counted := s.(rateLimiter := s.rateLimiter[req.ip := window]);
      assert StoresValid(counted);
      if admitted {
        var scan := ScanAll(ParseHeader(req.cookieHeader.value), o.verify);
        RenewKeepsStoresValid(counted, scan.refreshToken, cfg, o);
      }
    }
  }

  /** The refresh branch registers only tokens it has checked are not revoked, and revokes only after unregistering. */
  lemma RenewKeepsStoresValid(s: Stores, refreshToken: Option<string>, cfg: Config, o: Oracles)
    requires StoresValid(s)
    ensures StoresValid(Renew(s, refreshToken, cfg, o).0)
  {
    if refreshToken.Some? && refreshToken.value != "" && refreshToken.value !in s.invalidatedTokens
       && refreshToken.value in s.tokenList {
      var r := refreshToken.value;
      if VerifyCookie(o.verify, Some(s.tokenList[r].accessToken)).Expired? {
        assert StoresValid(Rotate(s, r, cfg, o).0);
      }
    }
  }

  // ---------------------------------------------------------------------------
  // The stores and the middleware
  // ---------------------------------------------------------------------------

  class AuthMiddleware {
    var rateLimiter: map<string, Window>
    var tokenList: map<string, TokenPair>
    var invalidatedTokens: set<string>

    function State(): Stores
      reads this
    {
      Stores(rateLimiter, tokenList, invalidatedTokens)
    }

    ghost predicate Valid()
      reads this
    {
      StoresValid(State())
    }

    /** Empty limiter and revoked set; the registry is the one the login controller fills. */
    constructor (sessions: map<string, TokenPair>)
      ensures State() == Stores(map[], sessions, {})
      ensures Valid()
    {
      rateLimiter := map[];
      tokenList := sessions;
      invalidatedTokens := {};
    }

    /** `invalidateRefreshToken` (auth.js lines 9-13). */
    method InvalidateRefreshToken(refreshToken: string)
      modifies this
      ensures State() == Revoke(old(State()), refreshToken)
    {
      tokenList := tokenList - {refreshToken};
      invalidatedTokens := invalidatedTokens + {refreshToken};
    }

    /** The 24-hour timer of `invalidateRefreshToken` firing (auth.js lines 16-18): it only removes. */
    method Evict(refreshToken: string)
      modifies this
      ensures invalidatedTokens == old(invalidatedTokens) - {refreshToken}
      ensures rateLimiter == old(rateLimiter) && tokenList == old(tokenList)
      ensures old(Valid()) ==> Valid()
    {
      invalidatedTokens := invalidatedTokens - {refreshToken};
    }

    /** The limiter block (auth.js lines 35-44); `admitted` is false where the source throws. */
    method Throttle(ip: string, now: int) returns (admitted: bool)
      modifies this
      ensures rateLimiter == old(rateLimiter)[ip := Admit(EntryOf(old(rateLimiter), ip), now).0]
      ensures admitted == Admit(EntryOf(old(rateLimiter), ip), now).1
      ensures tokenList == old(tokenList) && invalidatedTokens == old(invalidatedTokens)
    {
      if ip !in rateLimiter {
        rateLimiter := rateLimiter[ip := Window(1, now)];
        admitted := true;
      } else if now - rateLimiter[ip].timestamp < WindowMs {
        var entry := rateLimiter[ip];
        rateLimiter := rateLimiter[ip := entry.(count := entry.count + 1)];
        admitted := rateLimiter[ip].count <= MaxAttempts;
      } else {
        rateLimiter := rateLimiter[ip := Window(1, now)];
        admitted := true;
      }
    }

    /** The rotation (auth.js lines 89-108), once the registered access token has expired. */
    method RotateAccessToken(refreshToken: string, cfg: Config, o: Oracles) returns (out: Outcome)
      modifies this
      ensures (State(), out) == Rotate(old(State()), refreshToken, cfg, o)
    {
      var decoded := o.verify(refreshToken);
      if decoded.Valid? && o.lookup(decoded.claims.email).Some? {
        var user := o.lookup(decoded.claims.email).value;
        var expiration := AccessTokenExpiration(cfg);
        var signed := o.sign(user, expiration);
        if signed.Some? {
          var token := signed.value;
          tokenList := tokenList[refreshToken := TokenPair(token, refreshToken)];
          if o.acceptsMaxAge(expiration) {
            return Outcome([user], Some(AccessCookie(token, expiration)), NoResponse);
          }
        }
      }
      out := Responds(Status(403, RefreshExpired));
    }

    /** The refresh branch (auth.js lines 74-116), with its thrown messages mapped as lines 119-121 do. */
    method HandleRefresh(refreshToken: Option<string>, cfg: Config, o: Oracles) returns (out: Outcome)
      modifies this
      ensures (State(), out) == Renew(old(State()), refreshToken, cfg, o)
    {
      if refreshToken.None? || refreshToken.value == "" {
        return Responds(Rejected(Unauthenticated));
      }
      var r := refreshToken.value;
      if r in invalidatedTokens {
        return Responds(Rejected(TokenInvalidated));
      }
      if r !in tokenList {
        // reading `.access_token` of a missing entry throws a TypeError
        return Responds(Status(500, ServerError));
      }
      match VerifyCookie(o.verify, Some(tokenList[r].accessToken)) {
        case Valid(_) =>
          InvalidateRefreshToken(r);
          out := Responds(Status(403, SecurityViolation));
        case Expired =>
          out := RotateAccessToken(r, cfg, o);
        case Invalid =>
          out := Responds(Status(500, ServerError));
      }
    }

    /** `isAuth` (auth.js lines 24-122), one request at a time. */
    method IsAuth(req: Request, cfg: Config, o: Oracles) returns (out: Outcome)
      modifies this
      ensures (State(), out) == Step(old(State()), req, cfg, o)
      ensures old(Valid()) ==> Valid()
    {
      if Valid() {
        StepKeepsStoresValid(State(), req, cfg, o);
      }
      if req.cookieHeader.None? || req.cookieHeader.value == "" {
        return Responds(NoResponse);
      }
      var cookies := Split(req.cookieHeader.value, ';');
      var admitted := Throttle(req.ip, req.now);
      if !admitted {
        return Responds(Rejected(TooManyAttempts));
      }
      var foundToken, tokenExpired, refreshToken, nexts := ScanCookies(cookies, o.verify);
      if foundToken && !tokenExpired {
        return Outcome(nexts, None, NoResponse);
      }
      var tail := HandleRefresh(refreshToken, cfg, o);
      out := tail.(nexts := nexts + tail.nexts);
    }
  }
}
