/**
 * What isAuth promises, stated about `Step` (and about the cookie loop `ScanAll`):
 * the limiter, the cookie loop, each way the refresh branch can end, the store
 * invariants, and two multi-request scenarios.
 */
module AuthProperties {
  import opened Wrappers
  import opened Cookies
  import opened RateLimit
  import opened Tokens
  import opened Auth

  // ---------------------------------------------------------------------------
  // Vocabulary
  // ---------------------------------------------------------------------------

  /** The request carries a non-empty `Cookie` header (auth.js line 26). */
  predicate HasCookies(req: Request)
  {
    req.cookieHeader.Some? && req.cookieHeader.value != ""
  }

  /** What the cookie loop leaves behind for this request. */
  function ScanOf(req: Request, o: Oracles): Scan
    requires req.cookieHeader.Some?
  {
    ScanAll(ParseHeader(req.cookieHeader.value), o.verify)
  }

  /** The limiter's new entry for the client and its decision. */
  function LimiterOf(s: Stores, req: Request): (Window, bool)
  {
    Admit(EntryOf(s.rateLimiter, req.ip), req.now)
  }

  /** The stores with only the client's limiter entry updated. */
  function Counted(s: Stores, req: Request): Stores
  {
    s.(rateLimiter := s.rateLimiter[req.ip := LimiterOf(s, req).0])
  }

  /** The request reaches the refresh branch: the limiter admits it and no access token verified, or one expired. */
  predicate ReachesRefresh(s: Stores, req: Request, o: Oracles)
  {
    && HasCookies(req)
    && LimiterOf(s, req).1
    && (!ScanOf(req, o).foundToken || ScanOf(req, o).tokenExpired)
  }

  /** The refresh branch with refresh token `r`, not revoked, whose registry entry exists. */
  predicate RegisteredRefresh(s: Stores, req: Request, o: Oracles, r: string)
  {
    && ReachesRefresh(s, req, o)
    && ScanOf(req, o).refreshToken == Some(r)
    && r != ""
    && r !in s.invalidatedTokens
    && r in s.tokenList
  }

  /** The sessions `next()` is called with by the loop: one per verified `access_token` piece, in order. */
  function AcceptedSessions(pieces: seq<Piece>, verify: string -> Verdict): seq<Session>
    decreases |pieces|
  {
    if pieces == [] then []
    else AcceptedBy(pieces[0], verify) + AcceptedSessions(pieces[1..], verify)
  }

  function AcceptedBy(piece: Piece, verify: string -> Verdict): seq<Session>
  {
    var verdict := VerifyCookie(verify, piece.value);
    if piece.key == AccessTokenCookie && verdict.Valid? then [WithDefaultLocale(verdict.claims)] else []
  }

  // ---------------------------------------------------------------------------
  // The cookie loop
  // ---------------------------------------------------------------------------

  /** One turn of the loop on top of the turns before it: what it does to each variable. */
  lemma ScanAllSnoc(pieces: seq<Piece>, verify: string -> Verdict)
    requires pieces != []
    ensures var init := ScanAll(pieces[..|pieces| - 1], verify);
      var last := pieces[|pieces| - 1];
      var st := ScanAll(pieces, verify);
      && st.foundToken == (init.foundToken || last.key == AccessTokenCookie)
      && st.tokenExpired ==
           (init.tokenExpired || (last.key == AccessTokenCookie && VerifyCookie(verify, last.value).Expired?))
      && st.refreshToken == (if last.key == RefreshTokenCookie then last.value else init.refreshToken)
      && st.nexts == init.nexts + AcceptedBy(last, verify)
  {
  }

  /** `foundToken` is set exactly when some piece has the key `access_token`, whatever its value. */
  lemma {:induction false} FoundTokenIffAccessCookie(pieces: seq<Piece>, verify: string -> Verdict)
    ensures ScanAll(pieces, verify).foundToken <==>
      exists i :: 0 <= i < |pieces| && pieces[i].key == AccessTokenCookie
    decreases |pieces|
  {
    if pieces != [] {
      var init := pieces[..|pieces| - 1];
      FoundTokenIffAccessCookie(init, verify);
      ScanAllSnoc(pieces, verify);
      if exists i :: 0 <= i < |init| && init[i].key == AccessTokenCookie {
        var i :| 0 <= i < |init| && init[i].key == AccessTokenCookie;
        assert pieces[i] == init[i];
      }
      if exists i :: 0 <= i < |pieces| && pieces[i].key == AccessTokenCookie {
        var i :| 0 <= i < |pieces| && pieces[i].key == AccessTokenCookie;
        if i < |init| {
          assert init[i] == pieces[i];
        }
      }
    }
  }

  /** `tokenExpired` is set exactly when some `access_token` piece verifies as expired; a later valid one does not clear it. */
  lemma {:induction false} TokenExpiredIffExpiredAccessCookie(pieces: seq<Piece>, verify: string -> Verdict)
    ensures ScanAll(pieces, verify).tokenExpired <==>
      exists i :: 0 <= i < |pieces| && pieces[i].key == AccessTokenCookie && VerifyCookie(verify, pieces[i].value).Expired?
    decreases |pieces|
  {
    if pieces != [] {
      var init := pieces[..|pieces| - 1];
      TokenExpiredIffExpiredAccessCookie(init, verify);
      ScanAllSnoc(pieces, verify);
      if exists i :: 0 <= i < |init| && init[i].key == AccessTokenCookie && VerifyCookie(verify, init[i].value).Expired? {
        var i :| 0 <= i < |init| && init[i].key == AccessTokenCookie && VerifyCookie(verify, init[i].value).Expired?;
        assert pieces[i] == init[i];
      }
      if exists i :: 0 <= i < |pieces| && pieces[i].key == AccessTokenCookie && VerifyCookie(verify, pieces[i].value).Expired? {
        var i :| 0 <= i < |pieces| && pieces[i].key == AccessTokenCookie && VerifyCookie(verify, pieces[i].value).Expired?;
        if i < |init| {
          assert init[i] == pieces[i];
        }
      }
    }
  }

  /** The last `refresh_token` piece wins, even when it has no value. */
  lemma {:induction false} LastRefreshCookieWins(pieces: seq<Piece>, verify: string -> Verdict, i: nat)
    requires i < |pieces| && pieces[i].key == RefreshTokenCookie
    requires forall j :: i < j < |pieces| ==> pieces[j].key != RefreshTokenCookie
    ensures ScanAll(pieces, verify).refreshToken == pieces[i].value
    decreases |pieces|
  {
    var init := pieces[..|pieces| - 1];
    ScanAllSnoc(pieces, verify);
    if i < |init| {
      forall j | i < j < |init| ensures init[j].key != RefreshTokenCookie {
        assert init[j] == pieces[j];
      }
      LastRefreshCookieWins(init, verify, i);
    }
  }

  /** Without a `refresh_token` piece there is no refresh token. */
  lemma {:induction false} NoRefreshCookie(pieces: seq<Piece>, verify: string -> Verdict)
    requires forall j :: 0 <= j < |pieces| ==> pieces[j].key != RefreshTokenCookie
    ensures ScanAll(pieces, verify).refreshToken == None
    decreases |pieces|
  {
    if pieces != [] {
      var init := pieces[..|pieces| - 1];
      forall j | 0 <= j < |init| ensures init[j].key != RefreshTokenCookie {
        assert init[j] == pieces[j];
      }
      NoRefreshCookie(init, verify);
      ScanAllSnoc(pieces, verify);
    }
  }

  lemma {:induction false} AcceptedSessionsSnoc(pieces: seq<Piece>, piece: Piece, verify: string -> Verdict)
    ensures AcceptedSessions(pieces + [piece], verify) == AcceptedSessions(pieces, verify) + AcceptedBy(piece, verify)
    decreases |pieces|
  {
    if pieces == [] {
      assert [] + [piece] == [piece];
      assert [piece][1..] == [];
    } else {
      assert (pieces + [piece])[1..] == pieces[1..] + [piece];
      AcceptedSessionsSnoc(pieces[1..], piece, verify);
    }
  }

  /**
   * `next()` is called once for every `access_token` piece that verifies, in order of
   * the pieces, with the decoded claims and the locale defaulted to "en".
   */
  lemma {:induction false} NextsAreVerifiedAccessCookies(pieces: seq<Piece>, verify: string -> Verdict)
    ensures ScanAll(pieces, verify).nexts == AcceptedSessions(pieces, verify)
    decreases |pieces|
  {
    if pieces != [] {
      var init := pieces[..|pieces| - 1];
      var last := pieces[|pieces| - 1];
      NextsAreVerifiedAccessCookies(init, verify);
      AcceptedSessionsSnoc(init, last, verify);
      ScanAllSnoc(pieces, verify);
      assert init + [last] == pieces;
    }
  }

  // ---------------------------------------------------------------------------
  // Before the cookie loop: the header check and the limiter
  // ---------------------------------------------------------------------------

  /** Without a `Cookie` header (or with an empty one) nothing happens: no store changes, no next(), no response. */
  lemma NoCookieHeaderDoesNothing(s: Stores, req: Request, cfg: Config, o: Oracles)
    requires !HasCookies(req)
    ensures Step(s, req, cfg, o) == (s, Outcome([], None, NoResponse))
  {
  }

  /** The refresh branch never answers with the limiter's message. */
  lemma RenewNeverThrottles(s: Stores, refreshToken: Option<string>, cfg: Config, o: Oracles)
    ensures Renew(s, refreshToken, cfg, o).1.reply != Rejected(TooManyAttempts)
  {
  }

  /**
   * A client with no entry, or with one at least an hour old, gets `{count: 1,
   * timestamp: now}` and is not stopped by the limiter.
   */
  lemma FirstAttemptOpensWindow(s: Stores, req: Request, cfg: Config, o: Oracles)
    requires HasCookies(req)
    requires req.ip !in s.rateLimiter || !InWindow(s.rateLimiter[req.ip], req.now)
    ensures Step(s, req, cfg, o).0.rateLimiter == s.rateLimiter[req.ip := Window(1, req.now)]
    ensures Step(s, req, cfg, o).1.reply != Rejected(TooManyAttempts)
  {
    var scan := ScanOf(req, o);
    RenewNeverThrottles(Counted(s, req), scan.refreshToken, cfg, o);
  }

  /**
   * Inside the window every request is counted and the window start stays; the request
   * is rejected with 401 "Too many refresh attempts" exactly when the new count passes
   * ten, and then nothing else happens, though the new count is kept.
   */
  lemma AttemptCountedInWindow(s: Stores, req: Request, cfg: Config, o: Oracles)
    requires HasCookies(req)
    requires req.ip in s.rateLimiter && InWindow(s.rateLimiter[req.ip], req.now)
    ensures var w := s.rateLimiter[req.ip];
      Step(s, req, cfg, o).0.rateLimiter == s.rateLimiter[req.ip := Window(w.count + 1, w.timestamp)]
    ensures Step(s, req, cfg, o).1.reply == Rejected(TooManyAttempts) <==>
      s.rateLimiter[req.ip].count + 1 > MaxAttempts
    ensures s.rateLimiter[req.ip].count + 1 > MaxAttempts ==>
      Step(s, req, cfg, o) == (Counted(s, req), Outcome([], None, Rejected(TooManyAttempts)))
  {
    var scan := ScanOf(req, o);
    RenewNeverThrottles(Counted(s, req), scan.refreshToken, cfg, o);
  }

  /** Each request touches only its own client's limiter entry. */
  lemma OtherClientsUntouched(s: Stores, req: Request, cfg: Config, o: Oracles, ip: string)
    requires ip != req.ip
    ensures ip in Step(s, req, cfg, o).0.rateLimiter <==> ip in s.rateLimiter
    ensures ip in s.rateLimiter ==> Step(s, req, cfg, o).0.rateLimiter[ip] == s.rateLimiter[ip]
  {
    if ReachesRefresh(s, req, o) {
      StepOnRefreshBranch(s, req, cfg, o);
      RenewFrame(Counted(s, req), ScanOf(req, o).refreshToken, cfg, o);
    } else {
      StepOffRefreshBranch(s, req, cfg, o);
    }
  }

  /** The limiter decides before any token is verified: a throttled request does not depend on the collaborators at all. */
  lemma ThrottledBeforeVerification(s: Stores, req: Request, cfg: Config, o1: Oracles, o2: Oracles)
    requires HasCookies(req) && !LimiterOf(s, req).1
    ensures Step(s, req, cfg, o1) == Step(s, req, cfg, o2)
  {
  }

  // ---------------------------------------------------------------------------
  // A verified access token
  // ---------------------------------------------------------------------------

  /**
   * When an access token verified and none had expired, the refresh branch is skipped:
   * `next()` has been called for each verified access token, no response is written,
   * and neither `tokenList` nor `invalidatedTokens` changes.
   */
  lemma AccessTokenSkipsRefresh(s: Stores, req: Request, cfg: Config, o: Oracles)
    requires HasCookies(req) && LimiterOf(s, req).1
    requires ScanOf(req, o).foundToken && !ScanOf(req, o).tokenExpired
    ensures Step(s, req, cfg, o).0 == Counted(s, req)
    ensures Step(s, req, cfg, o).1 ==
      Outcome(AcceptedSessions(ParseHeader(req.cookieHeader.value), o.verify), None, NoResponse)
  {
    NextsAreVerifiedAccessCookies(ParseHeader(req.cookieHeader.value), o.verify);
  }

  /** The loop over a header of one well-formed cookie is one turn. */
  lemma ScanOne(header: string, name: string, value: string, verify: string -> Verdict)
    requires WellFormed((name, value)) && header == name + "=" + value
    ensures ScanAll(ParseHeader(header), verify) == ScanPiece(NoCookies, Piece(name, Some(value)), verify)
  {
    SingleCookieHeader(name, value);
    assert [Piece(name, Some(value))][..0] == [];
  }

  /**
   * A request whose only cookie is a verifying access token proceeds: `next()` is
   * called once, with the claims and the locale defaulted, and nothing else happens.
   */
  lemma ValidAccessTokenProceeds(s: Stores, req: Request, cfg: Config, o: Oracles, token: string, claims: Session)
    requires WellFormed((AccessTokenCookie, token))
    requires req.cookieHeader == Some(AccessTokenCookie + "=" + token)
    requires LimiterOf(s, req).1
    requires token != "" && o.verify(token) == Valid(claims)
    ensures Step(s, req, cfg, o) == (Counted(s, req), Outcome([WithDefaultLocale(claims)], None, NoResponse))
  {
    ScanOne(req.cookieHeader.value, AccessTokenCookie, token, o.verify);
    assert HasCookies(req);
    assert ScanOf(req, o) == Scan(true, false, None, [WithDefaultLocale(claims)]);
  }

  /**
   * An access token that fails verification without having expired leaves the request
   * unanswered: `foundToken` is set, `tokenExpired` is not, so the refresh branch is
   * skipped and nothing is sent.
   */
  lemma InvalidAccessTokenGetsNoResponse(s: Stores, req: Request, cfg: Config, o: Oracles, token: string)
    requires WellFormed((AccessTokenCookie, token))
    requires req.cookieHeader == Some(AccessTokenCookie + "=" + token)
    requires LimiterOf(s, req).1
    requires o.verify(token) == Invalid
    ensures Step(s, req, cfg, o) == (Counted(s, req), Outcome([], None, NoResponse))
  {
    ScanOne(req.cookieHeader.value, AccessTokenCookie, token, o.verify);
  }

  /** Two verifying `access_token` cookies call `next()` twice. */
  lemma DuplicateAccessTokensCallNextTwice(s: Stores, req: Request, cfg: Config, o: Oracles, token: string, claims: Session)
    requires WellFormed((AccessTokenCookie, token))
    requires req.cookieHeader == Some(Render([(AccessTokenCookie, token), (AccessTokenCookie, token)]))
    requires LimiterOf(s, req).1
    requires token != "" && o.verify(token) == Valid(claims)
    ensures Step(s, req, cfg, o).1 == Outcome([WithDefaultLocale(claims), WithDefaultLocale(claims)], None, NoResponse)
  {
    var cookies := [(AccessTokenCookie, token), (AccessTokenCookie, token)];
    RenderRoundTrip(cookies);
    var pieces := ParseHeader(Render(cookies));
    var piece := Piece(AccessTokenCookie, Some(token));
    assert pieces == [piece, piece];
    assert Render(cookies) != "" by {
      JoinHead(RenderPieces(cookies), ';');
      assert |RenderPieces(cookies)[0]| > 0;
    }
    assert pieces[..1][..0] == [];
    assert pieces[..1] == [piece];
    assert pieces[..2] == pieces;
    assert ScanAll(pieces[..1], o.verify) == Scan(true, false, None, [WithDefaultLocale(claims)]);
    assert ScanAll(pieces, o.verify) == Scan(true, false, None, [WithDefaultLocale(claims), WithDefaultLocale(claims)]);
  }

  // ---------------------------------------------------------------------------
  // The refresh branch
  // ---------------------------------------------------------------------------

  /** No usable refresh token (none, undefined, or empty) on the refresh branch: 401 "Unauthenticated", no store changes. */
  lemma MissingRefreshTokenUnauthenticated(s: Stores, req: Request, cfg: Config, o: Oracles)
    requires ReachesRefresh(s, req, o)
    requires ScanOf(req, o).refreshToken.None? || ScanOf(req, o).refreshToken.value == ""
    ensures Step(s, req, cfg, o) == (Counted(s, req), Outcome(ScanOf(req, o).nexts, None, Rejected(Unauthenticated)))
  {
    assert ScanOf(req, o).nexts + [] == ScanOf(req, o).nexts;
  }

  /**
   * A revoked refresh token gets 401 "Token has been invalidated", whatever its own
   * signature: the registry is not consulted and no store changes.
   */
  lemma RevokedRefreshTokenRejected(s: Stores, req: Request, cfg: Config, o: Oracles, r: string)
    requires ReachesRefresh(s, req, o)
    requires ScanOf(req, o).refreshToken == Some(r) && r != "" && r in s.invalidatedTokens
    ensures Step(s, req, cfg, o) == (Counted(s, req), Outcome(ScanOf(req, o).nexts, None, Rejected(TokenInvalidated)))
  {
    assert ScanOf(req, o).nexts + [] == ScanOf(req, o).nexts;
  }

  /**
   * A refresh token with no registry entry reads `.access_token` of undefined; the
   * TypeError ends as 500 "Server error analyzing the token", not as a rotation.
   */
  lemma UnregisteredRefreshTokenIsServerError(s: Stores, req: Request, cfg: Config, o: Oracles, r: string)
    requires ReachesRefresh(s, req, o)
    requires ScanOf(req, o).refreshToken == Some(r) && r != "" && r !in s.invalidatedTokens && r !in s.tokenList
    ensures Step(s, req, cfg, o) == (Counted(s, req), Outcome(ScanOf(req, o).nexts, None, Status(500, ServerError)))
  {
    assert ScanOf(req, o).nexts + [] == ScanOf(req, o).nexts;
  }

  /**
   * Theft detection: the registered access token still verifies, so the refresh token
   * is revoked (gone from `tokenList`, added to `invalidatedTokens`) and the answer is
   * 403 with no new token.
   */
  lemma LiveRegisteredTokenRevokes(s: Stores, req: Request, cfg: Config, o: Oracles, r: string)
    requires RegisteredRefresh(s, req, o, r)
    requires VerifyCookie(o.verify, Some(s.tokenList[r].accessToken)).Valid?
    ensures Step(s, req, cfg, o).0 == Revoke(Counted(s, req), r)
    ensures r !in Step(s, req, cfg, o).0.tokenList && r in Step(s, req, cfg, o).0.invalidatedTokens
    ensures Step(s, req, cfg, o).1 == Outcome(ScanOf(req, o).nexts, None, Status(403, SecurityViolation))
  {
    assert ScanOf(req, o).nexts + [] == ScanOf(req, o).nexts;
  }

  /** Revoking twice is revoking once: the revoked set holds each token once. */
  lemma RevokeIdempotent(s: Stores, r: string)
    ensures Revoke(Revoke(s, r), r) == Revoke(s, r)
  {
  }

  /**
   * Rotation: the registered access token has expired, the refresh token verifies, its
   * e-mail finds a user, the new token is signed and `res.cookie` accepts the lifetime.
   * The registry entry becomes the new token paired with the refresh token, the cookie
   * is set with the configured lifetime, and `next()` is called with the user's data.
   */
  lemma ExpiredRegisteredTokenRotates(s: Stores, req: Request, cfg: Config, o: Oracles, r: string, claims: Session, user: Session)
    requires RegisteredRefresh(s, req, o, r)
    requires VerifyCookie(o.verify, Some(s.tokenList[r].accessToken)).Expired?
    requires o.verify(r) == Valid(claims) && o.lookup(claims.email) == Some(user)
    requires o.sign(user, AccessTokenExpiration(cfg)).Some?
    requires o.acceptsMaxAge(AccessTokenExpiration(cfg))
    ensures var token := o.sign(user, AccessTokenExpiration(cfg)).value;
      && Step(s, req, cfg, o).0 == Counted(s, req).(tokenList := s.tokenList[r := TokenPair(token, r)])
      && Step(s, req, cfg, o).1 ==
           Outcome(ScanOf(req, o).nexts + [user], Some(AccessCookie(token, AccessTokenExpiration(cfg))), NoResponse)
  {
  }

  /**
   * The same rotation, but `res.cookie` refuses the lifetime as a `maxAge`: the new token
   * is already registered when the cookie throws, so the answer is 403 "Refresh token
   * expired" with no cookie and no `next()`, while the registry holds a token the client
   * never received.
   */
  lemma RejectedCookieKeepsNewRegistration(s: Stores, req: Request, cfg: Config, o: Oracles, r: string, claims: Session, user: Session)
    requires RegisteredRefresh(s, req, o, r)
    requires VerifyCookie(o.verify, Some(s.tokenList[r].accessToken)).Expired?
    requires o.verify(r) == Valid(claims) && o.lookup(claims.email) == Some(user)
    requires o.sign(user, AccessTokenExpiration(cfg)).Some?
    requires !o.acceptsMaxAge(AccessTokenExpiration(cfg))
    ensures var token := o.sign(user, AccessTokenExpiration(cfg)).value;
      && Step(s, req, cfg, o).0 == Counted(s, req).(tokenList := s.tokenList[r := TokenPair(token, r)])
      && Step(s, req, cfg, o).1 == Outcome(ScanOf(req, o).nexts, None, Status(403, RefreshExpired))
  {
    assert ScanOf(req, o).nexts + [] == ScanOf(req, o).nexts;
  }

  /**
   * The registered access token has expired but the refresh token does not verify, no
   * user is found, or signing the new token fails: 403 "Refresh token expired", and no
   * store changes.
   */
  lemma RotationFailureRejects(s: Stores, req: Request, cfg: Config, o: Oracles, r: string)
    requires RegisteredRefresh(s, req, o, r)
    requires VerifyCookie(o.verify, Some(s.tokenList[r].accessToken)).Expired?
    requires || !o.verify(r).Valid?
             || o.lookup(o.verify(r).claims.email).None?
             || o.sign(o.lookup(o.verify(r).claims.email).value, AccessTokenExpiration(cfg)).None?
    ensures Step(s, req, cfg, o) == (Counted(s, req), Outcome(ScanOf(req, o).nexts, None, Status(403, RefreshExpired)))
  {
    assert ScanOf(req, o).nexts + [] == ScanOf(req, o).nexts;
  }

  /** The registered access token fails verification without having expired: 500, no store changes. */
  lemma InvalidRegisteredTokenIsServerError(s: Stores, req: Request, cfg: Config, o: Oracles, r: string)
    requires RegisteredRefresh(s, req, o, r)
    requires VerifyCookie(o.verify, Some(s.tokenList[r].accessToken)).Invalid?
    ensures Step(s, req, cfg, o) == (Counted(s, req), Outcome(ScanOf(req, o).nexts, None, Status(500, ServerError)))
  {
    assert ScanOf(req, o).nexts + [] == ScanOf(req, o).nexts;
  }

  // ---------------------------------------------------------------------------
  // Across all requests
  // ---------------------------------------------------------------------------

  /** Off the refresh branch a request changes at most its limiter entry, sets no cookie, and sends nothing or the limiter's 401. */
  lemma StepOffRefreshBranch(s: Stores, req: Request, cfg: Config, o: Oracles)
    requires !ReachesRefresh(s, req, o)
    ensures Step(s, req, cfg, o).0 == if HasCookies(req) then Counted(s, req) else s
    ensures Step(s, req, cfg, o).1.cookie.None?
    ensures Step(s, req, cfg, o).1.reply == NoResponse || Step(s, req, cfg, o).1.reply == Rejected(TooManyAttempts)
  {
  }

  /** On the refresh branch a request is the refresh branch run on the counted stores, after the loop's `next()` calls. */
  lemma StepOnRefreshBranch(s: Stores, req: Request, cfg: Config, o: Oracles)
    requires ReachesRefresh(s, req, o)
    ensures var (s', tail) := Renew(Counted(s, req), ScanOf(req, o).refreshToken, cfg, o);
      Step(s, req, cfg, o) == (s', tail.(nexts := ScanOf(req, o).nexts + tail.nexts))
  {
  }

  /**
   * What the refresh branch may do to the stores: the limiter is untouched, revocation
   * only adds (and a new revocation unregisters and answers 403), the registry changes
   * only by a rotation or a revocation, and a revoked token's entry never changes.
   */
  lemma RenewFrame(s: Stores, refreshToken: Option<string>, cfg: Config, o: Oracles)
    ensures var (s', out) := Renew(s, refreshToken, cfg, o);
      && s'.rateLimiter == s.rateLimiter
      && s.invalidatedTokens <= s'.invalidatedTokens
      && (forall r :: r in s'.invalidatedTokens && r !in s.invalidatedTokens ==>
            r !in s'.tokenList && out.reply == Status(403, SecurityViolation))
      && (s'.tokenList != s.tokenList ==>
            || (out.cookie.Some? && out.reply == NoResponse)
            || out.reply == Status(403, SecurityViolation)
            || out.reply == Status(403, RefreshExpired))
      && (forall r :: r in s.invalidatedTokens ==> (r in s'.tokenList <==> r in s.tokenList))
      && (forall r :: r in s.invalidatedTokens && r in s.tokenList ==> s'.tokenList[r] == s.tokenList[r])
      && ((forall r :: r in s.tokenList ==> s.tokenList[r].refreshToken == r) ==>
            (forall r :: r in s'.tokenList ==> s'.tokenList[r].refreshToken == r))
      && (out.reply.Status? ==>
            && out.reply.code in {401, 403, 500}
            && (out.reply.code == 401 ==> out.reply.message in {TokenInvalidated, Unauthenticated}))
  {
    if refreshToken.Some? && refreshToken.value != "" && refreshToken.value !in s.invalidatedTokens
       && refreshToken.value in s.tokenList {
      var r := refreshToken.value;
      if VerifyCookie(o.verify, Some(s.tokenList[r].accessToken)).Expired? {
        RotateFrame(s, r, cfg, o);
      }
    }
  }

  lemma RotateFrame(s: Stores, r: string, cfg: Config, o: Oracles)
    ensures var (s', out) := Rotate(s, r, cfg, o);
      && s' == s.(tokenList := s'.tokenList)
      && (s'.tokenList != s.tokenList ==>
            (out.cookie.Some? && out.reply == NoResponse) || out.reply == Status(403, RefreshExpired))
      && (forall k :: k != r ==> (k in s'.tokenList <==> k in s.tokenList))
      && (forall k :: k != r && k in s.tokenList ==> s'.tokenList[k] == s.tokenList[k])
      && (s'.tokenList != s.tokenList ==> r in s'.tokenList && s'.tokenList[r].refreshToken == r)
      && (r in s.tokenList ==> r in s'.tokenList)
      && (out.reply.Status? ==> out.reply == Status(403, RefreshExpired))
  {
  }


  /**
   * Every response is a 401, a 403 or a 500, and every 401 carries one of the three
   * messages isAuth throws.
   */
  lemma RepliesAreMapped(s: Stores, req: Request, cfg: Config, o: Oracles)
    ensures var reply := Step(s, req, cfg, o).1.reply;
      reply.Status? ==>
        && reply.code in {401, 403, 500}
        && (reply.code == 401 ==> reply.message in {TooManyAttempts, TokenInvalidated, Unauthenticated})
  {
    if ReachesRefresh(s, req, o) {
      StepOnRefreshBranch(s, req, cfg, o);
      RenewFrame(Counted(s, req), ScanOf(req, o).refreshToken, cfg, o);
    } else {
      StepOffRefreshBranch(s, req, cfg, o);
    }
  }

  /**
   * Revocation is permanent within the process: no request removes a token from
   * `invalidatedTokens`, and one that adds a token answers 403 and unregisters it.
   */
  lemma RevocationOnlyGrows(s: Stores, req: Request, cfg: Config, o: Oracles)
    ensures s.invalidatedTokens <= Step(s, req, cfg, o).0.invalidatedTokens
    ensures forall r :: r in Step(s, req, cfg, o).0.invalidatedTokens && r !in s.invalidatedTokens ==>
      r !in Step(s, req, cfg, o).0.tokenList && Step(s, req, cfg, o).1.reply == Status(403, SecurityViolation)
  {
    if ReachesRefresh(s, req, o) {
      StepOnRefreshBranch(s, req, cfg, o);
      RenewFrame(Counted(s, req), ScanOf(req, o).refreshToken, cfg, o);
    } else {
      StepOffRefreshBranch(s, req, cfg, o);
    }
  }

  /**
   * The registry changes only by a rotation (which sets the new access cookie, or is
   * answered 403 "Refresh token expired" when `res.cookie` refuses the lifetime) or by a
   * revocation (answered 403); the registry entry of a revoked token, or its absence,
   * never changes.
   */
  lemma RegistryChangesOnlyByRotationOrRevocation(s: Stores, req: Request, cfg: Config, o: Oracles)
    ensures var (s', out) := Step(s, req, cfg, o);
      s'.tokenList != s.tokenList ==>
        || (out.cookie.Some? && out.reply == NoResponse)
        || out.reply == Status(403, SecurityViolation)
        || out.reply == Status(403, RefreshExpired)
    ensures forall r :: r in s.invalidatedTokens ==>
      (r in Step(s, req, cfg, o).0.tokenList <==> r in s.tokenList)
    ensures forall r :: r in s.invalidatedTokens && r in s.tokenList ==>
      Step(s, req, cfg, o).0.tokenList[r] == s.tokenList[r]
  {
    if ReachesRefresh(s, req, o) {
      StepOnRefreshBranch(s, req, cfg, o);
      RenewFrame(Counted(s, req), ScanOf(req, o).refreshToken, cfg, o);
    } else {
      StepOffRefreshBranch(s, req, cfg, o);
    }
  }

  /** Every registry entry stays keyed by its own refresh token. */
  lemma RegistryStaysKeyed(s: Stores, req: Request, cfg: Config, o: Oracles)
    requires forall r :: r in s.tokenList ==> s.tokenList[r].refreshToken == r
    ensures forall r :: r in Step(s, req, cfg, o).0.tokenList ==> Step(s, req, cfg, o).0.tokenList[r].refreshToken == r
  {
    if ReachesRefresh(s, req, o) {
      StepOnRefreshBranch(s, req, cfg, o);
      RenewFrame(Counted(s, req), ScanOf(req, o).refreshToken, cfg, o);
    } else {
      StepOffRefreshBranch(s, req, cfg, o);
    }
  }

  // ---------------------------------------------------------------------------
  // Eviction from the revoked set
  // ---------------------------------------------------------------------------

  /**
   * Eviction only bounds memory: a revoked token was unregistered when it was revoked,
   * so once the 24-hour timer drops it from the revoked set it reaches the registry read
   * of line 81 with no entry and gets 500. It is never rotated and never registered again.
   */
  lemma EvictedTokenNeverRotates(s: Stores, r: string, cfg: Config, o: Oracles)
    requires StoresValid(s) && r in s.invalidatedTokens && r != ""
    ensures var evicted := s.(invalidatedTokens := s.invalidatedTokens - {r});
      && StoresValid(evicted)
      && Renew(evicted, Some(r), cfg, o) == (evicted, Responds(Status(500, ServerError)))
  {
  }

  /** The same for a whole request that presents an evicted token on the refresh branch. */
  lemma EvictedTokenRequestIsServerError(s: Stores, req: Request, cfg: Config, o: Oracles, r: string)
    requires StoresValid(s) && r in s.invalidatedTokens
    requires var evicted := s.(invalidatedTokens := s.invalidatedTokens - {r});
      ReachesRefresh(evicted, req, o) && ScanOf(req, o).refreshToken == Some(r) && r != ""
    ensures var evicted := s.(invalidatedTokens := s.invalidatedTokens - {r});
      Step(evicted, req, cfg, o) ==
        (Counted(evicted, req), Outcome(ScanOf(req, o).nexts, None, Status(500, ServerError)))
  {
    var evicted := s.(invalidatedTokens := s.invalidatedTokens - {r});
    EvictedTokenNeverRotates(s, r, cfg, o);
    assert ScanOf(req, o).nexts + [] == ScanOf(req, o).nexts;
  }

  // ---------------------------------------------------------------------------
  // Scenarios over several requests
  // ---------------------------------------------------------------------------

  /**
   * Refresh token R1 presented alone while its registered access token A1 still
   * verifies: R1 is revoked with a 403. Presented again later, with any collaborators
   * (R1's own signature may well still be good), it gets 401 "Token has been
   * invalidated", and the stores other than the limiter do not change again.
   */
  lemma TheftThenReplay(s: Stores, ip: string, t1: int, t2: int, cfg: Config, o1: Oracles, o2: Oracles, r1: string)
    requires WellFormed((RefreshTokenCookie, r1)) && r1 != ""
    requires ip !in s.rateLimiter
    requires r1 in s.tokenList && r1 !in s.invalidatedTokens
    requires VerifyCookie(o1.verify, Some(s.tokenList[r1].accessToken)).Valid?
    ensures var req1 := Request(t1, ip, Some(RefreshTokenCookie + "=" + r1));
      var (s1, out1) := Step(s, req1, cfg, o1);
      && out1 == Outcome([], None, Status(403, SecurityViolation))
      && r1 in s1.invalidatedTokens && r1 !in s1.tokenList
      && var (s2, out2) := Step(s1, Request(t2, ip, Some(RefreshTokenCookie + "=" + r1)), cfg, o2);
      && out2 == Outcome([], None, Rejected(TokenInvalidated))
      && s2.tokenList == s1.tokenList && s2.invalidatedTokens == s1.invalidatedTokens
  {
    var header := RefreshTokenCookie + "=" + r1;
    ScanOne(header, RefreshTokenCookie, r1, o1.verify);
    ScanOne(header, RefreshTokenCookie, r1, o2.verify);
  }

  /**
   * A rotation whose cookie `res.cookie` refuses leaves the client with its old, expired
   * access token while the registry holds the new one. When the client retries with the
   * same refresh token while that new token is still live, the retry looks like theft:
   * the refresh token is revoked with a 403.
   */
  lemma RejectedCookieThenRetryRevokes(s: Stores, ip: string, t1: int, t2: int, cfg: Config, o1: Oracles, o2: Oracles,
                                       r1: string, claims: Session, user: Session)
    requires WellFormed((RefreshTokenCookie, r1)) && r1 != ""
    requires ip !in s.rateLimiter
    requires r1 in s.tokenList && r1 !in s.invalidatedTokens
    requires VerifyCookie(o1.verify, Some(s.tokenList[r1].accessToken)).Expired?
    requires o1.verify(r1) == Valid(claims) && o1.lookup(claims.email) == Some(user)
    requires o1.sign(user, AccessTokenExpiration(cfg)).Some? && !o1.acceptsMaxAge(AccessTokenExpiration(cfg))
    requires VerifyCookie(o2.verify, o1.sign(user, AccessTokenExpiration(cfg))).Valid?
    ensures var header := Some(RefreshTokenCookie + "=" + r1);
      var (s1, out1) := Step(s, Request(t1, ip, header), cfg, o1);
      && out1 == Outcome([], None, Status(403, RefreshExpired))
      && r1 in s1.tokenList && s1.tokenList[r1].accessToken == o1.sign(user, AccessTokenExpiration(cfg)).value
      && var (s2, out2) := Step(s1, Request(t2, ip, header), cfg, o2);
      && out2 == Outcome([], None, Status(403, SecurityViolation))
      && r1 in s2.invalidatedTokens && r1 !in s2.tokenList
  {
    var header := RefreshTokenCookie + "=" + r1;
    ScanOne(header, RefreshTokenCookie, r1, o1.verify);
    ScanOne(header, RefreshTokenCookie, r1, o2.verify);
  }
}
