/**
 * What the middleware sees of its tokens. Signing and verification are done by a JWT
 * library outside this model; here verification is an oracle that answers with the
 * decoded claims, with "expired", or with "invalid" (any other failure).
 */
module Tokens {
  import opened Wrappers

  /**
   * The session context handed to the next handler (`req.session`): the user fields
   * the middleware copies out of a user record or a decoded access token.
   */
  datatype Session = Session(
    userId: int,
    email: string,
    lastname: string,
    firstname: string,
    locale: Option<string>,
    roleId: int)

  /** The answer of `jwt.verify`: decoded claims, `TokenExpiredError`, or any other error. */
  datatype Verdict = Valid(claims: Session) | Expired | Invalid

  /** An entry of `tokenList`: `{access_token, refresh_token}`. */
  datatype TokenPair = TokenPair(accessToken: string, refreshToken: string)

  /** The locale a session gets when its access token carries none. */
  const DefaultLocale: string := "en"

  /** Decoded access-token claims as they become `req.session` (auth.js lines 58-61). */
  function WithDefaultLocale(claims: Session): (session: Session)
    ensures session.locale.Some?
    ensures claims.locale.Some? ==> session == claims
    ensures claims.locale.None? ==> session.locale == Some(DefaultLocale)
    ensures session.(locale := claims.locale) == claims
  {
    if claims.locale.None? then claims.(locale := Some(DefaultLocale)) else claims
  }

  /**
   * Verifying a cookie value that may be missing: `jwt.verify` refuses an undefined or
   * empty token with a `JsonWebTokenError` ("jwt must be provided") before it looks at
   * any signature, so such a value is invalid and never expired.
   */
  function VerifyCookie(verify: string -> Verdict, value: Option<string>): (verdict: Verdict)
    ensures value.None? || value == Some("") ==> verdict == Invalid
    ensures value.Some? && value.value != "" ==> verdict == verify(value.value)
    ensures verdict.Expired? ==> value.Some? && value.value != ""
  {
    match value
    case None => Invalid
    case Some(token) => if token == "" then Invalid else verify(token)
  }
}
