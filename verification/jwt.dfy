/** The token service of `internal/services/jwt_service.go`: the claims of
    access and refresh tokens, bearer-header extraction, validation,
    refreshing a pair and the expiry query. HMAC signing and the token's
    text encoding belong to the JWT library and are parameters: `sign`
    turns claims into a token, `parse` reads one back. */
module Jwt {
  import opened Wrappers
  import opened Text
  import opened BuildModel

  const Second: int := 1_000_000_000
  const Minute: int := 60 * Second
  const Hour: int := 60 * Minute

  const AccessLifetime: int := 15 * Minute
  const RefreshLifetime: int := 30 * 24 * Hour

  const Issuer: string := "borderless-coding-server"

  /** `jwt.NewNumericDate`: the instant truncated to whole seconds. */
  function NumericDate(t: Time): (r: Time)
    ensures r <= t < r + Second && r % Second == 0
  {
    t - t % Second
  }

  datatype Claims = Claims(userId: Uuid, sessionId: Uuid, expiresAt: Time, issuedAt: Time,
                           notBefore: Time, issuer: string, subject: string)

  /** The claims of a token issued at `now` that lives `lifetime`. */
  function IssueClaims(userId: Uuid, sessionId: Uuid, now: Time, lifetime: int): (r: Claims)
    requires lifetime % Second == 0
    ensures r.userId == userId && r.sessionId == sessionId && r.subject == userId && r.issuer == Issuer
    ensures r.issuedAt == r.notBefore && r.issuedAt <= now < r.issuedAt + Second
    ensures r.expiresAt == r.issuedAt + lifetime
  {
    assert (now + lifetime) % Second == now % Second;
    Claims(userId, sessionId, NumericDate(now + lifetime), NumericDate(now), NumericDate(now), Issuer, userId)
  }

  /** `GenerateAccessToken`: 15 minutes. */
  function AccessClaims(userId: Uuid, sessionId: Uuid, now: Time): (r: Claims)
    ensures r.userId == userId && r.sessionId == sessionId && r.subject == userId && r.issuer == Issuer
    ensures r.issuedAt <= now < r.issuedAt + Second && r.expiresAt == r.issuedAt + 900 * Second
  {
    IssueClaims(userId, sessionId, now, AccessLifetime)
  }

  /** `GenerateRefreshToken`: 30 days. */
  function RefreshClaims(userId: Uuid, sessionId: Uuid, now: Time): (r: Claims)
    ensures r.userId == userId && r.sessionId == sessionId && r.subject == userId && r.issuer == Issuer
    ensures r.issuedAt <= now < r.issuedAt + Second && r.expiresAt == r.issuedAt + 2_592_000 * Second
  {
    IssueClaims(userId, sessionId, now, RefreshLifetime)
  }

  // ----- the bearer header ---------------------------------------------------

  datatype JwtError =
    | MissingHeader
    | NotBearer
    | Malformed
    | UnexpectedSigningMethod
    | BadSignature
    | Expired
    | NotValidYet

  const BearerPrefix: string := "Bearer "

  /** `ExtractTokenFromHeader`: the text after an exact, case-sensitive
      "Bearer " (section 2.1 of RFC 6750 matches the scheme
      case-insensitively; this server does not). */
  function ExtractTokenFromHeader(header: string): (r: Result<string, JwtError>)
    ensures header == "" ==> r == Failure(MissingHeader)
    ensures header != "" && !HasPrefix(header, BearerPrefix) ==> r == Failure(NotBearer)
    ensures r.Success? <==> HasPrefix(header, BearerPrefix)
    ensures r.Success? ==> header == BearerPrefix + r.value
  {
    if header == "" then Failure(MissingHeader)
    else if |header| < |BearerPrefix| || header[..|BearerPrefix|] != BearerPrefix then Failure(NotBearer)
    else
      assert header == header[..|BearerPrefix|] + header[|BearerPrefix|..];
      Success(header[|BearerPrefix|..])
  }

  /** Every token, the empty one included, comes back out of its header. */
  lemma ExtractRoundTrip(token: string)
    ensures ExtractTokenFromHeader(BearerPrefix + token) == Success(token)
  {
    var h := BearerPrefix + token;
    assert h[..|BearerPrefix|] == BearerPrefix;
    assert h[|BearerPrefix|..] == token;
  }

  /** The lower-case scheme is refused. */
  lemma LowerCaseBearerRefused(token: string)
    ensures ExtractTokenFromHeader("bearer " + token) == Failure(NotBearer)
  {
    var h := "bearer " + token;
    assert h[0] == 'b' != BearerPrefix[0];
  }

  // ----- validation ------------------------------------------------------------

  datatype SigningMethod = Hmac(bits: int) | Rsa(bits: int) | Ecdsa(bits: int) | NoSigning

  /** What the library's parser reports for a token: text that is not a
      token, or its header's signing method, its claims and whether the
      signature checks against the server's key. */
  datatype Parsed = Unparsable | Token(alg: SigningMethod, claims: Claims, signatureOk: bool)

  /** The library's default claim validation: not yet expired and not
      before its not-before time. The issued-at time is not checked by
      default. */
  predicate TimeValid(c: Claims, now: Time) {
    now < c.expiresAt && !(now < c.notBefore)
  }

  /** `ValidateToken`: the key function refuses every method but HMAC
      before the signature is checked, then the claims' times are
      validated. */
  function ValidateToken(parse: string -> Parsed, token: string, now: Time): (r: Result<Claims, JwtError>)
    ensures r.Success? <==> parse(token).Token? && parse(token).alg.Hmac? &&
                            parse(token).signatureOk && TimeValid(parse(token).claims, now)
    ensures r.Success? ==> r.value == parse(token).claims
    ensures parse(token).Token? && !parse(token).alg.Hmac? ==> r == Failure(UnexpectedSigningMethod)
  {
    match parse(token)
    case Unparsable => Failure(Malformed)
    case Token(alg, claims, signatureOk) =>
      if !alg.Hmac? then Failure(UnexpectedSigningMethod)
      else if !signatureOk then Failure(BadSignature)
      else if !(now < claims.expiresAt) then Failure(Expired)
      else if now < claims.notBefore then Failure(NotValidYet)
      else Success(claims)
  }

  datatype TokenPair = TokenPair(access: string, refresh: string)

  /** `RefreshTokenPair`: a fresh pair for the user and session of a valid
      refresh token, issued at `now`; an invalid token yields no tokens. */
  function RefreshTokenPair(parse: string -> Parsed, sign: Claims -> string, token: string, now: Time)
    : (r: Result<TokenPair, JwtError>)
    ensures r.Failure? <==> ValidateToken(parse, token, now).Failure?
    ensures r.Failure? ==> r.error == ValidateToken(parse, token, now).error
    ensures r.Success? ==>
              var c := parse(token).claims;
              r.value == TokenPair(sign(AccessClaims(c.userId, c.sessionId, now)),
                                   sign(RefreshClaims(c.userId, c.sessionId, now)))
  {
    match ValidateToken(parse, token, now)
    case Failure(e) => Failure(e)
    case Success(c) =>
      Success(TokenPair(sign(AccessClaims(c.userId, c.sessionId, now)),
                        sign(RefreshClaims(c.userId, c.sessionId, now))))
  }

  /** `IsTokenExpired`: true whenever validation fails (at `validatedAt`),
      otherwise whether `checkedAt` is after the expiry. */
  function IsTokenExpired(parse: string -> Parsed, token: string, validatedAt: Time, checkedAt: Time): (r: bool)
    ensures ValidateToken(parse, token, validatedAt).Failure? ==> r
    ensures ValidateToken(parse, token, validatedAt).Success? ==> (r <==> checkedAt > parse(token).claims.expiresAt)
  {
    match ValidateToken(parse, token, validatedAt)
    case Failure(_) => true
    case Success(c) => checkedAt > c.expiresAt
  }

  /** Read on one clock, a token counts as expired exactly when it does
      not validate: validation already refuses every token at or past its
      expiry. */
  lemma ExpiredIffInvalid(parse: string -> Parsed, token: string, now: Time)
    ensures IsTokenExpired(parse, token, now, now) <==> ValidateToken(parse, token, now).Failure?
  {
  }

  // ----- the service's own tokens ------------------------------------------

  /** The library reads back what it signed with the server's key:
      `GenerateAccessToken` and `GenerateRefreshToken` sign with HS256. */
  ghost predicate Signs(parse: string -> Parsed, sign: Claims -> string) {
    forall c :: parse(sign(c)) == Token(Hmac(256), c, true)
  }

  /** An access token validates from its issue until 15 minutes later, and
      not from then on; its claims carry the user and session it was
      issued for. */
  lemma AccessTokenLifetime(parse: string -> Parsed, sign: Claims -> string,
                            userId: Uuid, sessionId: Uuid, issued: Time, now: Time)
    requires Signs(parse, sign)
    ensures var c := AccessClaims(userId, sessionId, issued);
            var v := ValidateToken(parse, sign(c), now);
            (v.Success? <==> c.notBefore <= now < c.notBefore + AccessLifetime) &&
            (v.Success? ==> v.value.userId == userId && v.value.sessionId == sessionId) &&
            (issued <= now < issued + AccessLifetime - Second ==> v.Success?)
  {
    var c := AccessClaims(userId, sessionId, issued);
    assert parse(sign(c)) == Token(Hmac(256), c, true);
  }

  /** Refreshing with a refresh token of the service, within its 30 days,
      yields tokens for the same user and session; the new refresh token
      is valid in turn. */
  lemma RefreshKeepsIdentity(parse: string -> Parsed, sign: Claims -> string,
                             userId: Uuid, sessionId: Uuid, issued: Time, now: Time)
    requires Signs(parse, sign)
    requires issued <= now < issued + RefreshLifetime - Second
    ensures var r := RefreshTokenPair(parse, sign, sign(RefreshClaims(userId, sessionId, issued)), now);
            r.Success? &&
            parse(r.value.access).claims == AccessClaims(userId, sessionId, now) &&
            parse(r.value.refresh).claims == RefreshClaims(userId, sessionId, now) &&
            ValidateToken(parse, r.value.refresh, now) == Success(RefreshClaims(userId, sessionId, now))
  {
    var c := RefreshClaims(userId, sessionId, issued);
    assert parse(sign(c)) == Token(Hmac(256), c, true);
    var a := AccessClaims(userId, sessionId, now);
    var f := RefreshClaims(userId, sessionId, now);
    assert parse(sign(a)) == Token(Hmac(256), a, true);
    assert parse(sign(f)) == Token(Hmac(256), f, true);
  }
}
