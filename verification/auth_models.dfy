/** The authentication records of `internal/models/auth.go`: phone
    numbers, external identities, password credentials, one-time
    verification tokens, sessions and the audit log, with their
    creation hooks and the status predicates the auth flows consult. The
    clock reading each Go method takes is a `now` parameter. */
module AuthModels {
  import opened Wrappers
  import opened Json
  import opened BuildModel

  datatype UserPhone = UserPhone(
    id: Uuid,
    userId: Uuid,
    e164: string,
    isPrimary: bool,
    verifiedAt: Option<Time>,
    createdAt: Time)

  /** `UserPhone.BeforeCreate`: the ID rule and the creation time. */
  function PhoneBeforeCreate(p: UserPhone, newId: Uuid, now: Time): (r: UserPhone)
    ensures r.id == AssignId(p.id, newId) && r.createdAt == now
    ensures r.(id := p.id, createdAt := p.createdAt) == p
  {
    p.(id := AssignId(p.id, newId), createdAt := now)
  }

  /** `UserPhone.IsVerified`: a verification time is recorded. */
  predicate IsVerified(p: UserPhone) {
    p.verifiedAt.Some?
  }

  /** Recording a verification time verifies the number, clearing it
      unverifies it, and neither the creation hook nor anything else
      about the number matters. */
  lemma VerifiedByTimestamp(p: UserPhone, t: Time, newId: Uuid, now: Time)
    ensures IsVerified(p.(verifiedAt := Some(t)))
    ensures !IsVerified(p.(verifiedAt := None))
    ensures IsVerified(PhoneBeforeCreate(p, newId, now)) == IsVerified(p)
  {
  }

  datatype AuthProvider = PasswordProvider | GoogleProvider

  /** The text of the `auth_provider` enum. */
  function ProviderName(p: AuthProvider): (r: string)
    ensures r == "password" || r == "google"
  {
    match p
    case PasswordProvider => "password"
    case GoogleProvider => "google"
  }

  lemma ProviderNamesDistinct(p: AuthProvider, q: AuthProvider)
    ensures ProviderName(p) == ProviderName(q) <==> p == q
  {
  }

  datatype AuthIdentity = AuthIdentity(
    id: Uuid,
    userId: Uuid,
    provider: AuthProvider,
    providerUid: string,
    emailAtSignup: Option<string>,
    emailVerified: Option<bool>,
    createdAt: Time)

  /** `AuthIdentity.BeforeCreate`: the ID rule and the creation time. */
  function IdentityBeforeCreate(a: AuthIdentity, newId: Uuid, now: Time): (r: AuthIdentity)
    ensures r.id == AssignId(a.id, newId) && r.createdAt == now
    ensures r.(id := a.id, createdAt := a.createdAt) == a
  {
    a.(id := AssignId(a.id, newId), createdAt := now)
  }

  datatype UserCredential = UserCredential(
    userId: Uuid,
    passwordHash: Option<string>,
    salt: Option<string>,
    passwordSetAt: Option<Time>)

  /** `UserCredential.HasPassword`: a hash is stored and it is not empty. */
  predicate HasPassword(c: UserCredential) {
    c.passwordHash.Some? && c.passwordHash.value != ""
  }

  /** Storing a non-empty hash sets a password whatever the salt and the
      time; a missing hash and an empty one both mean there is none. */
  lemma PasswordByHash(c: UserCredential, h: string)
    ensures HasPassword(c.(passwordHash := Some(h))) <==> h != ""
    ensures !HasPassword(c.(passwordHash := None))
    ensures HasPassword(c.(salt := None, passwordSetAt := None)) == HasPassword(c)
  {
  }

  datatype TokenPurpose = EmailVerify | EmailLogin | PhoneVerify | PhoneLogin | ResetPassword

  /** The text of the `token_purpose` enum. */
  function PurposeName(p: TokenPurpose): string {
    match p
    case EmailVerify => "email_verify"
    case EmailLogin => "email_login"
    case PhoneVerify => "phone_verify"
    case PhoneLogin => "phone_login"
    case ResetPassword => "reset_password"
  }

  lemma PurposeNamesDistinct(p: TokenPurpose, q: TokenPurpose)
    ensures PurposeName(p) == PurposeName(q) <==> p == q
  {
  }

  datatype VerificationToken = VerificationToken(
    id: Uuid,
    userId: Option<Uuid>,
    purpose: TokenPurpose,
    sentTo: string,
    tokenHash: string,
    expiresAt: Time,
    consumedAt: Option<Time>,
    attemptCount: int,
    metadata: map<string, Json>,
    createdAt: Time)

  /** `VerificationToken.BeforeCreate`: the ID rule and the creation time. */
  function TokenBeforeCreate(t: VerificationToken, newId: Uuid, now: Time): (r: VerificationToken)
    ensures r.id == AssignId(t.id, newId) && r.createdAt == now
    ensures r.(id := t.id, createdAt := t.createdAt) == t
  {
    t.(id := AssignId(t.id, newId), createdAt := now)
  }

  /** `VerificationToken.IsExpired`: strictly after the expiry instant. */
  predicate TokenIsExpired(t: VerificationToken, now: Time) {
    now > t.expiresAt
  }

  /** `VerificationToken.IsConsumed`. */
  predicate IsConsumed(t: VerificationToken) {
    t.consumedAt.Some?
  }

  /** `VerificationToken.IsValid`: neither expired nor consumed. */
  predicate TokenIsValid(t: VerificationToken, now: Time) {
    !TokenIsExpired(t, now) && !IsConsumed(t)
  }

  /** A token is usable up to and including its expiry instant, never
      after it, and never once consumed; a token valid now was valid at
      every earlier instant. */
  lemma TokenValidity(t: VerificationToken, now: Time, earlier: Time, used: Time)
    ensures TokenIsValid(t, now) <==> now <= t.expiresAt && t.consumedAt.None?
    ensures t.consumedAt.None? ==> TokenIsValid(t, t.expiresAt)
    ensures !TokenIsValid(t.(consumedAt := Some(used)), now)
    ensures earlier <= now && TokenIsValid(t, now) ==> TokenIsValid(t, earlier)
  {
  }

  datatype Session = Session(
    id: Uuid,
    userId: Uuid,
    userAgent: Option<string>,
    ipNet: Option<string>,
    refreshTokenHash: string,
    validUntil: Time,
    createdAt: Time,
    revokedAt: Option<Time>)

  /** `Session.BeforeCreate`: the ID rule and the creation time. */
  function SessionBeforeCreate(s: Session, newId: Uuid, now: Time): (r: Session)
    ensures r.id == AssignId(s.id, newId) && r.createdAt == now
    ensures r.(id := s.id, createdAt := s.createdAt) == s
  {
    s.(id := AssignId(s.id, newId), createdAt := now)
  }

  /** `Session.IsValid`: strictly before the end of validity and not
      revoked. */
  predicate SessionIsValid(s: Session, now: Time) {
    now < s.validUntil && s.revokedAt.None?
  }

  /** `Session.IsExpired`: strictly after the end of validity. */
  predicate SessionIsExpired(s: Session, now: Time) {
    now > s.validUntil
  }

  /** `Session.IsRevoked`. */
  predicate IsRevoked(s: Session) {
    s.revokedAt.Some?
  }

  /** `Session.Revoke`: records the revocation time, replacing an earlier
      one. */
  function Revoke(s: Session, now: Time): (r: Session)
    ensures IsRevoked(r) && r.revokedAt == Some(now)
    ensures r.(revokedAt := s.revokedAt) == s
  {
    s.(revokedAt := Some(now))
  }

  /** A session is valid exactly when it is neither expired nor revoked nor
      at its end-of-validity instant: at that instant it is neither valid
      nor expired. Validity, once lost, never returns as time passes. */
  lemma SessionStates(s: Session, now: Time, later: Time)
    ensures SessionIsValid(s, now) <==> !SessionIsExpired(s, now) && !IsRevoked(s) && now != s.validUntil
    ensures !SessionIsValid(s, s.validUntil) && !SessionIsExpired(s, s.validUntil)
    ensures now <= later && !SessionIsValid(s, now) ==> !SessionIsValid(s, later)
    ensures now <= later && SessionIsExpired(s, now) ==> SessionIsExpired(s, later)
  {
  }

  /** A revoked session is invalid at every instant, whether or not it has
      expired, and revoking leaves the expiry question unchanged. */
  lemma RevokeEndsSession(s: Session, at: Time, now: Time)
    ensures !SessionIsValid(Revoke(s, at), now)
    ensures SessionIsExpired(Revoke(s, at), now) == SessionIsExpired(s, now)
    ensures Revoke(Revoke(s, at), now) == Revoke(s, now)
  {
  }

  /** The two kinds of expiry disagree at the boundary: a token is still
      usable at its expiry instant where a session with the same end time
      is already invalid. */
  lemma BoundaryDiffers(t: VerificationToken, s: Session)
    requires t.consumedAt.None? && s.revokedAt.None? && t.expiresAt == s.validUntil
    ensures TokenIsValid(t, t.expiresAt) && !SessionIsValid(s, t.expiresAt)
  {
  }

  datatype AuthAudit = AuthAudit(
    id: Uuid,
    userId: Option<Uuid>,
    event: string,
    provider: Option<AuthProvider>,
    ipNet: Option<string>,
    userAgent: Option<string>,
    details: map<string, Json>,
    createdAt: Time)

  /** `AuthAudit.BeforeCreate`: the ID rule and the creation time. */
  function AuditBeforeCreate(a: AuthAudit, newId: Uuid, now: Time): (r: AuthAudit)
    ensures r.id == AssignId(a.id, newId) && r.createdAt == now
    ensures r.(id := a.id, createdAt := a.createdAt) == a
  {
    a.(id := AssignId(a.id, newId), createdAt := now)
  }

  /** Every creation hook of these records keeps an ID once it is
      assigned: a second save with another generated ID changes only the
      creation time. */
  lemma HooksKeepIds(p: UserPhone, a: AuthIdentity, t: VerificationToken, s: Session, x: AuthAudit,
                     n1: Uuid, n2: Uuid, t1: Time, t2: Time)
    requires n1 != NilUuid
    ensures PhoneBeforeCreate(PhoneBeforeCreate(p, n1, t1), n2, t2) == PhoneBeforeCreate(p, n1, t2)
    ensures IdentityBeforeCreate(IdentityBeforeCreate(a, n1, t1), n2, t2) == IdentityBeforeCreate(a, n1, t2)
    ensures TokenBeforeCreate(TokenBeforeCreate(t, n1, t1), n2, t2) == TokenBeforeCreate(t, n1, t2)
    ensures SessionBeforeCreate(SessionBeforeCreate(s, n1, t1), n2, t2) == SessionBeforeCreate(s, n1, t2)
    ensures AuditBeforeCreate(AuditBeforeCreate(x, n1, t1), n2, t2) == AuditBeforeCreate(x, n1, t2)
  {
    AssignIdStable(p.id, n1, n2);
    AssignIdStable(a.id, n1, n2);
    AssignIdStable(t.id, n1, n2);
    AssignIdStable(s.id, n1, n2);
    AssignIdStable(x.id, n1, n2);
  }
}
