/** The request middleware of `internal/middleware/auth.go`: bearer-token
    authentication (mandatory and optional), the role gate and the CORS
    headers. A Gin context is the map of values handlers have set on it;
    a middleware either passes the request on with a possibly extended
    context or aborts it with a status and an error message. */
module Middleware {
  import opened Wrappers
  import opened Text
  import opened Json
  import opened BuildModel
  import Jwt

  /** The values middleware store in a Gin context: a `uuid.UUID`, the
      claims, or a value of some other Go type. */
  datatype CtxValue = UuidValue(u: Uuid) | ClaimsValue(c: Jwt.Claims) | OtherValue

  type Context = map<string, CtxValue>

  datatype Outcome = Next(ctx: Context) | Abort(status: int, error: string)

  /** The context after a token validated: the user and session IDs and
      the claims themselves. */
  function SignIn(ctx: Context, c: Jwt.Claims): (r: Context)
    ensures "user_id" in r && r["user_id"] == UuidValue(c.userId)
    ensures "session_id" in r && r["session_id"] == UuidValue(c.sessionId)
    ensures "claims" in r && r["claims"] == ClaimsValue(c)
    ensures forall k :: k in ctx && k !in {"user_id", "session_id", "claims"} ==> k in r && r[k] == ctx[k]
  {
    ctx["user_id" := UuidValue(c.userId)]["session_id" := UuidValue(c.sessionId)]["claims" := ClaimsValue(c)]
  }

  /** `err.Error()` of the header errors `ExtractTokenFromHeader` returns. */
  function ExtractErrorText(e: Jwt.JwtError): string
    requires e.MissingHeader? || e.NotBearer?
  {
    if e.MissingHeader? then "authorization header is required"
    else "authorization header must start with 'Bearer '"
  }

  // ----- authentication -----------------------------------------------------

  /** `AuthMiddleware`: an empty header, a header that is not a bearer
      header and a token that does not validate are each refused with 401
      and their own message; a valid token signs the request in. */
  function Authenticate(parse: string -> Jwt.Parsed, header: string, now: Time, ctx: Context): (r: Outcome)
    ensures r.Abort? ==> r.status == 401
    ensures r.Next? <==> HasPrefix(header, Jwt.BearerPrefix) &&
                         Jwt.ValidateToken(parse, header[|Jwt.BearerPrefix|..], now).Success?
    ensures r.Next? ==> r.ctx == SignIn(ctx, parse(header[|Jwt.BearerPrefix|..]).claims)
    ensures header == "" ==> r == Abort(401, "Authorization header is required")
    ensures header != "" && !HasPrefix(header, Jwt.BearerPrefix) ==>
              r == Abort(401, "authorization header must start with 'Bearer '")
  {
    if header == "" then Abort(401, "Authorization header is required")
    else match Jwt.ExtractTokenFromHeader(header)
      case Failure(e) => Abort(401, ExtractErrorText(e))
      case Success(token) =>
        match Jwt.ValidateToken(parse, token, now)
        case Failure(_) => Abort(401, "Invalid token")
        case Success(c) => Next(SignIn(ctx, c))
  }

  /** `OptionalAuthMiddleware`: never refuses; signs the request in exactly
      when a valid bearer token is present. */
  function OptionalAuthenticate(parse: string -> Jwt.Parsed, header: string, now: Time, ctx: Context): (r: Outcome)
    ensures r.Next?
  {
    if header == "" then Next(ctx)
    else match Jwt.ExtractTokenFromHeader(header)
      case Failure(_) => Next(ctx)
      case Success(token) =>
        match Jwt.ValidateToken(parse, token, now)
        case Failure(_) => Next(ctx)
        case Success(c) => Next(SignIn(ctx, c))
  }

  /** The two middleware agree: where the mandatory one lets a request
      through, the optional one signs it in identically; where it refuses,
      the optional one passes the context on untouched. */
  lemma OptionalAgreesWithAuth(parse: string -> Jwt.Parsed, header: string, now: Time, ctx: Context)
    ensures Authenticate(parse, header, now, ctx).Next? ==>
              OptionalAuthenticate(parse, header, now, ctx) == Authenticate(parse, header, now, ctx)
    ensures Authenticate(parse, header, now, ctx).Abort? ==>
              OptionalAuthenticate(parse, header, now, ctx) == Next(ctx)
  {
  }

  /** A token issued by the service and presented as a bearer header
      before it expires lets the request through signed in as its user. */
  lemma IssuedTokenAuthenticates(parse: string -> Jwt.Parsed, sign: Jwt.Claims -> string,
                                 userId: Uuid, sessionId: Uuid, issued: Time, now: Time, ctx: Context)
    requires Jwt.Signs(parse, sign)
    requires issued <= now < issued + Jwt.AccessLifetime - Jwt.Second
    ensures var token := sign(Jwt.AccessClaims(userId, sessionId, issued));
            var r := Authenticate(parse, Jwt.BearerPrefix + token, now, ctx);
            r.Next? && r.ctx["user_id"] == UuidValue(userId) && r.ctx["session_id"] == UuidValue(sessionId)
  {
    var token := sign(Jwt.AccessClaims(userId, sessionId, issued));
    Jwt.ExtractRoundTrip(token);
    Jwt.AccessTokenLifetime(parse, sign, userId, sessionId, issued, now);
    assert (Jwt.BearerPrefix + token)[|Jwt.BearerPrefix|..] == token;
  }

  // ----- roles --------------------------------------------------------------

  /** Some required role equals some string among the user's roles;
      entries that are not strings never match. */
  predicate Granted(roles: seq<string>, userRoles: seq<Json>) {
    exists i, j :: 0 <= i < |roles| && 0 <= j < |userRoles| && userRoles[j] == JStr(roles[i])
  }

  /** The nested search of `RequireRole`, leaving both loops at the first
      match. */
  method HasRole(roles: seq<string>, userRoles: seq<Json>) returns (has: bool)
    ensures has <==> Granted(roles, userRoles)
  {
    has := false;
    var i := 0;
    while i < |roles| && !has
      invariant 0 <= i <= |roles|
      invariant has ==> Granted(roles, userRoles)
      invariant !has ==> forall a, b :: 0 <= a < i && 0 <= b < |userRoles| ==> userRoles[b] != JStr(roles[a])
    {
      var j := 0;
      while j < |userRoles|
        invariant 0 <= j <= |userRoles|
        invariant forall b :: 0 <= b < j ==> userRoles[b] != JStr(roles[i])
      {
        if userRoles[j].JStr? && userRoles[j].s == roles[i] {
          has := true;
          break;
        }
        j := j + 1;
      }
      i := i + 1;
    }
  }

  /** The user's `roles` metadata when it is a JSON array. */
  function RolesOf(metadata: map<string, Json>): Option<seq<Json>> {
    if "roles" in metadata && metadata["roles"].JArr? then Some(metadata["roles"].items) else None
  }

  /** `RequireRole(roles...)`: the signed-in user, looked up among the live
      (not deleted) users by ID to get their metadata, must hold one of the
      roles. */
  function RequireRole(roles: seq<string>, ctx: Context, users: map<Uuid, map<string, Json>>): (r: Outcome)
    ensures r.Next? <==> "user_id" in ctx && ctx["user_id"].UuidValue? && ctx["user_id"].u in users &&
                         RolesOf(users[ctx["user_id"].u]).Some? &&
                         Granted(roles, RolesOf(users[ctx["user_id"].u]).value)
    ensures r.Next? ==> r.ctx == ctx
    ensures "user_id" !in ctx ==> r == Abort(401, "User not authenticated")
    ensures r.Abort? ==> r.status in {401, 403, 500}
  {
    if "user_id" !in ctx then Abort(401, "User not authenticated")
    else if !ctx["user_id"].UuidValue? then Abort(500, "Invalid user ID")
    else if ctx["user_id"].u !in users then Abort(401, "User not found")
    else match RolesOf(users[ctx["user_id"].u])
      case None => Abort(403, "Insufficient permissions")
      case Some(userRoles) =>
        if Granted(roles, userRoles) then Next(ctx) else Abort(403, "Insufficient permissions")
  }

  /** Called with no roles at all the gate refuses everyone; a user who
      holds a role is let through by any list naming it, and extra
      roles on the user or in the list never take access away. */
  lemma RoleGate(roles: seq<string>, more: seq<string>, userRoles: seq<Json>, extra: seq<Json>, k: nat)
    requires k < |roles|
    ensures !Granted([], userRoles)
    ensures JStr(roles[k]) in userRoles ==> Granted(roles, userRoles)
    ensures Granted(roles, userRoles) ==> Granted(roles + more, userRoles + extra)
  {
    if JStr(roles[k]) in userRoles {
      var j :| 0 <= j < |userRoles| && userRoles[j] == JStr(roles[k]);
      assert userRoles[j] == JStr(roles[k]);
    }
    if Granted(roles, userRoles) {
      var i, j :| 0 <= i < |roles| && 0 <= j < |userRoles| && userRoles[j] == JStr(roles[i]);
      assert (userRoles + extra)[j] == JStr((roles + more)[i]);
    }
  }

  /** A request signed in by `AuthMiddleware` never meets the 500 path of
      the role gate: its user ID is always a UUID. */
  lemma SignedInHasUuid(roles: seq<string>, ctx: Context, c: Jwt.Claims, users: map<Uuid, map<string, Json>>)
    ensures RequireRole(roles, SignIn(ctx, c), users).Abort? ==>
              RequireRole(roles, SignIn(ctx, c), users).status != 500
    ensures c.userId !in users ==> RequireRole(roles, SignIn(ctx, c), users) == Abort(401, "User not found")
  {
  }

  // ----- CORS ---------------------------------------------------------------

  const AllowedOrigins: seq<string> := ["http://localhost:3000", "http://localhost:3001", "https://yourdomain.com"]

  const AllowHeaders: string :=
    "Content-Type, Content-Length, Accept-Encoding, X-CSRF-Token, Authorization, accept, origin, Cache-Control, X-Requested-With"

  const AllowMethods: string := "POST, OPTIONS, GET, PUT, DELETE, PATCH"

  /** Whether the request's `Origin` is echoed back. */
  predicate EchoesOrigin(origin: string) {
    origin in AllowedOrigins || ContainsSub(origin, "localhost")
  }

  datatype CorsReply = CorsReply(headers: map<string, string>, preflightDone: bool)

  /** `CORSMiddleware`: the origin is echoed when it is on the list or
      mentions "localhost" anywhere; credentials, headers and methods are
      always allowed; a preflight `OPTIONS` request ends here with 204. */
  function Cors(origin: string, verb: string): (r: CorsReply)
    ensures "Access-Control-Allow-Origin" in r.headers <==> EchoesOrigin(origin)
    ensures "Access-Control-Allow-Origin" in r.headers ==> r.headers["Access-Control-Allow-Origin"] == origin
    ensures "Access-Control-Allow-Credentials" in r.headers && r.headers["Access-Control-Allow-Credentials"] == "true"
    ensures "Access-Control-Allow-Headers" in r.headers && r.headers["Access-Control-Allow-Headers"] == AllowHeaders
    ensures "Access-Control-Allow-Methods" in r.headers && r.headers["Access-Control-Allow-Methods"] == AllowMethods
    ensures r.preflightDone <==> verb == "OPTIONS"
  {
    var fixed := map["Access-Control-Allow-Credentials" := "true",
                     "Access-Control-Allow-Headers" := AllowHeaders,
                     "Access-Control-Allow-Methods" := AllowMethods];
    var headers := if EchoesOrigin(origin) then fixed["Access-Control-Allow-Origin" := origin] else fixed;
    CorsReply(headers, verb == "OPTIONS")
  }

  /** The "localhost" test is a substring test: an origin such as
      `https://localhost.example.net`, which any party can register, is
      echoed together with `Allow-Credentials: true`. */
  lemma CorsEchoesLookalike(o: string)
    requires o == "https://localhost.example.net"
    ensures var r := Cors(o, "GET");
            "Access-Control-Allow-Origin" in r.headers && r.headers["Access-Control-Allow-Origin"] == o &&
            r.headers["Access-Control-Allow-Credentials"] == "true"
  {
    assert o[8..8 + |"localhost"|] == "localhost";
    ContainsSubAt(o, "localhost", 8);
  }

  /** A foreign origin without the word is not echoed, and neither is an
      absent one. */
  lemma CorsRefusesForeign(o: string)
    requires o == "https://attacker.com" || o == ""
    ensures "Access-Control-Allow-Origin" !in Cors(o, "GET").headers
  {
    NoLocalhost(o);
    assert 'l' !in o;
  }

  /** Every listed origin is echoed, and so is every origin containing
      "localhost"; the list's only other entry is the production domain. */
  lemma CorsEchoesListed(k: nat, origin: string)
    requires k < |AllowedOrigins|
    ensures EchoesOrigin(AllowedOrigins[k])
    ensures EchoesOrigin(origin) <==> origin == "https://yourdomain.com" || ContainsSub(origin, "localhost")
  {
    if origin in AllowedOrigins && origin != "https://yourdomain.com" {
      var o := origin;
      assert o[7..7 + |"localhost"|] == "localhost";
      ContainsSubAt(o, "localhost", 7);
    }
  }

  /** Text containing "localhost" contains an `l`. */
  lemma NoLocalhost(s: string)
    ensures ContainsSub(s, "localhost") ==> 'l' in s
  {
    if ContainsSub(s, "localhost") {
      var i := ContainsSubWitness(s, "localhost");
      assert s[i] == s[i..i + 9][0];
    }
  }
}
