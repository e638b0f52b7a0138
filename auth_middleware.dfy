/** `authenticate` and `checkTenantAccess`, the API's two request hooks, and the
    token helpers they rest on. The `jsonwebtoken` library is an oracle: the
    model does not look inside a token. */
module AuthMiddleware {
  import opened Common

  /** The secret used when `JWT_SECRET` is not configured. */
  const DefaultSecret: string := "bythewise-secret-change-in-production"

  /** `expiresIn: '7d'`, in seconds. */
  const TokenLifetime: nat := 7 * 24 * 60 * 60

  /** What `authenticate` requires in front of the token. */
  const BearerPrefix: string := "Bearer "

  /** `process.env.JWT_SECRET || DefaultSecret`: an empty setting counts as unset. */
  function JwtSecret(configured: Option<string>): string
  {
    if Truthy(configured) then configured.value else DefaultSecret
  }

  /** Tokens are never signed with an empty key, and a configured key is used as given. */
  lemma SecretNeverEmpty(configured: Option<string>)
    ensures JwtSecret(configured) != ""
    ensures Truthy(configured) ==> JwtSecret(configured) == configured.value
    ensures !Truthy(configured) ==> JwtSecret(configured) == DefaultSecret
  {
  }

  /** The claims `generateToken` signs and `verifyToken` gives back. `tenantId`
      is None when the user has neither tenant field (JSON drops `undefined`). */
  datatype Claims = Claims(id: string, email: string, tenantId: Option<string>, role: string)

  /** The user object handed to `generateToken`: a database row carries
      `tenant_id`, a user of the registry carries `tenantId`. */
  datatype TokenSubject = TokenSubject(id: string, email: string, tenantIdColumn: Option<string>,
                                       tenantId: Option<string>, role: string)

  /** `jwt.sign(payload, secret, { expiresIn })` and `jwt.verify(token, secret)`;
      `verify` is None where the library throws (bad signature, malformed or
      expired token). */
  datatype JwtLibrary = JwtLibrary(sign: (Claims, string, nat) -> string,
                                   verify: (string, string) -> Option<Claims>)

  /** `generateToken`'s payload: `tenantId` is `user.tenant_id || user.tenantId`. */
  function TokenPayload(user: TokenSubject): (c: Claims)
    ensures c.id == user.id && c.email == user.email && c.role == user.role
    ensures Truthy(user.tenantIdColumn) ==> c.tenantId == user.tenantIdColumn
    ensures !Truthy(user.tenantIdColumn) ==> c.tenantId == user.tenantId
  {
    Claims(user.id, user.email, if Truthy(user.tenantIdColumn) then user.tenantIdColumn else user.tenantId, user.role)
  }

  /** `generateToken(user)` */
  function GenerateToken(jwt: JwtLibrary, secret: string, user: TokenSubject): string
  {
    jwt.sign(TokenPayload(user), secret, TokenLifetime)
  }

  /** `verifyToken(token)`: the decoded claims, or None (`null`) where `jwt.verify` throws. */
  function VerifyToken(jwt: JwtLibrary, secret: string, token: string): Option<Claims>
  {
    jwt.verify(token, secret)
  }

  // ---------------------------------------------------------------------------
  // Replies
  // ---------------------------------------------------------------------------

  /** An HTTP error reply: status code, error name and message. */
  datatype Reply = Reply(code: nat, error: string, message: string)

  const MissingHeader: Reply := Reply(401, "Unauthorized", "Missing or invalid authorization header")
  const InvalidToken: Reply := Reply(401, "Unauthorized", "Invalid or expired token")
  const UserNotAuthenticated: Reply := Reply(401, "Unauthorized", "User not authenticated")
  const AccessDenied: Reply := Reply(403, "Forbidden", "Access denied to this tenant")

  // ---------------------------------------------------------------------------
  // authenticate
  // ---------------------------------------------------------------------------

  /** The header `authenticate` accepts for verification: present, non-empty,
      beginning with "Bearer ". */
  predicate HasBearer(authorization: Option<string>)
  {
    Truthy(authorization) && StartsWith(authorization.value, BearerPrefix)
  }

  datatype AuthOutcome = Authenticated(user: Claims) | Rejected(reply: Reply)

  /** What `authenticate` decides for a request with this Authorization header:
      the token is what follows the first seven characters. */
  function AuthenticateOutcome(authorization: Option<string>, jwt: JwtLibrary, secret: string): AuthOutcome
  {
    if !HasBearer(authorization) then Rejected(MissingHeader)
    else
      match VerifyToken(jwt, secret, authorization.value[|BearerPrefix|..])
      case None => Rejected(InvalidToken)
      case Some(claims) => Authenticated(claims)
  }

  /** A header without the Bearer scheme is refused before the token library is
      consulted: the outcome does not depend on the library or the secret. */
  lemma HeaderCheckedBeforeToken(authorization: Option<string>, jwt1: JwtLibrary, secret1: string,
                                 jwt2: JwtLibrary, secret2: string)
    requires !HasBearer(authorization)
    ensures AuthenticateOutcome(authorization, jwt1, secret1) == Rejected(MissingHeader)
    ensures AuthenticateOutcome(authorization, jwt2, secret2) == Rejected(MissingHeader)
  {
  }

  /** A header "Bearer <token>" authenticates as exactly the claims the library
      verifies for that token. */
  lemma BearerTokenAuthenticates(token: string, jwt: JwtLibrary, secret: string)
    ensures var outcome := AuthenticateOutcome(Some(BearerPrefix + token), jwt, secret);
            && (jwt.verify(token, secret).Some? ==> outcome == Authenticated(jwt.verify(token, secret).value))
            && (jwt.verify(token, secret).None? ==> outcome == Rejected(InvalidToken))
  {
    var header := BearerPrefix + token;
    assert header[..|BearerPrefix|] == BearerPrefix;
    assert header[|BearerPrefix|..] == token;
  }

  /** Conversely, every authenticated request carried "Bearer <token>" for a
      token the library verified to those claims. */
  lemma AuthenticatedOnlyByVerifiedToken(authorization: Option<string>, jwt: JwtLibrary, secret: string)
    requires AuthenticateOutcome(authorization, jwt, secret).Authenticated?
    ensures authorization.Some?
    ensures var token := authorization.value[|BearerPrefix|..];
            && authorization.value == BearerPrefix + token
            && jwt.verify(token, secret) == Some(AuthenticateOutcome(authorization, jwt, secret).user)
  {
    var value := authorization.value;
    assert value == value[..|BearerPrefix|] + value[|BearerPrefix|..];
  }

  /** `authenticate` only ever answers 401. */
  lemma AuthenticateRejectsWith401(authorization: Option<string>, jwt: JwtLibrary, secret: string)
    requires AuthenticateOutcome(authorization, jwt, secret).Rejected?
    ensures AuthenticateOutcome(authorization, jwt, secret).reply.code == 401
  {
  }

  /** A freshly generated token, while the library still accepts it, passes
      `authenticate` with the payload it was signed over. */
  lemma GeneratedTokenAuthenticates(jwt: JwtLibrary, secret: string, user: TokenSubject)
    requires jwt.verify(GenerateToken(jwt, secret, user), secret) == Some(TokenPayload(user))
    ensures AuthenticateOutcome(Some(BearerPrefix + GenerateToken(jwt, secret, user)), jwt, secret)
            == Authenticated(TokenPayload(user))
  {
    BearerTokenAuthenticates(GenerateToken(jwt, secret, user), jwt, secret);
  }

  // ---------------------------------------------------------------------------
  // checkTenantAccess
  // ---------------------------------------------------------------------------

  /** What `checkTenantAccess` replies, None for letting the request through;
      `tenantId` is the route parameter `id`. */
  function TenantAccessReply(user: Option<Claims>, tenantId: string): Option<Reply>
  {
    if user.None? then Some(UserNotAuthenticated)
    else if user.value.tenantId != Some(tenantId) && user.value.role != "admin" then Some(AccessDenied)
    else None
  }

  /** Access is denied with 403 exactly when the user belongs to another tenant
      and is not an admin; otherwise it is granted; no user at all is a 401. */
  lemma TenantAccessRule(user: Option<Claims>, tenantId: string)
    ensures user.None? <==> TenantAccessReply(user, tenantId) == Some(UserNotAuthenticated)
    ensures TenantAccessReply(user, tenantId) == Some(AccessDenied) <==>
              user.Some? && user.value.tenantId != Some(tenantId) && user.value.role != "admin"
    ensures TenantAccessReply(user, tenantId).None? <==>
              user.Some? && (user.value.tenantId == Some(tenantId) || user.value.role == "admin")
  {
  }

  // ---------------------------------------------------------------------------
  // The hook chain `[authenticate, checkTenantAccess]` of the tenant routes
  // ---------------------------------------------------------------------------

  /** The reply of the two hooks run in order; None lets the handler run. */
  function GuardReply(authorization: Option<string>, tenantId: string, jwt: JwtLibrary, secret: string): Option<Reply>
  {
    match AuthenticateOutcome(authorization, jwt, secret)
    case Rejected(reply) => Some(reply)
    case Authenticated(claims) => TenantAccessReply(Some(claims), tenantId)
  }

  /** A request reaches a tenant route exactly when it carries a Bearer token
      the library verifies to claims of that tenant or of an admin. */
  lemma GuardPassesExactly(authorization: Option<string>, tenantId: string, jwt: JwtLibrary, secret: string)
    ensures GuardReply(authorization, tenantId, jwt, secret).None? <==>
              && HasBearer(authorization)
              && var claims := jwt.verify(authorization.value[|BearerPrefix|..], secret);
                 && claims.Some?
                 && (claims.value.tenantId == Some(tenantId) || claims.value.role == "admin")
  {
  }

  /** Behind `authenticate`, `checkTenantAccess` never meets a request without a user. */
  lemma GuardNeverMissesUser(authorization: Option<string>, tenantId: string, jwt: JwtLibrary, secret: string)
    ensures GuardReply(authorization, tenantId, jwt, secret) != Some(UserNotAuthenticated)
  {
  }

  /** An admin's valid token opens every tenant. */
  lemma AdminReachesEveryTenant(token: string, jwt: JwtLibrary, secret: string, tenantId: string)
    requires jwt.verify(token, secret).Some? && jwt.verify(token, secret).value.role == "admin"
    ensures GuardReply(Some(BearerPrefix + token), tenantId, jwt, secret).None?
  {
    BearerTokenAuthenticates(token, jwt, secret);
  }

  /** The request object the hooks work on. */
  class Request {
    /** `request.headers.authorization` */
    const authorization: Option<string>
    /** `request.params.id` */
    const tenantId: string
    /** `request.user`, set by `authenticate` */
    var user: Option<Claims>

    constructor(authorization: Option<string>, tenantId: string)
      ensures this.authorization == authorization && this.tenantId == tenantId && user == None
    {
      this.authorization := authorization;
      this.tenantId := tenantId;
      user := None;
    }

    /** `authenticate(request, reply)`: replies, or attaches the decoded claims
        to the request and replies nothing. */
    method Authenticate(jwt: JwtLibrary, secret: string) returns (reply: Option<Reply>)
      modifies this`user
      ensures var outcome := AuthenticateOutcome(authorization, jwt, secret);
              && (outcome.Rejected? ==> reply == Some(outcome.reply) && user == old(user))
              && (outcome.Authenticated? ==> reply.None? && user == Some(outcome.user))
    {
      if authorization.None? || authorization.value == "" || !StartsWith(authorization.value, BearerPrefix) {
        return Some(MissingHeader);
      }
      var token := authorization.value[7..];
      var decoded := VerifyToken(jwt, secret, token);
      if decoded.None? {
        return Some(InvalidToken);
      }
      user := decoded;
      return None;
    }

    /** `checkTenantAccess(request, reply)` */
    method CheckTenantAccess() returns (reply: Option<Reply>)
      ensures reply == TenantAccessReply(user, tenantId)
    {
      if user.None? {
        return Some(UserNotAuthenticated);
      }
      if user.value.tenantId != Some(tenantId) && user.value.role != "admin" {
        return Some(AccessDenied);
      }
      return None;
    }

    /** `preHandler: [authenticate, checkTenantAccess]`: the second hook runs
        only when the first sent no reply. */
    method RunTenantHooks(jwt: JwtLibrary, secret: string) returns (reply: Option<Reply>)
      modifies this`user
      ensures reply == GuardReply(authorization, tenantId, jwt, secret)
    {
      reply := Authenticate(jwt, secret);
      if reply.Some? {
        return;
      }
      reply := CheckTenantAccess();
    }
  }
}
