/**
  The request gates of internal/http/middleware: bearer authentication,
  the ACL permission gates, the owner-or-admin gate and the role gate.
  Each gate is a decision: pass the request on, or refuse it with a
  status code and body.

  The ACL gates call the ACL service's `CheckPermission`, so whether they
  pass is stated in terms of the owner directory and the grants the
  service consults. The Redis blacklist lookup and JWT validation are
  parameters.

  `Authenticate` follows the code: an error from the blacklist lookup
  does not block the request. `AuthenticateFailSecure` blocks on that
  error as well, which is what the comment above the check says.
 */
module Middleware {
  import opened Common
  import opened Bitmask
  import opened AclRepository
  import AclService
  import Permissions
  import Text

  /** The claims of a validated token. */
  datatype Claims = Claims(userId: UserId, email: string, roleId: int)

  /** The keys of a request context: the middleware's own key and any other. */
  datatype ContextKey = UserKey | OtherKey(name: string)

  datatype ContextValue = ClaimsValue(claims: Claims) | OtherValue

  type Context = map<ContextKey, ContextValue>

  /** What a gate does with the request. */
  datatype Response = Pass | Refuse(code: int, body: string)

  const StatusBadRequest: int := 400
  const StatusUnauthorized: int := 401
  const StatusForbidden: int := 403
  const StatusInternalServerError: int := 500

  /** The role id that `OwnerOrAdmin` lets through for any target. */
  const SuperAdminRole: int := 1

  /** `GetUserFromContext`: the claims stored under the middleware's key, or nothing. */
  function GetUserFromContext(ctx: Context): (r: Option<Claims>)
    ensures r.Some? <==> UserKey in ctx && ctx[UserKey].ClaimsValue?
  {
    if UserKey in ctx && ctx[UserKey].ClaimsValue? then Some(ctx[UserKey].claims) else None
  }

  /** The context handed on after authentication. */
  function WithUser(ctx: Context, c: Claims): Context {
    ctx[UserKey := ClaimsValue(c)]
  }

  /** What authentication stores is what every gate reads back; other keys do not interfere. */
  lemma ContextRoundTrip(ctx: Context, c: Claims, k: string, v: ContextValue)
    ensures GetUserFromContext(WithUser(ctx, c)) == Some(c)
    ensures GetUserFromContext(ctx[OtherKey(k) := v]) == GetUserFromContext(ctx)
    ensures GetUserFromContext(map[]) == None
  {
  }

  // ---------------------------------------------------------------- auth

  /** The token of an `Authorization` header: exactly two space-separated parts, the first `Bearer`. */
  function BearerToken(header: string): Option<string> {
    var parts := Text.Split(header, ' ');
    if |parts| == 2 && parts[0] == "Bearer" then Some(parts[1]) else None
  }

  /**
    The header format both ways: a token is found exactly when the header
    is `Bearer`, one space, and a token without spaces.
   */
  lemma BearerTokenExact(header: string, token: string)
    ensures BearerToken(header) == Some(token) <==> header == "Bearer " + token && ' ' !in token
  {
    if header == "Bearer " + token && ' ' !in token {
      assert header == "Bearer" + [' '] + token;
      Text.SplitAfterFirst("Bearer", ' ', token);
      Text.SplitJoin([token], ' ');
    }
    if BearerToken(header) == Some(token) {
      var parts := Text.Split(header, ' ');
      Text.JoinSplit(header, ' ');
      assert Text.Join(parts, ' ') == parts[0] + [' '] + Text.Join(parts[1..], ' ');
      assert parts[1..] == [token];
      assert ' ' !in parts[1];
    }
  }

  /** A lowercase scheme, a doubled space or a missing token is not a bearer header. */
  lemma BearerTokenRejects(token: string)
    ensures BearerToken("bearer " + token) == None
    ensures BearerToken("Bearer") == None
    ensures ' ' !in token ==> BearerToken("Bearer  " + token) == None
  {
    forall t | true
      ensures BearerToken("bearer " + token) != Some(t) && BearerToken("Bearer") != Some(t)
    {
      BearerTokenExact("bearer " + token, t);
      BearerTokenExact("Bearer", t);
      assert ("Bearer " + t)[0] == 'B' && ("bearer " + token)[0] == 'b';
      assert |"Bearer " + t| > |"Bearer"|;
    }
    forall t | true
      ensures BearerToken("Bearer  " + token) != Some(t)
    {
      BearerTokenExact("Bearer  " + token, t);
      assert ("Bearer  " + token)[7] == ' ';
      assert |"Bearer  " + token| == 8 + |token|;
    }
  }

  /** The Redis key of a revoked token. */
  function BlacklistKey(token: string): string {
    "blacklist:" + token
  }

  /** The blacklist lookup answered and found the token. */
  predicate Listed(lookup: Result<int, string>) {
    lookup.Ok? && lookup.value > 0
  }

  /** The outcome of the auth middleware: the next handler's context, or a refusal. */
  datatype AuthResult = Authenticated(ctx: Context) | Rejected(code: int, body: string)

  /**
    `AuthMiddleware` as written: header present, bearer format, blacklist,
    then the signature. `lookup` is Redis `EXISTS` and `validate` is JWT
    validation with the server's secret.
   */
  function Authenticate(ctx: Context, header: string, lookup: string -> Result<int, string>,
                        validate: string -> Option<Claims>): (r: AuthResult)
    ensures r.Rejected? ==> r.code == StatusUnauthorized
    ensures header == "" ==> r == Rejected(StatusUnauthorized, "Authorization header required")
    ensures r.Authenticated? <==>
              header != "" && BearerToken(header).Some?
              && !Listed(lookup(BlacklistKey(BearerToken(header).value)))
              && validate(BearerToken(header).value).Some?
    ensures r.Authenticated? ==>
              GetUserFromContext(r.ctx) == validate(BearerToken(header).value)
              && forall k :: k in ctx && k != UserKey ==> k in r.ctx && r.ctx[k] == ctx[k]
    ensures header != "" && BearerToken(header).Some? && Listed(lookup(BlacklistKey(BearerToken(header).value))) ==>
              r == Rejected(StatusUnauthorized, "Token revoked (logout)")
  {
    if header == "" then Rejected(StatusUnauthorized, "Authorization header required")
    else match BearerToken(header)
      case None => Rejected(StatusUnauthorized, "Authorization header format must be Bearer {token}")
      case Some(token) =>
        if Listed(lookup(BlacklistKey(token))) then Rejected(StatusUnauthorized, "Token revoked (logout)")
        else match validate(token)
          case None => Rejected(StatusUnauthorized, "Invalid or expired token")
          case Some(c) => Authenticated(WithUser(ctx, c))
  }

  /** The blacklist check with a failed lookup treated as a listed token. */
  function AuthenticateFailSecure(ctx: Context, header: string, lookup: string -> Result<int, string>,
                                  validate: string -> Option<Claims>): (r: AuthResult)
    ensures r.Rejected? ==> r.code == StatusUnauthorized
    ensures r.Authenticated? <==>
              header != "" && BearerToken(header).Some?
              && lookup(BlacklistKey(BearerToken(header).value)).Ok?
              && !Listed(lookup(BlacklistKey(BearerToken(header).value)))
              && validate(BearerToken(header).value).Some?
    ensures r.Authenticated? ==> r == Authenticate(ctx, header, lookup, validate)
  {
    if header == "" then Rejected(StatusUnauthorized, "Authorization header required")
    else match BearerToken(header)
      case None => Rejected(StatusUnauthorized, "Authorization header format must be Bearer {token}")
      case Some(token) =>
        var answer := lookup(BlacklistKey(token));
        if answer.Err? || Listed(answer) then Rejected(StatusUnauthorized, "Token revoked (logout)")
        else match validate(token)
          case None => Rejected(StatusUnauthorized, "Invalid or expired token")
          case Some(c) => Authenticated(WithUser(ctx, c))
  }

  /**
    The code fails open: when the blacklist lookup errs, the decision is
    the one for a token that is not listed, whatever the blacklist holds.
   */
  lemma LookupErrorFailsOpen(ctx: Context, token: string, lookup: string -> Result<int, string>,
                             validate: string -> Option<Claims>)
    requires ' ' !in token && lookup(BlacklistKey(token)).Err?
    ensures Authenticate(ctx, "Bearer " + token, lookup, validate)
            == Authenticate(ctx, "Bearer " + token, k => if k == BlacklistKey(token) then Ok(0) else lookup(k), validate)
    ensures validate(token).Some? ==> Authenticate(ctx, "Bearer " + token, lookup, validate).Authenticated?
  {
    BearerTokenExact("Bearer " + token, token);
  }

  /**
    The input that shows it: a well-formed bearer header whose token
    validates, while the blacklist lookup errs (Redis unreachable). The
    code lets the request through; the fail-secure check refuses it.
   */
  lemma FailOpenCounterexample(c: Claims, token: string, lookup: string -> Result<int, string>,
                               validate: string -> Option<Claims>)
    requires ' ' !in token && lookup(BlacklistKey(token)).Err? && validate(token) == Some(c)
    ensures Authenticate(map[], "Bearer " + token, lookup, validate) == Authenticated(map[UserKey := ClaimsValue(c)])
    ensures AuthenticateFailSecure(map[], "Bearer " + token, lookup, validate) == Rejected(StatusUnauthorized, "Token revoked (logout)")
  {
    BearerTokenExact("Bearer " + token, token);
  }

  // ---------------------------------------------------------------- ACL gates

  /**
    The service's decision as the gates see it: the owner passes, and
    anyone else passes when the consulted grant holds the permission.
   */
  predicate Allowed(s: Store, env: Env, userId: UserId, id: ResourceId, rt: ResourceType, required: Permission) {
    AclService.OwnerAnyway(env, userId, id, rt)
    || (IsOwner(env.owners, userId, id, rt) == Ok(false)
        && Consulted(s, env, CacheKey(userId, id, rt)).Some?
        && Has(Consulted(s, env, CacheKey(userId, id, rt)).value, required))
  }

  /** The check itself failed: an owner lookup error, or no grant could be read. */
  predicate CheckFails(s: Store, env: Env, userId: UserId, id: ResourceId, rt: ResourceType) {
    IsOwner(env.owners, userId, id, rt).Err?
    || (IsOwner(env.owners, userId, id, rt) == Ok(false) && Consulted(s, env, CacheKey(userId, id, rt)).None?)
  }

  /** The shared body of the two ACL gates; only the 403 body differs between them. */
  function AclGate(s: Store, env: Env, ctx: Context, id: ResourceId, rt: ResourceType, required: Permission,
                   forbidden: string): (r: (Response, Store))
    ensures GetUserFromContext(ctx).None? ==> r == (Refuse(StatusUnauthorized, "Unauthorized"), s)
    ensures GetUserFromContext(ctx).Some? && id == "" ==> r == (Refuse(StatusBadRequest, "resource ID missing"), s)
    ensures r.0.Pass? <==> GetUserFromContext(ctx).Some? && id != "" && Allowed(s, env, GetUserFromContext(ctx).value.userId, id, rt, required)
    ensures r.0 == Refuse(StatusInternalServerError, "error checking permissions") <==>
              GetUserFromContext(ctx).Some? && id != "" && CheckFails(s, env, GetUserFromContext(ctx).value.userId, id, rt)
    ensures r.0.Refuse? && r.0.code == StatusForbidden ==> r.0.body == forbidden
    ensures r.1.acls == s.acls && r.1.nextId == s.nextId
  {
    match GetUserFromContext(ctx)
    case None => (Refuse(StatusUnauthorized, "Unauthorized"), s)
    case Some(c) =>
      if id == "" then (Refuse(StatusBadRequest, "resource ID missing"), s)
      else
        var checked := AclService.CheckPermission(s, env, c.userId, id, rt, required);
        var resp :=
          if checked.0.Err? then Refuse(StatusInternalServerError, "error checking permissions")
          else if !checked.0.value then Refuse(StatusForbidden, forbidden)
          else Pass;
        (resp, checked.1)
  }

  /**
    `RequirePermission`: 401 without claims, 400 without `{id}`, 500 when
    the check fails, 403 when it says no; the next handler runs exactly
    when the service allows the caller. Grants are never changed; the
    check may only refresh the cache.
   */
  function RequirePermission(s: Store, env: Env, ctx: Context, id: ResourceId, rt: ResourceType, required: Permission)
    : (r: (Response, Store))
    ensures r.0.Pass? <==> GetUserFromContext(ctx).Some? && id != "" && Allowed(s, env, GetUserFromContext(ctx).value.userId, id, rt, required)
    ensures GetUserFromContext(ctx).None? ==> r == (Refuse(StatusUnauthorized, "Unauthorized"), s)
    ensures r.0.Refuse? && r.0.code == StatusForbidden ==> r.0.body == "Forbidden: insufficient permissions"
  {
    AclGate(s, env, ctx, id, rt, required, "Forbidden: insufficient permissions")
  }

  /** `RequireOwnerOrShared`: the same checks in the same order, with its own 403 body. */
  function RequireOwnerOrShared(s: Store, env: Env, ctx: Context, id: ResourceId, rt: ResourceType, required: Permission)
    : (r: (Response, Store))
    ensures r.0.Pass? <==> GetUserFromContext(ctx).Some? && id != "" && Allowed(s, env, GetUserFromContext(ctx).value.userId, id, rt, required)
    ensures r.0.Refuse? && r.0.code == StatusForbidden ==> r.0.body == "Forbidden: you don't have access to this resource"
  {
    AclGate(s, env, ctx, id, rt, required, "Forbidden: you don't have access to this resource")
  }

  /** Two responses that decide alike: both pass, or both refuse with the same status. */
  predicate SameDecision(a: Response, b: Response) {
    a.Pass? == b.Pass? && (a.Refuse? ==> a.code == b.code)
  }

  /** The two ACL gates decide identically and leave the same store; only a 403's wording differs. */
  lemma OwnerOrSharedDecidesLikeRequirePermission(s: Store, env: Env, ctx: Context, id: ResourceId,
                                                  rt: ResourceType, required: Permission)
    ensures SameDecision(RequirePermission(s, env, ctx, id, rt, required).0, RequireOwnerOrShared(s, env, ctx, id, rt, required).0)
    ensures RequirePermission(s, env, ctx, id, rt, required).1 == RequireOwnerOrShared(s, env, ctx, id, rt, required).1
  {
  }

  function RequireCanShare(s: Store, env: Env, ctx: Context, id: ResourceId, rt: ResourceType): (Response, Store) {
    RequirePermission(s, env, ctx, id, rt, Permissions.PermissionShare)
  }

  function RequireCanDelete(s: Store, env: Env, ctx: Context, id: ResourceId, rt: ResourceType): (Response, Store) {
    RequirePermission(s, env, ctx, id, rt, Permissions.PermissionDelete)
  }

  function RequireCanWrite(s: Store, env: Env, ctx: Context, id: ResourceId, rt: ResourceType): (Response, Store) {
    RequirePermission(s, env, ctx, id, rt, Permissions.PermissionWrite)
  }

  /** A caller who is not the owner and holds an editor grant may write but may neither delete nor share. */
  lemma EditorMayOnlyWrite(s: Store, env: Env, c: Claims, ctx: Context, id: ResourceId, rt: ResourceType)
    requires GetUserFromContext(ctx) == Some(c) && id != ""
    requires IsOwner(env.owners, c.userId, id, rt) == Ok(false)
    requires Consulted(s, env, CacheKey(c.userId, id, rt)) == Some(Permissions.RoleEditor)
    ensures RequireCanWrite(s, env, ctx, id, rt).0 == Pass
    ensures RequireCanDelete(s, env, ctx, id, rt).0 == Refuse(StatusForbidden, "Forbidden: insufficient permissions")
    ensures RequireCanShare(s, env, ctx, id, rt).0 == Refuse(StatusForbidden, "Forbidden: insufficient permissions")
  {
    Permissions.StableLayout(Permissions.Write, Permissions.Write);
    Permissions.StableLayout(Permissions.Delete, Permissions.Delete);
    Permissions.StableLayout(Permissions.Share, Permissions.Share);
  }

  /** An owner-role grant, or being the owner, passes all three fixed-permission gates. */
  lemma OwnerPassesCanGates(s: Store, env: Env, c: Claims, ctx: Context, id: ResourceId, rt: ResourceType)
    requires GetUserFromContext(ctx) == Some(c) && id != ""
    requires AclService.OwnerAnyway(env, c.userId, id, rt)
             || (IsOwner(env.owners, c.userId, id, rt) == Ok(false)
                 && Consulted(s, env, CacheKey(c.userId, id, rt)) == Some(Permissions.RoleOwner))
    ensures RequireCanWrite(s, env, ctx, id, rt).0 == Pass
    ensures RequireCanDelete(s, env, ctx, id, rt).0 == Pass
    ensures RequireCanShare(s, env, ctx, id, rt).0 == Pass
  {
    Permissions.StableLayout(Permissions.Write, Permissions.Write);
    Permissions.StableLayout(Permissions.Delete, Permissions.Delete);
    Permissions.StableLayout(Permissions.Share, Permissions.Share);
  }

  // ---------------------------------------------------------------- owner and role gates

  /** `OwnerOrAdmin`: 401 without claims; passes the target user themself or the super admin; 403 otherwise. */
  function OwnerOrAdmin(ctx: Context, targetId: UserId): (r: Response)
    ensures GetUserFromContext(ctx).None? ==> r == Refuse(StatusUnauthorized, "Unauthorized")
    ensures r.Pass? <==> GetUserFromContext(ctx).Some?
                         && (GetUserFromContext(ctx).value.userId == targetId || GetUserFromContext(ctx).value.roleId == SuperAdminRole)
    ensures r.Refuse? ==> r.code in {StatusUnauthorized, StatusForbidden}
  {
    match GetUserFromContext(ctx)
    case None => Refuse(StatusUnauthorized, "Unauthorized")
    case Some(c) =>
      if c.userId == targetId || c.roleId == SuperAdminRole then Pass
      else Refuse(StatusForbidden, "Forbidden: você não tem permissão para alterar este perfil")
  }

  /** The super admin passes for every target; anyone else only for their own id. */
  lemma OwnerOrAdminTargets(c: Claims, t: UserId, u: UserId)
    ensures c.roleId == SuperAdminRole ==> OwnerOrAdmin(WithUser(map[], c), t) == Pass
    ensures c.roleId != SuperAdminRole && t != c.userId ==> OwnerOrAdmin(WithUser(map[], c), t).Refuse?
    ensures OwnerOrAdmin(WithUser(map[], c), c.userId) == Pass
  {
  }

  /** `RequireRole`: 401 without claims; passes exactly the required role id; 403 otherwise. */
  function RequireRole(ctx: Context, required: int): (r: Response)
    ensures GetUserFromContext(ctx).None? ==> r == Refuse(StatusUnauthorized, "Unauthorized")
    ensures r.Pass? <==> GetUserFromContext(ctx).Some? && GetUserFromContext(ctx).value.roleId == required
    ensures GetUserFromContext(ctx).Some? && !r.Pass? ==> r == Refuse(StatusForbidden, "Forbidden: access denied")
  {
    match GetUserFromContext(ctx)
    case None => Refuse(StatusUnauthorized, "Unauthorized")
    case Some(c) =>
      if c.roleId != required then Refuse(StatusForbidden, "Forbidden: access denied") else Pass
  }

  /**
    How the two gates relate on one request: a caller passes the role gate
    for one role id at most, so the super admin is refused every other
    role's gate (roles are not ordered); passing the super admin's role
    gate implies passing the owner gate for every target; and both gates
    answer 401 on the same requests.
   */
  lemma RoleGatesCompared(ctx: Context, required: int, other: int, targetId: UserId)
    ensures required != other ==> !(RequireRole(ctx, required).Pass? && RequireRole(ctx, other).Pass?)
    ensures RequireRole(ctx, SuperAdminRole).Pass? && other != SuperAdminRole ==>
              RequireRole(ctx, other) == Refuse(StatusForbidden, "Forbidden: access denied")
    ensures RequireRole(ctx, SuperAdminRole).Pass? ==> OwnerOrAdmin(ctx, targetId) == Pass
    ensures RequireRole(ctx, required) == Refuse(StatusUnauthorized, "Unauthorized")
            <==> OwnerOrAdmin(ctx, targetId) == Refuse(StatusUnauthorized, "Unauthorized")
  {
  }
}
