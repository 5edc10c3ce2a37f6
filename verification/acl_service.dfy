/**
  The ACL service (features/acl/service.go): each operation first passes a
  gate — the repository's permission check, with ownership as an
  exception — and then calls the repository. A call returns its result and
  the store after it; a failed gate may still have refreshed the cache,
  but it never changes the entries.
 */
module AclService {
  import opened Common
  import opened Bitmask
  import opened AclModel
  import opened AclRepository
  import Permissions
  import Numeric
  import Text

  /** `IsOwner` as the gates use it: its error is dropped and counts as "not owner". */
  predicate OwnerAnyway(env: Env, userId: UserId, resourceId: ResourceId, resourceType: ResourceType) {
    IsOwner(env.owners, userId, resourceId, resourceType) == Ok(true)
  }

  /**
    The gate of `GrantAccess`, `Share`, `GetResourceACL` and
    `UpdatePermissions`: a failed check is returned as it is; otherwise the
    caller passes when the check says yes or when the caller owns the
    resource.
   */
  function Gate(s: Store, env: Env, userId: UserId, resourceId: ResourceId,
                resourceType: ResourceType, perm: Permission): (r: (Result<(), AclError>, Store))
    ensures var p := Consulted(s, env, CacheKey(userId, resourceId, resourceType));
            r.0.Ok? <==> p.Some? && (Has(p.value, perm) || OwnerAnyway(env, userId, resourceId, resourceType))
    ensures r.0.Err? ==> r.0.error in {StoreError, PermissionDenied}
    ensures r.1.acls == s.acls && r.1.nextId == s.nextId
    ensures var k := CacheKey(userId, resourceId, resourceType);
            Consulted(r.1, env, k) == Consulted(s, env, k)
  {
    CheckAgain(s, env, userId, resourceId, resourceType, perm);
    var (can, s1) := AclRepository.CheckPermission(s, env, userId, resourceId, resourceType, perm);
    if can.Err? then (Err(can.error), s1)
    else if !can.value && !OwnerAnyway(env, userId, resourceId, resourceType) then (Err(PermissionDenied), s1)
    else (Ok(()), s1)
  }

  /** The entry a grant request asks for, once its permissions are parsed. */
  function RequestedAcl(userId: UserId, req: GrantAclRequest, p: Permission): Acl {
    Acl(0, req.resourceId, req.resourceType, req.granteeType, req.granteeId, p, userId, 0, req.expiresAt, req.metadata)
  }

  /** PUBLIC entries have no grantee id, every other kind has one. */
  predicate GranteeConsistent(granteeType: GranteeType, granteeId: Option<string>) {
    (granteeType == GranteePublic) == granteeId.None?
  }

  /**
    `GrantAccess`: gate on Share, parse the permissions, insist that PUBLIC
    has no grantee id and the other kinds have one, then upsert.
   */
  function GrantAccess(s: Store, env: Env, userId: UserId, req: GrantAclRequest): (r: (Result<(), AclError>, Store))
    ensures r.1.acls != s.acls ==> r.0.Ok?
    ensures r.0.Ok? <==>
              Gate(s, env, userId, req.resourceId, req.resourceType, Permissions.PermissionShare).0.Ok?
              && Permissions.ParsePermissions(req.permissions).Ok?
              && GranteeConsistent(req.granteeType, req.granteeId)
              && !env.writeFails
    ensures r.0.Ok? ==>
              var k := AclKey(req.resourceId, req.resourceType, req.granteeType, req.granteeId);
              k in r.1.acls && r.1.acls[k].permissions == Permissions.ParsePermissions(req.permissions).value
              && r.1.acls[k].expiresAt == req.expiresAt
    ensures r.0.Ok? ==>
              var k := AclKey(req.resourceId, req.resourceType, req.granteeType, req.granteeId);
              k in r.1.acls && r.1.acls[k].metadata == StoredMetadata(req.metadata)
              && (k in s.acls ==> r.1.acls[k].id == s.acls[k].id && r.1.acls[k].grantedBy == s.acls[k].grantedBy
                                  && r.1.acls[k].grantedAt == s.acls[k].grantedAt)
              && (k !in s.acls ==> r.1.acls[k].grantedBy == userId && r.1.acls[k].grantedAt == env.now
                                   && r.1.acls[k].id == s.nextId)
    ensures r.0.Ok? ==> r.1.acls.Keys == s.acls.Keys + {AclKey(req.resourceId, req.resourceType, req.granteeType, req.granteeId)}
    ensures r.0.Ok? ==> forall j :: j in s.acls && j != AclKey(req.resourceId, req.resourceType, req.granteeType, req.granteeId)
                                    ==> r.1.acls[j] == s.acls[j]
    ensures (Gate(s, env, userId, req.resourceId, req.resourceType, Permissions.PermissionShare).0.Ok?
             && req.granteeType == GranteePublic && req.granteeId.Some?
             && Permissions.ParsePermissions(req.permissions).Ok?) ==> r.0 == Err(PublicWithGranteeId)
  {
    var (gate, s1) := Gate(s, env, userId, req.resourceId, req.resourceType, Permissions.PermissionShare);
    if gate.Err? then (Err(gate.error), s1)
    else match Permissions.ParsePermissions(req.permissions)
      case Err(e) => (Err(BadPermission(e)), s1)
      case Ok(p) =>
        if req.granteeType == GranteePublic && req.granteeId.Some? then (Err(PublicWithGranteeId), s1)
        else if req.granteeType != GranteePublic && req.granteeId.None? then (Err(GranteeIdRequired), s1)
        else match GrantAcl(s1, env, RequestedAcl(userId, req, p))
          case Err(e) => (Err(e), s1)
          case Ok(s2) => (Ok(()), s2)
  }

  /**
    Granting is repeatable: once a grant has gone through, the same request
    at the same moment goes through again and changes no entry.
   */
  lemma GrantAccessTwice(s: Store, env: Env, userId: UserId, req: GrantAclRequest)
    requires GrantAccess(s, env, userId, req).0.Ok?
    ensures var s1 := GrantAccess(s, env, userId, req).1;
            GrantAccess(s1, env, userId, req).0.Ok? && GrantAccess(s1, env, userId, req).1.acls == s1.acls
  {
    var k := CacheKey(userId, req.resourceId, req.resourceType);
    var (gate, sg) := Gate(s, env, userId, req.resourceId, req.resourceType, Permissions.PermissionShare);
    var p := Permissions.ParsePermissions(req.permissions).value;
    var s1 := GrantAccess(s, env, userId, req).1;
    assert s1 == GrantAcl(sg, env, RequestedAcl(userId, req, p)).value;
    ConsultedReadsCache(sg, s1, env, k);
    var (gate2, sg2) := Gate(s1, env, userId, req.resourceId, req.resourceType, Permissions.PermissionShare);
    assert gate2.Ok?;
    GrantIdempotent(sg, env, RequestedAcl(userId, req, p));
    var s3 := GrantAcl(sg2, env, RequestedAcl(userId, req, p)).value;
    assert s3.acls == GrantAcl(s1, env, RequestedAcl(userId, req, p)).value.acls;
  }

  /**
    Validation and parsing split the work on permissions: a grant that
    goes through had them present, a missing value is refused by both,
    and a blank string that validation lets through is refused by parsing.
   */
  lemma GrantAccessNeedsPermissions(s: Store, env: Env, userId: UserId, req: GrantAclRequest)
    ensures GrantAccess(s, env, userId, req).0.Ok? ==> RequiredValue(req.permissions)
    ensures req.permissions == Permissions.NullValue ==>
              !ValidGrantRequest(req) && GrantAccess(s, env, userId, req).0.Err?
    ensures ValidGrantRequest(req.(permissions := Permissions.StrValue("")))
            ==> GrantAccess(s, env, userId, req.(permissions := Permissions.StrValue(""))).0.Err?
  {
    assert Text.ToUpper("") == "";
    assert Numeric.ParseInt64("").None?;
  }

  /**
    A grant that goes through is listed back for its resource exactly while
    it is in force, with the parsed mask, and it does not change who may
    list the resource.
   */
  lemma GrantAccessListed(s: Store, env: Env, userId: UserId, req: GrantAclRequest)
    requires GrantAccess(s, env, userId, req).0.Ok?
    ensures var s1 := GrantAccess(s, env, userId, req).1;
            var k := AclKey(req.resourceId, req.resourceType, req.granteeType, req.granteeId);
            (Listed(s1, env.now, req.resourceId, req.resourceType, k) <==> Active(req.expiresAt, env.now))
            && AclOf(k, s1.acls[k]).permissions == Permissions.ParsePermissions(req.permissions).value
    ensures var s1 := GrantAccess(s, env, userId, req).1;
            Gate(s1, env, userId, req.resourceId, req.resourceType, Permissions.PermissionRead).0.Ok?
            == Gate(s, env, userId, req.resourceId, req.resourceType, Permissions.PermissionRead).0.Ok?
  {
    var (gate, sg) := Gate(s, env, userId, req.resourceId, req.resourceType, Permissions.PermissionShare);
    var s1 := GrantAccess(s, env, userId, req).1;
    assert s1 == GrantAcl(sg, env, RequestedAcl(userId, req, Permissions.ParsePermissions(req.permissions).value)).value;
    ConsultedReadsCache(sg, s1, env, CacheKey(userId, req.resourceId, req.resourceType));
  }

  /** The entry one share target asks for. */
  function TargetAcl(userId: UserId, resourceId: ResourceId, resourceType: ResourceType, t: ShareTarget, p: Permission): Acl {
    Acl(0, resourceId, resourceType, t.granteeType, t.id, p, userId, 0, t.expiresAt, None)
  }

  function TargetKey(resourceId: ResourceId, resourceType: ResourceType, t: ShareTarget): AclKey {
    AclKey(resourceId, resourceType, t.granteeType, t.id)
  }

  /**
    The loop of `Share`: each target's role is parsed and its entry
    upserted, in order, stopping at the first failure. Entries granted
    before a failure stay granted. The grantee id is not checked here.
   */
  function ShareTargets(s: Store, env: Env, userId: UserId, resourceId: ResourceId,
                        resourceType: ResourceType, targets: seq<ShareTarget>): (r: (Result<(), AclError>, Store))
    ensures r.1.cache == s.cache
    ensures forall k :: k in s.acls ==> k in r.1.acls
    ensures r.0.Ok? ==> forall t :: t in targets ==> TargetKey(resourceId, resourceType, t) in r.1.acls
    decreases |targets|
  {
    if |targets| == 0 then (Ok(()), s)
    else
      var t := targets[0];
      match RoleMask(t)
      case Err(e) => (Err(InvalidRole(t.role, e)), s)
      case Ok(p) =>
        match GrantAcl(s, env, TargetAcl(userId, resourceId, resourceType, t, p))
        case Err(e) => (Err(e), s)
        case Ok(s1) => ShareTargets(s1, env, userId, resourceId, resourceType, targets[1..])
  }

  /** The mask a share target's role stands for. */
  function RoleMask(t: ShareTarget): Result<Permission, Permissions.PermError> {
    Permissions.ParsePermissions(Permissions.StrValue(t.role))
  }

  /** Every target's role parses, walked in list order. */
  predicate RolesParse(targets: seq<ShareTarget>)
    decreases |targets|
  {
    |targets| == 0 || (RoleMask(targets[0]).Ok? && RolesParse(targets[1..]))
  }

  lemma {:induction false} RolesParseAll(targets: seq<ShareTarget>)
    ensures RolesParse(targets) <==> forall t :: t in targets ==> RoleMask(t).Ok?
    decreases |targets|
  {
    if |targets| > 0 {
      RolesParseAll(targets[1..]);
      assert forall u :: u in targets <==> u == targets[0] || u in targets[1..] by {
        assert targets == [targets[0]] + targets[1..];
      }
    }
  }

  lemma {:induction false} ShareTargetsOk(s: Store, env: Env, userId: UserId, resourceId: ResourceId,
                                          resourceType: ResourceType, targets: seq<ShareTarget>)
    ensures ShareTargets(s, env, userId, resourceId, resourceType, targets).0.Ok? <==>
              (|targets| == 0 || !env.writeFails) && RolesParse(targets)
    decreases |targets|
  {
    if |targets| > 0 {
      var t := targets[0];
      if RoleMask(t).Ok? && !env.writeFails {
        var s1 := GrantAcl(s, env, TargetAcl(userId, resourceId, resourceType, t, RoleMask(t).value)).value;
        ShareTargetsOk(s1, env, userId, resourceId, resourceType, targets[1..]);
      }
    }
  }

  /** The loop succeeds exactly when every role parses and, if there is anything to write, writing works. */
  lemma ShareTargetsSucceeds(s: Store, env: Env, userId: UserId, resourceId: ResourceId,
                             resourceType: ResourceType, targets: seq<ShareTarget>)
    ensures ShareTargets(s, env, userId, resourceId, resourceType, targets).0.Ok? <==>
              (|targets| == 0 || !env.writeFails) && forall t :: t in targets ==> RoleMask(t).Ok?
  {
    ShareTargetsOk(s, env, userId, resourceId, resourceType, targets);
    RolesParseAll(targets);
  }

  /** The loop adds no entry but the targets'. */
  lemma {:induction false} ShareTargetsOnlyTargets(s: Store, env: Env, userId: UserId, resourceId: ResourceId,
                                                   resourceType: ResourceType, targets: seq<ShareTarget>, k: AclKey)
    requires k in ShareTargets(s, env, userId, resourceId, resourceType, targets).1.acls
    ensures k in s.acls || exists t :: t in targets && k == TargetKey(resourceId, resourceType, t)
    decreases |targets|
  {
    if |targets| > 0 && k !in s.acls {
      var t := targets[0];
      assert t in targets;
      if RoleMask(t).Ok? && !env.writeFails {
        var s1 := GrantAcl(s, env, TargetAcl(userId, resourceId, resourceType, t, RoleMask(t).value)).value;
        if k != TargetKey(resourceId, resourceType, t) {
          ShareTargetsOnlyTargets(s1, env, userId, resourceId, resourceType, targets[1..], k);
          var u :| u in targets[1..] && k == TargetKey(resourceId, resourceType, u);
          assert u in targets;
        }
      }
    }
  }

  /** When targets share a grantee, the last one's role is what stays. */
  lemma {:induction false} ShareLastWins(s: Store, env: Env, userId: UserId, resourceId: ResourceId,
                                         resourceType: ResourceType, targets: seq<ShareTarget>)
    requires |targets| > 0
    requires ShareTargets(s, env, userId, resourceId, resourceType, targets).0.Ok?
    ensures var last := targets[|targets| - 1];
            RoleMask(last).Ok?
            && ShareTargets(s, env, userId, resourceId, resourceType, targets).1.acls[TargetKey(resourceId, resourceType, last)].permissions
               == RoleMask(last).value
    decreases |targets|
  {
    var t := targets[0];
    var s1 := GrantAcl(s, env, TargetAcl(userId, resourceId, resourceType, t, RoleMask(t).value)).value;
    if |targets| > 1 {
      ShareLastWins(s1, env, userId, resourceId, resourceType, targets[1..]);
      assert targets[1..][|targets[1..]| - 1] == targets[|targets| - 1];
    }
  }

  /** The loop leaves alone every entry that no target names. */
  lemma {:induction false} ShareTargetsKeepsOthers(s: Store, env: Env, userId: UserId, resourceId: ResourceId,
                                                   resourceType: ResourceType, targets: seq<ShareTarget>, k: AclKey)
    requires k in s.acls
    requires forall t :: t in targets ==> TargetKey(resourceId, resourceType, t) != k
    ensures var r := ShareTargets(s, env, userId, resourceId, resourceType, targets).1;
            k in r.acls && r.acls[k] == s.acls[k]
    decreases |targets|
  {
    if |targets| > 0 {
      var t := targets[0];
      assert t in targets;
      if RoleMask(t).Ok? && !env.writeFails {
        var s1 := GrantAcl(s, env, TargetAcl(userId, resourceId, resourceType, t, RoleMask(t).value)).value;
        assert forall u :: u in targets[1..] ==> u in targets;
        ShareTargetsKeepsOthers(s1, env, userId, resourceId, resourceType, targets[1..], k);
      }
    }
  }

  /**
    After a loop that went through, a target that no later target
    overrides holds its own role's mask and expiry.
   */
  lemma {:induction false} ShareTargetsUnoverridden(s: Store, env: Env, userId: UserId, resourceId: ResourceId,
                                                    resourceType: ResourceType, targets: seq<ShareTarget>, j: int)
    requires ShareTargets(s, env, userId, resourceId, resourceType, targets).0.Ok?
    requires 0 <= j < |targets|
    requires forall l :: j < l < |targets| ==>
               TargetKey(resourceId, resourceType, targets[l]) != TargetKey(resourceId, resourceType, targets[j])
    ensures RoleMask(targets[j]).Ok?
    ensures var r := ShareTargets(s, env, userId, resourceId, resourceType, targets).1;
            var k := TargetKey(resourceId, resourceType, targets[j]);
            k in r.acls && r.acls[k].permissions == RoleMask(targets[j]).value
            && r.acls[k].expiresAt == targets[j].expiresAt
    decreases |targets|
  {
    var t := targets[0];
    var s1 := GrantAcl(s, env, TargetAcl(userId, resourceId, resourceType, t, RoleMask(t).value)).value;
    var rest := targets[1..];
    if j == 0 {
      var k := TargetKey(resourceId, resourceType, t);
      forall u | u in rest
        ensures TargetKey(resourceId, resourceType, u) != k
      {
        var l :| 0 <= l < |rest| && rest[l] == u;
        assert targets[l + 1] == u;
      }
      ShareTargetsKeepsOthers(s1, env, userId, resourceId, resourceType, rest, k);
    } else {
      forall l | j - 1 < l < |rest|
        ensures TargetKey(resourceId, resourceType, rest[l]) != TargetKey(resourceId, resourceType, rest[j - 1])
      {
        assert rest[l] == targets[l + 1] && rest[j - 1] == targets[j];
      }
      ShareTargetsUnoverridden(s1, env, userId, resourceId, resourceType, rest, j - 1);
    }
  }

  /**
    The loop stops at the first target whose role does not parse, and the
    entries granted before it stay: the outcome is that role's error, and
    the store is exactly the one the targets before it leave, a loop that
    by itself goes through.
   */
  lemma {:induction false} ShareTargetsAbortKeepsPrefix(s: Store, env: Env, userId: UserId, resourceId: ResourceId,
                                                        resourceType: ResourceType, targets: seq<ShareTarget>, i: int)
    requires 0 <= i < |targets| && RoleMask(targets[i]).Err?
    requires forall j :: 0 <= j < i ==> RoleMask(targets[j]).Ok?
    requires !env.writeFails
    ensures var r := ShareTargets(s, env, userId, resourceId, resourceType, targets);
            var p := ShareTargets(s, env, userId, resourceId, resourceType, targets[..i]);
            p.0.Ok? && r.0 == Err(InvalidRole(targets[i].role, RoleMask(targets[i]).error)) && r.1 == p.1
    ensures var r := ShareTargets(s, env, userId, resourceId, resourceType, targets);
            forall j :: 0 <= j < i ==> TargetKey(resourceId, resourceType, targets[j]) in r.1.acls
    decreases |targets|
  {
    var r := ShareTargets(s, env, userId, resourceId, resourceType, targets);
    var p := ShareTargets(s, env, userId, resourceId, resourceType, targets[..i]);
    if i == 0 {
      assert targets[..0] == [];
    } else {
      var t := targets[0];
      assert RoleMask(t).Ok?;
      var s1 := GrantAcl(s, env, TargetAcl(userId, resourceId, resourceType, t, RoleMask(t).value)).value;
      var rest := targets[1..];
      forall j | 0 <= j < i - 1
        ensures RoleMask(rest[j]).Ok?
      {
        assert rest[j] == targets[j + 1];
      }
      assert rest[i - 1] == targets[i];
      ShareTargetsAbortKeepsPrefix(s1, env, userId, resourceId, resourceType, rest, i - 1);
      assert targets[..i][0] == t && targets[..i][1..] == rest[..i - 1];
    }
    forall j | 0 <= j < i
      ensures TargetKey(resourceId, resourceType, targets[j]) in r.1.acls
    {
      assert targets[j] == targets[..i][j];
      assert targets[j] in targets[..i];
    }
  }

  /**
    `Share`: gate on Share, then grant every target in order. The request
    fails at the first bad role or failed write, keeping what was granted
    before it.
   */
  function Share(s: Store, env: Env, userId: UserId, req: ShareRequest): (r: (Result<(), AclError>, Store))
    ensures r.0.Ok? <==>
              Gate(s, env, userId, req.resourceId, req.resourceType, Permissions.PermissionShare).0.Ok?
              && ShareTargets(s, env, userId, req.resourceId, req.resourceType, req.shareWith).0.Ok?
    ensures r.0.Ok? ==> forall t :: t in req.shareWith ==> TargetKey(req.resourceId, req.resourceType, t) in r.1.acls
    ensures Gate(s, env, userId, req.resourceId, req.resourceType, Permissions.PermissionShare).0.Err? ==> r.1.acls == s.acls
    ensures forall k :: k in s.acls ==> k in r.1.acls
  {
    var (gate, s1) := Gate(s, env, userId, req.resourceId, req.resourceType, Permissions.PermissionShare);
    if gate.Err? then (Err(gate.error), s1)
    else
      assert ShareTargets(s1, env, userId, req.resourceId, req.resourceType, req.shareWith).0
          == ShareTargets(s, env, userId, req.resourceId, req.resourceType, req.shareWith).0 by {
        ShareTargetsIgnoresCache(s, s1, env, userId, req.resourceId, req.resourceType, req.shareWith);
      }
      ShareTargets(s1, env, userId, req.resourceId, req.resourceType, req.shareWith)
  }

  /**
    `Share` with a bad role at position `i` and good ones before it: the
    request fails with that role's error, yet the entries are those that
    sharing with the first `i` targets alone leaves, each of them granted.
   */
  lemma ShareAbortKeepsPrefix(s: Store, env: Env, userId: UserId, req: ShareRequest, i: int)
    requires Gate(s, env, userId, req.resourceId, req.resourceType, Permissions.PermissionShare).0.Ok?
    requires 0 <= i < |req.shareWith| && RoleMask(req.shareWith[i]).Err?
    requires forall j :: 0 <= j < i ==> RoleMask(req.shareWith[j]).Ok?
    requires !env.writeFails
    ensures Share(s, env, userId, req).0 == Err(InvalidRole(req.shareWith[i].role, RoleMask(req.shareWith[i]).error))
    ensures Share(s, env, userId, req).1.acls
         == ShareTargets(s, env, userId, req.resourceId, req.resourceType, req.shareWith[..i]).1.acls
    ensures forall j :: 0 <= j < i ==>
              TargetKey(req.resourceId, req.resourceType, req.shareWith[j]) in Share(s, env, userId, req).1.acls
  {
    var (gate, s1) := Gate(s, env, userId, req.resourceId, req.resourceType, Permissions.PermissionShare);
    ShareTargetsAbortKeepsPrefix(s1, env, userId, req.resourceId, req.resourceType, req.shareWith, i);
    ShareTargetsIgnoresCache(s, s1, env, userId, req.resourceId, req.resourceType, req.shareWith[..i]);
  }

  /** Whether the loop of `Share` succeeds does not depend on the cache. */
  lemma {:induction false} ShareTargetsIgnoresCache(s: Store, s2: Store, env: Env, userId: UserId, resourceId: ResourceId,
                                                    resourceType: ResourceType, targets: seq<ShareTarget>)
    requires s2.acls == s.acls && s2.nextId == s.nextId
    ensures ShareTargets(s2, env, userId, resourceId, resourceType, targets).0
         == ShareTargets(s, env, userId, resourceId, resourceType, targets).0
    ensures ShareTargets(s2, env, userId, resourceId, resourceType, targets).1.acls
         == ShareTargets(s, env, userId, resourceId, resourceType, targets).1.acls
    decreases |targets|
  {
    if |targets| > 0 {
      var t := targets[0];
      match RoleMask(t)
      case Err(_) =>
      case Ok(p) =>
        var a := TargetAcl(userId, resourceId, resourceType, t, p);
        if !env.writeFails {
          ShareTargetsIgnoresCache(GrantAcl(s, env, a).value, GrantAcl(s2, env, a).value, env,
                                   userId, resourceId, resourceType, targets[1..]);
        }
    }
  }

  /** The grant request a single share target amounts to. */
  function TargetRequest(resourceId: ResourceId, resourceType: ResourceType, t: ShareTarget): GrantAclRequest {
    GrantAclRequest(resourceId, resourceType, t.granteeType, t.id, Permissions.StrValue(t.role), t.expiresAt, None)
  }

  /**
    Sharing with one target whose grantee id fits its type is granting that
    target's role: same outcome, same entries.
   */
  lemma ShareOneIsGrant(s: Store, env: Env, userId: UserId, req: ShareRequest)
    requires |req.shareWith| == 1
    requires GranteeConsistent(req.shareWith[0].granteeType, req.shareWith[0].id)
    ensures var g := GrantAccess(s, env, userId, TargetRequest(req.resourceId, req.resourceType, req.shareWith[0]));
            Share(s, env, userId, req).0.Ok? == g.0.Ok? && Share(s, env, userId, req).1 == g.1
  {
    var t := req.shareWith[0];
    var g := TargetRequest(req.resourceId, req.resourceType, t);
    var (gate, s1) := Gate(s, env, userId, req.resourceId, req.resourceType, Permissions.PermissionShare);
    if gate.Ok? {
      assert req.shareWith[1..] == [];
      var loop := ShareTargets(s1, env, userId, req.resourceId, req.resourceType, req.shareWith);
      assert Share(s, env, userId, req) == loop;
      match RoleMask(t)
      case Err(e) =>
        assert loop == (Err(InvalidRole(t.role, e)), s1);
        assert GrantAccess(s, env, userId, g) == (Err(BadPermission(e)), s1);
      case Ok(p) =>
        assert RequestedAcl(userId, g, p) == TargetAcl(userId, req.resourceId, req.resourceType, t, p);
        match GrantAcl(s1, env, TargetAcl(userId, req.resourceId, req.resourceType, t, p))
        case Err(e) =>
          assert loop == (Err(e), s1);
          assert GrantAccess(s, env, userId, g) == (Err(e), s1);
        case Ok(s2) =>
          assert loop == ShareTargets(s2, env, userId, req.resourceId, req.resourceType, []);
          assert GrantAccess(s, env, userId, g) == (Ok(()), s2);
    }
  }

  /**
    Unlike `GrantAccess`, `Share` stores a PUBLIC target that carries a
    grantee id, and a USER or TEAM target without one.
   */
  lemma ShareSkipsGranteeCheck(s: Store, env: Env, userId: UserId, req: ShareRequest)
    requires |req.shareWith| == 1 && !GranteeConsistent(req.shareWith[0].granteeType, req.shareWith[0].id)
    requires Share(s, env, userId, req).0.Ok?
    ensures TargetKey(req.resourceId, req.resourceType, req.shareWith[0]) in Share(s, env, userId, req).1.acls
    ensures GrantAccess(s, env, userId, TargetRequest(req.resourceId, req.resourceType, req.shareWith[0])).0.Err?
  {
    assert req.shareWith[0] in req.shareWith;
    var t := req.shareWith[0];
    var g := TargetRequest(req.resourceId, req.resourceType, t);
    assert ShareTargets(s, env, userId, req.resourceId, req.resourceType, req.shareWith).0.Ok?;
    assert Permissions.ParsePermissions(g.permissions).Ok?;
  }

  /**
    What the validator refuses in a share request is refused or harmless
    without it: with no targets the request is invalid and `Share` writes
    nothing, and a target with a blank role fails the whole request.
   */
  lemma ShareValidation(s: Store, env: Env, userId: UserId, req: ShareRequest)
    ensures req.shareWith == [] ==>
              !ValidShareRequest(req) && Share(s, env, userId, req).1.acls == s.acls
              && (Share(s, env, userId, req).0.Ok?
                  <==> Gate(s, env, userId, req.resourceId, req.resourceType, Permissions.PermissionShare).0.Ok?)
    ensures Share(s, env, userId, req).0.Ok? ==> forall t :: t in req.shareWith ==> t.role != ""
  {
    ShareTargetsSucceeds(s, env, userId, req.resourceId, req.resourceType, req.shareWith);
    assert Text.ToUpper("") == "";
    assert Numeric.ParseInt64("").None?;
  }

  /**
    `RevokeAccess`: an error of the Admin check is returned, a "no" falls
    back to a Share check whose error counts as "no", and ownership passes
    as well; then the repository revokes.
   */
  function RevokeAccess(s: Store, env: Env, userId: UserId, resourceId: ResourceId, resourceType: ResourceType,
                        granteeId: Option<string>, granteeType: GranteeType): (r: (Result<(), AclError>, Store))
    ensures var p := Consulted(s, env, CacheKey(userId, resourceId, resourceType));
            p.None? ==> r.0 == Err(StoreError) && r.1.acls == s.acls
    ensures var p := Consulted(s, env, CacheKey(userId, resourceId, resourceType));
            (p.Some? && !Has(p.value, Permissions.PermissionAdmin) && !Has(p.value, Permissions.PermissionShare)
             && !OwnerAnyway(env, userId, resourceId, resourceType))
            ==> r.0 == Err(PermissionDenied) && r.1.acls == s.acls
    ensures var p := Consulted(s, env, CacheKey(userId, resourceId, resourceType));
            var rv := RevokeAcl(s, env, resourceId, resourceType, granteeId, granteeType);
            (p.Some? && (Has(p.value, Permissions.PermissionAdmin) || Has(p.value, Permissions.PermissionShare)
                         || OwnerAnyway(env, userId, resourceId, resourceType)))
            ==> r.0.Ok? == rv.Ok? && (rv.Ok? ==> r.1.acls == rv.value.acls)
    ensures r.0.Err? ==> r.1.acls == s.acls
  {
    var k := CacheKey(userId, resourceId, resourceType);
    CheckAgain(s, env, userId, resourceId, resourceType, Permissions.PermissionAdmin);
    var (admin, s1) := AclRepository.CheckPermission(s, env, userId, resourceId, resourceType, Permissions.PermissionAdmin);
    if admin.Err? then (Err(admin.error), s1)
    else
      var (canRevoke, s2) :=
        if admin.value then (true, s1)
        else
          var (share, s2) := AclRepository.CheckPermission(s1, env, userId, resourceId, resourceType, Permissions.PermissionShare);
          (share == Ok(true), s2);
      if !canRevoke && !OwnerAnyway(env, userId, resourceId, resourceType) then (Err(PermissionDenied), s2)
      else match RevokeAcl(s2, env, resourceId, resourceType, granteeId, granteeType)
        case Err(e) => (Err(e), s2)
        case Ok(s3) => (Ok(()), s3)
  }

  /**
    `GetResourceACL`: gate on Read (or ownership), then the resource's
    entries in force.
   */
  method GetResourceAcl(s: Store, env: Env, userId: UserId, resourceId: ResourceId, resourceType: ResourceType)
    returns (r: Result<seq<Acl>, AclError>, s': Store)
    ensures r.Ok? <==> Gate(s, env, userId, resourceId, resourceType, Permissions.PermissionRead).0.Ok?
    ensures s'.acls == s.acls
    ensures r.Ok? ==> forall a :: a in r.value ==>
              Listed(s, env.now, resourceId, resourceType, KeyOf(a)) && a == AclOf(KeyOf(a), s.acls[KeyOf(a)])
    ensures r.Ok? ==> forall k :: Listed(s, env.now, resourceId, resourceType, k) ==> AclOf(k, s.acls[k]) in r.value
  {
    var (gate, s1) := Gate(s, env, userId, resourceId, resourceType, Permissions.PermissionRead);
    s' := s1;
    if gate.Err? {
      r := Err(gate.error);
    } else {
      var acls := GetAcl(s1, env.now, resourceId, resourceType);
      r := Ok(acls);
    }
  }

  /**
    A grant followed by a listing of its resource: the listing is allowed
    exactly as before the grant, and shows the granted row, with its mask
    and expiry, exactly while the row is in force.
   */
  method GrantThenList(s: Store, env: Env, userId: UserId, req: GrantAclRequest)
    returns (listed: Result<seq<Acl>, AclError>, s': Store)
    requires GrantAccess(s, env, userId, req).0.Ok?
    ensures listed.Ok? <==> Gate(s, env, userId, req.resourceId, req.resourceType, Permissions.PermissionRead).0.Ok?
    ensures listed.Ok? ==>
              var k := AclKey(req.resourceId, req.resourceType, req.granteeType, req.granteeId);
              (Active(req.expiresAt, env.now) <==> exists a :: a in listed.value && KeyOf(a) == k)
    ensures listed.Ok? && Active(req.expiresAt, env.now) ==>
              exists a :: a in listed.value && KeyOf(a) == AclKey(req.resourceId, req.resourceType, req.granteeType, req.granteeId)
                          && a.permissions == Permissions.ParsePermissions(req.permissions).value
                          && a.expiresAt == req.expiresAt
  {
    var s1 := GrantAccess(s, env, userId, req).1;
    var k := AclKey(req.resourceId, req.resourceType, req.granteeType, req.granteeId);
    GrantAccessListed(s, env, userId, req);
    listed, s' := GetResourceAcl(s1, env, userId, req.resourceId, req.resourceType);
    if listed.Ok? && Active(req.expiresAt, env.now) {
      assert KeyOf(AclOf(k, s1.acls[k])) == k;
      assert AclOf(k, s1.acls[k]) in listed.value;
    }
  }

  /**
    After a revoke that goes through, the entry named by canonical ids is
    gone, every other entry is still there unchanged, and nothing is added.
   */
  lemma RevokeAccessRemoves(s: Store, env: Env, userId: UserId, resourceType: ResourceType,
                            granteeType: GranteeType, rid: Int64, gid: Option<Int64>)
    requires var granteeId := if gid.Some? then Some(Numeric.FormatInt(gid.value)) else None;
             RevokeAccess(s, env, userId, Numeric.FormatInt(rid), resourceType, granteeId, granteeType).0.Ok?
    ensures var granteeId := if gid.Some? then Some(Numeric.FormatInt(gid.value)) else None;
            var s1 := RevokeAccess(s, env, userId, Numeric.FormatInt(rid), resourceType, granteeId, granteeType).1;
            var key := AclKey(Numeric.FormatInt(rid), resourceType, granteeType, granteeId);
            key !in s1.acls
            && (forall k :: k in s.acls && k != key ==> k in s1.acls && s1.acls[k] == s.acls[k])
            && (forall k :: k in s1.acls ==> k in s.acls)
  {
    var granteeId := if gid.Some? then Some(Numeric.FormatInt(gid.value)) else None;
    var resourceId := Numeric.FormatInt(rid);
    var a := Acl(0, resourceId, resourceType, granteeType, granteeId, 0, userId, 0, None, None);
    Numeric.FormatThenParse(rid);
    if gid.Some? {
      Numeric.FormatThenParse(gid.value);
    }
    assert ParsedGrantee(granteeId) == Some(gid);
    var rv := RevokeAcl(s, env, resourceId, resourceType, granteeId, granteeType);
    var s1 := RevokeAccess(s, env, userId, resourceId, resourceType, granteeId, granteeType).1;
    assert rv.Ok? && s1.acls == rv.value.acls;
    forall k | k in s.acls || k in s1.acls
      ensures RevokeMatches(k, rid, resourceType, gid, granteeType) <==> k == KeyOf(a)
    {
      MatchesOnlyKey(k, a, rid, gid);
    }
  }

  /**
    The service-level round trip: a grant of a new entry with canonical ids,
    then a revoke of the same grantee by the same caller, goes through and
    gives back the entries as they were.
   */
  lemma GrantThenRevokeAccess(s: Store, env: Env, userId: UserId, req: GrantAclRequest, rid: Int64, gid: Option<Int64>)
    requires req.resourceId == Numeric.FormatInt(rid)
    requires req.granteeId == (if gid.Some? then Some(Numeric.FormatInt(gid.value)) else None)
    requires AclKey(req.resourceId, req.resourceType, req.granteeType, req.granteeId) !in s.acls
    requires GrantAccess(s, env, userId, req).0.Ok?
    ensures var s1 := GrantAccess(s, env, userId, req).1;
            var r := RevokeAccess(s1, env, userId, req.resourceId, req.resourceType, req.granteeId, req.granteeType);
            r.0.Ok? && r.1.acls == s.acls
  {
    var ck := CacheKey(userId, req.resourceId, req.resourceType);
    var (gate, sg) := Gate(s, env, userId, req.resourceId, req.resourceType, Permissions.PermissionShare);
    var a := RequestedAcl(userId, req, Permissions.ParsePermissions(req.permissions).value);
    var s1 := GrantAccess(s, env, userId, req).1;
    assert s1 == GrantAcl(sg, env, a).value;
    ConsultedReadsCache(sg, s1, env, ck);
    RevokeUndoesGrant(sg, env, a, rid, gid);
  }

  /**
    The service's `CheckPermission`: owners hold every permission; a failed
    ownership lookup is an error; anyone else gets the repository's answer.
   */
  function CheckPermission(s: Store, env: Env, userId: UserId, resourceId: ResourceId,
                           resourceType: ResourceType, required: Permission): (r: (Result<bool, AclError>, Store))
    ensures r.1.acls == s.acls
    ensures IsOwner(env.owners, userId, resourceId, resourceType).Err? ==>
              r == (Err(IsOwner(env.owners, userId, resourceId, resourceType).error), s)
    ensures OwnerAnyway(env, userId, resourceId, resourceType) ==> r == (Ok(true), s)
    ensures IsOwner(env.owners, userId, resourceId, resourceType) == Ok(false) ==>
              var p := Consulted(s, env, CacheKey(userId, resourceId, resourceType));
              r.0 == if p.Some? then Ok(Has(p.value, required)) else Err(StoreError)
  {
    match IsOwner(env.owners, userId, resourceId, resourceType)
    case Err(e) => (Err(e), s)
    case Ok(owner) =>
      if owner then (Ok(true), s)
      else AclRepository.CheckPermission(s, env, userId, resourceId, resourceType, required)
  }

  /**
    A resource of a type `IsOwner` does not know is closed to the service's
    check, whatever the entries grant: the lookup error comes first.
   */
  lemma UnknownTypeRefused(s: Store, env: Env, userId: UserId, resourceId: ResourceId,
                           resourceType: ResourceType, required: Permission)
    requires resourceType !in {ResourceTask, ResourceFarmArea, ResourceTeam}
    ensures CheckPermission(s, env, userId, resourceId, resourceType, required).0 == Err(UnsupportedResourceType)
  {
  }

  /**
    `UpdatePermissions`: gate on Share, then upsert the new mask for the
    grantee. The upsert also clears the expiry and resets the metadata to
    the empty object, and no grantee-id check is made.
   */
  function UpdatePermissions(s: Store, env: Env, userId: UserId, resourceId: ResourceId, resourceType: ResourceType,
                             granteeId: Option<string>, granteeType: GranteeType, perms: Permission)
    : (r: (Result<(), AclError>, Store))
    ensures r.0.Ok? <==> Gate(s, env, userId, resourceId, resourceType, Permissions.PermissionShare).0.Ok? && !env.writeFails
    ensures r.0.Ok? ==> var k := AclKey(resourceId, resourceType, granteeType, granteeId);
              k in r.1.acls && r.1.acls[k].permissions == perms
              && r.1.acls[k].expiresAt.None? && r.1.acls[k].metadata == map[]
    ensures r.0.Ok? ==> forall k :: k in s.acls && k != AclKey(resourceId, resourceType, granteeType, granteeId)
                                    ==> k in r.1.acls && r.1.acls[k] == s.acls[k]
    ensures r.0.Ok? ==> r.1.acls.Keys == s.acls.Keys + {AclKey(resourceId, resourceType, granteeType, granteeId)}
    ensures r.0.Ok? && AclKey(resourceId, resourceType, granteeType, granteeId) !in s.acls ==>
              var row := r.1.acls[AclKey(resourceId, resourceType, granteeType, granteeId)];
              row.grantedBy == userId && row.grantedAt == env.now && row.id == s.nextId
    ensures r.0.Err? ==> r.1.acls == s.acls
  {
    var (gate, s1) := Gate(s, env, userId, resourceId, resourceType, Permissions.PermissionShare);
    if gate.Err? then (Err(gate.error), s1)
    else
      var a := Acl(0, resourceId, resourceType, granteeType, granteeId, perms, userId, 0, None, None);
      match GrantAcl(s1, env, a)
      case Err(e) => (Err(e), s1)
      case Ok(s2) => (Ok(()), s2)
  }

  /**
    Updating an entry that exists keeps its identity, grantor and grant
    time; only the mask, expiry and metadata change.
   */
  lemma UpdateKeepsIdentity(s: Store, env: Env, userId: UserId, resourceId: ResourceId, resourceType: ResourceType,
                            granteeId: Option<string>, granteeType: GranteeType, perms: Permission)
    requires AclKey(resourceId, resourceType, granteeType, granteeId) in s.acls
    requires UpdatePermissions(s, env, userId, resourceId, resourceType, granteeId, granteeType, perms).0.Ok?
    ensures var k := AclKey(resourceId, resourceType, granteeType, granteeId);
            var row := UpdatePermissions(s, env, userId, resourceId, resourceType, granteeId, granteeType, perms).1.acls[k];
            row == s.acls[k].(permissions := perms, expiresAt := None, metadata := map[])
  {
    var (gate, s1) := Gate(s, env, userId, resourceId, resourceType, Permissions.PermissionShare);
    assert s1.acls == s.acls;
  }
}
