/**
  The ACL store (features/acl/repository.go) as maps: the `acls` table
  keyed by its upsert tuple, and the `resource_permissions_cache` table
  keyed by (user, resource, type).

  What the code reads from the database but does not define is an oracle
  in `Env`: the SQL function `calculate_effective_permissions`, the
  ownership tables, whether a statement fails, and the column defaults of
  rows the code inserts without naming them (`granted_at` is `now`).
 */
module AclRepository {
  import opened Common
  import opened Bitmask
  import opened AclModel
  import Numeric
  import Sorting

  /** The `ON CONFLICT` tuple of the `acls` table. */
  datatype AclKey = AclKey(
    resourceId: ResourceId,
    resourceType: ResourceType,
    granteeType: GranteeType,
    granteeId: Option<string>)

  /** The columns of an `acls` row besides its key. */
  datatype AclRow = AclRow(
    id: int,
    permissions: Permission,
    grantedBy: UserId,
    grantedAt: int,
    expiresAt: Option<int>,
    metadata: Metadata)

  datatype CacheKey = CacheKey(userId: UserId, resourceId: ResourceId, resourceType: ResourceType)

  datatype CacheEntry = CacheEntry(permissions: Permission, cachedAt: int, expiresAt: int)

  /**
    The `acls` and cache tables. `nextId` is the next value of the id
    column's sequence, which every upsert draws from, whether it inserts
    or updates.
   */
  datatype Store = Store(
    acls: map<AclKey, AclRow>,
    cache: map<CacheKey, CacheEntry>,
    nextId: int)

  /** A task row as ownership lookups see it. */
  datatype OwnedRow = OwnedRow(ownerId: UserId, deleted: bool)

  /** The tables `IsOwner` reads. `reachable` is false when every query fails. */
  datatype Owners = Owners(
    tasks: map<ResourceId, OwnedRow>,
    farmAreas: map<ResourceId, UserId>,
    teamAdmins: set<(ResourceId, UserId)>,
    reachable: bool)

  /** Everything outside the code that a repository call depends on. */
  datatype Env = Env(
    now: int,
    effective: (UserId, ResourceId, ResourceType) -> Option<Permission>,  // None: the query failed
    owners: Owners,
    cacheReadFails: bool,
    cacheWriteFails: bool,
    writeFails: bool,
    cacheDefaultTtl: int)   // expiry of a fresh cache row, a column default

  datatype AclError =
    | StoreError
    | UnsupportedResourceType
    | InvalidResourceId
    | InvalidGranteeId
    | PermissionDenied
    | PublicWithGranteeId
    | GranteeIdRequired
    | BadPermission(cause: Permissions.PermError)
    | InvalidRole(role: string, cause: Permissions.PermError)

  /** The refreshed lifetime of a cache row: one hour. */
  const CacheTtl: int := 3600

  function KeyOf(a: Acl): AclKey {
    AclKey(a.resourceId, a.resourceType, a.granteeType, a.granteeId)
  }

  /** Nil metadata is stored as the empty JSON object. */
  function StoredMetadata(m: Option<Metadata>): (r: Metadata)
    ensures m.Some? ==> r == m.value
    ensures m.None? ==> r == map[]
  {
    m.GetOr(map[])
  }

  /**
    `GrantACL`: insert the entry, or on a key conflict replace only its
    permissions, expiry and metadata. The id, grantor and grant time of an
    existing row are kept; the cache is not touched.
   */
  function GrantAcl(s: Store, env: Env, a: Acl): (r: Result<Store, AclError>)
    ensures env.writeFails <==> r.Err?
    ensures r.Ok? ==> r.value.acls.Keys == s.acls.Keys + {KeyOf(a)}
    ensures r.Ok? ==> forall k :: k in s.acls && k != KeyOf(a) ==> r.value.acls[k] == s.acls[k]
    ensures r.Ok? ==> var row := r.value.acls[KeyOf(a)];
              row.permissions == a.permissions && row.expiresAt == a.expiresAt
              && row.metadata == StoredMetadata(a.metadata)
    ensures r.Ok? && KeyOf(a) in s.acls ==> var row := r.value.acls[KeyOf(a)];
              row.id == s.acls[KeyOf(a)].id && row.grantedBy == s.acls[KeyOf(a)].grantedBy
              && row.grantedAt == s.acls[KeyOf(a)].grantedAt
    ensures r.Ok? && KeyOf(a) !in s.acls ==> var row := r.value.acls[KeyOf(a)];
              row.grantedBy == a.grantedBy && row.grantedAt == env.now && row.id == s.nextId
    ensures r.Ok? ==> r.value.cache == s.cache && r.value.nextId == s.nextId + 1
  {
    if env.writeFails then Err(StoreError)
    else
      var k := KeyOf(a);
      var meta := StoredMetadata(a.metadata);
      if k in s.acls then
        var old_ := s.acls[k];
        Ok(s.(acls := s.acls[k := old_.(permissions := a.permissions, expiresAt := a.expiresAt, metadata := meta)],
              nextId := s.nextId + 1))
      else
        var row := AclRow(s.nextId, a.permissions, a.grantedBy, env.now, a.expiresAt, meta);
        Ok(s.(acls := s.acls[k := row], nextId := s.nextId + 1))
  }

  /**
    Granting the same entry twice leaves the entries as granting it once;
    only the id sequence moves on.
   */
  lemma GrantIdempotent(s: Store, env: Env, a: Acl)
    requires !env.writeFails
    ensures GrantAcl(GrantAcl(s, env, a).value, env, a).value.acls == GrantAcl(s, env, a).value.acls
    ensures GrantAcl(GrantAcl(s, env, a).value, env, a).value.cache == GrantAcl(s, env, a).value.cache
  {
    var s1 := GrantAcl(s, env, a).value;
    var s2 := GrantAcl(s1, env, a).value;
    assert s2.acls == s1.acls;
  }

  /** Every row's id was drawn from the sequence before its current value. */
  predicate IdsDrawn(s: Store) {
    forall k :: k in s.acls ==> s.acls[k].id < s.nextId
  }

  /**
    Upserts keep every id drawn, and an inserted row gets an id that no
    other row has.
   */
  lemma GrantKeepsIdsFresh(s: Store, env: Env, a: Acl)
    requires IdsDrawn(s) && !env.writeFails
    ensures IdsDrawn(GrantAcl(s, env, a).value)
    ensures KeyOf(a) !in s.acls ==>
              var g := GrantAcl(s, env, a).value;
              forall k :: k in g.acls && k != KeyOf(a) ==> g.acls[k].id != g.acls[KeyOf(a)].id
  {
  }

  /** The entry a row stands for, as `GetACL` reads it back (metadata is not selected). */
  function AclOf(k: AclKey, row: AclRow): Acl {
    Acl(row.id, k.resourceId, k.resourceType, k.granteeType, k.granteeId,
        row.permissions, row.grantedBy, row.grantedAt, row.expiresAt, None)
  }

  /** The row at `k` is one `GetACL` returns for this resource at `now`. */
  predicate Listed(s: Store, now: int, resourceId: ResourceId, resourceType: ResourceType, k: AclKey) {
    k in s.acls && k.resourceId == resourceId && k.resourceType == resourceType
    && Active(s.acls[k].expiresAt, now)
  }

  function NewestFirst(a: Acl): int {
    0 - a.grantedAt
  }

  /**
    `GetACL`: the resource's entries in force at `now`, each once, newest
    grant first.
   */
  method GetAcl(s: Store, now: int, resourceId: ResourceId, resourceType: ResourceType) returns (r: seq<Acl>)
    ensures forall a :: a in r ==> KeyOf(a) in s.acls && a == AclOf(KeyOf(a), s.acls[KeyOf(a)])
    ensures forall a :: a in r ==> a.resourceId == resourceId && a.resourceType == resourceType
    ensures forall a :: a in r ==> Active(a.expiresAt, now)
    ensures forall k :: Listed(s, now, resourceId, resourceType, k) ==> AclOf(k, s.acls[k]) in r
    ensures forall i, j :: 0 <= i < j < |r| ==> r[i].grantedAt >= r[j].grantedAt && r[i] != r[j]
  {
    var rows := set k | k in s.acls && Listed(s, now, resourceId, resourceType, k) :: AclOf(k, s.acls[k]);
    r := Sorting.OrderBy(rows, NewestFirst);
    forall i, j | 0 <= i < j < |r|
      ensures r[i].grantedAt >= r[j].grantedAt && r[i] != r[j]
    {
      assert NewestFirst(r[i]) <= NewestFirst(r[j]);
      Sorting.DistinctInOrder(rows, r, i, j);
    }
  }

  /**
    The `WHERE` of `RevokeACL`'s `DELETE`: the parsed resource id against
    the stored text, the type, the grantee type, and the grantee id where a
    missing id matches only rows without one.
   */
  predicate RevokeMatches(k: AclKey, resourceId: Int64, resourceType: ResourceType,
                          granteeId: Option<Int64>, granteeType: GranteeType)
  {
    k.resourceId == Numeric.FormatInt(resourceId)
    && k.resourceType == resourceType
    && k.granteeType == granteeType
    && (match granteeId
        case Some(g) => k.granteeId == Some(Numeric.FormatInt(g))
        case None => k.granteeId.None?)
  }

  /**
    The grantee id of a revoke after parsing: None when it is present but
    not a decimal int64, Some(None) when it is absent.
   */
  function ParsedGrantee(granteeId: Option<string>): (r: Option<Option<Int64>>)
    ensures granteeId.None? ==> r == Some(None)
    ensures granteeId.Some? ==> (r.None? <==> Numeric.ParseInt64(granteeId.value).None?)
    ensures r.Some? && r.value.Some? ==> granteeId.Some? && Numeric.ParseInt64(granteeId.value) == r.value
  {
    match granteeId
    case None => Some(None)
    case Some(g) =>
      match Numeric.ParseInt64(g)
      case None => None
      case Some(n) => Some(Some(n))
  }

  /**
    `RevokeACL`: both ids must be decimal int64s, checked before the table
    is touched; then every matching row is deleted. Deleting nothing is not
    an error, and the cache is left alone.
   */
  function RevokeAcl(s: Store, env: Env, resourceId: ResourceId, resourceType: ResourceType,
                     granteeId: Option<string>, granteeType: GranteeType): (r: Result<Store, AclError>)
    ensures Numeric.ParseInt64(resourceId).None? ==> r == Err(InvalidResourceId)
    ensures (Numeric.ParseInt64(resourceId).Some? && granteeId.Some? && Numeric.ParseInt64(granteeId.value).None?)
              ==> r == Err(InvalidGranteeId)
    ensures r.Ok? <==> Numeric.ParseInt64(resourceId).Some? && ParsedGrantee(granteeId).Some? && !env.writeFails
    ensures r.Ok? ==> r.value.cache == s.cache && r.value.nextId == s.nextId
    ensures r.Ok? ==> forall k :: k in r.value.acls <==>
              k in s.acls && !RevokeMatches(k, Numeric.ParseInt64(resourceId).value, resourceType,
                                            ParsedGrantee(granteeId).value, granteeType)
    ensures r.Ok? ==> forall k :: k in r.value.acls ==> r.value.acls[k] == s.acls[k]
  {
    match Numeric.ParseInt64(resourceId)
    case None => Err(InvalidResourceId)
    case Some(rid) =>
      match ParsedGrantee(granteeId)
      case None => Err(InvalidGranteeId)
      case Some(gid) =>
        if env.writeFails then Err(StoreError)
        else
          var kept := map k | k in s.acls && !RevokeMatches(k, rid, resourceType, gid, granteeType) :: s.acls[k];
          Ok(s.(acls := kept))
  }

  /** Revoking twice leaves the store as revoking once. */
  lemma RevokeIdempotent(s: Store, env: Env, resourceId: ResourceId, resourceType: ResourceType,
                         granteeId: Option<string>, granteeType: GranteeType)
    requires RevokeAcl(s, env, resourceId, resourceType, granteeId, granteeType).Ok?
    ensures var s1 := RevokeAcl(s, env, resourceId, resourceType, granteeId, granteeType).value;
            RevokeAcl(s1, env, resourceId, resourceType, granteeId, granteeType) == Ok(s1)
  {
    var s1 := RevokeAcl(s, env, resourceId, resourceType, granteeId, granteeType).value;
    var s2 := RevokeAcl(s1, env, resourceId, resourceType, granteeId, granteeType).value;
    assert s2.acls == s1.acls;
  }

  /**
    Revoke undoes a grant: granting an entry whose ids are canonical
    decimals to a store without that key, then revoking the same grantee,
    gives back the original entries.
   */
  lemma RevokeUndoesGrant(s: Store, env: Env, a: Acl, rid: Int64, gid: Option<Int64>)
    requires !env.writeFails
    requires KeyOf(a) !in s.acls
    requires a.resourceId == Numeric.FormatInt(rid)
    requires a.granteeId == (if gid.Some? then Some(Numeric.FormatInt(gid.value)) else None)
    ensures var g := GrantAcl(s, env, a).value;
            RevokeAcl(g, env, a.resourceId, a.resourceType, a.granteeId, a.granteeType).Ok?
            && RevokeAcl(g, env, a.resourceId, a.resourceType, a.granteeId, a.granteeType).value.acls == s.acls
  {
    var g := GrantAcl(s, env, a).value;
    Numeric.FormatThenParse(rid);
    if gid.Some? {
      Numeric.FormatThenParse(gid.value);
    }
    assert ParsedGrantee(a.granteeId) == Some(gid);
    var r := RevokeAcl(g, env, a.resourceId, a.resourceType, a.granteeId, a.granteeType);
    assert r.Ok?;
    forall k ensures k in r.value.acls <==> k in s.acls {
      MatchesOnlyKey(k, a, rid, gid);
    }
    assert r.value.acls == s.acls;
  }

  /** With canonical ids, the revoke of an entry's grantee matches that entry's key and no other. */
  lemma MatchesOnlyKey(k: AclKey, a: Acl, rid: Int64, gid: Option<Int64>)
    requires a.resourceId == Numeric.FormatInt(rid)
    requires a.granteeId == (if gid.Some? then Some(Numeric.FormatInt(gid.value)) else None)
    ensures RevokeMatches(k, rid, a.resourceType, gid, a.granteeType) <==> k == KeyOf(a)
  {
  }

  /** The cache row for a check, when it is readable and has not expired. */
  function FreshCache(s: Store, env: Env, k: CacheKey): (r: Option<Permission>)
    ensures r.Some? <==> !env.cacheReadFails && k in s.cache && s.cache[k].expiresAt > env.now
    ensures r.Some? ==> r.value == s.cache[k].permissions
  {
    if !env.cacheReadFails && k in s.cache && s.cache[k].expiresAt > env.now
    then Some(s.cache[k].permissions)
    else None
  }

  /**
    `cachePermissions`: upsert the cache row; a refreshed row lives one
    hour, a new one gets the column default. A failed write is ignored.
   */
  function CacheWrite(s: Store, env: Env, k: CacheKey, p: Permission): (r: Store)
    ensures r.acls == s.acls && r.nextId == s.nextId
    ensures env.cacheWriteFails ==> r == s
    ensures !env.cacheWriteFails ==> k in r.cache && r.cache[k].permissions == p && r.cache[k].cachedAt == env.now
    ensures !env.cacheWriteFails && k in s.cache ==> r.cache[k].expiresAt == env.now + CacheTtl
    ensures forall j :: j in s.cache && j != k ==> j in r.cache && r.cache[j] == s.cache[j]
    ensures r.cache.Keys <= s.cache.Keys + {k}
  {
    if env.cacheWriteFails then s
    else if k in s.cache then s.(cache := s.cache[k := CacheEntry(p, env.now, env.now + CacheTtl)])
    else s.(cache := s.cache[k := CacheEntry(p, env.now, env.now + env.cacheDefaultTtl)])
  }

  /**
    The mask a check consults: the fresh cache row if there is one, else
    the computed effective permissions (None when that query fails).
   */
  function Consulted(s: Store, env: Env, k: CacheKey): (r: Option<Permission>)
    ensures FreshCache(s, env, k).Some? ==> r == FreshCache(s, env, k)
    ensures FreshCache(s, env, k).None? ==> r == env.effective(k.userId, k.resourceId, k.resourceType)
  {
    match FreshCache(s, env, k)
    case Some(p) => Some(p)
    case None => env.effective(k.userId, k.resourceId, k.resourceType)
  }

  /**
    `CheckPermission` of the repository, cache-aside: a fresh cache row
    answers without recomputation; otherwise the effective permissions are
    computed, cached, and tested. A failed computation is an error and
    caches nothing.
   */
  function CheckPermission(s: Store, env: Env, userId: UserId, resourceId: ResourceId,
                           resourceType: ResourceType, required: Permission): (r: (Result<bool, AclError>, Store))
    ensures r.1.acls == s.acls && r.1.nextId == s.nextId
    ensures var p := Consulted(s, env, CacheKey(userId, resourceId, resourceType));
            r.0 == if p.Some? then Ok(Has(p.value, required)) else Err(StoreError)
    ensures var hit := FreshCache(s, env, CacheKey(userId, resourceId, resourceType));
            hit.Some? ==> r == (Ok(Has(hit.value, required)), s)
    ensures var hit := FreshCache(s, env, CacheKey(userId, resourceId, resourceType));
            var eff := env.effective(userId, resourceId, resourceType);
            hit.None? && eff.Some? ==>
              r.0 == Ok(Has(eff.value, required))
              && r.1 == CacheWrite(s, env, CacheKey(userId, resourceId, resourceType), eff.value)
    ensures var hit := FreshCache(s, env, CacheKey(userId, resourceId, resourceType));
            hit.None? && env.effective(userId, resourceId, resourceType).None? ==> r == (Err(StoreError), s)
  {
    var k := CacheKey(userId, resourceId, resourceType);
    match FreshCache(s, env, k)
    case Some(cached) => (Ok(Has(cached, required)), s)
    case None =>
      match env.effective(userId, resourceId, resourceType)
      case None => (Err(StoreError), s)
      case Some(p) => (Ok(Has(p, required)), CacheWrite(s, env, k, p))
  }

  /**
    A computed answer is remembered: right after a check that computed and
    cached, the same question is answered from the cache, identically, even
    if the underlying permissions have changed meanwhile.
   */
  lemma CheckRemembers(s: Store, env: Env, env2: Env, userId: UserId, resourceId: ResourceId,
                       resourceType: ResourceType, required: Permission, required2: Permission)
    requires CheckPermission(s, env, userId, resourceId, resourceType, required).0.Ok?
    requires !env.cacheWriteFails && !env2.cacheReadFails && env.cacheDefaultTtl > 0
    requires env2.now == env.now
    ensures var (r1, s1) := CheckPermission(s, env, userId, resourceId, resourceType, required);
            var (r2, s2) := CheckPermission(s1, env2, userId, resourceId, resourceType, required2);
            s2 == s1
            && (required2 == required ==> r2 == r1)
            && r2 == Ok(Has(s1.cache[CacheKey(userId, resourceId, resourceType)].permissions, required2))
  {
    var k := CacheKey(userId, resourceId, resourceType);
    var (r1, s1) := CheckPermission(s, env, userId, resourceId, resourceType, required);
    if FreshCache(s, env, k).None? {
      assert s1.cache[k].expiresAt > env.now;
    }
    assert FreshCache(s1, env2, k) == Some(s1.cache[k].permissions);
  }

  /**
    A check does not change what the next check at the same moment
    consults, whatever the cache and its failures do; so asking again, for
    any permission, answers from the same mask.
   */
  lemma CheckAgain(s: Store, env: Env, userId: UserId, resourceId: ResourceId,
                   resourceType: ResourceType, required: Permission)
    ensures var k := CacheKey(userId, resourceId, resourceType);
            var s1 := CheckPermission(s, env, userId, resourceId, resourceType, required).1;
            Consulted(s1, env, k) == Consulted(s, env, k)
  {
    var k := CacheKey(userId, resourceId, resourceType);
    var s1 := CheckPermission(s, env, userId, resourceId, resourceType, required).1;
    if FreshCache(s, env, k).None? && env.effective(userId, resourceId, resourceType).Some? {
      var p := env.effective(userId, resourceId, resourceType).value;
      assert s1 == CacheWrite(s, env, k, p);
      if FreshCache(s1, env, k).Some? {
        assert s1.cache[k].permissions == p;
      }
    }
  }

  /** Consulting reads only the cache, never the entries. */
  lemma ConsultedReadsCache(s: Store, s2: Store, env: Env, k: CacheKey)
    requires s.cache == s2.cache
    ensures Consulted(s, env, k) == Consulted(s2, env, k)
  {
  }

  /**
    `IsOwner`: a live task's owner, a farm area's owner, or an 'Admin'
    member of a team. A missing task or farm row is an error; a failed team
    lookup is just "no"; any other resource type is an error.
   */
  function IsOwner(o: Owners, userId: UserId, resourceId: ResourceId, resourceType: ResourceType): (r: Result<bool, AclError>)
    ensures resourceType !in {ResourceTask, ResourceFarmArea, ResourceTeam} ==> r == Err(UnsupportedResourceType)
    ensures resourceType == ResourceTeam ==>
              r == Ok(o.reachable && (resourceId, userId) in o.teamAdmins)
    ensures resourceType == ResourceTask ==>
              (r.Ok? <==> o.reachable && resourceId in o.tasks && !o.tasks[resourceId].deleted)
    ensures resourceType == ResourceFarmArea ==> (r.Ok? <==> o.reachable && resourceId in o.farmAreas)
    ensures r == Ok(true) <==>
              o.reachable
              && ((resourceType == ResourceTask && resourceId in o.tasks
                   && !o.tasks[resourceId].deleted && o.tasks[resourceId].ownerId == userId)
               || (resourceType == ResourceFarmArea && resourceId in o.farmAreas
                   && o.farmAreas[resourceId] == userId)
               || (resourceType == ResourceTeam && (resourceId, userId) in o.teamAdmins))
    ensures r.Err? ==> r.error in {StoreError, UnsupportedResourceType}
  {
    if resourceType == ResourceTask then
      if o.reachable && resourceId in o.tasks && !o.tasks[resourceId].deleted
      then Ok(o.tasks[resourceId].ownerId == userId)
      else Err(StoreError)
    else if resourceType == ResourceFarmArea then
      if o.reachable && resourceId in o.farmAreas
      then Ok(o.farmAreas[resourceId] == userId)
      else Err(StoreError)
    else if resourceType == ResourceTeam then
      Ok(o.reachable && (resourceId, userId) in o.teamAdmins)
    else Err(UnsupportedResourceType)
  }

  /**
    A task or farm area has at most one owner, and whether its lookup
    succeeds does not depend on who asks; a team lookup never fails, and
    any number of admins own the team.
   */
  lemma OwnerIsUnique(o: Owners, u: UserId, v: UserId, resourceId: ResourceId, resourceType: ResourceType)
    ensures resourceType in {ResourceTask, ResourceFarmArea} ==>
              (IsOwner(o, u, resourceId, resourceType) == Ok(true) && IsOwner(o, v, resourceId, resourceType) == Ok(true)
               ==> u == v)
              && (IsOwner(o, u, resourceId, resourceType).Ok? <==> IsOwner(o, v, resourceId, resourceType).Ok?)
    ensures resourceType == ResourceTeam && o.reachable && (resourceId, u) in o.teamAdmins && (resourceId, v) in o.teamAdmins
            ==> IsOwner(o, u, resourceId, resourceType) == Ok(true) && IsOwner(o, v, resourceId, resourceType) == Ok(true)
  {
  }

  /** A row of `ListSharedByMe`. */
  datatype SharedResource = SharedResource(
    resourceId: ResourceId,
    resourceType: ResourceType,
    permissions: Permission,
    sharedBy: UserId,
    sharedAt: int)

  /** The row at `k` is one the user granted, still in force, of the requested type if one is given. */
  predicate SharedBy(s: Store, now: int, userId: UserId, resourceType: Option<ResourceType>, k: AclKey) {
    k in s.acls && s.acls[k].grantedBy == userId && Active(s.acls[k].expiresAt, now)
    && (resourceType.Some? ==> k.resourceType == resourceType.value)
  }

  function SharedOf(k: AclKey, row: AclRow): SharedResource {
    SharedResource(k.resourceId, k.resourceType, row.permissions, row.grantedBy, row.grantedAt)
  }

  function SharedNewestFirst(r: SharedResource): int {
    0 - r.sharedAt
  }

  /**
    `ListSharedByMe`: the distinct (resource, type, permissions, grantor,
    time) of the entries the user granted that are still in force, of one
    type when asked, newest first.
   */
  method ListSharedByMe(s: Store, now: int, userId: UserId, resourceType: Option<ResourceType>)
    returns (r: seq<SharedResource>)
    ensures forall x :: x in r <==> exists k :: SharedBy(s, now, userId, resourceType, k) && x == SharedOf(k, s.acls[k])
    ensures forall x :: x in r ==> x.sharedBy == userId
    ensures resourceType.Some? ==> forall x :: x in r ==> x.resourceType == resourceType.value
    ensures forall i, j :: 0 <= i < j < |r| ==> r[i].sharedAt >= r[j].sharedAt && r[i] != r[j]
  {
    var rows := set k | k in s.acls && SharedBy(s, now, userId, resourceType, k) :: SharedOf(k, s.acls[k]);
    r := Sorting.OrderBy(rows, SharedNewestFirst);
    forall i, j | 0 <= i < j < |r|
      ensures r[i].sharedAt >= r[j].sharedAt && r[i] != r[j]
    {
      assert SharedNewestFirst(r[i]) <= SharedNewestFirst(r[j]);
      Sorting.DistinctInOrder(rows, r, i, j);
    }
  }
}
