/**
  The records of the ACL feature (features/acl/model.go and the enums of
  pkg/acl/permissions.go): an access-control entry, the grant and share
  requests, and the checks their `validate` tags ask for.

  Times are integers on one clock (the database's `NOW()` is passed in as
  `now`). A JSON object of metadata is a map from keys to the JSON text of
  each value.
 */
module AclModel {
  import opened Common
  import opened Bitmask
  import Permissions

  type Metadata = map<string, string>

  const ResourceTask: ResourceType := "TASK"
  const ResourceFarmArea: ResourceType := "FARM_AREA"
  const ResourceTeam: ResourceType := "TEAM"
  const ResourceDocument: ResourceType := "DOCUMENT"

  type GranteeType = string

  const GranteeUser: GranteeType := "USER"
  const GranteeTeam: GranteeType := "TEAM"
  const GranteePublic: GranteeType := "PUBLIC"

  /**
    An access-control entry. `granteeId` and `expiresAt` are nullable; a
    missing expiry never expires. `metadata` is None when it was not read.
   */
  datatype Acl = Acl(
    id: int,
    resourceId: ResourceId,
    resourceType: ResourceType,
    granteeType: GranteeType,
    granteeId: Option<string>,
    permissions: Permission,
    grantedBy: UserId,
    grantedAt: int,
    expiresAt: Option<int>,
    metadata: Option<Metadata>)

  /** The entry is still in force at `now`: no expiry, or an expiry strictly later. */
  predicate Active(expiresAt: Option<int>, now: int) {
    expiresAt.None? || expiresAt.value > now
  }

  /** The body of a grant request; `permissions` is whatever JSON decoding produced. */
  datatype GrantAclRequest = GrantAclRequest(
    resourceId: ResourceId,
    resourceType: ResourceType,
    granteeType: GranteeType,
    granteeId: Option<string>,
    permissions: Permissions.PermInput,
    expiresAt: Option<int>,
    metadata: Option<Metadata>)

  datatype ShareTarget = ShareTarget(
    granteeType: GranteeType,
    id: Option<string>,
    role: string,
    expiresAt: Option<int>)

  datatype ShareRequest = ShareRequest(
    resourceId: ResourceId,
    resourceType: ResourceType,
    shareWith: seq<ShareTarget>)

  /**
    The validator's `required` on an `interface{}` field: only `nil` fails.
    A present `0` or `""` is a non-nil interface, which counts as a value.
   */
  predicate RequiredValue(v: Permissions.PermInput) {
    !v.NullValue?
  }

  /** The tags of `GrantACLRequest`: resource id and type, grantee type and permissions are required. */
  predicate ValidGrantRequest(r: GrantAclRequest) {
    r.resourceId != "" && r.resourceType != "" && r.granteeType != "" && RequiredValue(r.permissions)
  }

  /** The tags of `ShareRequest`: resource id and type are required and the target list has at least one entry. */
  predicate ValidShareRequest(r: ShareRequest) {
    r.resourceId != "" && r.resourceType != "" && |r.shareWith| >= 1
  }

  /** The tags of `ShareTarget`: type and role are required. */
  predicate ValidShareTarget(t: ShareTarget) {
    t.granteeType != "" && t.role != ""
  }

  /**
    Grant-request validation never looks at the optional fields, refuses
    exactly the requests with an empty resource id, resource type or
    grantee type or no permissions at all, and lets a present `0` or `""`
    through.
   */
  lemma GrantRequestOptionalFields(r: GrantAclRequest, g: Option<string>, e: Option<int>, m: Option<Metadata>)
    ensures ValidGrantRequest(r) <==> ValidGrantRequest(r.(granteeId := g, expiresAt := e, metadata := m))
    ensures !ValidGrantRequest(r) <==>
              r.resourceId == "" || r.resourceType == "" || r.granteeType == "" || r.permissions == Permissions.NullValue
    ensures ValidGrantRequest(r) ==> ValidGrantRequest(r.(permissions := Permissions.StrValue("")))
                                     && ValidGrantRequest(r.(permissions := Permissions.IntValue(0)))
  {
  }

  /** A missing expiry is in force forever; a set one lapses once `now` reaches it. */
  lemma ExpiryLapses(expiresAt: Option<int>, now: int, later: int)
    requires now <= later
    ensures expiresAt.None? ==> Active(expiresAt, later)
    ensures Active(expiresAt, later) ==> Active(expiresAt, now)
    ensures expiresAt.Some? ==> !Active(expiresAt, expiresAt.value)
  {
  }
}
