# login-backend: permissions, sharing, tasks, live updates and gates

This project is a Dafny model of the access-control and task core of the
login-backend service, a Go HTTP API. It covers these parts:

- **The permission bitmask** (`pkg/acl/permissions.go`). This is a 64-bit
  mask. Its five named bits are READ, WRITE, DELETE, SHARE and ADMIN, and
  its four role unions are VIEWER, EDITOR, OWNER and full access. The model
  includes `Has`, `Add`, `Remove`, the `String` rendering and
  `ParsePermissions`.
- **Access-control entries** (`features/acl`). The model covers the entry
  and request records, and the repository's upsert, listing, revoke and
  cache-aside permission check. It also covers the service's gated
  operations: grant, share with many targets, revoke, list, check and
  update.
- **Tasks** (`features/tasks`). The model covers tasks with versions and
  vector clocks, and the append-only event log. It includes the
  repository's create, update, soft delete, find, list and changes feed,
  and the service's create and patch.
- **The WebSocket hub** (`internal/websocket/hub.go` and the pumps in
  `features/tasks/websocket_handler.go`). The hub keeps a registry of
  connections by user and by task room. Each connection has a 256-frame
  send queue. The hub handles register, unregister, join, leave and
  broadcast, and the write pump drains the queue.
- **The HTTP gates** (`internal/http/middleware`). These are bearer-token
  authentication with the logout blacklist, the claims in the request
  context, the two ACL gates and their fixed-permission shorthands, the
  owner-or-admin gate and the exact-role gate.
- **Two parts of the router** (`internal/http/router.go`). These are the
  default CORS origin list and `FileServer`'s route registration.

The database, Redis, JWT validation, the Snowflake id source and the
clock are all parameters:

- The ACL store has an `Env`. It holds the effective-permission function
  behind `calculate_effective_permissions`, the ownership directory, the
  current time and flags for failing reads and writes.
- The task store takes `now`, `taskId`, and `readFails` and `writeFails` flags.
- The blacklist lookup and token validation are functions passed to
  `Authenticate`.

A Go panic is a result variant:

- `Crashed` for the hub;
- `Panicked` for `UpdateTask` and `FileServer`.

int64 arithmetic that can wrap, such as `task.Version++`, is written out
explicitly.

Modules and files:

| module | file | source |
|---|---|---|
| Common | common.dfy | shared ids, `Option`/`Result`, int64 range and `++` |
| Text | text.dfy | `strings.Split`, `strings.Join`, `strings.ToUpper`, `strings.ContainsAny` |
| Numeric | numeric.dfy | `strconv.ParseInt`/`Atoi` and decimal formatting |
| Sorting | sorting.dfy | `ORDER BY` and `DISTINCT` of the queries |
| BitFacts, Bitmask | bitfacts.dfy, bitmask.dfy | `Has`, `Add`, `Remove` on 64-bit masks |
| Permissions | permissions.dfy | pkg/acl/permissions.go |
| AclModel | acl_model.dfy | features/acl/model.go |
| AclRepository | acl_repository.dfy | features/acl/repository.go |
| AclService | acl_service.dfy | features/acl/service.go |
| TaskModel | task_model.dfy | features/tasks/model.go |
| TaskRepository | task_repository.dfy | features/tasks/repository.go |
| TaskService | task_service.dfy | features/tasks/service.go |
| WsHub | hub.dfy | internal/websocket/hub.go, features/tasks/websocket_handler.go |
| Middleware | middleware.dfy | internal/http/middleware/{auth,acl,owner,roles}.go |
| Router | router.dfy | internal/http/router.go |

## Model

| member | source | states |
|---|---|---|
| Bitmask.HasMeansNoMissingBit | pkg/acl/permissions.go:49-51 | `p.Has(perm)` holds exactly when no bit of `perm` is missing from `p` |
| Bitmask.HasIsOrder | pkg/acl/permissions.go:49-51 | `Has` is reflexive and transitive, and every mask has `PermissionNone` |
| Bitmask.AddIsUnion | pkg/acl/permissions.go:54-56 | `Add` is the least mask that has both operands; it is commutative and idempotent |
| Bitmask.AddBit | pkg/acl/permissions.go:54-56 | a single bit is in `p.Add(q)` exactly when it is in `p` or in `q` |
| Bitmask.RemoveClearsExactly | pkg/acl/permissions.go:59-61 | `Remove` clears every bit of `perm` and keeps every other bit of `p` |
| Bitmask.RemoveBit | pkg/acl/permissions.go:59-61 | a single bit survives `Remove` exactly when it is in `p` and not in `perm` |
| Bitmask.RemoveThenAdd | pkg/acl/permissions.go:54-61 | adding back a removed permission restores a mask that had it |
| Bitmask.AndHas | pkg/acl/permissions.go:49-51 | a bit pattern is in `p & m` exactly when both have it |
| Permissions.StableLayout | pkg/acl/permissions.go:12-27 | the five flags are distinct single bits 1..16; VIEWER=1, EDITOR=3, OWNER=15, full access=31, and each role holds exactly its listed flags |
| Permissions.HasKeepsFlags | pkg/acl/permissions.go:49-51 | if `p` has `q`, every named flag of `q` is set in `p` |
| Permissions.FlagsDecideHas | pkg/acl/permissions.go:49-51 | for a mask of named bits only, its flags being set in `p` decides `p.Has` |
| Permissions.AddFlags | pkg/acl/permissions.go:54-56 | on named flags, `Add` is set union |
| Permissions.RemoveFlags | pkg/acl/permissions.go:59-61 | on named flags, `Remove` is set difference |
| Permissions.NameListed | pkg/acl/permissions.go:65-80 | a flag's name is appended exactly when the flag is in the order and set in the mask |
| Permissions.NameShape | pkg/acl/permissions.go:65-80 | every appended name is a flag's name, never "NONE", and has no '\|' |
| Permissions.NamesAgree | pkg/acl/permissions.go:65-80 | masks that agree on the named flags append the same names |
| Permissions.StringLists | pkg/acl/permissions.go:64-85 | `String` is "NONE" exactly when no named flag is set; otherwise, split on '\|', it is the set flags' names in the order READ, WRITE, DELETE, SHARE, ADMIN |
| Permissions.StringDeterminesFlags | pkg/acl/permissions.go:64-85 | two masks render alike exactly when they agree on the five named bits |
| Permissions.RoleNamesAnyCase | pkg/acl/permissions.go:94-102 | "viewer", "editor", "owner" and "admin" in any letter case parse to VIEWER, EDITOR, OWNER and full access |
| Permissions.ViewerAnyCase | pkg/acl/permissions.go:94-96 | any casing of "viewer" parses to VIEWER |
| Permissions.EditorAnyCase | pkg/acl/permissions.go:97-98 | any casing of "editor" parses to EDITOR |
| Permissions.OwnerAnyCase | pkg/acl/permissions.go:99-100 | any casing of "owner" parses to OWNER |
| Permissions.AdminAnyCase | pkg/acl/permissions.go:101-102 | any casing of "admin" parses to full access |
| Permissions.UpperOfSpelling | pkg/acl/permissions.go:94 | any casing of a lower-case ASCII word upper-cases to the word's upper case |
| Permissions.DecimalIsNoRoleName | pkg/acl/permissions.go:94-105 | a string that `Atoi` accepts never matches a role name |
| Permissions.NumbersAndErrors | pkg/acl/permissions.go:88-112 | an `int` is taken as its mask unchecked; any other decimal string is its int64 value; a string that is neither a role nor decimal is "invalid permission"; any other type is "unsupported permission type" |
| Permissions.DecimalRoundTrip | pkg/acl/permissions.go:88-112 | a mask written as decimal text parses back to the mask given as an `int` |
| Numeric.Digits | pkg/acl/permissions.go:105 | the decimal spelling of a natural number is non-empty, all digits, and has that value |
| Numeric.FormatThenParse | pkg/acl/permissions.go:105 | every int64 survives formatting then parsing |
| Numeric.ParsedIsDecimal | features/acl/repository.go:110-123 | a string the parser accepts is an optional sign followed by at least one digit |
| Text.Split | internal/http/middleware/auth.go:28 | `strings.Split` gives at least one piece, and no piece contains the separator |
| Text.JoinSplit | pkg/acl/permissions.go:84 | joining a split with its separator restores the string |
| Text.SplitJoin | pkg/acl/permissions.go:84 | splitting a join of separator-free pieces gives back the pieces |
| Sorting.OrderBy | features/acl/repository.go:68 | a query result holds each selected row exactly once, ordered by the key |
| AclModel.GrantRequestOptionalFields | features/acl/model.go:27-35 | grant-request validation ignores grantee id, expiry and metadata; it refuses exactly an empty resource id, resource type or grantee type, or permissions that are `nil`; a present `0` or `""` passes `required` |
| AclModel.ExpiryLapses | features/acl/repository.go:67 | an entry without expiry is always in force; one with an expiry stops at that instant and never comes back |
| AclRepository.GrantAcl | features/acl/repository.go:21-58 | upsert on (resource, type, grantee type, grantee id); a conflict replaces only permissions, expiry and metadata (nil metadata stored as `{}`) and keeps id, grantor and grant time; a new row is granted by the entry's grantor now and takes the next sequence id; every upsert draws one id; the cache is untouched |
| AclRepository.GrantIdempotent | features/acl/repository.go:35-44 | granting the same entry twice leaves the entries and the cache as granting it once |
| AclRepository.GrantKeepsIdsFresh | features/acl/repository.go:21-58 | upserts keep every row id below the sequence, and an inserted row's id differs from every other row's |
| AclRepository.GetAcl | features/acl/repository.go:61-104 | the resource's entries still in force, each once, newest grant first |
| AclRepository.ParsedGrantee | features/acl/repository.go:115-123 | an absent grantee id is NULL; a present one must parse as int64 |
| AclRepository.RevokeAcl | features/acl/repository.go:107-150 | a non-numeric resource or grantee id is refused before the table is touched; otherwise every entry matching the key is deleted; matching nothing is not an error; the cache is untouched |
| AclRepository.RevokeIdempotent | features/acl/repository.go:125-149 | revoking twice leaves the store as revoking once |
| AclRepository.RevokeUndoesGrant | features/acl/repository.go:21-150 | revoking the grantee of a fresh grant with canonical ids restores the original entries |
| AclRepository.MatchesOnlyKey | features/acl/repository.go:126-130 | with canonical ids, a revoke matches the granted key and no other |
| AclRepository.FreshCache | features/acl/repository.go:179-199 | a cache row answers only when it is readable and `expires_at > NOW()` |
| AclRepository.CacheWrite | features/acl/repository.go:202-213 | the cache row is upserted with the new mask and a refreshed one-hour expiry, other rows are kept, and a failed write changes nothing |
| AclRepository.CheckPermission | features/acl/repository.go:153-176 | a fresh cache row answers without recomputation; otherwise the effective mask is computed, cached and tested; a failed computation is an error and caches nothing |
| AclRepository.CheckRemembers | features/acl/repository.go:153-176 | after a check that computed its answer, the same check answers from the cache alike, even when the grants have changed |
| AclRepository.CheckAgain | features/acl/repository.go:153-176 | a check does not change the mask the next check at the same moment consults |
| AclRepository.ConsultedReadsCache | features/acl/repository.go:153-164 | what a check consults depends on the cache and the effective mask, never on the stored entries directly |
| AclRepository.IsOwner | features/acl/repository.go:325-351 | a live task's owner, a farm area's owner, or a team's 'Admin' member; a missing task or farm row is an error; a failed team lookup is "no"; other types are errors |
| AclRepository.OwnerIsUnique | features/acl/repository.go:325-351 | a task or farm area has at most one owner and its lookup fails or succeeds whoever asks; every admin of a team owns it |
| AclRepository.ListSharedByMe | features/acl/repository.go:273-322 | the distinct (resource, type, mask, grantor, time) rows the user granted that are in force, of the asked type if any, newest first |
| AclService.Gate | features/acl/service.go:21-31 | a failed check is returned as is; otherwise the caller passes when the mask has the permission or the caller owns the resource; no entry changes |
| AclService.GrantAccess | features/acl/service.go:19-60 | gate on SHARE, parse the permissions, PUBLIC must have no grantee id and USER/TEAM must have one, then upsert: the entry holds the parsed mask, the expiry and the metadata (`{}` for nil); a new entry is granted by the caller now, an existing one keeps its id, grantor and grant time; no other entry changes |
| AclService.GrantAccessTwice | features/acl/service.go:19-60 | a grant that went through goes through again unchanged and alters no entry |
| AclService.GrantAccessNeedsPermissions | features/acl/service.go:26-30 | a grant that goes through had permissions present; `nil` is refused by validation and by parsing; a blank string passes validation and is refused by parsing |
| AclService.GrantAccessListed | features/acl/service.go:19-136 | a granted entry is listed for its resource exactly while in force, with the parsed mask, and the grant does not change who may list |
| AclService.ShareTargets | features/acl/service.go:76-95 | targets are granted in order; the loop succeeds only if every target's key ends up present; the cache is untouched and no entry is lost |
| AclService.RolesParseAll | features/acl/service.go:76-80 | the role check of the loop holds exactly when every target's role parses |
| AclService.ShareTargetsOk | features/acl/service.go:76-97 | the loop succeeds exactly when every role parses and writing works whenever there is something to write |
| AclService.ShareTargetsSucceeds | features/acl/service.go:76-97 | the same success condition, stated through the roles of the targets |
| AclService.ShareTargetsOnlyTargets | features/acl/service.go:82-94 | the loop adds no entry except the targets' keys |
| AclService.ShareLastWins | features/acl/service.go:76-95 | when two targets share a grantee, the later one's role is what stays |
| AclService.ShareTargetsKeepsOthers | features/acl/service.go:76-95 | entries that no target names are left exactly as they were |
| AclService.ShareTargetsUnoverridden | features/acl/service.go:76-95 | after a loop that went through, every target not overridden by a later one holds its own role's mask and expiry |
| AclService.ShareTargetsAbortKeepsPrefix | features/acl/service.go:76-95 | the first role that does not parse stops the loop with that role's error, and the store is exactly what the targets before it leave, all of them granted |
| AclService.Share | features/acl/service.go:63-98 | gate on SHARE (or ownership), then the loop; no grantee-id rule is applied |
| AclService.ShareAbortKeepsPrefix | features/acl/service.go:63-98 | a share that passes its gate and meets a bad role fails with that role's error while the targets before it stay granted |
| AclService.ShareTargetsIgnoresCache | features/acl/service.go:76-97 | whether the loop succeeds does not depend on the permission cache |
| AclService.ShareOneIsGrant | features/acl/service.go:19-98 | sharing with one well-formed target is the same as granting that target's role |
| AclService.ShareSkipsGranteeCheck | features/acl/service.go:39-92 | `Share` stores a PUBLIC target with an id and a USER target without one, both of which `GrantAccess` refuses |
| AclService.ShareValidation | features/acl/service.go:63-92 | without targets `Share` writes nothing and succeeds exactly when its gate does (the validator refuses such a request); a share that goes through had no blank role |
| AclService.RevokeAccess | features/acl/service.go:101-119 | an ADMIN-check error is returned; a "no" falls back to a SHARE check whose error counts as "no"; ownership also passes; then the repository revokes |
| AclService.GetResourceAcl | features/acl/service.go:122-136 | gate on READ (or ownership), then exactly the resource's stored entries in force, each as read back from its row |
| AclService.GrantThenList | features/acl/service.go:19-136 | a grant then a listing of the resource: the listing is allowed exactly as before the grant and shows the granted row, with its mask and expiry, exactly while it is in force |
| AclService.RevokeAccessRemoves | features/acl/service.go:101-119 | after a revoke with canonical ids goes through, that entry is gone, every other entry is unchanged, and nothing is added |
| AclService.GrantThenRevokeAccess | features/acl/service.go:19-119 | granting a new entry with canonical ids and then revoking it as the same caller goes through and restores the entries |
| AclService.CheckPermission | features/acl/service.go:139-151 | an owner has every permission; an ownership-lookup error is returned; anyone else gets the repository's answer |
| AclService.UnknownTypeRefused | features/acl/service.go:139-144 | a resource type ownership does not know is refused with an error, whatever the entries grant |
| AclService.UpdatePermissions | features/acl/service.go:164-188 | gate on SHARE, then upsert the new mask; the upsert also clears the expiry and resets metadata to `{}`; only the grantee's key may be added, and a new entry is granted by the caller now |
| AclService.UpdateKeepsIdentity | features/acl/service.go:177-187 | updating an existing entry keeps its id, grantor and grant time |
| TaskRepository.MaxSequence | features/tasks/repository.go:58 | `COALESCE(MAX(sequence_number), 0)`: 0 on an empty log, otherwise a logged number that no logged number exceeds |
| TaskRepository.NextSequence | features/tasks/repository.go:58 | the next event's number is above every logged one and directly follows the largest; 1 on an empty log |
| TaskRepository.AppendKeepsOrder | features/tasks/repository.go:56-62 | appending with the next number keeps the log strictly increasing |
| TaskRepository.MaxIsLast | features/tasks/repository.go:56-62 | in an increasing log the maximum is the last entry's number and the next number follows it |
| TaskRepository.Create | features/tasks/repository.go:17-68 | the row and a `TaskCreated` event are written together or not at all; a taken id is refused |
| TaskRepository.Update | features/tasks/repository.go:209-249 | the matching row is overwritten and a `TaskUpdated` event is logged, even when no row matched |
| TaskRepository.Delete | features/tasks/repository.go:152-174 | the caller's undeleted row gets a deletion time; otherwise "not found"; nothing else changes and no event is logged |
| TaskRepository.FindById | features/tasks/repository.go:178-206 | the caller's task when it exists and is not deleted, otherwise nothing |
| TaskRepository.Find | features/tasks/repository.go:177-206 | a refused read is an error; otherwise the caller's visible task, or nothing without an error |
| TaskRepository.FindAfterWrites | features/tasks/repository.go:17-206 | a created task is found by its owner only; a deleted one is not found and cannot be deleted again |
| TaskRepository.WritesKeepLogOrdered | features/tasks/repository.go:56-243 | create and update keep the event log's sequence numbers increasing |
| TaskRepository.WritesKeepKeys | features/tasks/repository.go:17-249 | every write keeps each row under its own id |
| TaskRepository.List | features/tasks/repository.go:70-105 | the caller's undeleted tasks, each once, newest created first |
| TaskRepository.ListChanges | features/tasks/repository.go:253-290 | the caller's tasks with version above the bound, deleted ones included, in ascending version |
| TaskRepository.DeletedStillChanged | features/tasks/repository.go:70-290 | a deleted task stays in the changes feed but leaves the list |
| TaskService.CreateTask | features/tasks/service.go:18-47 | a "Pending" task owned by the caller at version 1 with clock {caller: 1}; found by its owner afterwards; one event logged; on error nothing is written |
| TaskService.PatchProperties | features/tasks/service.go:80-95 | the patch is idempotent, the empty patch changes nothing, and identity, owner, version and clock are untouched |
| TaskService.DecodeClock | features/tasks/service.go:101-106 | no bytes or undecodable bytes give the empty clock; JSON `null` gives a nil map |
| TaskService.Tick | features/tasks/service.go:108 | the caller's count goes up by one (from 0 when absent); other counts stay |
| TaskService.UpdateTask | features/tasks/service.go:70-119 | a refused read is returned as the error; a missing task is "not found"; the update panics exactly when the read works, the task is found and its stored clock is `null`; a failure writes nothing |
| TaskService.UpdateTaskFixed | features/tasks/service.go:70-119 | never panics; a refused read is returned and writes nothing; succeeds exactly when the read works, the task is found and the write works; the version goes up by one, the clock ticks for the caller, the patched fields change and one event is logged |
| TaskService.FixOnlyChangesNull | features/tasks/service.go:101-108 | the repaired update equals the original on every task whose clock is not `null` |
| TaskService.NullClockPanics | features/tasks/service.go:101-108 | a visible task with a `null` clock makes the original panic; the repair restarts the clock at {caller: 1} |
| TaskService.UnreadableClockRestarts | features/tasks/service.go:101-108 | a missing or undecodable clock restarts at {caller: 1} |
| TaskService.ServiceWritesEncodedClocks | features/tasks/service.go:18-119 | create, update and delete only store decoded clocks, so a store written by the service alone never panics |
| TaskService.ValidRequestsKeepTasksWellFormed | features/tasks/model.go:24-49 | a valid create request yields a task with a three-character title, a known priority and status, and a valid patch keeps such a task so; a two-letter title, refused by the tags, is stored as given by both a patch and a create |
| TaskService.VersionAdvances | features/tasks/service.go:98 | below the int64 limit, a successful update stores exactly the old version plus one |
| WsHub.Register | internal/websocket/hub.go:78-84 | the new connection joins its user's set, created on first use; nothing else changes |
| WsHub.JoinRoom | internal/websocket/hub.go:150-159 | the room gains the client and the client lists the room; a new room is created |
| WsHub.LeaveRoom | internal/websocket/hub.go:161-171 | the client leaves the room and the room leaves its list; an emptied room is deleted |
| WsHub.LeaveAll | internal/websocket/hub.go:94-96 | every listed room loses the client and emptied rooms go; other rooms stay |
| WsHub.Detach | internal/websocket/hub.go:86-96 | after the unregister bookkeeping the connection is in no user set and no room |
| WsHub.Unregister | internal/websocket/hub.go:86-98 | unregistering crashes exactly when the queue is already closed; otherwise the connection is detached and its queue closed with its frames kept |
| WsHub.UnregisterFixed | internal/websocket/hub.go:86-98 | the repaired unregister detaches and closes without panicking, and equals the original when the queue is open |
| WsHub.Deliver | internal/websocket/hub.go:107-112 | a send queues the frame when there is room; on a full queue it closes the queue and loses the frame |
| WsHub.DeliverAll | internal/websocket/hub.go:106-113 | when no member is closed, each member gets one send and the rest are untouched |
| WsHub.PhaseShrinksOnlyItsSet | internal/websocket/hub.go:103-138 | a phase only removes closed connections from the set it walks |
| WsHub.BroadcastShrinksOnlyTargets | internal/websocket/hub.go:100-141 | a completed broadcast may only shrink the room's and the author's sets, each removed member is closed, and no connection's room list changes |
| WsHub.RoomPhaseRoomy | internal/websocket/hub.go:103-115 | with room to spare, every room member gets one copy and the registry stays |
| WsHub.UserPhaseRoomy | internal/websocket/hub.go:120-138 | with room to spare, every connection of the author gets one copy and the registry stays |
| WsHub.BroadcastFanOut | internal/websocket/hub.go:100-141 | without drops the broadcast completes, each connection gets one copy per set it is in (two for an author's connection in the room), and the registry is unchanged |
| WsHub.DropAll | internal/websocket/hub.go:107-112 | removing dropped connections from every set deletes exactly the emptied keys |
| WsHub.DropNothing | internal/websocket/hub.go:107-112 | dropping nobody changes no set |
| WsHub.FixedPhase | internal/websocket/hub.go:103-138 | the repaired phase skips closed queues, delivers to members with room, and fully detaches a member whose queue is full |
| WsHub.FixedPhaseKeepsWf | internal/websocket/hub.go:12-37 | a repaired phase keeps the registry consistent |
| WsHub.FixedPhaseKeepsUsers | internal/websocket/hub.go:12-37 | a repaired phase keeps the user sets consistent |
| WsHub.FixedPhaseKeepsRooms | internal/websocket/hub.go:12-37 | a repaired phase keeps the rooms consistent |
| WsHub.FixedPhaseKeepsMirror | internal/websocket/hub.go:12-37 | a repaired phase keeps rooms and client room lists mirroring each other |
| WsHub.BroadcastFixedKeepsWf | internal/websocket/hub.go:100-141 | the repaired broadcast keeps the registry consistent |
| WsHub.FixedPhaseRoomy | internal/websocket/hub.go:103-138 | with room to spare, a repaired phase is a plain delivery to every member |
| WsHub.RoomPhasesAgree | internal/websocket/hub.go:103-115 | with no full queue, both room phases give the same hub |
| WsHub.UserPhasesAgree | internal/websocket/hub.go:120-138 | with no full queue, both user phases give the same hub |
| WsHub.FixedAgreesWhenRoomy | internal/websocket/hub.go:100-141 | without drops the repaired broadcast and the original give the same hub |
| WsHub.EmptyWf | internal/websocket/hub.go:47-56 | the hub `NewHub` builds is consistent |
| WsHub.RegisterKeepsWf | internal/websocket/hub.go:78-84 | registering keeps the registry consistent |
| WsHub.JoinRoomKeepsWf | internal/websocket/hub.go:150-159 | joining keeps the registry consistent |
| WsHub.LeaveRoomKeepsWf | internal/websocket/hub.go:161-171 | leaving keeps the registry consistent |
| WsHub.DetachKeepsWf | internal/websocket/hub.go:86-96 | the unregister bookkeeping keeps the registry consistent |
| WsHub.UnregisterKeepsWf | internal/websocket/hub.go:86-98 | an unregister that does not crash keeps the registry consistent |
| WsHub.SendOnlyKeepsWf | internal/websocket/hub.go:97 | changing only a connection's queue keeps the registry consistent |
| WsHub.UnregisterFixedKeepsWf | internal/websocket/hub.go:86-98 | the repaired unregister keeps the registry consistent |
| WsHub.DropThenUnregisterCrashes | internal/websocket/hub.go:97-112 | a room member dropped for a full queue is left closed yet still listing the room, the registry is inconsistent, and its own unregister then crashes |
| WsHub.AuthorInRoomCrashes | internal/websocket/hub.go:106-135 | a full author's connection that is in the task's room is closed by the room phase and sent to again by the user phase, which crashes |
| WsHub.FixedDropDetaches | internal/websocket/hub.go:107-135 | the repaired broadcast closes a full connection and removes it from every user set and room, and empties its room list |
| WsHub.FixedSkipsClosed | internal/websocket/hub.go:107-135 | the repaired broadcast never touches a closed connection |
| WsHub.WriteNext | features/tasks/websocket_handler.go:170-187 | the write pump takes the oldest frame first; with the queue drained nothing is written |
| WsHub.DeliveredThenWritten | features/tasks/websocket_handler.go:170-187 | a frame delivered to an idle open queue is the next frame written |
| WsHub.FullQueueHub | features/tasks/websocket_handler.go:114-123 | a consistent hub with one connection in room "t" holding 256 frames |
| WsHub.FullQueueCounterexamples | internal/websocket/hub.go:97-135 | on that hub, an update by the author crashes the broadcast, an update by anyone else leads to a crashing unregister, and the repaired hub survives both and stays consistent |
| Middleware.GetUserFromContext | internal/http/middleware/auth.go:63-68 | the claims stored under the user key, or nothing |
| Middleware.ContextRoundTrip | internal/http/middleware/auth.go:56-68 | the claims authentication stores are what the gates read back; other keys do not interfere |
| Middleware.BearerTokenExact | internal/http/middleware/auth.go:28-34 | a token is found exactly when the header is "Bearer", one space, and a token without spaces |
| Middleware.BearerTokenRejects | internal/http/middleware/auth.go:28-32 | a lowercase scheme, a doubled space or a missing token is refused |
| Middleware.Authenticate | internal/http/middleware/auth.go:19-60 | an empty header, a bad format, a listed token or a bad signature gives 401; otherwise the claims are stored in the context and other keys stay |
| Middleware.AuthenticateFailSecure | internal/http/middleware/auth.go:36-46 | with the blacklist failing closed, a request passes only when the lookup worked and the token is not listed; what passes passes the original too |
| Middleware.LookupErrorFailsOpen | internal/http/middleware/auth.go:39-46 | a failed blacklist lookup is treated as "not listed", so a valid token passes |
| Middleware.FailOpenCounterexample | internal/http/middleware/auth.go:39-46 | with the lookup failing, a valid bearer token is let through by the code and refused by the fail-secure check |
| Middleware.AclGate | internal/http/middleware/acl.go:17-52 | 401 without claims, 400 without an id, 500 exactly when the check fails, pass exactly when the service allows, 403 otherwise; grants are not changed |
| Middleware.RequirePermission | internal/http/middleware/acl.go:17-52 | the next handler runs exactly when the caller is authenticated, an id is given and the service allows; its 403 says "insufficient permissions" |
| Middleware.RequireOwnerOrShared | internal/http/middleware/acl.go:55-90 | the same decision with its own 403 wording |
| Middleware.OwnerOrSharedDecidesLikeRequirePermission | internal/http/middleware/acl.go:17-90 | the two ACL gates decide alike and leave the same store; only a 403's body differs |
| Middleware.EditorMayOnlyWrite | internal/http/middleware/acl.go:93-105 | a non-owner with an editor grant passes the write gate and gets 403 at the delete and share gates |
| Middleware.OwnerPassesCanGates | internal/http/middleware/acl.go:93-105 | the owner, or a holder of the owner role, passes the write, delete and share gates |
| Middleware.OwnerOrAdmin | internal/http/middleware/owner.go:10-38 | 401 without claims; passes the target user themself or role 1; 403 otherwise |
| Middleware.OwnerOrAdminTargets | internal/http/middleware/owner.go:28-36 | role 1 passes for every target; anyone else only for their own id |
| Middleware.RequireRole | internal/http/middleware/roles.go:8-27 | 401 without claims; passes exactly the required role id; 403 otherwise |
| Middleware.RoleGatesCompared | internal/http/middleware/roles.go:8-27 | a caller passes the role gate of one role id at most, so the super admin fails every other role's gate; passing the super admin's role gate implies passing the owner gate for every target; both gates answer 401 on the same requests |
| Router.AllowedOrigins | internal/http/router.go:23-26 | the configured origins, or "http://localhost:5173" alone when none are configured |
| Router.AllowedOriginsAdmits | internal/http/router.go:23-26 | an origin is allowed exactly when configured, or when nothing is configured and it is "http://localhost:5173"; defaulting again changes nothing |
| Router.FileServer | internal/http/router.go:57-73 | a path with `{`, `}` or `*` panics; the empty path panics on its last character; a path not beginning with '/' makes chi panic at the first route; otherwise registration succeeds, every pattern begins with '/', and the last route serves the files with the path stripped |
| Router.FileServerNormalises | internal/http/router.go:64-72 | the files pattern is the path with one trailing slash ensured plus `*`; a 301 to the slashed path exists exactly when a slash was added; "/" serves "/*" |
| Router.SlashedFormSamePattern | internal/http/router.go:64-68 | a path and its slashed form serve the same pattern; only the bare form adds a redirect |
| Router.UploadsRoutes | internal/http/router.go:48-52 | "/uploads" registers a 301 to "/uploads/" and serves the files under the slashed form plus the wildcard |

## Left out

- Database access is not modelled: SQL text, transactions, row scanning and
  driver errors. Each store is a value, and each failure is a flag that the
  caller chooses. Read-query failures in `GetACL`, `List`, `ListChanges`
  and `ListSharedByMe` are not modelled; only their results are. The read
  failure of `FindByID` is modelled, by `TaskRepository.Find`.
- `calculate_effective_permissions` is an SQL function outside the
  repository's code. It is the `effective` parameter of the environment.
- `ListSharedWithMe` (repository and service) is left out. It joins
  through team membership and resource tables that are not part of this
  model.
- The service's `ListSharedByMe`, `ListTasks` and `DeleteTask` are left
  out. They only delegate to the repository members modelled here.
  `ListTasks` also maps a nil slice to an empty one, which is the same
  sequence in the model.
- The repository's `ListTasks` is left out. It runs the same query as
  `List`.
- The cache row's column default for a new row's expiry is not part of the
  source. A new row gets an unspecified expiry, and a refreshed row gets
  one hour.
- The `acls` id column's generator is not part of the source. The model
  takes it to be a sequence that every upsert draws from, including one
  that ends in an update, as a serial column's default does. A failed
  write leaves the store, and so the sequence, as it was.
- AclService.ShareTargets: a failed write is one flag for the whole call
  (`writeFails`), so either every write of a share fails or none does. A
  write failing after earlier ones succeeded is not modelled; that the
  earlier grants stay is proved for a role that does not parse.
- The create handler decodes the request and calls `CreateTask` without
  running the validator; only the update handler validates. The tags of
  `CreateTaskRequest` are therefore stated as a predicate that no create
  path enforces, and `CreateTask` stores whatever it is given.
- A PostgreSQL unique key treats NULL grantee ids as distinct. The model
  compares them as equal, which is what the revoke query matches.
- JSON decoding is abstracted. The stored vector clock is one of four
  shapes: no bytes, a map, undecodable bytes, or `null`. A partially
  decoded map is not modelled. JSON numbers decoded as `float64` reach
  `ParsePermissions` as "unsupported type".
- `strings.ToUpper` is modelled on ASCII letters and the two non-ASCII
  runes whose upper case is an ASCII letter: 'ı' to 'I' and 'ſ' to 'S'.
  Every other rune maps to itself. No other rune has an ASCII upper case,
  so the comparison with the four role names comes out as in Go, although
  the upper-cased text of other runes differs.
- AclRepository.RevokeMatches: compares the stored resource and grantee
  ids as text with the decimal form of the parsed ids. This assumes the
  `grantee_id` and `resource_id` columns are text, so that PostgreSQL
  casts the int64 parameters to their decimal text. The table schema is
  not part of this model; with numeric columns, ids such as "007" would
  match as well.
- The event payloads built with `Sprintf` are records. The missing JSON
  escaping of titles is not modelled.
- The validator's `required` is modelled on `interface{}` as "not nil":
  a JSON `null` or a missing field fails, and any present value passes,
  including `0` and `""`.
- The validator's `dive` is not modelled. Target tags inside `share_with`
  are stated as a predicate, and the service does not rely on them.
- The hub's goroutines, mutex, Redis pub/sub and channel timing are not
  modelled. Each hub step is atomic. The race between `Register` and an
  early `JoinRoom` is not modelled.
- The JSON encoding of hub messages is not modelled. A message is
  delivered as the record itself.
- Ping frames, deadlines and the read pump's JSON parsing are not
  modelled. The pumps are modelled only as the receive on `Send`.
- Snowflake ids, `time.Now` and the client id string are parameters.
- JWT signature checking (`utils.ValidateJWT`) and the Redis `EXISTS`
  lookup are parameters of `Authenticate`.
- Router.FileServer: chi's panic for a pattern not beginning with '/'
  (its `Mux.handle`) is modelled from chi's own code, which is not part of
  this model; the exact message is taken from chi.
- `NewRouter` is modelled only for the origin default and `FileServer`.
  Security headers, the rate limit and the CORS options are left out.
  `http.FileServer` serving itself is not modelled.
- The users and auth features and the database migrations are not part of
  this model.
- WsHub.Register: requires the connection to be new. In the source every
  connection is a fresh pointer.
- Sorting.OrderBy: says nothing about the order of rows with equal keys.
  The database leaves that order unspecified.

## Findings

| source | as written | input that shows it | evidently intended | confidence | as-written member | corrected member |
|---|---|---|---|---|---|---|
| internal/websocket/hub.go:97-112 | a broadcast that finds a room member's queue full closes the queue and removes it from the room only. The connection still lists the room and is still in its user's set. When it disconnects, `Unregister` closes the queue again, which panics and stops the hub. | the hub of `FullQueueHub`; a broadcast for task "t" by user "v", then the unregister of "c" | a dropped connection is detached from every set, and a queue is closed once | not executed | WsHub.DropThenUnregisterCrashes | WsHub.UnregisterFixedKeepsWf |
| internal/websocket/hub.go:106-135 | one broadcast sends to the task's room and then to the author's connections. A full connection that is in both is closed in the room phase and sent to again in the user phase, which panics. | the hub of `FullQueueHub`; a broadcast for task "t" by user "u" | a connection closed by the broadcast is skipped afterwards | not executed | WsHub.AuthorInRoomCrashes | WsHub.FixedSkipsClosed |
| features/tasks/service.go:101-108 | decoding the JSON literal `null` into the fresh map makes it nil, and `clockMap[userID]++` then panics. The comment says the map can never be nil. | a visible task whose `vector_clock` column holds `null`, updated by its owner | an unreadable clock, `null` included, starts from the empty map | not executed | TaskService.NullClockPanics | TaskService.UpdateTaskFixed |
| internal/http/middleware/auth.go:41-46 | the comment promises "Fail Secure", meaning block when Redis fails. The condition `err == nil && exists > 0` blocks only when the lookup works and finds the key, so a failed lookup lets a revoked token through. | header "Bearer " + a valid token while the `EXISTS` lookup errs | a failed lookup refuses the request | not executed | Middleware.FailOpenCounterexample | Middleware.AuthenticateFailSecure |
