# Sovngarde staff panel — a Dafny model

This project models the part of Infinity Bot List's staff tooling ("sovngarde")
whose behaviour can be stated exactly. It covers:

- **Panel login.** The two-stage login protocol of the staff panel. `Login`
  creates a pending session. `LoginMfaCheckStatus` handles TOTP enrolment.
  `LoginActivateSession` activates a session with a one-time code.
  `LoginResetMfa` and `Logout` complete it. The model works over the
  `staffpanel__authchain` and `staffpanel__paneldata` tables (module `Session`).
- **RPC gate.** The capability gate of `ExecuteRpc` and the tier filter of
  `GetRpcMethods` (module `Rpc`).
- **CDN pipeline.** `UploadCdnFileChunk` fills an in-memory chunk cache
  (module `ChunkCache`). `UpdateCdnAsset` validates asset names and paths
  (`validate_name`, `validate_path`) and resolves them under a scope root
  (module `AssetPath`). It then runs `CreateFolder`, `AddFile`, `CopyFile` or
  `Delete` on the scope's file tree (module `Assets`). End-to-end scenarios
  chain uploads into `AddFile` (module `AssetPipeline`).
- **Partners.** The checks `AddPartner` makes before it inserts a partner
  (module `Partners`).
- **Admin commands.** The onboarding commands `onboardman approve|deny|reset`
  and `rpcunlock`/`rpclock` (module `Onboarding`).
- **Staff commands.** The staff-list commands `staff recalc|add|del`
  (module `Staff`).
- **REST endpoints.** The five review endpoints of the REST API. Each checks
  the `Authorization` header against the staff member's API token and flags
  (module `Routes`).

Every handler is a pure function. It takes the tables it touches and returns
the new tables together with the reply, and each reply maps to the HTTP
status the handler answers with. What the handlers obtain from outside
becomes an explicit parameter:

- the OAuth2 exchange;
- TOTP checking;
- SHA-512 with hex encoding;
- randomly generated tokens, secrets and chunk ids;
- the capability set;
- the RPC handler;
- the Discord button the invoker pressed;
- the configured role ids;
- the current time.

Shared vocabulary lives in `Common` (optional values, bytes, statuses, string
scans) and `Accounts` (the `users` row and capability names).

## Model

| member | source | states |
|---|---|---|
| `Common.AnyOutside` | src/panelapi/server.rs:1205 | the character scan reports a character outside the allow-list exactly when one exists |
| `Common.Occurs` | src/panelapi/server.rs:1227-1231 | substring search finds `t` exactly when it occurs at some position of `s` |
| `AssetPath.ValidateName` | src/panelapi/server.rs:1198-1217 | a name is accepted exactly when every character is in the allow-list, it has no `/` and no `\`, and it does not start with `.`; the empty name is accepted |
| `AssetPath.ValidatePath` | src/panelapi/server.rs:1219-1237 | a path is accepted exactly when every character is in its list, it has no `..`, no `//` and no `\`, and it does not start with `/`; the empty path is accepted |
| `AssetPath.AssetDir` | src/panelapi/server.rs:1239-1247 | the asset directory starts with the scope root, and its components are the root's followed by the path's when a path is given |
| `AssetPath.AssetTarget` | src/panelapi/server.rs:1239-1253 | the target starts with the asset directory, equals it exactly when the name is empty, and otherwise appends the name's components |
| `AssetPath.Components` | src/panelapi/server.rs:1242-1253 | splitting a resolved path at `/` yields at least one component, and no component contains `/` |
| `AssetPath.JoinComponents` | src/panelapi/server.rs:1242-1253 | rejoining the components gives back the path, so the split loses nothing |
| `AssetPath.ComponentsOfJoin` | src/panelapi/server.rs:1246 | the `/` inserted between root, path and name never merges two components |
| `AssetPath.ParentComponentNeedsDots` | src/panelapi/server.rs:1228 | a `..` component can only come from two adjacent dots in the text |
| `AssetPath.ResolvedComponents` | src/panelapi/server.rs:1242-1253 | an accepted path and name resolve to the root's components, then the path's (if non-empty), then the name (if non-empty) |
| `AssetPath.NoEscapeFromRoot` | src/panelapi/server.rs:1239-1253 | for accepted inputs, the target starts with the root; it has a `..` component only if the root has one; it equals the root exactly when path and name are both empty |
| `AssetPath.DotsInsideNameAreNotAnEscape` | src/panelapi/server.rs:1205-1208 | the name check allows the text `..` inside a name (`a..b`), which is not a `..` component |
| `AssetPath.EmptyInputsResolveToRoot` | src/panelapi/server.rs:1243-1253 | both validators accept the empty string, and empty inputs resolve to the scope root itself |
| `ChunkCache.UploadChunk` | src/panelapi/server.rs:1081-1137 | a missing capability, an over-size chunk or an empty chunk is rejected with the cache unchanged; on success exactly the new id maps to the chunk; an id already present fails after 10 lookups with the cache unchanged |
| `ChunkCache.RetryWithSameId` | src/panelapi/server.rs:1117-1136 | the loop as written stores the chunk exactly when the single id is free, and otherwise gives up after 10 lookups |
| `ChunkCache.RetryWithFreshIds` | src/panelapi/server.rs:1117-1136 | the intended loop stores under some generated id whenever one of the ten is free, and never overwrites an entry |
| `ChunkCache.UploadChunkFresh` | src/panelapi/server.rs:1081-1137 | the corrected upload succeeds exactly when the gates pass and a free id is generated; it adds a new key only |
| `ChunkCache.SameIdIsConstantGenerator` | src/panelapi/server.rs:1114-1130 | the loop as written is the intended loop fed a generator that repeats its first id |
| `ChunkCache.CollisionDefeatsRetries` | src/panelapi/server.rs:1114-1130 | when the first id collides and a second would be free, the upload as written fails while the corrected one stores the chunk |
| `Assets.Assemble` | src/panelapi/server.rs:1484-1492 | assembly succeeds exactly when every listed id is cached and none repeats; it writes the chunks in listed order and removes exactly those ids; when it fails at a listed id, exactly the ids listed before it have been removed and that id is not in the remaining cache (never cached, or already consumed by a repeat) |
| `Assets.AddFileAction` | src/panelapi/server.rs:1378-1534 | no chunks, over 100000 chunks, a missing chunk or an existing target without overwrite is rejected before anything changes; the file is published exactly when the digest of the in-order concatenation matches, and the chunks are then gone from the cache; a mismatch leaves the destination as it was but consumes the chunks and leaves a temp file; a repeated id fails on its second removal; only the directory and the target can change |
| `Assets.CreateFolderAction` | src/panelapi/server.rs:1348-1377 | a folder is created exactly when nothing exists at the target; nothing else changes |
| `Assets.RemoveTree` | src/panelapi/server.rs:1658-1661 | removing a directory removes it and everything below it and keeps every other entry unchanged |
| `Assets.DeleteAction` | src/panelapi/server.rs:1651-1671 | deletion succeeds exactly when the target exists; a directory goes with its whole subtree; entries outside the target are untouched |
| `Assets.Subtree` | src/panelapi/server.rs:1617-1632 | the copied subtree holds exactly the rebased source entries: every entry below the source appears at the same relative place below the destination with the same node, and every entry of the subtree is such a rebased entry |
| `Assets.CopyTreeKeepsEntries` | src/panelapi/server.rs:1617-1632 | after a recursive copy the destination is a directory, every source entry reappears below it, and no other entry is added or changed |
| `Assets.TransferFrame` | src/panelapi/server.rs:1575-1636 | a move or copy changes only the source, the destination and what lies below them |
| `Assets.PlanTransfer` | src/panelapi/server.rs:1575-1636 | it renames when the original is to be deleted and copies otherwise; files and directories take separate paths |
| `Assets.CopyFileAction` | src/panelapi/server.rs:1535-1650 | an invalid or empty `copy_to` is rejected; an existing non-directory destination without overwrite is rejected; the transfer succeeds exactly when the target exists, a file is not put onto a directory nor a directory onto a file, and no entry of a copied tree lands on an entry of the other kind; a failure changes nothing; on success the tree is the planned transfer from the target to `root/copy_to` |
| `Assets.KindClashFails` | src/panelapi/server.rs:1617-1633 | copying or moving a directory whose entry `x` has the other kind than the destination's entry `x` fails with the tree unchanged |
| `Assets.ApplyTransfer` | src/panelapi/server.rs:1575-1633 | a file transfer puts the source's file at the destination, a move removes the source and a copy keeps it; a tree transfer makes the destination a directory, and a tree move removes the whole source tree |
| `Assets.UpdateCdnAsset` | src/panelapi/server.rs:1170-1253 | a missing capability, an unknown scope, or a rejected name or path changes nothing; whatever the action, no entry outside the scope root changes; for an accepted request, at the resolved target: a folder is created exactly when nothing is there, a deletion succeeds exactly when something is there and removes it, a file is published (and its chunks consumed) exactly under the `AddFile` conditions at the resolved directory and target, and a successful copy is the planned transfer of the target |
| `Assets.DirAndTargetWithin` | src/panelapi/server.rs:1242-1253 | for accepted inputs, the asset directory and the final path both lie within the scope root |
| `AssetPipeline.UploadThenAddFile` | src/panelapi/server.rs:1378-1534 | three uploaded chunks, assembled under their matching digest, publish their concatenation in order and leave the cache as it was before the uploads |
| `AssetPipeline.ThirtyByteFile` | src/panelapi/server.rs:1170-1534 | three 10-byte chunks, sent through the whole query with an accepted name and path, publish a 30-byte file at the resolved target and leave the cache as before the uploads |
| `AssetPipeline.WrongDigestConsumesChunks` | src/panelapi/server.rs:1484-1524 | after a digest mismatch the uploaded chunks are gone and the destination does not exist, so the upload must be redone |
| `Session.FindSession` | src/panelapi/server.rs:517-519 | the token lookup returns a row that carries the token, and finds nothing exactly when no row does |
| `Session.CheckAuth` | src/panelapi/server.rs:681-683 | the secure lookup accepts exactly when the insecure lookup finds an active session, and then returns that same row |
| `Session.DropUser` | src/panelapi/server.rs:453-459 | deleting by user keeps exactly the other users' rows and leaves that user with no session |
| `Session.DropToken` | src/panelapi/server.rs:748-754 | deleting by token keeps exactly the rows with other tokens; the number deleted is the number of rows that carried the token |
| `Session.ActivateToken` | src/panelapi/server.rs:660-666 | every row with the token becomes active; every other row and every user and token stays the same |
| `Session.GetLoginUrl` | src/panelapi/server.rs:357-375 | only version 2 is accepted; the URL is the authorize URL with the client id and the given redirect |
| `Session.Login` | src/panelapi/server.rs:376-515 | a token is issued exactly when the redirect is allow-listed and the OAuth2 identity is a known staff user; any other outcome changes nothing; on success the user's previous sessions are replaced by one pending session with the new token, and panel data is created unverified only if absent; the session invariants are preserved |
| `Session.MfaCheckStatus` | src/panelapi/server.rs:516-614 | an unknown token or a non-pending session is refused with nothing changed; for an unverified user only that user's secret is replaced and returned; for a verified user nothing changes and no secret is returned |
| `Session.ActivateSession` | src/panelapi/server.rs:615-679 | activation happens exactly when the token resolves, panel data exists and the code is accepted; a failure changes nothing; success activates the token's rows, leaves the other rows alone and marks MFA verified |
| `Session.ResetMfa` | src/panelapi/server.rs:680-745 | a reset needs an active session and an accepted code; a failure changes nothing; success marks MFA unverified and deletes every session of the user |
| `Session.Logout` | src/panelapi/server.rs:746-757 | every row with the token is deleted and their number reported; an unknown token is not an error; other tables are untouched |
| `Session.PanelDataNeverMissing` | src/panelapi/server.rs:540-546 | while every session's user has panel data, the "should never happen" branch and the two `mfaNotSetup` branches are unreachable |
| `Session.LoginUrlSkipsAllowList` | src/panelapi/server.rs:357-385 | a redirect outside the allow-list still gets a login URL; only `Login` refuses it |
| `Session.ActivationIgnoresState` | src/panelapi/server.rs:615-619 | activation succeeds on an already active session, which enrolment refuses |
| `Session.LoginThenActivate` | src/panelapi/server.rs:376-679 | after login the new session is visible only to the insecure lookup; after activation with an accepted code the secure lookup accepts it and MFA is verified |
| `Session.ResetRevokesEverySession` | src/panelapi/server.rs:733-741 | after an MFA reset no token resolves to the user |
| `Session.LogoutIsIdempotent` | src/panelapi/server.rs:746-757 | a second logout with the same token deletes nothing |
| `Rpc.ListMethods` | src/panelapi/server.rs:945-985 | unfiltered, it is every variant in declaration order; filtered, it holds exactly the variants whose own tier flag is set; it is always an order-preserving subsequence |
| `Rpc.ReplyStatus` | src/panelapi/server.rs:875-906 | only executed and listed replies have a success status |
| `Rpc.ExecuteRpc` | src/panelapi/server.rs:866-907 | without the RPC capability the reply is 403; with it and an active session, the handler's outcome maps to 204, 200 or 400 |
| `Rpc.GetRpcMethods` | src/panelapi/server.rs:908-988 | the list is produced exactly when the capability, an active session and the user row are present, and it is the tier filter over the caller's flags, with "head" meaning head administrator or head developer (lines 928-943) |
| `Rpc.GateBeforeHandler` | src/panelapi/server.rs:875-881 | without the capability or an active session the reply does not depend on the handler |
| `Rpc.NoTierCheckAtExecution` | src/panelapi/server.rs:866-907 | a method hidden by the filtered listing still executes for a caller with the RPC capability |
| `Rpc.OwnerSeesOnlyOwnerTier` | src/panelapi/server.rs:950-972 | tiers are not hierarchical: an owner without other flags sees only owner-tier methods |
| `Partners.LinkError` | src/panelapi/server.rs:1820-1843 | a link is refused exactly when its name is empty, its URL is empty or its URL does not start with `https://` |
| `Partners.FirstLinkError` | src/panelapi/server.rs:1820-1844 | the loop reports nothing exactly when every link is acceptable, and otherwise reports the complaint about the first bad link |
| `Partners.ImageError` | src/panelapi/server.rs:1777-1810 | the image passes exactly when it is a regular file of 1 to 100000000 bytes; a missing image is a metadata failure |
| `Partners.AddPartner` | src/panelapi/server.rs:1731-1898 | a partner is inserted exactly when the capability holds and every check passes; a refusal changes nothing; the checks run in the source's order |
| `Partners.ImagePath` | src/panelapi/server.rs:1775 | the image path's components are the root's, then `partners`, then those of `id.ext`, so every `/` in the id starts a new component |
| `Partners.ImagePathNotConfined` | src/panelapi/server.rs:1775 | the partner id is not validated, so an id like `../logo` puts a `..` component into the image path |
| `Partners.ParentStepSurvives` | src/panelapi/server.rs:1775 | a `/../` in the formatted path is a `..` component |
| `Onboarding.ApproveOnboard` | src/admin.rs:39-83 | approval succeeds exactly from manager review or denied, and sets completed; from any other state it reports that state and writes nothing |
| `Onboarding.DenyOnboard` | src/admin.rs:95-134 | denial succeeds exactly from manager review and sets denied; otherwise nothing is written |
| `Onboarding.ResetOnboard` | src/admin.rs:146-203 | after any answer other than cancel, the member is reset to pending with no guild and a start time of now, whatever the prior state; no answer or cancel changes nothing |
| `Onboarding.RpcUnlock` | src/admin.rs:205-280 | only the unlock button appends the action-log entry and stamps the author's last verification with now; anything else changes nothing |
| `Onboarding.RpcLock` | src/admin.rs:282-295 | the author's last verification becomes exactly one hour before now; nothing else changes |
| `Onboarding.UnlockThenLock` | src/admin.rs:205-295 | an unlock opens the ten-minute window and a later lock closes it |
| `Onboarding.DenialThenApproval` | src/admin.rs:53-126 | a denied member can still be approved, but cannot be denied a second time |
| `Onboarding.CompletedOnlyReopensByReset` | src/admin.rs:53-195 | completed is final for approve and deny; a reset sends the member back to pending, from which approval is refused |
| `Staff.Recalc` | src/staff.rs:134-157 | one member's flags: staff iff they hold any of the four roles; ibldev iff developer or head developer; iblhdev is only ever set; admin is the reset value unless the staff-manager branch is taken; other columns unchanged |
| `Staff.RecalcAll` | src/staff.rs:134-157 | every row is recalculated from its owner's roles on the staff server; users without any of the four roles end with staff and ibldev cleared |
| `Staff.StaffRecalc` | src/staff.rs:66-163 | recalculation happens exactly when the invoker passes the check, is on the staff server, confirms, and all four role ids are configured; otherwise nothing changes; as written, every user ends with admin set |
| `Staff.StaffRecalcCorrected` | src/staff.rs:134-157 | with the reset writing admin false, admin ends set exactly for holders of the staff-manager role whom no developer role shadows |
| `Staff.RecalcGrantsAdminToEveryone` | src/staff.rs:135 | a user with no roles leaves the recalculation as written as an administrator, and leaves the corrected one without admin |
| `Staff.DeveloperRoleShadowsHeadDeveloper` | src/staff.rs:140-147 | a member with both developer roles takes the developer branch only and is never granted iblhdev |
| `Staff.StaffAdd` | src/staff.rs:166-188 | the staff flag is set exactly for a member with the web-moderator role, and nothing else changes |
| `Staff.StaffDel` | src/staff.rs:191-222 | self-removal always proceeds; otherwise staff managers and owners are protected; removal clears staff, ibldev and admin only |
| `Staff.RemovalKeepsHeadFlags` | src/staff.rs:213 | removal leaves hadmin and iblhdev as they were |
| `Routes.Route` | api/src/routes.rs:3-267 | the action runs only behind the gate; 401 exactly when the gate refuses, where a missing `Authorization` header counts as the empty string (lines 12-18); an action error becomes 400 with `done = false` and its text; success is 200 with the result for approve and 204 otherwise |
| `Routes.RouteStatus` | api/src/routes.rs:27-266 | the status is 401, 400, 200 or 204 exactly under the gate and outcome conditions above |
| `Routes.UnauthorizedNeverActs` | api/src/routes.rs:27-35 | a refused request does not depend on the action |
| `Routes.EmptyTokenNeedsNoHeader` | api/src/routes.rs:12-35 | a staff member whose stored token is empty passes the gate with no header at all |
| `Routes.HeadWithoutStaffCannotReview` | api/src/routes.rs:138-140 | the head endpoints do not consult the staff flag, and the review endpoints do not consult the head flags |
| `Routes.RemovedHeadKeepsHeadEndpoints` | api/src/routes.rs:245-247 | a head developer who removed themselves from staff loses approve but keeps vote reset and unverify |

## Left out

- I/O and external services are inputs or oracles, not behaviour. This covers
  Discord OAuth2, TOTP decode and verify, SHA-512 with hex, random generation,
  `get_capabilities`, `check_auth`, `check_auth_insecure`, `RPCMethod::handle`
  and the bot-management library. Their code is not part of this model.
- The session lookups take the first row that carries the token. A pending
  session is visible to the insecure lookup only.
- The `is_hdev_hadmin`, `is_admin_dev` and `staff_server` checks are not part
  of this model. They are modelled from their names as head admin or head
  developer, admin or developer, and a boolean for the staff server.
- Session.Login: the generated token's length (4196 to 5999 characters) is not
  modelled, because the token is an input.
- The chunk cache's one-hour time-to-live is only a constant
  (`ChunkCache.ChunkTtlSeconds`). Expiry, concurrency and eviction are not
  modelled. The query's own documentation says ten minutes.
- The file system is a flat map from full path to node:
  - ancestors are not tracked, so recursive directory creation creates only
    the named directory;
  - symlinks are treated as files;
  - permissions, `ListPath` and `ReadFile` are not modelled, since both only
    read.
- Copying a directory into its own subtree, and copying a path onto itself,
  are not analysed beyond what `ApplyTransfer` computes.
- Assets.CopyFileAction: a tree transfer that fails part-way is modelled as
  failing whole. The source walks the directory listing and stops at the
  first failing entry, leaving the entries already copied or renamed in
  place. The model reports `TransferFailed` with the tree unchanged.
- Database errors are not modelled: every query is treated as succeeding.
  Two handlers are not atomic when one fails. `staff recalc`
  (src/staff.rs:135-157) runs its blanket UPDATE and then one UPDATE per
  member without a transaction, so a failure mid-loop would leave `admin`
  set for everyone with only some rows restored. `rpcunlock`
  (src/admin.rs:256-270) writes the action-log entry before its UPDATE, so a
  failed UPDATE would leave a logged unlock that did not happen.
- Assets.AddFileAction: failures of the temporary-file writes, the fsync and
  the final copy are not modelled. Only the copy onto the freshly created
  directory is (as `PublishFailed`).
- Discord messages, DMs, kicks and the reply texts are left out. The error
  text is kept only where the status mapping returns it.
- `GetIdentity`, `BotQueue`, `SearchEntitys`, the partner list and partner
  deletion, and the other panel queries are left out. They are database reads
  or outside this model's core.
- Session.ReplyStatus, Partners.ReplyStatus, Assets.AssetStatus and
  ChunkCache.UploadStatus map replies to statuses without a contract of their
  own. Their rows are covered by the handlers' contracts.
- A header value that is not visible ASCII makes the REST handlers panic.
  That case is not modelled.

## Findings

| source | as written | input that shows it | evidently intended | confidence | as-written member | corrected member |
|---|---|---|---|---|---|---|
| src/panelapi/server.rs:1114-1130 | the chunk id is generated once before the retry loop, so all ten rounds look up the same id | cache already holding id `taken`, generator returning `taken` then `free` | generate a fresh id on every round | high; not executed | `ChunkCache.CollisionDefeatsRetries` | `ChunkCache.UploadChunkFresh` |
| src/staff.rs:135 | the blanket reset sets `admin = true` for every user | a user holding none of the four roles, recalculated | reset `admin` to false, so that only staff managers are set again | medium; not executed | `Staff.RecalcGrantsAdminToEveryone` | `Staff.StaffRecalcCorrected` |
