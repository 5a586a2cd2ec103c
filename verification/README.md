# Usernaut: a verified model of the group reconciler

Usernaut is a Kubernetes operator that keeps teams on SaaS backends (Fivetran, Rover,
Snowflake) equal to the groups that `Group` custom resources describe. This project models
its reconciler and the code it leans on in Dafny, and proves what the operator promises over
every input, every interleaving and every run.

Check everything with `dafny verify dfyconfig.toml`.

## Files

| file | contents |
|---|---|
| `Common.dfy` | CRs, backends, the ID cache, failures |
| `Expansion.dfy` | nested-group expansion: the path-scoped walk, deduplication, the visit-once traversal, reachability |
| `Naming.dfy` | group-name patterns and templates |
| `Backends.dfy` | the gate `clients.New`, cache keys, the abstract client over team stores |
| `Sync.dfy` | the work for one backend: team, users, membership diff |
| `Owners.dfy`, `Status.dfy` | owner references, conditions, the per-backend report |
| `Reconcile.dfy` | the backend loop, deletion and `Reconcile` as functions on worlds |
| `Controller.dfy` | the reconciler object whose methods have exactly the effect of those functions |
| `Outcomes.dfy` | which calls a reconcile makes, where it stops, and the exact status it leaves |
| `Convergence.dfy` | Ready means in sync, and when it does not; idempotence; the report, and when it is right |
| `Deletion.dfy` | what `deleteBackendsTeam` does, exactly when it succeeds, and that it can be retried |
| `Invariants.dfy` | cache coherence, the history with its IDs and the guard of finalizers, kept by every reconcile |
| `Runs.dfy` | whole runs with arbitrary edits: at-most-once creation and deletion, cache coherence, finalizer safety |
| `Failures.dfy` | no reconcile of any run fails because of what is cached |
| `Progress.dfy` | success without failures, from every reachable world |
| `Together.dfy` | several CRs: what one leaves to the others, teams in common, all in sync at once |
| `WorkerPool.dfy` | the Fivetran worker pool as an interleaving step system |
| `Preload.dfy` | the cache preload and when Go's iteration order shows in it |
| `Startup.dfy` | a preloaded cache is one that runs may start from |
| `Pages.dfy` | pagination and the two Snowflake user indexes |

## How the environment is modelled

- Every backend call and every write to the API server consumes one entry of an arbitrary
  oracle `reply: nat -> Reply`. Reading a CR consumes none and fails exactly when the CR is not
  stored. A membership call that fails may have been applied in part. All theorems hold for
  every oracle that meets the conditions they name.
- A backend is a store of teams. Creating a team may hand back an existing team of that name
  (as Rover does); deleting an absent team succeeds (as on Rover); an ID in use under another
  name is refused.
- A cached string is empty, undecodable, or a map from backend keys to IDs. A cache read fails
  only on a miss and cache writes succeed.
- The iteration order of Go maps is arbitrary: a choice inside a loop, the function `arrange`, or the
  order in which a fetched map is listed.
- LDAP is a partial map from users to emails, read once per reconcile.
- Reconciles are serial. In a run, users may create, edit in any way and delete CRs, and others
  may change team memberships. Created IDs are not empty, and emails are never team names (`mail`
  splits the key space; `SharedKeyCreatesTwice` shows what happens otherwise). Only
  `FinalizerSafety` asks more, that every edit leaves each live created team covered by some CR.
  `GuardedExactlyIfSafe` shows that this is exactly what is needed, `EditsThatAreSafe` names
  ordinary edits that qualify, and `EditedBackendsLeak` shows what an edit outside it leads to.
- Runs start from a world that the preload establishes (`Startup.Boot`).

## Findings

- A failed addition or removal ends the whole reconcile: later backends are not touched and the CR
  stays waiting with its old report (`StoppedReconcile`); every other failure only concerns its
  backend, and a backend reported as successful is in sync (`ReportedMeansInSync`).
- A CR under deletion keeps its finalizer for as long as one listed backend is not accepted or has no
  matching pattern, even if no team was ever created there (`FinalizationConverges`).
- Failures of one backend are recorded under its type, so a healthy backend of the same type is
  reported as failed too (`ReportIsByKind`, `HealthyReportedAsFailed`); the report is right about
  every backend exactly when backends of one type end alike (`ReportExactIfAlike`). Ready itself is
  exact.
- "Ready means in sync" holds after a reconcile of a live CR whose listed groups are all stored
  and whose first writes (finalizer, owner references, waiting status) go through. In all other
  cases the status stays as it was (`ReadyMeansInSync`, with `PrepareExact` for the condition), and
  a Ready CR whose listed group is gone reads Ready although it is out of sync (`StaleReady`).
- Taking a backend off the list of the only CR that covers a team there, then deleting the CR,
  leaves the team live with no finalizer to guard it (`EditedBackendsLeak`). Adding backends is
  safe, and so is taking one off where no created team is live, and any edit before the finalizer
  is set.
- Two CRs that name the same team on a backend overwrite each other's members, and deleting one of
  them deletes the team of the other, which stays Ready (`SharedTeamIsTakenOver`,
  `SharedTeamIsDeleted`). CRs without a team in common do not disturb each other
  (`OthersStayInSync`).
- A member without LDAP data whose name is the synced ID of another member makes the team
  oscillate. Idempotence holds if and only if there is no such clash (`ReconcileIsIdempotent`).
- With up to nine captures, and captures and literals free of `$` and `|`, the template loop is
  simultaneous substitution if and only if no placeholder is used in both of its forms
  (`LoopIsSubstitution`); with ten captures `$10` is read as `$1` followed by `0`
  (`TenthCaptureIsMisread`), and a capture containing `$2` is expanded again
  (`CapturesAreExpandedAgain`).
- The expansion of a CR starts at the CR named like its `group_name`, not at the CR itself
  (`OwnMembers`); if no CR has that name, every reconcile fails (`StrayGroupName`).
- A present member without LDAP data that is no synced ID is collected for removal twice
  (`RemovalsRepeat`). Through the worker pool, a backend that refuses to remove an absent member
  then fails in every schedule, although the member is removed (`StrictRemovals`). In the same way
  two members who share an ID put it on the list of additions twice (`AddsRepeat`, `StrictAdds`).
- The preloaded cache depends on Go's iteration order exactly when some place is last claimed by a
  fetched map that gives it two IDs, such as two users without email (`OrderShowsExactly`).
- A paginated listing over finitely many pages ends exactly when it never leads back to an address
  already requested (`EndsUnlessRevisiting`); otherwise the loops do not end.

## Model

| member | source | states |
|---|---|---|
| `Expansion.FetchUniqueGroupMembers` | internal/controller/group_controller.go:568-599 | returns the path-scoped walk and, on success, cycle or error, leaves the shared visited set as it was on entry; terminates on every graph |
| `Expansion.DeduplicateMembers` | internal/controller/group_controller.go:601-612 | the one-pass loop with a set of seen members computes the deduplication that `DedupExact` characterises |
| `Expansion.DedupExact` | internal/controller/group_controller.go:601-612 | deduplication keeps exactly the elements, once each, by first occurrence |
| `Expansion.ExpansionEqualsVisitOnce` | internal/controller/group_controller.go:568-612 | on every store, cyclic or incomplete, the walk and a depth-first traversal that visits each group once fail with the same missing group or give the same deduplicated list in the same order |
| `Expansion.ExpansionIsReachability` | internal/controller/group_controller.go:574-598 | expansion fails exactly when a reachable group is missing; otherwise its users are exactly those of the reachable groups |
| `Naming.ProcessGroupName` | pkg/utils/utils.go:259-276 | the loop of in-place replacements computes `ReplaceGroups`, the subject of `LoopIsSubstitution` |
| `Naming.LoopIsSubstitution` | pkg/utils/utils.go:259-276 | for up to nine captures, and captures and literals without `$` and `\|`, the sequential loop equals simultaneous substitution of the tokenised template if and only if no captured placeholder is used in both forms |
| `Naming.BothFormsLeaveAPlaceholder` | pkg/utils/utils.go:267-272 | with both forms of a placeholder the plain one survives |
| `Naming.TenthCaptureIsMisread` | pkg/utils/utils.go:263-272 | with ten captures `$10` becomes the first capture followed by `0` |
| `Naming.CapturesAreExpandedAgain` | pkg/utils/utils.go:263-272 | a capture that looks like a later placeholder is expanded again |
| `Naming.TransformExact` | pkg/utils/utils.go:278-297 | the patterns of the backend type name the team whenever that type is configured, whatever else is; otherwise the default ones do; in the chosen list the earliest pattern that does not simply fail to match decides, and there is no name exactly when all fail to match or there is no list |
| `Naming.ReplaceChar` | pkg/utils/utils.go:268 | replacing one character by another keeps the length, replaces every occurrence and keeps everything else |
| `Naming.UnderscoredForm` | pkg/utils/utils.go:266-269 | `$1\|replace(-,_)` becomes the capture, whatever it is, with `_` for each `-` |
| `Backends.CacheKeyInjective` | pkg/clients/client.go:66-104 | on the types `clients.New` accepts, the key name_type determines the backend |
| `Backends.CacheKeyAmbiguous` | internal/controller/group_controller.go:307 | without that gate two backends can share a key |
| `Backends.LowerExact` | pkg/clients/snowflake/users.go:71-80 | lower-casing leaves no upper-case letter and changes nothing else; texts fall together exactly if they differ in case only |
| `Backends.SupportedUpToCase` | pkg/clients/client.go:74-104 | the case of a type does not matter to the gate |
| `Outcomes.RefusedExactly` | pkg/clients/client.go:66-104 | a backend is recorded as invalid exactly if it is not configured, not enabled, of another type or cannot connect; then nothing is done for it, and no list with it can be deleted |
| `Sync.SyncBackendFrame` | internal/controller/group_controller.go:163-245 | the work for a backend adds or changes only cache entries, teams and events of that backend, and never loses or replaces a cached ID |
| `Sync.CreateUsersCachesAll` | internal/controller/group_controller.go:411-462 | after success every member with LDAP data has a cached ID, also when members share an email |
| `Sync.CreateUsersExact` | internal/controller/group_controller.go:411-462 | in the order of the users, one user is created for each email without an ID until a failure stops the loop; the ID cached for an email is the one the backend gave in reply, no other ID changes, and the end is nil, a decode error or the failed call, which is the last |
| `Sync.NeededExact` | internal/controller/group_controller.go:417-440 | these emails are exactly those of members with LDAP data that have no ID on the backend, each once |
| `Sync.FetchOrCreateCases` | internal/controller/group_controller.go:464-517 | a cached ID is returned without a call, an undecodable value is an error without a call, and otherwise one call creates the team whose ID is cached and returned, unless it fails |
| `Sync.IdsToSyncExact` | internal/controller/group_controller.go:355-391 | the first loop of `processUsers` succeeds exactly when every member with LDAP data has a cached ID, and collects exactly those IDs |
| `Sync.FirstWithoutIdDecides` | internal/controller/group_controller.go:369-391 | otherwise the first member without an ID decides between the errors and the silent empty-value return |
| `Sync.ProcessingCannotFail` | internal/controller/group_controller.go:346-462 | once the users have been created, `processUsers` neither fails nor takes the silent empty-value return |
| `Sync.DiffExact` | internal/controller/group_controller.go:351-408 | adds are wanted minus existing, removes are existing minus wanted plus existing names without LDAP data, and the two are disjoint |
| `Sync.DiffGivesTeam` | internal/controller/group_controller.go:351-408 | adds and removes commute and give the wanted team if and only if no present member without LDAP data bears a wanted ID |
| `Sync.RemovalsRepeat` | internal/controller/group_controller.go:346-409 | for users listed once, the removal list holds a member twice exactly if it has no LDAP data and is no synced ID, and every other member to be removed once |
| `Sync.AddsRepeat` | internal/controller/group_controller.go:346-409 | for users listed once, the list of additions holds a missing ID once for each user that bears it |
| `Sync.SyncedEffect` | internal/controller/group_controller.go:180-244 | a backend that finished has its team and users cached and exactly this membership |
| `Sync.SecondPass` | internal/controller/group_controller.go:180-244 | a further pass creates nothing; it changes nothing if the team is in sync without clashes, and without failures only then |
| `Owners.NeedsUpdateIsInequality` | internal/controller/group_controller.go:645-656 | the length-plus-inclusion test is set inequality |
| `Owners.OwnersFollowSpec` | internal/controller/group_controller.go:614-676 | fails exactly when a listed group is missing; afterwards the Group-kind UIDs are those of the listed groups, other references are kept in order, and a second call asks for no update |
| `Owners.WrittenOwners` | internal/controller/group_controller.go:624-668 | what is stored: the other references first, then one reference per UID, each with the name and the UID of one stored listed group |
| `Owners.OtherRefsExact` | internal/controller/group_controller.go:634-643 | kept are exactly the references that are not of kind Group of the own API version, as often as they occur |
| `Status.SetThenRead` | api/v1alpha1/group_types.go:86-126 | a written condition is read back and other kinds are untouched |
| `Status.SetConditionExact` | api/v1alpha1/group_types.go:94-100 | a condition replaces the first of its kind in place or is appended; the others stay where they are |
| `Status.LastWriteWins` | api/v1alpha1/group_types.go:86-126 | a condition written twice is as if written once |
| `Status.UpsertCondition` | api/v1alpha1/group_types.go:94-100 | the loop replaces the first condition of the kind or appends |
| `Reconcile.AllBackendsSettle` | internal/controller/group_controller.go:163-245 | a loop without errors leaves every listed backend prepared, and in sync unless a name clashes there |
| `Reconcile.LoopIsQuiet` | internal/controller/group_controller.go:163-245 | if every backend is settled the loop changes nothing, whatever fails |
| `Reconcile.QuietMeansSettled` | internal/controller/group_controller.go:163-245 | a failure-free loop over prepared backends that changed nothing found all of them settled |
| `Controller.GroupReconciler.FetchOrCreateTeam` | internal/controller/group_controller.go:464-517 | leaves the cache, the teams and the call history, and returns the ID or error, of the function whose frame, coherence and at-most-once properties are proved below |
| `Controller.GroupReconciler.CreateUsersInBackendAndCache` | internal/controller/group_controller.go:411-462 | the loop has the effect on cache and history that `CreateUsersExact` describes; every user it creates is cached under the created ID |
| `Controller.GroupReconciler.ProcessUsers` | internal/controller/group_controller.go:346-409 | the lists of adds, in order, and of removes, as a multiset, under any map iteration order |
| `Controller.GroupReconciler.DeleteBackendsTeam` | internal/controller/group_controller.go:276-344 | returns nil exactly if every listed backend has a client, a transformed name and a decodable value, and no call fails; then no team ID of the group is cached; its effect is that of `DeleteTeams`, the subject of `DeletionIsRetryable` |
| `Controller.GroupReconciler.SetOwnerReference` | internal/controller/group_controller.go:614-676 | under any map iteration order, fails, skips the update or stores the references that `OwnersFollowSpec` describes |
| `Controller.GroupReconciler.ReconcileBackend` | internal/controller/group_controller.go:163-245 | one turn of the backend loop makes its calls in the order team, users, additions, removals, and is aborted exactly if an addition or removal fails, with everything as that call left it; its effect is that of `SyncBackend` |
| `Controller.GroupReconciler.Reconcile` | internal/controller/group_controller.go:72-274 | the whole control flow, early returns included, moves the world exactly as `ReconcileGroup`, the step of every run |
| `Outcomes.SyncBackendCalls` | internal/controller/group_controller.go:171-244 | for one backend: at most one team creation, then user creations, then at most one addition, then at most one removal; aborted exactly if one of the last two fails, which is then the last call |
| `Outcomes.SyncBackendSends` | internal/controller/group_controller.go:180-244 | the team is created under the transformed name, users under emails of members, both cached with their IDs; additions and removals carry exactly the difference between the wanted IDs and the members before, or a part of it if the call fails |
| `Outcomes.LoopStopsExactly` | internal/controller/group_controller.go:163-245 | the backend loop stops exactly if some addition or removal in it fails; everything is as that call left it, the earlier backends were dealt with and no later one is touched |
| `Outcomes.StoppedReconcile` | internal/controller/group_controller.go:219-241 | a reconcile returns the failure of a membership call exactly if one fails; then the condition is Unknown and users, applied generation and backend report stay as they were |
| `Outcomes.SyncedBackendSettles` | internal/controller/group_controller.go:163-245 | a backend whose turn ended well is prepared, and in sync unless a name clashes, at the end of the loop, whatever became of the others |
| `Outcomes.ErrorsAreLatest` | internal/controller/group_controller.go:172-215 | the failure recorded for a type is that of the last backend of the type that failed |
| `Outcomes.FinishedReconcile` | internal/controller/group_controller.go:247-273 | an unstopped reconcile returns nil exactly if every backend ended well, and writes the members, True or False, the generation, and for each backend whether its type failed and with which failure; if that write fails the CR is left waiting |
| `Outcomes.ReportedMeansInSync` | internal/controller/group_controller.go:247-264 | a backend reported as successful is in sync, whatever became of the others, unless a name clashes there |
| `Outcomes.EarlyStops` | internal/controller/group_controller.go:101-120 | where the steps before the loop stop: the finalizer is stored first, then the owner references, then the waiting status; a missing group stops them with the finalizer in place and nothing else stored |
| `Outcomes.NothingToDo` | internal/controller/group_controller.go:82-99 | a reconcile of an absent CR, or of a deleted one without finalizer, returns nil and changes nothing |
| `Outcomes.MembersListedOnce` | internal/controller/group_controller.go:129-135 | the members of a reconcile are those the walk meets, without repetition, ordered by first occurrence, the own users of the starting group first |
| `Convergence.ReadyMeansInSync` | internal/controller/group_controller.go:101-274 | a reconcile that returns nil leaves every backend of the spec in sync; if the CR is not being deleted, its listed groups are stored and the first writes succeed, a CR that reads Ready afterwards is in sync; otherwise its status is unchanged |
| `Convergence.PrepareExact` | internal/controller/group_controller.go:101-120 | the steps before the expansion succeed if and only if all listed groups are stored and each of the one to three writes succeeds |
| `Convergence.StaleReady` | internal/controller/group_controller.go:109-113 | with a listed group gone, a Ready CR is left Ready, with nothing written, although it is not in sync |
| `Convergence.OwnMembers` | internal/controller/group_controller.go:129-134 | the members are exactly the users reachable from the CR that bears the group name, and fetching them fails exactly if a CR reachable from there is missing; with the CR's own name as group name its own users are among them |
| `Convergence.StrayGroupName` | internal/controller/group_controller.go:129-134 | a CR whose group name is the name of no stored CR always fails and leaves cache, teams and history as they are |
| `Convergence.SyncedGroupIsQuiet` | internal/controller/group_controller.go:101-274 | on a group in sync a reconcile creates nothing; without clashes it changes only the status; without failures it is silent if and only if there is no clash |
| `Convergence.ReconcileIsIdempotent` | internal/controller/group_controller.go:101-274 | the same for the world left by any successful reconcile with the same LDAP data |
| `Convergence.ReportIsByKind` | internal/controller/group_controller.go:247-271 | a backend is reported as failed exactly when some backend of its type failed; Ready exactly when none is; the applied generation moves only then |
| `Convergence.ReportExactIfAlike` | internal/controller/group_controller.go:247-261 | the report is right about every backend if and only if backends of one type end alike |
| `Convergence.HealthyReportedAsFailed` | internal/controller/group_controller.go:247-261 | of two backends of one type the first is not configured: the second is in sync before and after and is reported as failed |
| `Deletion.DeleteTeamsEffect` | internal/controller/group_controller.go:276-344 | each deletion is of a team whose ID was cached in a slot of the group, which is then empty; all other IDs stay; success means that every listed backend has a client and a transformed name, and leaves no slot filled |
| `Deletion.DeletionSucceedsExactly` | internal/controller/group_controller.go:276-344 | succeeds if and only if every listed backend has a client, a transformed name and a decodable value under it, and no call fails; then no listed backend has a cached team |
| `Deletion.DeletionStopsAtFirst` | internal/controller/group_controller.go:288-316 | on failure the backends before some one were dealt with; that one cannot be handled and nothing more happens, or its call fails and is the last |
| `Deletion.DeletionIsRetryable` | internal/controller/group_controller.go:276-344 | any number of tries in a row never delete a team twice, keep all cached IDs of other slots, and once the last one succeeds every listed backend has a client and a transformed name under which nothing is cached |
| `Runs.StepKeeps` | internal/controller/group_controller.go:72-274 | every step of a run, arbitrary edits included, keeps the platform coherent; a step keeps all created teams guarded by finalizers if and only if it is no unsafe edit |
| `Runs.FinalizerSafety` | internal/controller/group_controller.go:87-107 | in every world reached with safe edits a live team created by a reconcile is covered by a CR with the finalizer, and its ID is cached where that CR's deletion looks |
| `Runs.GuardedExactlyIfSafe` | internal/controller/group_controller.go:72-343 | along every valid run from a guarded world all worlds are guarded if and only if every edit leaves each live created team covered |
| `Runs.EditsThatAreSafe` | internal/controller/group_controller.go:87-107 | an edit is safe if the CR is new or has no finalizer, or keeps it with the group name and all backends on which a created team of its name is live |
| `Runs.EditKeepsGuardExactly` | internal/controller/group_controller.go:279-343 | after an edit all created teams are guarded if and only if the new CR covers each of them that no other CR covers |
| `Runs.FinalizerRemovedMeansClean` | internal/controller/group_controller.go:87-98 | a reconcile that removes the finalizer was of a CR under deletion, all of whose backends have a client and a transformed name, and leaves no cached team ID of it |
| `Runs.CreatedAtMostOnce` | internal/controller/group_controller.go:276-517 | over every run, whatever is edited, no user is created twice on a backend, no team without a deletion in between, and no team is deleted twice without a creation in between |
| `Runs.CreatedIdsAreCached` | internal/controller/group_controller.go:411-517 | over every run, whatever is edited, a created user is cached under the ID the backend gave it, a created team too unless deleted since, and a deleted team is not cached unless created since |
| `Runs.CacheStaysCoherent` | internal/controller/group_controller.go:299-340 | in every reachable world, whatever was edited, all cached values decode to non-empty maps of non-empty IDs, every cached team ID names a live team of that name, and every live team a reconcile created is cached |
| `Failures.SyncBackendIsClean` | internal/controller/group_controller.go:163-245 | from a well-formed cache the work for a backend fails only for reasons of configuration or backend, ends with a well-formed cache, and `processUsers` never takes its silent empty-value return |
| `Failures.DeleteTeamsIsClean` | internal/controller/group_controller.go:276-344 | from a well-formed cache deletion fails only for such reasons and keeps the cache well-formed |
| `Failures.EveryReconcileIsClean` | internal/controller/group_controller.go:72-274 | in every reconcile of every valid run neither the returned error nor any in the written report is a decode error, a cache miss or a missing ID |
| `Runs.SharedKeyCreatesTwice` | internal/controller/group_controller.go:318-333 | an email that is also a team name lets a user be created twice |
| `Runs.EditedBackendsLeak` | internal/controller/group_controller.go:279-343 | a created team that only one CR covers, after its backend is taken off that CR's list and the CR is deleted, is live and covered by no finalizer, whatever the calls return |
| `Progress.ReconcileConverges` | internal/controller/group_controller.go:101-274 | without failures, a complete spec on syncable backends is reconciled without error if and only if each team ID handed out in it is new or that of a team of the wanted name, and then it ends Ready and in sync |
| `Progress.EveryReachableWorldConverges` | internal/controller/group_controller.go:101-274 | the same from every world a run can reach, whatever was edited |
| `Progress.FittingIdsSuffice` | internal/controller/group_controller.go:163-245 | the team IDs handed out fit if no reply carries the ID of a team of another name |
| `Progress.FinalizationConverges` | internal/controller/group_controller.go:87-98 | a reconcile of a deleted CR returns nil and removes the finalizer if and only if every listed backend has a client, a transformed name and a decodable value, and no call fails; then no team ID of the CR is cached |
| `Together.ReconcileSpares` | internal/controller/group_controller.go:72-344 | a reconcile, of a deleted CR or not, successful or not, loses no cached ID and touches no team but under its CR's names, and leaves specs and the status of other CRs alone |
| `Together.OthersStayInSync` | internal/controller/group_controller.go:72-344 | a reconcile, also of a deleted CR, keeps every CR in sync with which it has no team in common |
| `Together.SharedTeamIsTakenOver` | internal/controller/group_controller.go:163-245 | a CR that names another one's team but wants other members leaves that one, after its own success, unchanged in status and out of sync |
| `Together.SharedTeamIsDeleted` | internal/controller/group_controller.go:276-344 | finalizing a CR leaves every other CR that names one of its teams unchanged in status and out of sync |
| `Together.AllInSyncExactly` | internal/controller/group_controller.go:72-274 | CRs reconciled in any order, each without error and without clashes, are in sync all at once if and only if no two of them want different members in a team they have in common |
| `WorkerPool.InvStep` | pkg/clients/fivetran/team_membership.go:73-105 | every step of caller or worker keeps the counts of tokens, waiters, errors and the membership |
| `WorkerPool.PoolIsSafe` | pkg/clients/fivetran/team_membership.go:64-165 | in every interleaving at most ten calls are in flight, no worker is about to block or panic on a channel or the WaitGroup, some step is possible until the caller returns, and no run exceeds 8n+2 steps |
| `WorkerPool.PoolResult` | pkg/clients/fivetran/team_membership.go:104-115 | the errors returned are those of exactly the calls not accepted, once each, and nil exactly when all were; the membership does not depend on the schedule, also when users are listed twice and the API refuses calls that change nothing |
| `WorkerPool.StrictPoolResult` | pkg/clients/fivetran/team_membership.go:117-165 | if the API refuses calls that change nothing, nil is returned in a schedule, and so in all, exactly if no user is listed twice, each has something to change and no call fails otherwise |
| `WorkerPool.StrictRemovals` | internal/controller/group_controller.go:355-398 | the removals computed by `processUsers`, sent to such an API, succeed exactly if every present member without LDAP data is a synced ID; the members are removed in either case |
| `WorkerPool.StrictAdds` | internal/controller/group_controller.go:355-408 | the additions computed by `processUsers`, sent to such an API, succeed exactly if no two users share an ID that the team lacks; the members are added in either case |
| `WorkerPool.PoolIsClientCall` | pkg/clients/client.go:60-63 | every run of the pool is one add or remove call of the abstract client, with a success reply if no error was collected |
| `Preload.Store.PreloadCache` | cmd/main.go:234-344 | succeeds exactly when all enabled backends are accepted, fetched and decodable; then every place holds what the last enabled backend that lists it gives, teams before users, and all that was fetched is cached, under its own ID unless a place is claimed twice; on failure the maps up to some point are merged |
| `Preload.MergedIsSourced` | cmd/main.go:238-337 | after a complete merge a place holds an ID from the teams, else the users, of the last enabled backend with that key that lists the entry, or what it held before |
| `Preload.SourcedIsCached` | cmd/main.go:266-334 | so every fetched user and team has its place filled with an ID fetched for it, and with its own if no place is claimed with two IDs |
| `Preload.DisabledDoesNotCount` | cmd/main.go:246-250 | a backend that is not enabled is skipped wherever it stands |
| `Preload.MergeAllGives` | cmd/main.go:238-337 | merging gives the old cache overlaid with the fetched IDs, later maps over earlier ones, all other entries as they were |
| `Preload.OrderShowsExactly` | cmd/main.go:238-337 | iterating over the fetched maps in other orders never changes the merged cache if and only if for every place the last map that speaks about it gives it one ID |
| `Preload.ConsistentMapsDecide` | cmd/main.go:266-337 | that is so if no single fetched map contradicts itself |
| `Preload.SourceOrderIrrelevant` | cmd/main.go:238-337 | if all fetched maps agree, the order of the backends does not matter either |
| `Preload.SourcesAreConsistent` | cmd/main.go:266-337 | distinct accepted backends with one ID per email or team name never contradict each other |
| `Startup.PreloadIsInitial` | cmd/main.go:189-344 | a preload of truthful listings into an empty cache gives a world that every run theorem may start from |
| `Startup.Boot` | cmd/main.go:189-344 | starting succeeds exactly when every enabled backend is accepted and fetched, and then leads to such a world, with all that was fetched in the cache |
| `Pages.UserIndex.FetchAll` | pkg/clients/snowflake/client.go:124-172 | for every server and number of requests, the pages met so far are processed once each, in order; the loop ends exactly where the chain of addresses does, and fails exactly when a request fails |
| `Pages.NoPageTwice` | pkg/clients/snowflake/client.go:141-169 | a listing that ends requests no page twice |
| `Pages.TrailExact` | pkg/clients/snowflake/client.go:141-169 | the addresses of the first n requests follow one another as the pages refer to each other, and are fewer than n only if the listing has ended |
| `Pages.TrailsAgree` | pkg/clients/snowflake/client.go:141-169 | the server determines the requests: of two sequences of them one continues the other, and one that ended is never continued |
| `Pages.EndsUnlessRevisiting` | pkg/clients/snowflake/client.go:141-169 | with finitely many pages the loop ends if and only if it never returns to an address already requested |
| `Pages.UserIndex.ProcessUsersPage` | pkg/clients/snowflake/users.go:61-86 | one page extends both maps, later users replacing earlier ones, users without email only by ID |
| `Pages.LastOneIsIndexed` | pkg/clients/snowflake/users.go:71-84 | of users that share a name or an email up to case the last one is found, with lower-cased ID, user name and email and its display name |
| `Pages.IndexesAgree` | pkg/clients/snowflake/users.go:61-86 | with names unique up to case, every user is found by ID, exactly the listed non-empty emails are indexed, and an entry by email is the user found by its ID |
| `Pages.FetchTeamMembers` | pkg/clients/fivetran/team_membership.go:16-62 | for every server and number of requests, the cursor loop ends exactly where the chain of cursors does, then returns the members of all pages, or fails exactly when a request fails |

## Left out

- HTTP, TLS, retries, circuit breaking, tracing and logging.
- Request and response bodies of the three backends, beyond the abstract client.
- LDAP search and `MapToStruct`; `SubstituteConfigValues`.
- JSON text: a cached value is its decoded map, or undecodable.
- Regular expressions and `Link` headers: match results and next addresses are given.
- Cache expiry, cache write failures, and transient cache read errors; the loss of the cache on restart.
- `mapFunc` and the watch setup, which list the direct referrers of a changed CR.
- Concurrent reconciles, which share `allLdapUserData`.
- Message texts and transition times of conditions.
- `strings.ToLower` outside ASCII.
- Creations of teams or users and deletions of teams that take effect although the backend reports a failure.
- The deletion of a team by others than the operator.
- Reads of CRs that fail although the CR is stored.
- Listings that change while they are being read: a page is determined by its address.
- The HTTP API, its middleware, manager start-up and generated code.
