# Account lifecycle of the control plane: a verified model

The Admin process manages a pool of account containers.  An account is a row
in the control plane, key rows for every user, routes of users to it, an
optional proxy secret, directories for OAuth and logs, a rendered config and a
container; the Gateway serves the routes of an activated snapshot.  Creating,
updating, renaming, deleting and clearing an account, and changing its policy,
touch all of these in a journaled sequence with compensation in the process
and recovery after a crash.  This project models those operations, the
transactions and file moves under them, the ownership leases and the write
fence around them, and five smaller algorithms of the same program.

## What is proved

- **Crash recovery.**  Every step of every operation may succeed, fail, or be
  cut off before or after its effect, also inside a compensation and inside
  recovery itself.  `World.Sound` is the invariant: either there is no journal
  and everything is in step with the rows, or the journal is one that recovery
  can finish.  `Runs.RunFrom` states it over every run from any sound state,
  in which users also join, leave and move.  Three failed clean-ups break it,
  and each operation reports exactly those.  A recovery that succeeds ends
  with no journal and everything in step.
- **All or nothing.**  An operation that ends with the journal cleared either
  produced exactly the catalog that its transaction specifies, with secrets,
  files, containers and snapshot in step, or left everything of the start in
  place.  An update that evacuates its users first ends in the same catalog
  as one that never moved anybody.
- **Nothing fails without a reason.**  In a calm environment, one in which no
  collaborator fails and nothing is cut off, every operation that finds no
  open journal ends as its input decides: refused, compensated or succeeded,
  each in exactly the stated cases.  A calm recovery finishes if and only if
  the secrets it looks at pass and no other account holds the new ID.
- **Nothing is hit undrained.**  A ghost monitor follows which accounts are
  busy: routed since they last drained.  `Traffic.MonitorIsExact` shows that
  it reports a disturbance exactly when some interleaving of requests would be
  in flight there.  Every operation's contract lists the accounts it may
  disturb while they are busy, `Traffic.SparedIsSafe` turns that into requests,
  and `Runs.NobodyElseIsHit` carries it over runs.
- **OAuth content is held.**  Through every outcome the content is in the old
  directory, the new one or the operation's backup.
- **Exact inverses.**  Each restoration undoes its transaction on the whole
  catalog, with the exact condition under which it does, and every
  transaction keeps the catalog invariant.
- **Leases and fence.**  Generations, dead handles and readability of every
  record; fenced writes of any number of processes follow the generations.
- **Smaller algorithms.**  The incremental access-log reader equals a scan
  from scratch; the three Gateway maps compose to the routed container; the
  in-place config write exposes no stale suffix; the Compose environment
  never loses an applied image; bucket sizes are least and bounded.

## How to read it

`Catalog` specifies the account transactions and `Transactions` computes them
step by step.  `TransactionLaws` and `RestoreLaws` say over the tables alone
when they are accepted, what they write and when they are taken back;
`CatalogLaws` proves what they keep and undo.  `Journal`, `Files` and
`World` describe the rest of the state.  `ControlPlane` is the mutable object
that the operations work on, with one method per collaborator call.
`Steps`, `Maintenance`, `Creation`, `Update`, `Deletion`, `AuthClear` and
`Policy` are the operations; `RecoveryLaws` and `Recovery` the recovery;
`Runs` puts them together and `Limits` collects where the code falls short.
The other modules stand alone; `FilesLaws`, `LeaseLaws`, `AccessLogLaws` and
`GatewayLaws` say what their specifications mean without using them.

`FileManager.calm` says whether the environment lets anything outside fail;
where it does, every collaborator call may fail or be cut off.

A method whose results include `split` ended in a state that is not sound,
and says so exactly then; `late` is explained at `Update.Republished`.

## Model

| member | source | states |
|---|---|---|
| CatalogLaws.RestoreCreationUndoes | internal/controlplane/account_lifecycle.go:160-311 | Restoring a creation gives back the whole catalog if and only if no route named the new ID before it |
| CatalogLaws.RestoreUpdateUndoes | internal/controlplane/account_lifecycle.go:316-631 | Restoring an update, with rename, disabling, rerouting and default transfer combined, gives back the whole catalog if and only if nothing of the new ID was there before (`NothingDangles`) |
| CatalogLaws.RestoreDeletionUndoes | internal/controlplane/account_lifecycle.go:636-840 | Restoring a deletion gives back the whole catalog, for every fallback and default transfer |
| CatalogLaws.UpdateLeavesFootprint | internal/controlplane/account_lifecycle.go:543-584 | Right after an update its restoration passes every comparison of the recorded account, rows, routes and flags |
| CatalogLaws.CreationKeepsInvariant | internal/controlplane/account_lifecycle.go:186-269 | A successful creation keeps the catalog invariant: unique IDs, emails, ports and positions, one enabled default, routes to enabled accounts, one unchanged key per user with an active row everywhere |
| CatalogLaws.UpdateKeepsInvariant | internal/controlplane/account_lifecycle.go:350-534 | So does a successful update |
| CatalogLaws.DeletionKeepsInvariant | internal/controlplane/account_lifecycle.go:657-764 | So does a successful deletion |
| CatalogLaws.CreationKeepsUsers | internal/controlplane/account_lifecycle.go:231-266 | A creation changes neither the set of active users nor anyone's key |
| CatalogLaws.UpdateKeepsUsers | internal/controlplane/account_lifecycle.go:439-447 | Nor does an update |
| CatalogLaws.DeletionKeepsUsers | internal/controlplane/account_lifecycle.go:707-764 | Nor does a deletion of one of several accounts, and it then revokes no exclusive key |
| CatalogLaws.NoExclusiveKeys | internal/controlplane/account_lifecycle.go:713-735 | Under unified keys no key is exclusive to one of several accounts |
| Transactions.ApplyAccountCreation | internal/controlplane/account_lifecycle.go:160-271 | The transaction, check by check and row by row, computes `ApplyCreation` for the listed active users |
| Transactions.CreateKeyRows | internal/controlplane/account_lifecycle.go:242-268 | One row per user under consecutive sequences, refused if and only if a user lacks one unified key |
| Transactions.UnifiedKeyCheck | internal/controlplane/account_lifecycle.go:231-249 | Counting one distinct non-empty key of a named user is having a unified key |
| Transactions.RestoreAccountCreation | internal/controlplane/account_lifecycle.go:273-311 | Fails unless account, routes and rows are as recorded, and then removes exactly what was created |
| Transactions.RowsUnchanged | internal/controlplane/account_lifecycle.go:292-300 | Compares every recorded row |
| TransactionLaws.CreationAcceptedIff | internal/controlplane/account_lifecycle.go:186-249 | A creation is accepted if and only if its ID, email and port are valid and free and every active user has one key to copy |
| TransactionLaws.CreatedTable | internal/controlplane/account_lifecycle.go:206-225 | The new account is enabled, last in position, and the default if and only if it is the only one; no other account and no route changes |
| TransactionLaws.CreatedRowsAre | internal/controlplane/account_lifecycle.go:242-268 | Every active user gets one row with their own key, the label `user:id`, the email of the account and the current time, numbered after all others in list order; the other rows stay and exactly the new ones are recorded |
| TransactionLaws.CreationRefusals | internal/controlplane/account_lifecycle.go:186-249 | Each refusal of a creation names what is really the case |
| RestoreLaws.CreationConflictIff | internal/controlplane/account_lifecycle.go:273-300 | A creation is taken back if and only if the account is there as recorded, nobody is routed to it and every created row is as recorded |
| RestoreLaws.RestoredCreationIs | internal/controlplane/account_lifecycle.go:301-311 | Then the account and the created rows go and nothing else changes, also when other rows have changed since |
| Transactions.ApplyAccountUpdate | internal/controlplane/account_lifecycle.go:316-536 | The update transaction computes `ApplyUpdate`, footprint included |
| TransactionLaws.UpdateAcceptedIff | internal/controlplane/account_lifecycle.go:351-425 | An update is accepted if and only if its IDs and email are free, whoever is named to take over is another enabled account, some other enabled account exists when this one steps down, and no disabled account is to be the default; the order in which accounts are listed does not matter |
| TransactionLaws.FallbackTakesOver | internal/controlplane/account_lifecycle.go:411-424 | The fallback chosen by the transaction exists if and only if another enabled account does; it is a default account if there is an enabled one and of those the first by position |
| Transactions.PickFallback | internal/controlplane/account_lifecycle.go:411-424 | The first enabled default account by position, or else the first enabled one |
| Transactions.RerouteUpdated | internal/controlplane/account_lifecycle.go:449-491 | The routes after rename and disabling, and per user one change from the first to the last account |
| Transactions.RecordMoved | internal/controlplane/account_lifecycle.go:472-486 | A user already recorded by the rename has the change redirected, not recorded twice |
| TransactionLaws.UpdatedTable | internal/controlplane/account_lifecycle.go:431-506 | The account is found under its new ID with its new fields and its old port, time and place, every other row is as before but for the default flag, and exactly one account is the default: this one, the one before or the one that takes over |
| TransactionLaws.UsersFollow | internal/controlplane/account_lifecycle.go:449-491 | The users of an updated account follow it, or go to the account that takes over if it is disabled; nobody else moves |
| TransactionLaws.UpdatedRowsAre | internal/controlplane/account_lifecycle.go:439-447 | Every row of the account carries the new ID, the email and the label `user:id`; its other columns and all other rows stay |
| TransactionLaws.UpdateRecorded | internal/controlplane/account_lifecycle.go:507-534 | The footprint holds both versions of the account, of its rows and of all default flags |
| TransactionLaws.ChangesRecorded | internal/controlplane/account_lifecycle.go:449-491 | It holds exactly the users whose route has changed, each with the route before and after |
| TransactionLaws.UpdateRefusals | internal/controlplane/account_lifecycle.go:351-425 | Each refusal of an update names what is really the case |
| RestoreLaws.UpdateConflictIff | internal/controlplane/account_lifecycle.go:543-584 | An update is taken back only if the account and all its rows are as it left them, the old ID is free, and every recorded user and flag is where it put them; otherwise the answer is a conflict |
| RestoreLaws.UpdateConstraintIff | internal/controlplane/account_lifecycle.go:585-631 | Without a conflict it fails if and only if the old email or port, or the number of a row, is in use by now |
| RestoreLaws.RestoredUpdateIs | internal/controlplane/account_lifecycle.go:585-631 | Account, rows, users and flags are back as recorded, and whatever else has changed since stays |
| Transactions.RestoreAccountUpdate | internal/controlplane/account_lifecycle.go:538-631 | The step-by-step restoration computes `RestoreUpdate`: refused when any part of the footprint has changed (`RestoreLaws.UpdateConflictIff`), and otherwise account, rows, routes and flags are written back (`RestoreLaws.RestoredUpdateIs`) |
| Transactions.RoutesUnchanged | internal/controlplane/account_lifecycle.go:564-573 | Every recorded route still reads as the update left it |
| Transactions.DefaultsUnchanged | internal/controlplane/account_lifecycle.go:574-583 | Every recorded default flag still reads as the update left it |
| Transactions.UndoRoutes | internal/controlplane/account_lifecycle.go:611-618 | A recorded user goes back only from where the transaction put them |
| Transactions.RestoreDefaults | internal/controlplane/account_lifecycle.go:619-628 | Every recorded flag is written back |
| Transactions.ApplyAccountDeletion | internal/controlplane/account_lifecycle.go:636-766 | The deletion transaction computes `ApplyDeletion`, refusals in their order; `TransactionLaws.DeletionAcceptedIff` says when it is accepted |
| Transactions.FindExclusive | internal/controlplane/account_lifecycle.go:713-735 | The active keys of the account that no other account has |
| TransactionLaws.DeletedTables | internal/controlplane/account_lifecycle.go:738-764 | A deletion takes the account and all its rows and nothing else; its users go to the account that takes over, and so does the default if the account had it |
| TransactionLaws.DeletionAcceptedIff | internal/controlplane/account_lifecycle.go:657-735 | A deletion is accepted if and only if the account exists, another enabled account can take over, the requested one if one is named, and the caller revokes or every active key of the account is active for the same user elsewhere |
| TransactionLaws.DeletionRecorded | internal/controlplane/account_lifecycle.go:738-764 | The footprint holds the account, its rows, every moved route, all default flags and the keys that were lost |
| TransactionLaws.DeletionRefusals | internal/controlplane/account_lifecycle.go:657-735 | Each refusal of a deletion names what is really the case; the last account is refused exactly when it is alone |
| RestoreLaws.DeletionConflictIff | internal/controlplane/account_lifecycle.go:768-798 | A deletion is taken back only if its ID and row numbers are free and every moved user is where it put them |
| RestoreLaws.DeletionConstraintIff | internal/controlplane/account_lifecycle.go:799-840 | Without a conflict it fails if and only if the email or port of the account is in use by now |
| RestoreLaws.RestoredDeletionIs | internal/controlplane/account_lifecycle.go:799-840 | Account, rows, users and flags are back as recorded, and whatever else has changed since stays |
| Transactions.RestoreAccountDeletion | internal/controlplane/account_lifecycle.go:768-840 | Fails if the account, a row sequence or a route is not as left, and then inserts everything back |
| Routes.PlanEvacuation | internal/accountlifecycle/routes.go:30-64 | Exactly the users routed to the source are assigned to the fallback, each expected at the source |
| Routes.SelectFallback | internal/accountlifecycle/routes.go:66-102 | The requested account if it is enabled and eligible with headroom, or else of those the least by default flag and ID (`Chosen`); none if and only if there is none or states cannot be read |
| Routes.PlanReturn | internal/accountlifecycle/routes.go:149-181 | Refused if and only if an evacuated user was moved by someone else; otherwise the compare-and-set puts every evacuated user on the target and touches no one else |
| Routes.ReturnUndoesEvacuation | internal/accountlifecycle/routes.go:30-181 | Evacuating and returning to the source is the identity on the route table, and nobody stays on the source in between |
| Maintenance.PlanRoutes | internal/accountlifecycle/routes.go:30-64 | A plan either covers every user of the account with an eligible fallback, or the account has no users |
| Maintenance.RestoreTo | internal/accountlifecycle/routes.go:149-181 | All evacuated users on the target or no change at all; always refused when one of them was moved by someone else |
| Maintenance.MoveUsers | internal/accountlifecycle/routes.go:108-147 | Done means routes moved, snapshot switched and account drained; compensated means nothing changed at all |
| Maintenance.ReturnUsers | internal/accountlifecycle/routes.go:118-181 | A compensation that succeeds restores routes and snapshot of the start |
| Maintenance.Evacuate | internal/accountlifecycle/manager.go:350-366 | From the accepted journal to an account out of service, recoverable after every step |
| Maintenance.EvacuationIsInvariant | internal/accountlifecycle/routes.go:30-64 | The catalog invariant holds with all users on the fallback |
| Maintenance.MovedIsSound | internal/accountlifecycle/journal.go:233-243 | Whatever part of the users has moved when the process dies, recovery can finish |
| Files.FileManager.PrepareCreate | internal/accountlifecycle/files.go:85-112 | Refuses existing paths without a change; done means both directories are there |
| Files.FileManager.PrepareUpdate | internal/accountlifecycle/files.go:114-173 | Done means every directory is at the new ID with its content and the backup holds the old one; whatever happens, OAuth content is held and no directory doubles |
| Files.FileManager.MoveAll | internal/accountlifecycle/files.go:145-172 | The moves in order with their undo list; a failure undoes them in reverse |
| Files.FileManager.RollbackMoves | internal/accountlifecycle/files.go:485-505 | Undoes the recorded moves from the last to the first, going on past failures |
| Files.UndoMovesUndoes | internal/accountlifecycle/files.go:145-171 | Undoing the moves of a rename gives back the same directories with their contents |
| Files.FileManager.PrepareDelete | internal/accountlifecycle/files.go:175-197 | Only the backup is written, and it holds config, OAuth and logs |
| Files.FileManager.PrepareAuthClear | internal/accountlifecycle/files.go:199-222 | Done means the OAuth directory is empty and the backup holds its content |
| Files.FileManager.CreateBackup | internal/accountlifecycle/files.go:381-437 | A backup never overwrites one and holds the content at that moment |
| Files.FileManager.RestoreAll | internal/accountlifecycle/files.go:439-477 | Config, OAuth and logs from the backup |
| Files.FileManager.RemoveAccountPaths | internal/accountlifecycle/files.go:347-353 | Removes the account's paths only, going on past failures |
| Files.FileManager.Commit | internal/accountlifecycle/files.go:56-70 | Acts at most once and is refused after a rollback |
| Files.FileManager.Rollback | internal/accountlifecycle/files.go:72-83 | Acts at most once; done means the state `RolledBack` describes |
| Files.FileManager.RecoverMoved | internal/accountlifecycle/files.go:298-320 | Done means the directory is at its destination, moved from the source or taken from the backup; two copies are an error without a change |
| Files.FileManager.RecoverRename | internal/accountlifecycle/files.go:241-272 | Both directories at the wanted ID and none at the other |
| Files.FileManager.RestoreMissing | internal/accountlifecycle/files.go:322-341 | Nothing that is there is gone or replaced; done means what was missing came from the backup |
| Files.FileManager.Recover | internal/accountlifecycle/files.go:227-292 | Only the operation's own IDs are touched, no backup is lost, OAuth content stays held in every outcome, and done means exactly the tree the rows call for (`RecoveredTree`) |
| FilesLaws.RecoveredUpdate | internal/accountlifecycle/files.go:241-272 | A completed recovery of a rename leaves each directory, logs included, at the wanted ID alone: with the content found there, or else at the other ID, or else in the backup, or else empty |
| FilesLaws.RecoveredKept | internal/accountlifecycle/files.go:322-341 | Of an account that stays, a directory and config in place are kept; after an interrupted deletion a missing one has the content of the backup |
| FilesLaws.RecoveredGone | internal/accountlifecycle/files.go:235-279 | Of an account that is gone no directory and no config is left |
| FilesLaws.RecoveredClear | internal/accountlifecycle/files.go:279-289 | A clear that was backed up empties the OAuth directory and changes nothing else; one that was not changes nothing |
| FilesLaws.RollbackRestores | internal/accountlifecycle/files.go:85-222 | Rolling back a prepared change gives every directory its content of the start, also after its commit; the config comes back except after a committed rename |
| FilesLaws.PartlyCommitted | internal/accountlifecycle/files.go:56-83 | The same after a commit that stopped half-way |
| FilesLaws.PrepareAndRollback | internal/accountlifecycle/files.go:56-222 | Run through the methods: prepare, any commit attempt, roll back; all directories are as at the start |
| FilesLaws.ActsOnce | internal/accountlifecycle/files.go:56-83 | After a rollback a second one does nothing and a commit is refused |
| Traffic.DrainedIsSafe | internal/accountlifecycle/routes.go:108-147 | If the monitor reports nothing from some action on, no interleaving of starting and finishing requests is hit from there on when a container or OAuth directory is disturbed |
| Traffic.MonitorIsExact | internal/runtimeops/account_drain.go:70-96 | From any action on, the monitor reports an account if and only if some interleaving has a request in flight there at a disturbance from that action on |
| Traffic.SparedIsSafe | internal/accountlifecycle/manager.go:354-403 | An account that an operation's contract (`OnlyHits`) excludes is hit inside that operation by no interleaving of requests with the whole history of actions |
| Traffic.ReportIsHit | internal/runtimeops/account_drain.go:70-96 | Conversely, an account reported inside an operation is hit there by some interleaving |
| ControlPlane.ControlPlane.PrepareCreate | internal/runtimeops/account_lifecycle.go:491-507 | Starts the container, or refuses an existing one, without touching others |
| ControlPlane.ControlPlane.PrepareUpdate | internal/runtimeops/account_lifecycle.go:509-535 | Replaces the container and hands out the transition even when the new one failed to start |
| ControlPlane.ControlPlane.CommitRuntime | internal/runtimeops/account_lifecycle.go:668-683 | Only a retired container is removed at the commit |
| ControlPlane.ControlPlane.RollbackRuntime | internal/runtimeops/account_lifecycle.go:685-722 | Done means the containers of before the preparation |
| ControlPlane.ControlPlane.ReconcileAccount | internal/runtimeops/account_lifecycle.go:610-653 | Both sides of an interrupted change become the desired container, or none; an account that has drained is removed undisturbed |
| ControlPlane.ControlPlane.Render | internal/accountprojection/renderer.go:74-145 | Refused if a custom proxy has no secret; done means every account's config is its projection, and an interrupted run changes configs only |
| World.ConfigCarries | internal/accountprojection/renderer.go:231-414 | When everything is in step, the config of an account in custom mode carries its own proxy secret and any other carries none; its email, mode, flag and users are those of the rows |
| Steps.Begin | internal/accountlifecycle/journal.go:57-82 | Refused without a change while a journal exists |
| Steps.Finalize | internal/accountlifecycle/journal.go:156-177 | The journal is cleared for a success or a complete compensation only; a failed clearing keeps it and is reported |
| Steps.AdvanceInProgress | internal/accountlifecycle/journal.go:84-105 | Recording a phase keeps the state recoverable and the OAuth content held, whatever its outcome |
| Steps.SecretPlan.Capture | internal/accountlifecycle/manager.go:913-927 | The secrets as they are before the first write |
| Steps.SecretPlan.Apply | internal/accountlifecycle/manager.go:929-939 | Done means all desired secrets are written and no other changed |
| Steps.SecretPlan.Rollback | internal/accountlifecycle/manager.go:941-952 | Done means all captured secrets are back |
| Steps.RollbackResources | internal/accountlifecycle/manager.go:747-807 | Files, container and secrets are each undone although an earlier one failed |
| Steps.RestorePublished | internal/accountlifecycle/manager.go:841-855 | Configs and snapshot follow the rows as they are |
| Creation.AllocatePort | internal/accountlifecycle/manager.go:601-638 | The least free port of the range, none if and only if there is none or the range is invalid |
| Creation.Create | internal/accountlifecycle/manager.go:172-265 | All-or-nothing for every failure and crash: refused and compensated mean unchanged, succeeded is exactly the transaction's catalog with everything in step, stuck and cut off leave a journal that recovery can finish. `split` holds if and only if the end is none of these. Nothing is disturbed but an unused ID that still has requests of an earlier account. Without outside failures it is refused if and only if the request, its secret or the ports are not admissible, and otherwise succeeds if and only if the ID, email and port are free and every active user has one key (`MayCreate`); the port is the least free one |
| Creation.CreateForward | internal/accountlifecycle/manager.go:223-260 | Secret, configs, container, snapshot and commits end in step with the new row |
| Creation.RollbackCreation | internal/accountlifecycle/manager.go:747-763 | A compensation that succeeds restores everything but configs it rewrites identically |
| Deletion.Delete | internal/accountlifecycle/manager.go:432-529 | The same for deletion; users keep their keys, the OAuth content is in place or in the backup in every outcome. `split` holds if and only if the end is not sound. With routed users nothing is disturbed while requests are in flight, and without them only the account itself, if it was busy before. The fallback is the requested account, or the least eligible one by default flag and ID. Without outside failures it succeeds if and only if there is such a fallback, no key would be lost or the caller revokes (`MayDelete`), and a drainer is there when users are routed |
| Deletion.DeleteRuntime | internal/accountlifecycle/manager.go:492-522 | Container and files go only after the new snapshot and, if users were moved, after the drain |
| Deletion.RollbackDeletion | internal/accountlifecycle/manager.go:791-807 | A compensation that succeeds restores rows, routes, flags, files, container, secret and snapshot |
| Deletion.BackupRestores | internal/accountlifecycle/files.go:439-477 | The backup gives back the account's files whatever a commit has removed |
| AuthClear.ClearAuth | internal/accountlifecycle/manager.go:531-599 | The same for an OAuth clear, without exception: everything but the emptied directory is as before. With routed users nothing is disturbed while requests are in flight. Without outside failures it succeeds if and only if the account exists and its users can be moved |
| AuthClear.ClearAndRestart | internal/accountlifecycle/manager.go:568-583 | The directory is emptied and the container restarted while the account is idle |
| AuthClear.RollbackClear | internal/accountlifecycle/manager.go:809-839 | Users return to the source only if it is restored and restarted, or else stay on the fallback |
| Update.Update | internal/accountlifecycle/manager.go:267-430 | The same for update and rename; the final catalog is exactly the transaction's on the catalog of the start, as if nobody had been evacuated. `split` holds if and only if the end is not sound. Of all accounts only those of `Disturbed` may be hit; `late` holds only if the last snapshot was published and its journal record is missing, and a compensation then does hit the account. Without outside failures the request decides whether it is refused, succeeds or is compensated, said over the accounts alone (`MayUpdate`) |
| Update.EvacuationIsInvisible | internal/accountlifecycle/manager.go:350-413 | Evacuating, updating and returning the users gives the catalog of the update alone |
| Update.UpdateRestores | internal/controlplane/account_lifecycle.go:538-631 | On an evacuated catalog the restoration of an update is always exact |
| Update.UpdateProxyPlan | internal/accountlifecycle/manager.go:640-685 | Which proxy secrets an update writes, and that a stale one at the new ID refuses it |
| Update.UpdateJournaled | internal/accountlifecycle/manager.go:321-430 | From the accepted journal on, an update without outside failures succeeds if and only if its users can be moved, a fallback it needs exists and the transaction does, and is otherwise compensated |
| Update.UpdateForward | internal/accountlifecycle/manager.go:384-420 | From the stored row to the published account, undrained at no step but the late one |
| Update.RollbackUpdate | internal/accountlifecycle/manager.go:765-789 | A compensation that succeeds restores everything, also after users were partly returned |
| Policy.UpdatePolicy | internal/accountlifecycle/policy.go:13-68 | Rows, routes and flags change together; containers, secrets and directories never, and nothing is disturbed. Without outside failures it succeeds if and only if it is admissible and `MayUpdate` holds |
| Policy.RollbackPolicy | internal/accountlifecycle/policy.go:70-76 | A compensation that succeeds restores the catalog, configs and snapshot |
| Recovery.Recover | internal/accountlifecycle/journal.go:183-300 | From every crash point, its own included, the state stays recoverable; success leaves no journal, everything in step with the rows, every evacuated user on the account of the operation, under its new ID if that exists, when it is enabled, and no other route changed (`UsersHome`), the secrets of `RecoveredSecrets` and a committed deletion's account drained before removal. Only its own accounts may be hit, and none while it is early. It succeeds only if, and without outside failures exactly if, no other account holds the new ID and the secrets it looks at pass |
| Recovery.RecoverEvacuatedRoutes | internal/accountlifecycle/journal.go:319-351 | Done means `UsersHome`, for every kind of operation; otherwise no change |
| RecoveryLaws.ReturnedAreHome | internal/accountlifecycle/journal.go:319-351 | The routes that recovery computes put every evacuated user, of an OAuth clear too, on the enabled account of the operation and leave everyone else where they are |
| Recovery.RecoverProxySecrets | internal/accountlifecycle/journal.go:392-450 | Done means exactly the secrets of `RecoveredSecrets`: after a committed rename the secret found at the old ID is at the new one, and an ID that lost its account has none. It passes only if, and without outside failures exactly if, the secrets it looks at are usable |
| Recovery.RecoveredSecretsAre | internal/accountlifecycle/journal.go:392-450 | After a committed rename the secret is at the new ID alone, one found there winning; an ID that lost its account has none; every other secret stays |
| Recovery.PassedIsUsable | internal/accountlifecycle/journal.go:392-450 | A recovery that passes leaves a custom account with a usable secret unless its rename was not committed, and it passes whenever every stored secret is usable and a custom account has one |
| Recovery.RecoverPolicy | internal/accountlifecycle/journal.go:200-208 | Configs and snapshot follow whichever side of the transaction committed |
| Recovery.RecoverRemoved | internal/accountlifecycle/journal.go:251-278 | Snapshot first, then drain, then container and files |
| Recovery.RecoverFiles | internal/accountlifecycle/journal.go:280-285 | Directories and configs match the rows; for a rename onto another account nothing changes |
| Recovery.RecoverContainers | internal/accountlifecycle/journal.go:286-292 | Exactly the containers of the rows |
| Runs.Execute | internal/accountlifecycle/journal.go:57-82 | Every command keeps the run's invariant exactly unless it reports `split`, keeps all user keys, disturbs only what `MayDisturb` lists, and is refused while a journal exists |
| Runs.NobodyIsHit | internal/accountlifecycle/manager.go:354-403 | Inside a deletion, OAuth clear or update that had users to move away, a policy change, or the recovery of a committed deletion, no interleaving of requests is hit on any account |
| Runs.RunFrom | internal/accountlifecycle/journal.go:57-351 | Over every run from any sound state, with crashes anywhere, the state is in step or its journal is recoverable, if and only if no `split` was reported, and every command kept what `Executed` says |
| Runs.NobodyElseIsHit | internal/accountlifecycle/manager.go:354-403 | Over a whole run no interleaving of requests is hit on an account that none of the commands may disturb at the moment it runs |
| Runs.UnnamedAreSafe | internal/accountlifecycle/manager.go:354-403 | In particular, over a whole run no interleaving is hit on an account that no command is about and no recovered operation was about |
| Runs.UsersAreKept | internal/controlplane/account_lifecycle.go:439-447 | Over a whole run of operations and recoveries every user keeps one unchanged key |
| Runs.Run | internal/accountlifecycle/journal.go:57-351 | The same from an empty installation, where every account, user and route arrives on the way; without outside failures it ends in step with no journal |
| Limits.UnrecoverableIffTaken | internal/accountlifecycle/journal.go:353-379 | An accepted update can never be recovered if and only if its new ID is another existing account |
| Limits.ClashMovesSecret | internal/accountlifecycle/journal.go:392-450 | Such a recovery, run without outside failures, moves a usable proxy secret of the renamed account to the other account before it stops, and changes nothing else |
| Limits.RenameOntoOther | internal/accountlifecycle/files.go:298-306 | A concrete such state |
| Creation.LeftoverIsOutOfStep | internal/accountlifecycle/files.go:96-106 | A creation whose clean-up left any directory is always out of step |
| Update.ScatteredIsOutOfStep | internal/accountlifecycle/files.go:147-163 | A rename that left any directory at the new ID is out of step; each directory is at one of the two IDs with the content it had |
| Limits.RollbackBeforeFirstPhase | internal/accountlifecycle/manager.go:465-467 | A deletion cut off in its first rollback is taken for untouched, although the OAuth directory is missing |
| Deletion.MissingIsUnsound | internal/accountlifecycle/manager.go:465-467 | Whenever such a roll-back left a directory missing, the accepted journal is not one that recovery can finish |
| Limits.ReturnedUsersAreForeign | internal/accountlifecycle/routes.go:160-172 | After a rename returned the users, the compensation takes them for moved by someone else; recovery does not |
| Limits.RollbackAfterPublish | internal/accountlifecycle/manager.go:414-420 | An update whose snapshot was published but not recorded hits, when it is compensated, some requests on the account that the snapshot put back into service |
| Limits.SharedSecretMisroutes | internal/accountprojection/renderer.go:441-479 | A catalog that satisfies the invariant and in which a user's secret reaches another account |
| LeaseLaws.ReadableIff | internal/controlplane/lease.go:310-339 | A written record is accepted by the next reader if and only if the clock is not behind the acquisition |
| LeaseLaws.RunIsGood | internal/controlplane/lease.go:158-339 | With a clock that does not step back every record of every run is accepted |
| LeaseLaws.BackwardClock | internal/controlplane/lease.go:270-294 | With one that does, a release can write a record nobody can read or take again |
| LeaseLaws.RunFollows | internal/controlplane/lease.go:158-294 | Generations of a scope never decrease, and one generation has one owner and token |
| LeaseLaws.CommittedGenerations | internal/controlplane/lease.go:81-106 | Of two committed fenced writes in a scope the later has no lower generation, and the same generation means the same lease |
| LeaseLaws.DeadStaysDead | internal/controlplane/lease.go:81-106 | A handle that once fails validation never validates again |
| LeaseLaws.DeadHandleDoesNothing | internal/controlplane/lease.go:235-268 | So no renewal and no fenced write under it ever commits |
| LeaseLaws.ReleaseEndsFence | internal/controlplane/lease.go:270-294 | A fenced process that releases a lease of its fence can commit nothing more |
| LeaseLaws.WrittenFrom | internal/controlplane/lease.go:158-294 | Every written record starts, extends, ends or follows the one before it |
| LeaseLaws.TakeCommitsIff | internal/controlplane/lease.go:158-194 | A lease is taken if and only if the input is valid, the fence holds and no readable record of the scope still runs; the record written is given field by field |
| LeaseLaws.JoinCommitsIff | internal/controlplane/lease.go:200-233 | It is joined if and only if it runs, has a token and its owner is the caller; it keeps token and generation |
| LeaseLaws.RenewCommitsIff | internal/controlplane/lease.go:235-268 | It is renewed if and only if it runs and owner, generation and token are those of the handle |
| LeaseLaws.ReleaseCommitsIff | internal/controlplane/lease.go:270-294 | It is released if and only if owner, generation and token are those of the handle, whether it still runs or not; the token goes and the generation stays |
| LeaseLaws.TakenIsHeldUntil | internal/controlplane/lease.go:158-194 | A lease just taken matches at exactly the times before its time-to-live is over |
| LeaseLaws.LeaseRefusals | internal/controlplane/lease.go:158-294 | Each refusal names what is really the case |
| Lease.Seconds | internal/controlplane/lease.go:360-383 | The whole seconds of a time-to-live, rounded up, are at least 5 and at most 300 |
| LeaseStore.Store.InstallWriteFence | internal/controlplane/lease.go:62-79 | Once, with two complete leases of distinct scopes |
| LeaseStore.Store.ValidateWriteFence | internal/controlplane/lease.go:81-106 | Passes if and only if the record of every handle of the fence runs with its owner, generation and token; otherwise the error is that of the first that does not |
| LeaseStore.Store.TakeLease | internal/controlplane/lease.go:158-194 | Computes `After`; succeeds if and only if the input is valid, the fence holds and no readable record of the scope still runs |
| LeaseStore.Store.JoinLease | internal/controlplane/lease.go:200-233 | Computes `After`; succeeds if and only if the input is valid, the fence holds and the record runs with the trimmed caller as owner, and then only the times of the record are new |
| LeaseStore.Store.RenewLease | internal/controlplane/lease.go:235-268 | Computes `After`; succeeds if and only if the record runs and is the handle's, and then runs from now on for the time-to-live |
| LeaseStore.Store.ReleaseLease | internal/controlplane/lease.go:270-294 | Computes `After`; succeeds if and only if the record is the handle's |
| Fence.RunIsSafe | internal/controlplane/lease.go:57-138 | Every step of every process keeps: a validated fence stands, and the log of writes is ordered by generation |
| Fence.WritesFollowGenerations | internal/controlplane/lease.go:81-138 | Over every run the fenced writes follow the generations, one lease per generation |
| Fence.CallbackIsAlone | internal/controlplane/lease.go:108-138 | From validation to its end no record changes under a callback, even when the lease runs out; a consequence of the lock alone |
| AccessLog.ChunksDoNotMatter | internal/accountstatus/observer.go:723-752 | Feeding in any chunks is feeding their concatenation |
| AccessLog.ScanIsLines | internal/accountstatus/observer.go:723-752 | The rows are exactly the parsed newline-terminated lines of at most 64 KiB, however long the others are |
| AccessLog.FeedIsBounded | internal/accountstatus/observer.go:723-752 | Between calls no more than a line is pending |
| AccessLog.PruningIsInvisible | internal/accountstatus/observer.go:639-668 | Dropping rows older than the window of an earlier reading changes no later result |
| AccessLogLaws.ScratchIsReported | internal/accountstatus/observer.go:633-668 | A scan reports exactly the accounts with a request from an hour ago to a second ahead; for each the numbers of its requests, of 401, 403, 429 and 5xx, of 429 and of 5xx, the users affected, and time and status of the latest error, of equal ones the first |
| AccessLogLaws.LinesAreContent | internal/accountstatus/observer.go:723-752 | The lines with their newlines and the unfinished rest are the content, and none holds a newline |
| AccessLogLaws.RowsAreLines | internal/accountstatus/observer.go:723-752 | A row is there if and only if a line of at most 64 KiB parses to it |
| AccessLogLaws.RetainedIs | internal/accountstatus/observer.go:639-668 | Pruning keeps exactly the rows of the last hour or later |
| AccessLogReader.Reader.Consume | internal/accountstatus/observer.go:723-752 | The in-place state after a chunk is the byte-wise specification's |
| AccessLogReader.Reader.ReadAppends | internal/accountstatus/observer.go:671-721 | After reading, the state is that of the whole file, unless a rewrite kept identity, length and beginning |
| AccessLogReader.Reader.RecentActivity | internal/accountstatus/observer.go:623-669 | The result is that of a scan of the bytes seen and reports every account's numbers (`Reported`); the bytes seen are the file, also after a backward step of the clock, unless a rewrite kept identity, length and beginning |
| AccessLogReader.Reader.Summarize | internal/accountstatus/observer.go:633-668 | One pass both counts the rows of the window (`Reported`) and prunes the rows |
| AccessLogReader.Observations | internal/accountstatus/observer.go:623-721 | For every append-only log and every sequence of readings each result is the one from scratch and reports every account's numbers |
| GatewayMaps.RenderKeyMap | internal/accountprojection/renderer.go:416-484 | The grouped, sorted and deduplicated rendering computes the specified lines, or the specified error |
| GatewayLaws.KeyMapIs | internal/accountprojection/renderer.go:441-481 | For any tables, also with several keys of one user: refused if and only if a user with several keys has a row of an unknown account or one with a single key has none where they are routed; otherwise no secret is there twice, every line labels the key of a row with its user and account, and the key of every such row is there |
| GatewayMaps.GroupByUser | internal/accountprojection/renderer.go:425-435 | Active rows by normalized user; refused if and only if one has no user or key |
| GatewayMaps.SortUsers | internal/accountprojection/renderer.go:436-440 | The users once each, in ascending order |
| GatewayMaps.RenderMaps | internal/accountprojection/renderer.go:486-500 | One suffix and one backend per account, in order |
| GatewayMaps.KeyMapRenders | internal/accountprojection/renderer.go:416-484 | Under the catalog invariant the key map never fails |
| GatewayMaps.EmittedOnceIffRouted | internal/accountprojection/renderer.go:473-481 | No secret is emitted twice, and exactly the secrets of routed users are |
| GatewayMaps.OnlyOwnSuffix | internal/accountprojection/renderer.go:486-492 | A label ends in the suffix of its own account and of no other |
| GatewayMaps.ResolvesToFirstHolder | internal/accountprojection/renderer.go:416-500 | Through the three maps a routed user's secret reaches the container of the first sorted user who holds it, hence the user's own if and only if their routes agree |
| GatewayMaps.ReachesRoutedAccount | internal/accountprojection/renderer.go:416-500 | A user with a secret of their own reaches exactly the container of their routed account |
| ConfigFile.File.Replace | internal/accountprojection/config_file.go:69-87 | After a complete write all a reader can see is the payload and newlines; done means the payload alone |
| ConfigFile.File.UpdateContents | internal/accountprojection/config_file.go:62-67 | A rollback that itself succeeds leaves the previous bytes |
| ConfigFile.File.WriteAccountConfig | internal/accountprojection/config_file.go:49-54 | The same payload writes nothing |
| ConfigFile.PaddingIsNeeded | internal/accountprojection/config_file.go:70-75 | Without the padding a stale suffix stays visible unless it was all newlines |
| Compose.Write | internal/admin/configuration_runtime.go:222-243 | Both values trimmed, or the first that is empty or holds a line break |
| Compose.ParseEnvironment | internal/admin/configuration_runtime.go:293-311 | Line by line into one map, or the first error with its line number |
| Compose.ParseOfWritten | internal/admin/configuration_runtime.go:222-311 | Parsing what was written gives exactly the trimmed image and listen address |
| Compose.ProjectionKeepsImage | internal/admin/configuration_runtime.go:199-220 | One projection keeps the applied image whatever the settings say |
| Compose.AppliedImageNeverChanges | internal/admin/configuration_runtime.go:199-220 | Over any sequence of projections, failed ones included, the applied image never changes |
| Compose.Projector.ProjectConfiguration | internal/admin/configuration_runtime.go:199-220 | The file changes to the whole projection or not at all; success means the new address and the kept image |
| Compose.Projector.ProjectCPAImage | internal/admin/configuration_runtime.go:178-197 | Success means the given image and address; a file that does not parse is refused |
| Buckets.Choice | internal/admin/overview_usage.go:243-251 | The chosen bucket by window length |
| Buckets.ChosenIsLeast | internal/admin/overview_usage.go:243-251 | It keeps within 360 buckets and is the least rung that does, or the least size of a day or more when none does |
| Buckets.Nondecreasing | internal/admin/overview_usage.go:243-251 | A longer window never gets finer buckets |

## Left out

Contracts with an exception, because the code has one:

- Creation.Create: `split` reports directories left behind because clean-up errors in internal/accountlifecycle/files.go:101-102 are ignored and the journal is then cleared; `Creation.LeftoverIsOutOfStep` shows such a state is always out of step.
- Creation.Create: an ID that already has an account is refused by its directories, but a crash after acceptance makes recovery rebuild the existing container without a drain (internal/accountlifecycle/journal.go:290); `Recovery.Disturbed` lists it there.
- Update.Update: `split` reports moves that could not be undone because the errors in internal/accountlifecycle/files.go:152 and 159 are ignored (`Update.ScatteredIsOutOfStep`).
- Update.Update: `late` reports that only the journal write after the final snapshot failed; the compensation then removes a container that users are routed to again (internal/accountlifecycle/manager.go:418-420, `Limits.RollbackAfterPublish`). The repair of an unavailable proxy replaces a routed container by design and is exempt as well.
- Update.Update: a rename onto another existing account is accepted before it is refused, and a crash in between leaves a journal no recovery finishes; `Limits.UnrecoverableIffTaken` gives the exact condition, and `Limits.ClashMovesSecret` what recovery has done to the proxy secret by then.
- Deletion.Delete: `split` reports that the journal write of the first phase failed and the rollback of the untouched files left one missing; recovery then sees an accepted journal and restores nothing (`Limits.RollbackBeforeFirstPhase`, `Deletion.MissingIsUnsound`). The backup still holds everything.
- Deletion.Delete: without routed users the code does not wait for a drain, so an account that users left only shortly before may be hit.
- AuthClear.ClearAuth: the same without routed users.
- Update.Update: the same without routed users; and a rename to an ID whose earlier account was removed undrained may, when compensated, disturb what is left of its requests.
- Update.Update: what its input decides in a calm environment is stated for an operation ID that no backup carries yet; generated IDs are.
- Runs.RunFrom: stops at the first operation that reports `split`.
- Recovery.Recover: a rename whose users were already returned is compensated by recovery only; the compensation in the process takes them for moved by someone else and keeps the journal (`Limits.ReturnedUsersAreForeign`).
- Recovery.RecoverProxySecrets: secrets are written in name order, so a crash inside a rename may lose the proxy secret; the claim is that recovery then fails closed, not that the secret survives.
- AuthClear.ClearAuth: recovery of an interrupted clear leaves the directory as it finds it; only the backup is promised to hold the content.
- CatalogLaws.RestoreUpdateUndoes: the identity needs that no row or route of the new ID existed before; under the catalog invariant that always holds (`Update.UpdateRestores`).
- LeaseLaws.RunIsGood: for clocks that do not step back; `LeaseLaws.BackwardClock` shows what happens otherwise.
- LeaseLaws.DeadStaysDead: for tokens that are never drawn twice.
- AccessLogReader.Reader.RecentActivity: a file rewritten in place with the same identity, no shorter, and with the same first bytes is not noticed by the code.
- GatewayMaps.ReachesRoutedAccount: for users with a secret of their own; `Limits.SharedSecretMisroutes` shows that the schema allows otherwise, and `GatewayMaps.ResolvesToFirstHolder` what then happens.
- Files.FileManager.Recover: the legacy config path beside the per-account one is one path here.

Assumptions about collaborators:

- A write transaction and an exclusive section are atomic under one cross-process lock, and a write transaction checks the installed fence first (internal/controlplane/lease.go:57-61 and 108-113).
- Setting several expected routes is all-or-nothing, and publishing a snapshot either switches to the routes of the control plane or changes nothing.
- Container steps may fail or be cut off, as in internal/runtimeops/account_lifecycle.go:491-722; images, probes and mounts are not modelled.
- Creating a backup, copying, emptying or removing a directory is one atomic step each: recovery only asks whether a directory exists, so partial copies would falsify the file claims.
- A drain returns only when no admitted request of the account is in flight; its time-out is a failure.
- Users join, leave and move between operations only, with rows, routes, configs and snapshot changing at once (`Runs.ServeUsers`); the code that does it is not part of this model.
- Nobody else changes rows, secrets, files or containers between the steps of an operation, which runs under the manager's lock. Routes changed by someone else are modelled where they are checked (`Routes.PlanReturn`).

Not modelled:

- `key.map` is no part of a config here: it is rendered before evacuated users return, so it lags the routes after an update; its content is the subject of `GatewayMaps`.
- A recorded route or flag whose row is gone by the time of a restoration is a conflict here; the code passes on the database's error, and changes nothing either.
- IDs, emails, proxy modes and request fields arrive normalized; normalization itself (internal/controlplane/account_lifecycle.go:118-154) and the parsing of proxy URLs are parameters.
- The name and size limits, timestamps and backup path inside a journal record; a record that does not parse.
- The order of users in a transaction's result lists, and row timestamps other than those compared.
- Database, file locks, modes, symbolic links, hard links, inode identity, encryption, hashing and identifier generation.
- Readings of the clock before year 1, and read errors in the middle of the access log.
- The parser of one access-log line is an arbitrary partial function.
- White space beyond Latin-1, letters beyond ASCII in `GatewayMaps.NormalUser`, JSON quoting of map lines, and case-insensitive matching by the web server that reads them.
- Bucket sizes are computed in exact integers; the code divides in floating point.
- The Compose file is replaced atomically; reading the setting values from the configuration is a parameter.
- The caches and probes of the account observer around the log reader, user lifecycle, quota actions, collector, settings tables, HTTP handlers, commands and the web frontend.
