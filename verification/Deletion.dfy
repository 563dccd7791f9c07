/**
 * Deleting an account: backup, rows and routes, proxy secret, configs and
 * snapshot first, then a drain, and only then the container and the files.
 */
module Deletion {
  import opened Wrappers
  import opened Catalog
  import opened CatalogLaws
  import opened Journal
  import opened Routes
  import opened Files
  import opened Traffic
  import opened World
  import opened ControlPlane
  import opened RecoveryLaws
  import opened Transactions
  import opened Steps
  import opened TransactionLaws

  datatype Request = Request(id: Id, fallback: Option<Id>, revoke: bool)

  /** What is refused before the journal is opened. */
  ghost predicate Admissible(request: Request, accounts: map<Id, Account>, eligible: Option<set<Id>>) {
    ValidId(request.id) && request.id in accounts && HasFallback(accounts, request.id, request.fallback, eligible)
  }

  /** What is refused, and compensated, once the journal is open. */
  ghost predicate Deletable(c: Catalog, id: Id, fallback: Id, revoke: bool, drainer: bool) {
    MayDelete(c, id, Some(fallback), revoke) && (drainer || !HasUsers(c.routes, id))
  }

  // ------------------------------------------------------------------- facts

  ghost predicate DeletedBy(start: Catalog, operation: Operation, fallback: Id, revoke: bool,
                            order: seq<Id>, next: Catalog, deletion: AccountDeletion) {
    && operation.kind == DeleteAccount && operation.evacuated == map[]
    && ApplyDeletion(start, operation.account, Some(fallback), revoke, order) == Ok((next, deletion))
  }

  lemma DeletionShape(start: Catalog, id: Id, fallback: Id, revoke: bool, order: seq<Id>)
    requires ApplyDeletion(start, id, Some(fallback), revoke, order).Ok?
    ensures
      var (next, deletion) := ApplyDeletion(start, id, Some(fallback), revoke, order).value;
      && id in start.accounts && next.accounts.Keys == start.accounts.Keys - {id}
      && OthersKept(next.accounts, start.accounts, {id}) && OthersKept(start.accounts, next.accounts, {id})
      && deletion.routes == DeletionChanges(start.routes, id, fallback)
  {
    hide ExclusiveKeys, IdLetter, AutoFallback, MoveRoutes, WithoutRowsOf;
  }

  lemma DeletedRenders(start: Catalog, secrets: map<Id, string>, id: Id, fallback: Id, revoke: bool, order: seq<Id>)
    requires ApplyDeletion(start, id, Some(fallback), revoke, order).Ok? && CanRender(start, secrets)
    ensures CanRender(ApplyDeletion(start, id, Some(fallback), revoke, order).value.0, secrets - {id})
  {
    hide ExclusiveKeys, IdLetter, AutoFallback, MoveRoutes, WithoutRowsOf;
  }

  lemma DeletionFacts(start: Catalog, operation: Operation, fallback: Id, revoke: bool,
                      order: seq<Id>, next: Catalog, deletion: AccountDeletion)
    requires Invariant(start) && DeletedBy(start, operation, fallback, revoke, order, next, deletion)
    ensures CatalogPart(start, operation) && CatalogPart(next, operation) && Invariant(next)
    ensures OthersKept(next.accounts, start.accounts, OwnedIds(operation)) && OthersKept(start.accounts, next.accounts, OwnedIds(operation))
    ensures next.accounts.Keys == start.accounts.Keys - {operation.account} && operation.account in start.accounts
    ensures deletion.routes == DeletionChanges(start.routes, operation.account, fallback)
    ensures RestoreDeletion(next, deletion) == Ok(start) && SameUsers(next.rows, start.rows)
  {
    assert UniqueColumns(start.accounts) && UnifiedKeys(start);
    hide ActiveUsers, UserSecrets, UnifiedKeys;
    DeletionKeepsUsers(start, operation.account, Some(fallback), revoke, order);
    hide Invariant, CatalogPart, ApplyDeletion, RestoreDeletion, UniqueColumns, OthersKept, DeletionChanges;
    NoEvacuation(start, operation);
    NoEvacuation(next, operation);
    DeletionKeepsInvariant(start, operation.account, Some(fallback), revoke, order);
    DeletionShape(start, operation.account, fallback, revoke, order);
    RestoreDeletionUndoes(start, operation.account, Some(fallback), revoke, order);
  }

  // ------------------------------------------------------------------- steps

  method StoreDeletion(cp: ControlPlane, id: Id, fallback: Id, revoke: bool)
    returns (o: Outcome, deletion: Option<AccountDeletion>, ghost order: seq<Id>)
    modifies cp`catalog
    ensures Lists(order, old(cp.catalog).accounts)
    ensures o.Done? ==> deletion.Some? && ApplyDeletion(old(cp.catalog), id, Some(fallback), revoke, order) == Ok((cp.catalog, deletion.value))
    ensures o.Failed? ==> cp.catalog == old(cp.catalog)
    ensures cp.catalog == old(cp.catalog) ||
      var applied := ApplyDeletion(old(cp.catalog), id, Some(fallback), revoke, order);
      applied.Ok? && cp.catalog == applied.value.0
    ensures cp.files.calm ==> (o.Done? <==> ApplyDeletion(old(cp.catalog), id, Some(fallback), revoke, order).Ok?) && !o.Crashed?
  {
    hide ApplyDeletion, Lists;
    var r;
    r, order := ApplyAccountDeletion(cp.catalog, id, Some(fallback), revoke);
    o, deletion := Failed, None;
    if r.Ok? {
      deletion := Some(r.value.1);
      o := cp.Transact(r.value.0);
    }
  }

  method StoreRestoration(cp: ControlPlane, deletion: AccountDeletion) returns (o: Outcome)
    modifies cp`catalog
    ensures cp.catalog == old(cp.catalog) || RestoreDeletion(old(cp.catalog), deletion) == Ok(cp.catalog)
    ensures o.Done? ==> RestoreDeletion(old(cp.catalog), deletion) == Ok(cp.catalog)
    ensures cp.files.calm && RestoreDeletion(old(cp.catalog), deletion).Ok? ==> o.Done?
  {
    hide RestoreDeletion;
    var r := RestoreAccountDeletion(cp.catalog, deletion);
    o := Failed;
    if r.Ok? {
      o := cp.Transact(r.value);
    }
  }

  /** The backup of the whole account, as the rollback puts it back. */
  ghost predicate BackedUp(t: Tree, start: Tree, operation: Operation) {
    && Get(t.backups, OperationBackup(operation)) == Some(BackupOf(start, operation.account, true, true, true))
    && operation.account in start.config && HasDirs(start.dirs, operation.account)
  }

  /** Restoring the backup gives the files of the start. */
  lemma BackupRestores(t: Tree, start: Tree, operation: Operation)
    requires BackedUp(t, start, operation) && DirsFrom(t.dirs, start.dirs, {operation.account})
    ensures RolledBack(t, DeleteFiles(operation.account, OperationBackup(operation))).dirs == start.dirs
    ensures t.config - {operation.account} == start.config - {operation.account} ==>
      RolledBack(t, DeleteFiles(operation.account, OperationBackup(operation))).config == start.config
  {
    var id := operation.account;
    var back := RolledBack(t, DeleteFiles(id, OperationBackup(operation)));
    assert back.dirs == t.dirs[Path(Auth, id) := start.dirs[Path(Auth, id)]][Path(Logs, id) := start.dirs[Path(Logs, id)]];
    forall p | p in back.dirs || p in start.dirs
      ensures SameAt(back.dirs, start.dirs, p)
    {
      if p.id == id {
        match p.kind {
          case Auth =>
          case Logs =>
        }
      } else {
        assert SameAt(t.dirs, start.dirs, p);
      }
    }
    assert back.dirs == start.dirs;
    if t.config - {id} == start.config - {id} {
      assert back.config == (t.config - {id})[id := start.config[id]];
    }
  }

  /** Undoing files, container and secret gives back those of the start. */
  lemma ResourcesBack(before: World, after: World, start: World, operation: Operation, action: FileAction,
                      runtime: Option<RuntimeTransition>, ready: bool, secrets: map<Id, Option<string>>)
    requires ActionOf(action, operation) && operation.kind == DeleteAccount
    requires BackedUp(before.tree, start.tree, operation) && DirsFrom(before.tree.dirs, start.tree.dirs, {operation.account})
    requires operation.account in start.catalog.accounts && before.tree.config.Keys <= start.catalog.accounts.Keys
    requires PlanFrom(ready, secrets, before.secrets, start.secrets) && RuntimeFrom(runtime, before.containers, start.containers)
    requires after.tree == RolledBack(before.tree, action)
    requires after.containers == (if runtime.None? then before.containers else RolledBackContainers(before.containers, runtime.value))
    requires after.secrets == (if !ready then before.secrets else AllWritten(before.secrets, secrets))
    ensures after.tree.dirs == start.tree.dirs && after.tree.config.Keys <= start.catalog.accounts.Keys
    ensures after.secrets == start.secrets && after.containers == start.containers
  {
    hide RolledBackContainers, AllWritten, OperationBackup;
    BackupRestores(before.tree, start.tree, operation);
    if ready {
      SecretsRestored(before.secrets, start.secrets, secrets);
    }
  }

  /** The rows come back with their routes and default flags, then configs and snapshot follow. */
  method RollbackDeletion(cp: ControlPlane, operation: Operation, deletion: AccountDeletion, t: FileTransition,
                          runtime: Option<RuntimeTransition>, plan: SecretPlan, ghost start: World, ghost content: Directory)
    returns (e: Ending)
    requires InProgress(cp.W(), operation, content) && operation.kind == DeleteAccount
    requires Synced(start) && operation.account in start.catalog.accounts
    requires RestoreDeletion(cp.catalog, deletion) == Ok(start.catalog) && CatalogPart(start.catalog, operation)
    requires OthersKept(start.catalog.accounts, cp.catalog.accounts, OwnedIds(operation))
    requires ActionOf(t.action, operation) && !t.rolledBack && RuntimeOf(runtime, operation)
    requires runtime.Some? ==> runtime.value.kind.RetiredContainer?
    requires BackedUp(cp.files.tree, start.tree, operation) && DirsFrom(cp.files.tree.dirs, start.tree.dirs, {operation.account})
    requires cp.files.tree.config.Keys <= start.catalog.accounts.Keys
    requires plan.before.Keys <= {operation.account} && PlanFrom(plan.ready, plan.before, cp.secrets, start.secrets)
    requires RuntimeFrom(runtime, cp.containers, start.containers)
    modifies cp.files, t, cp`containers, cp`monitor, cp`secrets, cp`catalog, cp`active
    ensures cp.catalog.rows == old(cp.catalog.rows) || cp.catalog.rows == start.catalog.rows
    ensures InProgress(cp.W(), operation, content) && e in {Undone, Stuck, CutOff}
    ensures e.Undone? ==> Restored(cp.W(), start)
    ensures OnlyHits(old(cp.monitor), cp.monitor, {})
    ensures cp.files.calm ==> e.Undone?
  {
    hide InProgress, CatalogPart, RestoreDeletion, RolledBackContainers, RolledBack, AllWritten, Synced, OthersKept, RuntimeOf, Watch;
    hide OnlyTouches, DirsFrom, PlanFrom, RuntimeFrom, ActionOf, BackedUp, OperationBackup, Restored;
    hide CanRender, CanUndo, Invariant, Rendered;
    StartKeys(start);
    NothingToUndo(t.action, operation, cp.files.tree.dirs);
    ghost var before := cp.W();
    var o := RollbackResources(cp, operation, t, runtime, plan, content);
    var failed := o.Failed?;
    if o.Done? {
      ResourcesBack(before, cp.W(), start, operation, t.action, runtime, plan.ready, plan.before);
    }
    ghost var config := cp.files.tree.config;
    if !o.Crashed? {
      ghost var w := cp.W();
      o := StoreRestoration(cp, deletion);
      CatalogMoves(w, start.catalog, operation, content);
    }
    if o.Done? {
      o := RestorePublished(cp, operation, content);
    }
    e := EndOf(o, failed);
    if e.Undone? {
      RestoredIsSynced(cp.W(), start, config);
    }
  }

  /** Container and files go only after the snapshot has moved on and, if users were moved, the account has drained. */
  method DeleteRuntime(cp: ControlPlane, operation: Operation, t: FileTransition, moved: bool, drainer: bool, ghost content: Directory)
    returns (o: Outcome, runtime: Option<RuntimeTransition>)
    requires InProgress(cp.W(), operation, content) && Holds(cp.journal, operation) && operation.kind == DeleteAccount
    requires operation.account !in cp.catalog.accounts && Invariant(cp.catalog) && operation.account in cp.containers
    requires ActionOf(t.action, operation) && !t.rolledBack && !t.committed
    modifies cp.files, t, cp`containers, cp`monitor, cp`active, cp`journal
    ensures InProgress(cp.W(), operation, content) && Holds(cp.journal, operation)
    ensures OnlyTouches(cp.files.tree, old(cp.files.tree), {operation.account}) && !t.rolledBack
    ensures cp.files.tree.config.Keys <= old(cp.files.tree).config.Keys
    ensures RuntimeOf(runtime, operation) && (runtime.Some? ==> runtime.value.kind.RetiredContainer?)
    ensures !o.Crashed? ==> RuntimeFrom(runtime, cp.containers, old(cp.containers))
    ensures o.Done? ==>
      && cp.containers == old(cp.containers) - {operation.account} && cp.active == cp.catalog.routes
      && cp.files.tree == Removed(old(cp.files.tree), operation.account)
    ensures OnlyHits(old(cp.monitor), cp.monitor, if moved then {} else {operation.account} * old(cp.monitor.busy))
    ensures cp.files.calm ==> o == if moved && !drainer then Failed else Done
  {
    hide InProgress, OnlyTouches, ActionOf, Removed, Holds, Watch, Invariant, OperationBackup;
    UnroutedAccount(cp.catalog, operation.account);
    Untouched(cp.files.tree, {operation.account});
    o, runtime := cp.PrepareDelete(operation.account);
    assert o.Done? ==> RuntimeFrom(runtime, cp.containers, cp.containers);
    if o.Done? {
      o := Activate(cp, operation, content);
    }
    if o.Done? && moved {
      o := Drain(cp, operation.account, drainer);
    }
    if o.Done? {
      o := Retire(cp, operation, t, runtime.value, content);
    }
  }

  lemma Untouched(t: Tree, ids: set<Id>)
    ensures OnlyTouches(t, t, ids)
  {
  }

  lemma OneBack<T>(m: map<Id, T>, before: map<Id, T>, id: Id)
    requires id in before && forall other :: other != id ==> SameAt(m, before, other)
    ensures m[id := before[id]] == before
  {
    assert forall other :: other in m || other in before ==> other == id || SameAt(m, before, other);
  }

  method Retire(cp: ControlPlane, operation: Operation, t: FileTransition, runtime: RuntimeTransition, ghost content: Directory)
    returns (o: Outcome)
    requires InProgress(cp.W(), operation, content) && operation.kind == DeleteAccount
    requires operation.account in cp.containers && ActionOf(t.action, operation) && !t.rolledBack && !t.committed
    requires runtime == RuntimeTransition(RetiredContainer, operation.account, operation.account, Get(cp.containers, operation.account))
    modifies cp.files, t, cp`containers, cp`monitor
    ensures InProgress(cp.W(), operation, content)
    ensures OnlyTouches(cp.files.tree, old(cp.files.tree), {operation.account}) && !t.rolledBack
    ensures cp.files.tree.config.Keys <= old(cp.files.tree).config.Keys
    ensures !o.Crashed? ==> RuntimeFrom(Some(runtime), cp.containers, old(cp.containers))
    ensures o.Done? ==>
      && cp.containers == old(cp.containers) - {operation.account}
      && cp.files.tree == Removed(old(cp.files.tree), operation.account)
    ensures OnlyHits(old(cp.monitor), cp.monitor, {operation.account} * old(cp.monitor.busy))
    ensures cp.files.calm ==> o.Done?
  {
    hide CatalogPart, TreePart, ContainerPart, SecretPart, OAuthSafe, Watch, OperationBackup;
    var id := operation.account;
    ghost var before := cp.containers;
    assert OnlyTouches(cp.files.tree, cp.files.tree, {id});
    hide OnlyTouches;
    o := CommitContainers(cp, operation, runtime, content);
    OneBack(cp.containers, before, id);
    if o.Done? {
      o := CommitFiles(cp, operation, t, content);
    }
  }

  /** Without a drainer nothing is waited for and the deletion fails. */
  method Drain(cp: ControlPlane, id: Id, drainer: bool) returns (o: Outcome)
    modifies cp`monitor
    ensures o.Done? ==> cp.monitor == Observe(old(cp.monitor), Drained(id))
    ensures !o.Done? ==> cp.monitor == old(cp.monitor)
    ensures cp.files.calm ==> o == if drainer then Done else Failed
  {
    o := Failed;
    if drainer {
      o := cp.WaitDrained(id);
    }
  }

  lemma DeletedIsSynced(w: World, start: World, rendered: Tree, config: map<Id, Config>, operation: Operation)
    requires Synced(start) && Invariant(w.catalog) && w.active == w.catalog.routes && operation.kind == DeleteAccount
    requires operation.account in start.catalog.accounts && w.catalog.accounts.Keys == start.catalog.accounts.Keys - {operation.account}
    requires OthersKept(w.catalog.accounts, start.catalog.accounts, {operation.account})
    requires CanRender(w.catalog, w.secrets) && rendered.config == config + Rendered(w.catalog, w.secrets)
    requires TreePart(rendered, w.catalog.accounts, operation) && w.tree == Removed(rendered, operation.account)
    requires w.containers == start.containers - {operation.account}
    requires w.secrets == start.secrets - {operation.account}
    ensures Synced(w)
  {
    hide Invariant, CanRender, ConfigOf, TreePart, Rendered, DirsMatch, ConfigsMatch;
    assert OnlyTouches(w.tree, rendered, {operation.account});
    hide OnlyTouches;
    assert ContainersMatch(w.containers, w.catalog.accounts);
    hide ContainersMatch, OthersKept;
    RemovedInStep(w, rendered, config, operation);
    hide SyncedAccounts;
  }

  /** From the stored rows to the removed account. */
  method DeleteApplied(cp: ControlPlane, operation: Operation, deletion: AccountDeletion, t: FileTransition, drainer: bool,
                       ghost start: World, ghost content: Directory)
    returns (e: Ending)
    requires InProgress(cp.W(), operation, content) && Holds(cp.journal, operation) && operation.kind == DeleteAccount
    requires Synced(start) && operation.account in start.catalog.accounts && Invariant(cp.catalog)
    requires RestoreDeletion(cp.catalog, deletion) == Ok(start.catalog) && CatalogPart(start.catalog, operation)
    requires OthersKept(cp.catalog.accounts, start.catalog.accounts, OwnedIds(operation))
    requires OthersKept(start.catalog.accounts, cp.catalog.accounts, OwnedIds(operation))
    requires cp.catalog.accounts.Keys == start.catalog.accounts.Keys - {operation.account}
    requires ActionOf(t.action, operation) && !t.rolledBack && !t.committed
    requires cp.files.tree == start.tree.(backups := cp.files.tree.backups) && BackedUp(cp.files.tree, start.tree, operation)
    requires cp.secrets == start.secrets && cp.containers == start.containers
    modifies cp.files, t, cp`containers, cp`monitor, cp`secrets, cp`catalog, cp`active, cp`journal
    ensures cp.catalog.rows == old(cp.catalog.rows) || cp.catalog.rows == start.catalog.rows
    ensures InProgress(cp.W(), operation, content) && Holds(cp.journal, operation)
    ensures e in {Succeeded, Undone, Stuck, CutOff}
    ensures e.Undone? ==> Restored(cp.W(), start)
    ensures e.Succeeded? ==>
      && Synced(cp.W()) && cp.catalog == old(cp.catalog)
      && cp.secrets == start.secrets - {operation.account}
    ensures OnlyHits(old(cp.monitor), cp.monitor, if deletion.routes != map[] then {} else {operation.account} * old(cp.monitor.busy))
    ensures cp.files.calm && CanRender(old(cp.catalog), start.secrets - {operation.account}) ==>
      e == if deletion.routes != map[] && !drainer then Undone else Succeeded
  {
    hide Interrupted, OAuthSafe, Invariant, CatalogPart, RestoreDeletion, Rendered, CanRender, Synced, Holds, Watch;
    hide RolledBackContainers, AllWritten, OnlyTouches, ActionOf, OthersKept, Restored, InProgress, RuntimeOf, RuntimeFrom, PlanFrom;
    hide DirsFrom, BackedUp, OwnedIds, Removed, OnlyHits;
    OnlyAccountIsOwned(operation);
    ghost var spared := if deletion.routes != map[] then {} else {operation.account} * old(cp.monitor.busy);
    var o, plan, runtime := DeleteForward(cp, operation, deletion.routes != map[], t, drainer, start, content);
    e := if o.Crashed? then CutOff else Succeeded;
    if o.Failed? {
      ghost var watched := cp.monitor;
      e := RollbackDeletion(cp, operation, deletion, t, runtime, plan, start, content);
      HitsTrans(old(cp.monitor), watched, cp.monitor, spared, {});
    }
  }

  /** Secret, configs, snapshot, drain and removal; a failure leaves what the rollback needs. */
  method DeleteForward(cp: ControlPlane, operation: Operation, moved: bool, t: FileTransition, drainer: bool,
                       ghost start: World, ghost content: Directory)
    returns (o: Outcome, plan: SecretPlan, runtime: Option<RuntimeTransition>)
    requires InProgress(cp.W(), operation, content) && Holds(cp.journal, operation) && operation.kind == DeleteAccount
    requires Synced(start) && operation.account in start.catalog.accounts && Invariant(cp.catalog)
    requires OthersKept(cp.catalog.accounts, start.catalog.accounts, OwnedIds(operation))
    requires cp.catalog.accounts.Keys == start.catalog.accounts.Keys - {operation.account}
    requires ActionOf(t.action, operation) && !t.rolledBack && !t.committed
    requires cp.files.tree == start.tree.(backups := cp.files.tree.backups) && BackedUp(cp.files.tree, start.tree, operation)
    requires cp.secrets == start.secrets && cp.containers == start.containers
    modifies cp.files, t, cp`containers, cp`monitor, cp`secrets, cp`active, cp`journal
    ensures InProgress(cp.W(), operation, content) && Holds(cp.journal, operation) && fresh(plan) && !t.rolledBack
    ensures RuntimeOf(runtime, operation) && (runtime.Some? ==> runtime.value.kind.RetiredContainer?)
    ensures o.Failed? ==>
      && BackedUp(cp.files.tree, start.tree, operation) && DirsFrom(cp.files.tree.dirs, start.tree.dirs, {operation.account})
      && cp.files.tree.config.Keys <= start.catalog.accounts.Keys
      && plan.before.Keys <= {operation.account} && PlanFrom(plan.ready, plan.before, cp.secrets, start.secrets)
      && RuntimeFrom(runtime, cp.containers, start.containers)
    ensures o.Done? ==> Synced(cp.W()) && cp.secrets == start.secrets - {operation.account}
    ensures OnlyHits(old(cp.monitor), cp.monitor, if moved then {} else {operation.account} * old(cp.monitor.busy))
    ensures cp.files.calm && CanRender(cp.catalog, start.secrets - {operation.account}) ==>
      o == if moved && !drainer then Failed else Done
  {
    hide Interrupted, OAuthSafe, Invariant, CatalogPart, Rendered, CanRender, Synced, Holds, Watch;
    hide AllWritten, OnlyTouches, ActionOf, OthersKept, InProgress, RuntimeOf, RuntimeFrom, PlanFrom;
    hide DirsFrom, BackedUp, OwnedIds, Removed, OnlyHits;
    HitsNone(cp.monitor);
    OnlyAccountIsOwned(operation);
    StartKeys(start);
    DeletedSecret(start.secrets, operation.account);
    plan := new SecretPlan(map[operation.account := None]);
    runtime := None;
    NoRuntime(operation, cp.containers);
    o := CaptureAndProject(cp, operation, plan, start.secrets, content);
    ghost var rendered := cp.W();
    UntouchedDirs(cp.files.tree, start.tree, operation);
    if o.Done? {
      o, runtime := DeleteRuntime(cp, operation, t, moved, drainer, content);
      StillBackedUp(cp.files.tree, rendered.tree, start.tree, operation);
    }
    if o.Done? {
      DeletedProgress(rendered, operation, content);
      DeletedIsSynced(cp.W(), start, rendered.tree, start.tree.config, operation);
    }
  }

  lemma OnlyAccountIsOwned(operation: Operation)
    requires operation.kind == DeleteAccount
    ensures OwnedIds(operation) == {operation.account}
  {
  }

  lemma UntouchedDirs(t: Tree, start: Tree, operation: Operation)
    requires t.dirs == start.dirs
    ensures DirsFrom(t.dirs, start.dirs, {operation.account})
    ensures forall before :: BackedUp(before, start, operation) && before.backups == t.backups ==> BackedUp(t, start, operation)
  {
  }

  lemma DeletedProgress(w: World, operation: Operation, content: Directory)
    requires InProgress(w, operation, content)
    ensures TreePart(w.tree, w.catalog.accounts, operation)
  {
  }

  lemma DeletedSecret(secrets: map<Id, string>, id: Id)
    ensures AllWritten(secrets, map[id := None]) == secrets - {id}
  {
  }

  lemma StillBackedUp(t: Tree, before: Tree, start: Tree, operation: Operation)
    requires OnlyTouches(t, before, {operation.account}) && BackedUp(before, start, operation)
    requires DirsFrom(before.dirs, start.dirs, {operation.account})
    ensures BackedUp(t, start, operation) && DirsFrom(t.dirs, start.dirs, {operation.account})
  {
    forall p | p in t.dirs || p in start.dirs
      ensures p.id == operation.account || SameAt(t.dirs, start.dirs, p)
    {
      if p.id != operation.account {
        assert SameAt(t.dirs, before.dirs, p) && SameAt(before.dirs, start.dirs, p);
      }
    }
  }

  /** As before but for missing directories. */
  ghost predicate LessDirs(t: Tree, start: Tree) {
    t.config == start.config && forall p :: p in t.dirs ==> SameAt(t.dirs, start.dirs, p)
  }

  lemma PartlyIsLess(t: Tree, before: Tree, start: Tree, operation: Operation)
    requires PartlyRestored(t, before, operation.account, BackupAt(before, OperationBackup(operation)))
    requires BackedUp(before, start, operation) && before == start.(backups := before.backups)
    ensures LessDirs(t, start)
  {
    hide OperationBackup;
    assert BackupAt(before, OperationBackup(operation)) == BackupOf(start, operation.account, true, true, true);
    assert start.config[operation.account := start.config[operation.account]] == start.config;
  }

  /** A directory that a roll-back left missing is out of step, and an accepted journal does not say so. */
  lemma MissingIsUnsound(start: World, t: Tree, operation: Operation)
    requires Synced(start) && LessDirs(t, start.tree) && t.dirs != start.tree.dirs
    requires operation.kind == DeleteAccount && operation.phase == Accepted
    ensures !Sound(Some(operation), start.(tree := t))
  {
    hide Synced, ValidOperation, Interrupted;
    MissingIsOutOfStep(start, t);
  }

  lemma MissingIsOutOfStep(start: World, t: Tree)
    requires Synced(start) && LessDirs(t, start.tree) && t.dirs != start.tree.dirs
    ensures !Synced(start.(tree := t))
  {
    hide Invariant, CanRender, ConfigsMatch, ContainersMatch;
    assert (forall p :: p in start.tree.dirs ==> p in t.dirs) ==> t.dirs == start.tree.dirs;
    var p :| p in start.tree.dirs && p !in t.dirs;
    assert HasDirs(start.tree.dirs, p.id);
    assert p.kind == Auth || p.kind == Logs;
  }

  lemma RestoredDirs(w: World, start: World)
    requires Restored(w, start)
    ensures w.tree.dirs == start.tree.dirs
  {
    hide Synced;
  }

  /** Writes the backed-up files over the untouched ones. */
  method RestoreFiles(cp: ControlPlane, operation: Operation, t: FileTransition, ghost start: World, ghost content: Directory)
    returns (e: Ending)
    requires InProgress(cp.W(), operation, content) && operation.kind == DeleteAccount && Synced(start)
    requires cp.W() == start.(tree := start.tree.(backups := cp.files.tree.backups)) && BackedUp(cp.files.tree, start.tree, operation)
    requires ActionOf(t.action, operation) && !t.rolledBack
    modifies cp.files, t
    ensures InProgress(cp.W(), operation, content) && e in {Undone, Stuck, CutOff}
    ensures cp.files.tree.backups == old(cp.files.tree).backups
    ensures e.Undone? ==> Restored(cp.W(), start)
    ensures cp.W() == start.(tree := cp.files.tree) && LessDirs(cp.files.tree, start.tree)
    ensures cp.files.calm ==> e.Undone?
  {
    hide InProgress, Synced, Restored, Watch, BackedUp, PartlyRestored, LessDirs;
    ghost var before := cp.files.tree;
    assert DirsFrom(before.dirs, start.tree.dirs, {operation.account});
    BackupRestores(before, start.tree, operation);
    var o := RollbackFiles(cp, operation, t, content);
    PartlyIsLess(cp.files.tree, before, start.tree, operation);
    e := EndOf(o, false);
    hide OnlyTouches, DirsFrom, RolledBack;
    if e.Undone? {
      BackupsAside(start, cp.files.tree);
      assert cp.W() == start.(tree := cp.files.tree);
    }
    hide ActionOf;
  }

  /** From the backup on. */
  method DeletePrepared(cp: ControlPlane, operation: Operation, fallback: Id, revoke: bool, drainer: bool, t: FileTransition,
                        ghost start: World, ghost content: Directory)
    returns (e: Ending, ghost order: seq<Id>)
    requires InProgress(cp.W(), operation, content) && Holds(cp.journal, operation) && operation.kind == DeleteAccount
    requires operation.evacuated == map[] && Synced(start) && operation.account in start.catalog.accounts
    requires cp.W() == start.(tree := start.tree.(backups := cp.files.tree.backups)) && BackedUp(cp.files.tree, start.tree, operation)
    requires ActionOf(t.action, operation) && !t.rolledBack && !t.committed
    modifies cp.files, t, cp`containers, cp`monitor, cp`secrets, cp`catalog, cp`active, cp`journal
    ensures SameUsers(cp.catalog.rows, start.catalog.rows)
    ensures InProgress(cp.W(), operation, content) && Holds(cp.journal, operation)
    ensures e in {Succeeded, Undone, Stuck, CutOff} && Lists(order, start.catalog.accounts)
    ensures e.Undone? ==> Restored(cp.W(), start)
    ensures e.Succeeded? ==>
      && Synced(cp.W())
      && ApplyDeletion(start.catalog, operation.account, Some(fallback), revoke, order).Ok?
      && cp.catalog == ApplyDeletion(start.catalog, operation.account, Some(fallback), revoke, order).value.0
      && cp.secrets == start.secrets - {operation.account}
    ensures OnlyHits(old(cp.monitor), cp.monitor,
                     if HasUsers(start.catalog.routes, operation.account) then {} else {operation.account} * old(cp.monitor.busy))
    ensures cp.files.calm ==>
      e == if Deletable(start.catalog, operation.account, fallback, revoke, drainer) then Succeeded else Undone
  {
    hide SameUsers, InProgress, Invariant, ApplyDeletion, Lists, CatalogPart, SyncedAccounts, Holds, Watch, BackedUp;
    hide ActionOf, OthersKept, OnlyTouches, Restored, RestoreDeletion, OnlyHits, MayDelete;
    hide Synced, CanRender;
    HitsNone(cp.monitor);
    UsersStay(cp.catalog.rows);
    StartKeys(start);
    var o, deletion;
    o, deletion, order := StoreDeletion(cp, operation.account, fallback, revoke);
    ghost var applied := ApplyDeletion(start.catalog, operation.account, Some(fallback), revoke, order);
    NamedDeletionAcceptedIff(start.catalog, operation.account, fallback, revoke, order);
    if applied.Ok? {
      DeletionFacts(start.catalog, operation, fallback, revoke, order, applied.value.0, applied.value.1);
      CatalogMoves(start.(tree := cp.files.tree), applied.value.0, operation, content);
      RoutedHasChanges(start.catalog.routes, operation.account, fallback);
      DeletedRenders(start.catalog, start.secrets, operation.account, fallback, revoke, order);
    }
    e := CutOff;
    if o.Done? {
      e := DeleteApplied(cp, operation, deletion.value, t, drainer, start, content);
    } else if o.Failed? {
      e := RestoreFiles(cp, operation, t, start, content);
    }
  }

  lemma RoutedHasChanges(routes: map<User, Id>, id: Id, fallback: Id)
    ensures HasUsers(routes, id) <==> DeletionChanges(routes, id, fallback) != map[]
  {
    assert forall u :: u in DeletionChanges(routes, id, fallback) <==> u in routes && routes[u] == id;
    if u :| u in routes && routes[u] == id {
      assert u in DeletionChanges(routes, id, fallback);
    }
  }

  lemma AcceptedAgain(w: World, start: World, operation: Operation)
    requires Restored(w, start) && operation.kind == DeleteAccount && operation.evacuated == map[]
    requires ValidOperation(operation) && operation.phase == Accepted && operation.account in start.catalog.accounts
    ensures Sound(Some(operation), w)
  {
    hide Synced, ValidId;
  }

  lemma AcceptedIsSound(start: World, t: Tree, operation: Operation)
    requires Synced(start) && operation.kind == DeleteAccount && operation.evacuated == map[]
    requires ValidOperation(operation) && operation.phase == Accepted && operation.account in start.catalog.accounts
    requires t == start.tree.(backups := t.backups)
    ensures Sound(Some(operation), start.(tree := t))
  {
    hide *;
    BackupsAside(start, t);
    AcceptedAgain(start.(tree := t), start, operation);
  }

  lemma StartIsSafe(start: World, t: Tree, operation: Operation)
    requires Synced(start) && operation.kind == DeleteAccount && operation.account in start.catalog.accounts
    requires FreshId(start.tree, operation.id)
    requires t == start.tree ||
      t == start.tree.(backups := start.tree.backups[OperationBackup(operation) := BackupOf(start.tree, operation.account, true, true, true)])
    ensures OAuthSafe(t, operation, OAuthAt(start.tree, operation.account))
  {
    hide Invariant, CanRender, ConfigsMatch, ContainersMatch;
    assert HasDirs(start.tree.dirs, operation.account);
  }

  lemma BackupIsProgress(start: World, t: Tree, operation: Operation)
    requires Synced(start) && operation.kind == DeleteAccount && operation.evacuated == map[]
    requires operation.account in start.catalog.accounts && t == start.tree.(backups := t.backups)
    requires Get(t.backups, OperationBackup(operation)) == Some(BackupOf(start.tree, operation.account, true, true, true))
    ensures BackedUp(t, start.tree, operation)
    ensures InProgress(start.(tree := t), operation, OAuthAt(start.tree, operation.account))
  {
    hide Invariant, CanRender, ConfigOf, ContainersMatch;
    assert HasDirs(start.tree.dirs, operation.account) && operation.account in start.tree.config;
    NoEvacuation(start.catalog, operation);
    BackupsAside(start, t);
    hide DirsMatch, ConfigsMatch, CatalogPart, SyncedAccounts, Restored;
    MatchingIsInterrupted(start.(tree := t), operation);
    hide Interrupted;
  }

  /** From the accepted journal on; the journal is left for Finalize to clear. */
  method DeleteAccepted(cp: ControlPlane, operation: Operation, fallback: Id, revoke: bool, drainer: bool)
    returns (e: Ending, ghost order: seq<Id>, split: bool)
    requires Synced(cp.W()) && cp.journal == Some(operation) && ValidOperation(operation)
    requires operation.kind == DeleteAccount && operation.phase == Accepted && operation.evacuated == map[]
    requires operation.account in cp.catalog.accounts && FreshId(cp.files.tree, operation.id)
    modifies cp.files, cp`containers, cp`monitor, cp`secrets, cp`catalog, cp`active, cp`journal
    ensures SameUsers(cp.catalog.rows, old(cp.catalog.rows))
    ensures cp.journal.Some? && (split <==> !Sound(cp.journal, cp.W())) && e in {Succeeded, Undone, Stuck, CutOff}
    ensures split ==>
      && e in {Stuck, CutOff} && cp.W() == old(cp.W()).(tree := cp.files.tree) && cp.journal == Some(operation)
      && Get(cp.files.tree.backups, OperationBackup(operation)) == Some(BackupOf(old(cp.files.tree), operation.account, true, true, true))
    ensures e.Undone? ==> Restored(cp.W(), old(cp.W()))
    ensures e.Succeeded? ==>
      && Synced(cp.W()) && Lists(order, old(cp.catalog).accounts)
      && ApplyDeletion(old(cp.catalog), operation.account, Some(fallback), revoke, order).Ok?
      && cp.catalog == ApplyDeletion(old(cp.catalog), operation.account, Some(fallback), revoke, order).value.0
      && cp.secrets == old(cp.secrets) - {operation.account}
    ensures OnlyHits(old(cp.monitor), cp.monitor,
                     if HasUsers(old(cp.catalog).routes, operation.account) then {} else {operation.account} * old(cp.monitor.busy))
    ensures OAuthSafe(cp.files.tree, operation, OAuthAt(old(cp.files.tree), operation.account))
    ensures cp.files.calm ==>
      !split && e == if Deletable(old(cp.catalog), operation.account, fallback, revoke, drainer) then Succeeded else Undone
  {
    hide SameUsers, Synced, Restored, Interrupted, Sound, ApplyDeletion, Lists;
    hide Watch, ValidOperation, BackupOf, BackedUp, OAuthAt, OAuthSafe, FreshId;
    UsersStay(cp.catalog.rows);
    ghost var start := cp.W();
    ghost var content := OAuthAt(cp.files.tree, operation.account);
    FreshKey(cp.files.tree, BackupKey(operation.id, operation.account, DeletedAccount));
    var dirs := cp.files.tree.dirs;
    var o, t := cp.files.PrepareDelete(operation.id, operation.account);
    AcceptedIsSound(start, cp.files.tree, operation);
    StartIsSafe(start, cp.files.tree, operation);
    e, order, split := CutOff, [], false;
    if o.Failed? {
      e := Undone;
      BackupsAside(start, cp.files.tree);
    } else if o.Done? {
      BackupIsProgress(start, cp.files.tree, operation);
      o := Advance(cp, operation, FilesPrepared);
      if o.Done? {
        e, order := DeletePrepared(cp, operation, fallback, revoke, drainer, t, start, content);
      } else if o.Failed? {
        e := RestoreFiles(cp, operation, t, start, content);
        split := cp.files.tree.dirs != dirs;
        if e.Undone? { RestoredDirs(cp.W(), start); }
        if split {
          MissingIsUnsound(start, cp.files.tree, operation);
        } else {
          BackupsAside(start, cp.files.tree);
          AcceptedAgain(cp.W(), start, operation);
        }
        hide LessDirs;
      }
    }
    if Holds(cp.journal, operation) {
      HeldIsSound(cp.journal, cp.W(), operation);
    }
  }

  /**
   * `eligible` lists the accounts whose state allows more traffic; None when
   * the states cannot be read.  `split` reports files that a failed roll-back
   * left missing while the journal is still at its first phase; the backup
   * holds them.
   */
  method Delete(cp: ControlPlane, request: Request, operationId: string, eligible: Option<set<Id>>, drainer: bool)
    returns (e: Ending, ghost fallback: Id, ghost order: seq<Id>, split: bool)
    requires Sound(cp.journal, cp.W()) && FreshId(cp.files.tree, operationId)
    modifies cp, cp.files
    ensures SameUsers(cp.catalog.rows, old(cp.catalog.rows))
    ensures split <==> !Sound(cp.journal, cp.W())
    ensures split ==>
      && e in {Stuck, CutOff} && cp.W() == old(cp.W()).(tree := cp.files.tree)
      && cp.journal == Some(Operation(operationId, DeleteAccount, Accepted, request.id, "", map[]))
      && Get(cp.files.tree.backups, BackupKey(operationId, request.id, DeletedAccount)) ==
           Some(BackupOf(old(cp.files.tree), request.id, true, true, true))
    ensures old(cp.journal).Some? ==> e.Refused?
    ensures e.Refused? ==> cp.journal == old(cp.journal) && cp.W() == old(cp.W())
    ensures !e.Refused? ==> Chosen(old(cp.catalog).accounts, request.id, request.fallback, eligible, fallback)
    ensures e.Stuck? ==> cp.journal.Some?
    ensures e.Undone? ==> cp.journal.None? && Restored(cp.W(), old(cp.W()))
    ensures e.Succeeded? ==>
      && cp.journal.None? && Lists(order, old(cp.catalog).accounts)
      && ApplyDeletion(old(cp.catalog), request.id, Some(fallback), request.revoke, order).Ok?
      && cp.catalog == ApplyDeletion(old(cp.catalog), request.id, Some(fallback), request.revoke, order).value.0
      && cp.secrets == old(cp.secrets) - {request.id}
    ensures OnlyHits(old(cp.monitor), cp.monitor,
                     if HasUsers(old(cp.catalog).routes, request.id) then {} else {request.id} * old(cp.monitor.busy))
    ensures !e.Refused? ==>
      OAuthHeld(cp.files.tree, request.id, request.id,
                BackupKey(operationId, request.id, DeletedAccount), OAuthAt(old(cp.files.tree), request.id))
    ensures cp.files.calm && old(cp.journal).None? ==>
      !split && e == if !Admissible(request, old(cp.catalog).accounts, eligible) then Refused
                     else if Deletable(old(cp.catalog), request.id, fallback, request.revoke, drainer) then Succeeded
                     else Undone
  {
    hide SameUsers, Synced, Restored, ApplyDeletion, Lists, Watch, ValidId, Recoverable, FreshId, BackupOf, OAuthAt, MayDelete;
    if request.id in cp.catalog.accounts { LastIsAlone(cp.catalog.accounts, request.id); }
    UsersStay(cp.catalog.rows);
    e, fallback, order, split := Refused, "", [], false;
    if ValidId(request.id) && request.id in cp.catalog.accounts && |cp.catalog.accounts| > 1 {
      var chosen := SelectFallback(cp.catalog.accounts, request.id, request.fallback, eligible);
      if chosen.Some? {
        fallback := chosen.value;
        e, order, split := DeleteJournaled(cp, request.id, chosen.value, request.revoke, operationId, drainer);
      }
    }
  }

  method DeleteJournaled(cp: ControlPlane, id: Id, fallback: Id, revoke: bool, operationId: string, drainer: bool)
    returns (e: Ending, ghost order: seq<Id>, split: bool)
    requires Sound(cp.journal, cp.W()) && id in cp.catalog.accounts && FreshId(cp.files.tree, operationId)
    modifies cp, cp.files
    ensures SameUsers(cp.catalog.rows, old(cp.catalog.rows))
    ensures split <==> !Sound(cp.journal, cp.W())
    ensures split ==>
      && e in {Stuck, CutOff} && cp.W() == old(cp.W()).(tree := cp.files.tree)
      && cp.journal == Some(Operation(operationId, DeleteAccount, Accepted, id, "", map[]))
      && Get(cp.files.tree.backups, BackupKey(operationId, id, DeletedAccount)) ==
           Some(BackupOf(old(cp.files.tree), id, true, true, true))
    ensures old(cp.journal).Some? ==> e.Refused?
    ensures e.Refused? ==> cp.journal == old(cp.journal) && cp.W() == old(cp.W())
    ensures e.Stuck? ==> cp.journal.Some?
    ensures e.Undone? ==> cp.journal.None? && Restored(cp.W(), old(cp.W()))
    ensures e.Succeeded? ==>
      && cp.journal.None? && Lists(order, old(cp.catalog).accounts)
      && ApplyDeletion(old(cp.catalog), id, Some(fallback), revoke, order).Ok?
      && cp.catalog == ApplyDeletion(old(cp.catalog), id, Some(fallback), revoke, order).value.0
      && cp.secrets == old(cp.secrets) - {id}
    ensures OnlyHits(old(cp.monitor), cp.monitor, if HasUsers(old(cp.catalog).routes, id) then {} else {id} * old(cp.monitor.busy))
    ensures !e.Refused? ==>
      OAuthHeld(cp.files.tree, id, id, BackupKey(operationId, id, DeletedAccount), OAuthAt(old(cp.files.tree), id))
    ensures cp.files.calm && old(cp.journal).None? && ValidId(id) ==>
      !split && e == if Deletable(old(cp.catalog), id, fallback, revoke, drainer) then Succeeded else Undone
  {
    hide SameUsers, Synced, ApplyDeletion, Lists, Watch, ValidOperation, Recoverable, FreshId, BackupOf, OAuthAt;
    UsersStay(cp.catalog.rows);
    e, order, split := Refused, [], false;
    ghost var start := cp.W();
    if ValidId(id) { NamedIsValid(Operation(operationId, DeleteAccount, Accepted, id, "", map[])); }
    var o, operation := Begin(cp, DeleteAccount, id, "", operationId);
    if cp.journal != old(cp.journal) {
      AcceptedIsSound(start, cp.files.tree, operation);
    }
    if o.Crashed? {
      e := CutOff;
      StartIsSafe(start, cp.files.tree, operation);
    } else if o.Done? {
      e, order, split := DeleteAccepted(cp, operation, fallback, revoke, drainer);
      e := Finalize(cp, e);
    }
  }
}
