/**
 * Creating an account: directories, row and keys, proxy secret, config,
 * container and snapshot, in that order, each undone when a later one fails.
 */
module Creation {
  import opened Wrappers
  import opened Catalog
  import opened CatalogLaws
  import opened Journal
  import opened Files
  import opened Traffic
  import opened World
  import opened ControlPlane
  import opened RecoveryLaws
  import opened Transactions
  import opened Steps
  import opened TransactionLaws

  /** An empty proxy is no proxy. */
  datatype Request = Request(id: Id, email: string, mode: ProxyMode, proxy: string)

  // -------------------------------------------------------------------- port

  predicate FreePort(accounts: map<Id, Account>, reserved: set<int>, port: int) {
    port !in {8317, 8318} && port !in reserved && forall a :: a in accounts ==> accounts[a].port != port
  }

  /** The lowest free port of the configured range. */
  method AllocatePort(accounts: map<Id, Account>, reserved: set<int>, start: int, end: int) returns (port: Option<int>)
    ensures start < 1024 || end > 65535 || end < start ==> port.None?
    ensures port.Some? ==>
      && start <= port.value <= end && FreePort(accounts, reserved, port.value)
      && forall p :: start <= p < port.value ==> !FreePort(accounts, reserved, p)
    ensures port.None? && 1024 <= start <= end <= 65535 ==> forall p :: start <= p <= end ==> !FreePort(accounts, reserved, p)
  {
    port := None;
    if 1024 <= start <= end <= 65535 {
      var used := {8317, 8318} + reserved + set a | a in accounts :: accounts[a].port;
      assert forall p :: p in used <==> !FreePort(accounts, reserved, p);
      var p := start;
      while p <= end && port.None?
        invariant start <= p <= end + 1
        invariant forall q :: start <= q < p ==> q in used
        invariant port.Some? ==> port.value == p && p <= end && p !in used
        decreases end - p, port.None?
      {
        if p !in used {
          port := Some(p);
        } else {
          p := p + 1;
        }
      }
    }
  }

  // ------------------------------------------------------------------- facts

  ghost predicate CreatedBy(start: Catalog, operation: Operation, candidate: Candidate,
                            users: seq<User>, now: int, next: Catalog, creation: AccountCreation) {
    && operation.kind == CreateAccount && operation.account == candidate.id && operation.evacuated == map[]
    && ListsActiveUsers(users, start.rows)
    && ApplyCreation(start, candidate, users, now) == Ok((next, creation))
  }

  lemma CreationShape(start: Catalog, candidate: Candidate, users: seq<User>, now: int)
    requires ApplyCreation(start, candidate, users, now).Ok?
    ensures
      var next := ApplyCreation(start, candidate, users, now).value.0;
      && candidate.id !in start.accounts && next.routes == start.routes
      && next.accounts == start.accounts[candidate.id := CreatedAccount(start, candidate)]
  {
    hide CreatedRows, CreatedAccount, HasUnifiedKey, ValidId;
  }

  function ProxyOf(proxy: string): Option<string> {
    if proxy == "" then None else Some(proxy)
  }

  lemma CreatedRenders(start: Catalog, secrets: map<Id, string>, candidate: Candidate, users: seq<User>, now: int, proxy: string)
    requires ApplyCreation(start, candidate, users, now).Ok? && CanRender(start, secrets)
    requires candidate.mode == Custom ==> proxy != ""
    ensures CanRender(ApplyCreation(start, candidate, users, now).value.0, SecretWritten(secrets, candidate.id, ProxyOf(proxy)))
  {
    CreationShape(start, candidate, users, now);
    hide ApplyCreation;
  }

  lemma CreationRestores(start: Catalog, candidate: Candidate, users: seq<User>, now: int)
    requires Invariant(start) && ApplyCreation(start, candidate, users, now).Ok?
    ensures
      var (next, creation) := ApplyCreation(start, candidate, users, now).value;
      RestoreCreation(next, creation) == Ok(start)
  {
    assert RoutesTargetEnabled(start);
    CreationShape(start, candidate, users, now);
    hide Invariant, ApplyCreation, RestoreCreation, ActiveUsers;
    assert NoRoutesTo(start, candidate.id);
    RestoreCreationUndoes(start, candidate, users, now);
  }

  lemma CreationFacts(start: Catalog, operation: Operation, candidate: Candidate, users: seq<User>,
                      now: int, next: Catalog, creation: AccountCreation)
    requires Invariant(start) && CreatedBy(start, operation, candidate, users, now, next, creation)
    ensures CatalogPart(start, operation) && CatalogPart(next, operation)
    ensures OthersKept(next.accounts, start.accounts, OwnedIds(operation)) && OthersKept(start.accounts, next.accounts, OwnedIds(operation))
    ensures next.accounts.Keys == start.accounts.Keys + {operation.account} && operation.account !in start.accounts
    ensures next.routes == start.routes && Invariant(next) && SameUsers(next.rows, start.rows)
    ensures RestoreCreation(next, creation) == Ok(start)
  {
    hide Invariant, CatalogPart, ListsActiveUsers, ApplyCreation, RestoreCreation, CreatedAccount, ActiveUsers, UserSecrets;
    CreationKeepsUsers(start, candidate, users, now);
    NoEvacuation(start, operation);
    NoEvacuation(next, operation);
    CreationKeepsInvariant(start, candidate, users, now);
    CreationShape(start, candidate, users, now);
    CreationRestores(start, candidate, users, now);
  }

  // ------------------------------------------------------------------ methods

  method StoreCreation(cp: ControlPlane, candidate: Candidate, now: int)
    returns (o: Outcome, creation: Option<AccountCreation>, ghost users: seq<User>)
    modifies cp`catalog
    ensures ListsActiveUsers(users, old(cp.catalog).rows)
    ensures o.Done? ==> creation.Some? && ApplyCreation(old(cp.catalog), candidate, users, now) == Ok((cp.catalog, creation.value))
    ensures o.Failed? ==> cp.catalog == old(cp.catalog)
    ensures cp.catalog == old(cp.catalog) ||
      var applied := ApplyCreation(old(cp.catalog), candidate, users, now);
      applied.Ok? && cp.catalog == applied.value.0
    ensures cp.files.calm ==> (o.Done? <==> ApplyCreation(old(cp.catalog), candidate, users, now).Ok?) && !o.Crashed?
  {
    hide ApplyCreation, ListsActiveUsers;
    var r;
    r, users := ApplyAccountCreation(cp.catalog, candidate, now);
    o, creation := Failed, None;
    if r.Ok? {
      creation := Some(r.value.1);
      o := cp.Transact(r.value.0);
    }
  }

  method StoreRestoration(cp: ControlPlane, creation: AccountCreation) returns (o: Outcome)
    modifies cp`catalog
    ensures cp.catalog == old(cp.catalog) || RestoreCreation(old(cp.catalog), creation) == Ok(cp.catalog)
    ensures o.Done? ==> RestoreCreation(old(cp.catalog), creation) == Ok(cp.catalog)
    ensures cp.files.calm && RestoreCreation(old(cp.catalog), creation).Ok? ==> o.Done?
  {
    hide RestoreCreation;
    var r := RestoreAccountCreation(cp.catalog, creation);
    o := Failed;
    if r.Ok? {
      o := cp.Transact(r.value);
    }
  }

  /** Undoing files, container and secret gives back those of the start. */
  lemma ResourcesBack(before: World, after: World, start: World, operation: Operation, action: FileAction,
                      runtime: Option<RuntimeTransition>, ready: bool, secrets: map<Id, Option<string>>)
    requires ActionOf(action, operation) && operation.kind == CreateAccount
    requires Synced(start) && operation.account !in start.catalog.accounts
    requires DirsFrom(before.tree.dirs, start.tree.dirs, {operation.account})
    requires before.tree.config.Keys <= start.catalog.accounts.Keys + {operation.account}
    requires PlanFrom(ready, secrets, before.secrets, start.secrets) && RuntimeFrom(runtime, before.containers, start.containers)
    requires after.tree == RolledBack(before.tree, action)
    requires after.containers == (if runtime.None? then before.containers else RolledBackContainers(before.containers, runtime.value))
    requires after.secrets == (if !ready then before.secrets else AllWritten(before.secrets, secrets))
    ensures after.tree.dirs == start.tree.dirs && after.tree.config.Keys <= start.catalog.accounts.Keys
    ensures after.secrets == start.secrets && after.containers == start.containers
  {
    hide RolledBackContainers, AllWritten, OperationBackup, Synced;
    NothingOf(start, operation.account);
    OtherDirs(before.tree.dirs, start.tree.dirs, operation.account);
    if ready {
      SecretsRestored(before.secrets, start.secrets, secrets);
    }
  }

  lemma OwnRuntime(runtime: Option<RuntimeTransition>, operation: Operation)
    requires RuntimeOf(runtime, operation) && operation.kind == CreateAccount
    ensures runtime.Some? ==> runtime.value.afterId == operation.account
  {
  }

  /** The row and its keys go, then configs and snapshot follow the restored rows. */
  method RollbackCreation(cp: ControlPlane, operation: Operation, creation: AccountCreation, t: FileTransition,
                          runtime: Option<RuntimeTransition>, plan: SecretPlan, ghost start: World, ghost content: Directory)
    returns (e: Ending)
    requires InProgress(cp.W(), operation, content) && operation.kind == CreateAccount
    requires Synced(start) && operation.account !in start.catalog.accounts
    requires RestoreCreation(cp.catalog, creation) == Ok(start.catalog) && CatalogPart(start.catalog, operation)
    requires OthersKept(start.catalog.accounts, cp.catalog.accounts, OwnedIds(operation))
    requires ActionOf(t.action, operation) && !t.rolledBack && RuntimeOf(runtime, operation)
    requires DirsFrom(cp.files.tree.dirs, start.tree.dirs, {operation.account})
    requires cp.files.tree.config.Keys <= start.catalog.accounts.Keys + {operation.account}
    requires plan.before.Keys <= {operation.account} && PlanFrom(plan.ready, plan.before, cp.secrets, start.secrets)
    requires RuntimeFrom(runtime, cp.containers, start.containers)
    modifies cp.files, t, cp`containers, cp`monitor, cp`secrets, cp`catalog, cp`active
    ensures cp.catalog.rows == old(cp.catalog.rows) || cp.catalog.rows == start.catalog.rows
    ensures InProgress(cp.W(), operation, content) && e in {Undone, Stuck, CutOff}
    ensures e.Undone? ==> Restored(cp.W(), start)
    ensures OnlyHits(old(cp.monitor), cp.monitor, {operation.account} * old(cp.monitor.busy))
    ensures cp.files.calm ==> e.Undone?
  {
    hide InProgress, CatalogPart, RestoreCreation, RolledBackContainers, RolledBack, AllWritten, Synced, OthersKept, RuntimeOf, Watch;
    hide OnlyTouches, DirsFrom, PlanFrom, RuntimeFrom, ActionOf, OperationBackup, Restored;
    hide CanRender, CanUndo, Invariant, Rendered, OnlyHits, Reports;
    OwnRuntime(runtime, operation);
    HitsNone(cp.monitor);
    StartKeys(start);
    NothingToUndo(t.action, operation, cp.files.tree.dirs);
    ghost var before := cp.W();
    var o := RollbackResources(cp, operation, t, runtime, plan, content);
    var failed := o.Failed?;
    if o.Done? {
      ResourcesBack(before, cp.W(), start, operation, t.action, runtime, plan.ready, plan.before);
    }
    ghost var config, watched := cp.files.tree.config, cp.monitor;
    if !o.Crashed? {
      ghost var w := cp.W();
      o := StoreRestoration(cp, creation);
      CatalogMoves(w, start.catalog, operation, content);
    }
    if o.Done? {
      o := RestorePublished(cp, operation, content);
      HitsTrans(old(cp.monitor), watched, cp.monitor, {operation.account} * old(cp.monitor.busy), {});
    }
    e := EndOf(o, failed);
    if e.Undone? {
      RestoredIsSynced(cp.W(), start, config);
    }
  }

  /** Container, snapshot and commits. */
  method CreateRuntime(cp: ControlPlane, operation: Operation, t: FileTransition, ghost content: Directory)
    returns (o: Outcome, runtime: Option<RuntimeTransition>)
    requires InProgress(cp.W(), operation, content) && Holds(cp.journal, operation) && operation.kind == CreateAccount
    requires operation.account in cp.catalog.accounts
    requires ActionOf(t.action, operation) && !t.rolledBack && !t.committed
    modifies cp.files, t, cp`containers, cp`monitor, cp`active, cp`journal
    ensures InProgress(cp.W(), operation, content) && Holds(cp.journal, operation)
    ensures cp.files.tree == old(cp.files.tree) && !t.rolledBack && RuntimeOf(runtime, operation)
    ensures !o.Crashed? ==> RuntimeFrom(runtime, cp.containers, old(cp.containers))
    ensures o.Done? ==>
      && cp.containers == old(cp.containers)[operation.account := Container(cp.catalog.accounts[operation.account].port, true)]
      && cp.active == cp.catalog.routes
    ensures OnlyHits(old(cp.monitor), cp.monitor, {}) && cp.monitor.busy <= old(cp.monitor.busy) + cp.catalog.routes.Values
    ensures cp.files.calm && operation.account !in old(cp.containers) ==> o.Done?
  {
    hide CatalogPart, TreePart, ContainerPart, SecretPart, OAuthSafe, Holds, Watch, OnlyTouches;
    ghost var before := cp.containers;
    o, runtime := cp.PrepareCreate(operation.account);
    OthersKeepContainers(cp.containers, before, cp.catalog.accounts, operation);
    assert o.Done? ==> cp.containers - {operation.account} == before;
    if o.Done? {
      o := Activate(cp, operation, content);
    }
    if o.Done? {
      o := CommitContainers(cp, operation, runtime.value, content);
    }
    if o.Done? {
      o := CommitFiles(cp, operation, t, content);
    }
  }

  lemma CreatedIsSynced(w: World, start: World, operation: Operation, config: map<Id, Config>)
    requires Synced(start) && Invariant(w.catalog) && w.active == w.catalog.routes
    requires OthersKept(w.catalog.accounts, start.catalog.accounts, {operation.account})
    requires w.catalog.accounts.Keys == start.catalog.accounts.Keys + {operation.account}
    requires CanRender(w.catalog, w.secrets) && w.tree.config == config + Rendered(w.catalog, w.secrets)
    requires config.Keys <= w.catalog.accounts.Keys
    requires DirsFrom(w.tree.dirs, start.tree.dirs, {operation.account}) && HasDirs(w.tree.dirs, operation.account)
    requires w.containers == start.containers[operation.account := Container(w.catalog.accounts[operation.account].port, true)]
    requires forall id :: id != operation.account ==> SameAt(w.secrets, start.secrets, id)
    ensures Synced(w)
  {
    hide Invariant, CanRender, ConfigOf, ConfigsMatch, DirsFrom, HasDirs;
    ContainersGrow(start.containers, start.catalog.accounts, w.catalog.accounts, operation.account);
    hide ContainersMatch, OthersKept;
    DirsGrow(w.tree.dirs, start.tree.dirs, start.catalog.accounts, w.catalog.accounts, operation.account);
    hide DirsMatch;
    assert forall id :: id in w.secrets && id != operation.account ==> SameAt(w.secrets, start.secrets, id);
    InStep(w, config);
    hide SyncedAccounts;
  }

  lemma ContainersGrow(containers: map<Id, Container>, accounts: map<Id, Account>, next: map<Id, Account>, id: Id)
    requires ContainersMatch(containers, accounts)
    requires OthersKept(next, accounts, {id}) && next.Keys == accounts.Keys + {id}
    ensures ContainersMatch(containers[id := Container(next[id].port, true)], next)
  {
  }

  lemma DirsGrow(dirs: map<Path, Directory>, before: map<Path, Directory>, accounts: map<Id, Account>, next: map<Id, Account>, id: Id)
    requires DirsMatch(before, accounts) && next.Keys == accounts.Keys + {id}
    requires DirsFrom(dirs, before, {id}) && HasDirs(dirs, id)
    ensures DirsMatch(dirs, next)
  {
    forall a | a in next && a != id
      ensures HasDirs(dirs, a)
    {
      assert HasDirs(before, a);
      assert SameAt(dirs, before, Path(Auth, a)) && SameAt(dirs, before, Path(Logs, a));
    }
    forall p | p in dirs && p.id != id
      ensures p.id in next
    {
      assert SameAt(dirs, before, p);
    }
  }

  /** From the stored rows to the committed account. */
  method CreateApplied(cp: ControlPlane, operation: Operation, creation: AccountCreation, t: FileTransition, proxy: string,
                       ghost start: World, ghost content: Directory)
    returns (e: Ending)
    requires InProgress(cp.W(), operation, content) && Holds(cp.journal, operation) && operation.kind == CreateAccount
    requires Synced(start) && operation.account !in start.catalog.accounts && Invariant(cp.catalog)
    requires RestoreCreation(cp.catalog, creation) == Ok(start.catalog) && CatalogPart(start.catalog, operation)
    requires OthersKept(cp.catalog.accounts, start.catalog.accounts, OwnedIds(operation))
    requires OthersKept(start.catalog.accounts, cp.catalog.accounts, OwnedIds(operation))
    requires cp.catalog.accounts.Keys == start.catalog.accounts.Keys + {operation.account}
    requires ActionOf(t.action, operation) && !t.rolledBack && !t.committed
    requires DirsFrom(cp.files.tree.dirs, start.tree.dirs, {operation.account}) && HasDirs(cp.files.tree.dirs, operation.account)
    requires cp.files.tree.config.Keys <= start.catalog.accounts.Keys
    requires cp.secrets == start.secrets && cp.containers == start.containers && operation.account !in cp.catalog.routes.Values
    modifies cp.files, t, cp`containers, cp`monitor, cp`secrets, cp`catalog, cp`active, cp`journal
    ensures cp.catalog.rows == old(cp.catalog.rows) || cp.catalog.rows == start.catalog.rows
    ensures InProgress(cp.W(), operation, content) && Holds(cp.journal, operation)
    ensures e in {Succeeded, Undone, Stuck, CutOff}
    ensures e.Undone? ==> Restored(cp.W(), start)
    ensures e.Succeeded? ==>
      && Synced(cp.W()) && cp.catalog == old(cp.catalog)
      && cp.secrets == SecretWritten(start.secrets, operation.account, ProxyOf(proxy))
    ensures OnlyHits(old(cp.monitor), cp.monitor, {operation.account} * old(cp.monitor.busy))
    ensures cp.files.calm && CanRender(old(cp.catalog), SecretWritten(start.secrets, operation.account, ProxyOf(proxy))) ==> e.Succeeded?
  {
    hide InProgress, Invariant, CatalogPart, RestoreCreation, Synced, Holds, ActionOf, DirsFrom, OthersKept, Restored, HasDirs;
    hide SecretWritten, RuntimeOf, RuntimeFrom, PlanFrom, Watch;
    var o, plan, runtime := CreateForward(cp, operation, t, proxy, start, content);
    e := if o.Crashed? then CutOff else Succeeded;
    if o.Failed? {
      e := RollbackCreation(cp, operation, creation, t, runtime, plan, start, content);
    }
  }

  /** Secret, config, container and snapshot; a failure leaves what the rollback needs. */
  method CreateForward(cp: ControlPlane, operation: Operation, t: FileTransition, proxy: string,
                       ghost start: World, ghost content: Directory)
    returns (o: Outcome, plan: SecretPlan, runtime: Option<RuntimeTransition>)
    requires InProgress(cp.W(), operation, content) && Holds(cp.journal, operation) && operation.kind == CreateAccount
    requires Synced(start) && operation.account !in start.catalog.accounts && Invariant(cp.catalog)
    requires OthersKept(cp.catalog.accounts, start.catalog.accounts, OwnedIds(operation))
    requires cp.catalog.accounts.Keys == start.catalog.accounts.Keys + {operation.account}
    requires ActionOf(t.action, operation) && !t.rolledBack && !t.committed
    requires DirsFrom(cp.files.tree.dirs, start.tree.dirs, {operation.account}) && HasDirs(cp.files.tree.dirs, operation.account)
    requires cp.files.tree.config.Keys <= start.catalog.accounts.Keys
    requires cp.secrets == start.secrets && cp.containers == start.containers
    modifies cp.files, t, cp`containers, cp`monitor, cp`secrets, cp`active, cp`journal
    ensures InProgress(cp.W(), operation, content) && Holds(cp.journal, operation) && fresh(plan) && !t.rolledBack
    ensures cp.files.tree.dirs == old(cp.files.tree.dirs)
    ensures cp.files.tree.config.Keys <= start.catalog.accounts.Keys + {operation.account}
    ensures RuntimeOf(runtime, operation)
    ensures o.Failed? ==>
      && plan.before.Keys <= {operation.account} && PlanFrom(plan.ready, plan.before, cp.secrets, start.secrets)
      && RuntimeFrom(runtime, cp.containers, start.containers)
    ensures o.Done? ==>
      Synced(cp.W()) && cp.secrets == SecretWritten(start.secrets, operation.account, ProxyOf(proxy))
    ensures OnlyHits(old(cp.monitor), cp.monitor, {}) && cp.monitor.busy <= old(cp.monitor.busy) + cp.catalog.routes.Values
    ensures cp.files.calm && CanRender(cp.catalog, SecretWritten(start.secrets, operation.account, ProxyOf(proxy))) ==> o.Done?
  {
    hide InProgress, Rendered, CanRender, Synced, Holds, SecretWritten, RuntimeOf, RuntimeFrom, Invariant;
    hide AllWritten, ActionOf, DirsFrom, OthersKept, HasDirs, PlanFrom, Watch, OwnedIds;
    AccountIsOwned(operation);
    StartKeys(start);
    var id := operation.account;
    ghost var base := cp.files.tree.config;
    plan := new SecretPlan(map[id := ProxyOf(proxy)]);
    OneWritten(start.secrets, id, plan.desired[id]);
    o, runtime := CreateSteps(cp, operation, t, plan, content);
    if o.Done? {
      CreatedIsSynced(cp.W(), start, operation, base);
    }
  }

  /** Secret, configs, container, snapshot and commits, in this order. */
  method CreateSteps(cp: ControlPlane, operation: Operation, t: FileTransition, plan: SecretPlan, ghost content: Directory)
    returns (o: Outcome, runtime: Option<RuntimeTransition>)
    requires InProgress(cp.W(), operation, content) && Holds(cp.journal, operation) && operation.kind == CreateAccount
    requires operation.account in cp.catalog.accounts && ActionOf(t.action, operation) && !t.rolledBack && !t.committed
    requires plan.desired.Keys <= OwnedIds(operation) && !plan.ready && plan.before == map[]
    modifies plan, cp.files, t, cp`containers, cp`monitor, cp`secrets, cp`active, cp`journal
    ensures InProgress(cp.W(), operation, content) && Holds(cp.journal, operation) && !t.rolledBack && RuntimeOf(runtime, operation)
    ensures cp.files.tree == old(cp.files.tree).(config := cp.files.tree.config)
    ensures forall id :: id in cp.files.tree.config ==> id in old(cp.files.tree).config || id in cp.catalog.accounts
    ensures plan.before.Keys <= plan.desired.Keys && PlanFrom(plan.ready, plan.before, cp.secrets, old(cp.secrets))
    ensures forall id :: id !in plan.desired ==> SameAt(cp.secrets, old(cp.secrets), id)
    ensures !o.Crashed? ==> RuntimeFrom(runtime, cp.containers, old(cp.containers))
    ensures o.Done? ==>
      && cp.secrets == AllWritten(old(cp.secrets), plan.desired) && CanRender(cp.catalog, cp.secrets)
      && cp.files.tree.config == old(cp.files.tree).config + Rendered(cp.catalog, cp.secrets)
      && cp.containers == old(cp.containers)[operation.account := Container(cp.catalog.accounts[operation.account].port, true)]
      && cp.active == cp.catalog.routes
    ensures OnlyHits(old(cp.monitor), cp.monitor, {}) && cp.monitor.busy <= old(cp.monitor.busy) + cp.catalog.routes.Values
    ensures cp.files.calm && operation.account !in old(cp.containers) && CanRender(cp.catalog, AllWritten(old(cp.secrets), plan.desired)) ==>
      o.Done?
  {
    hide InProgress, Rendered, CanRender, Holds, RuntimeOf, RuntimeFrom, AllWritten, ActionOf, PlanFrom, Watch, OwnedIds;
    runtime := None;
    NoRuntime(operation, cp.containers);
    o := CaptureAndProject(cp, operation, plan, cp.secrets, content);
    if o.Done? {
      o, runtime := CreateRuntime(cp, operation, t, content);
    }
  }

  lemma AccountIsOwned(operation: Operation)
    ensures operation.account in OwnedIds(operation)
    ensures operation.kind == CreateAccount ==> OwnedIds(operation) == {operation.account}
  {
  }

  lemma OneWritten(secrets: map<Id, string>, id: Id, value: Option<string>)
    ensures AllWritten(secrets, map[id := value]) == SecretWritten(secrets, id, value)
  {
  }

  /** Removes the new directories again. */
  method DiscardFiles(cp: ControlPlane, operation: Operation, t: FileTransition, ghost start: World, ghost content: Directory)
    returns (e: Ending)
    requires InProgress(cp.W(), operation, content) && operation.kind == CreateAccount
    requires Synced(start) && operation.account !in start.catalog.accounts
    requires cp.W() == start.(tree := cp.files.tree) && cp.files.tree.config == start.tree.config
    requires DirsFrom(cp.files.tree.dirs, start.tree.dirs, {operation.account})
    requires ActionOf(t.action, operation) && !t.rolledBack
    modifies cp.files, t
    ensures InProgress(cp.W(), operation, content) && e in {Undone, Stuck, CutOff}
    ensures OnlyTouches(cp.files.tree, old(cp.files.tree), {operation.account})
    ensures cp.files.tree.config.Keys <= old(cp.files.tree).config.Keys && cp.files.tree.backups == old(cp.files.tree).backups
    ensures e.Undone? ==> Restored(cp.W(), start)
    ensures cp.files.calm ==> e.Undone?
  {
    hide InProgress, Synced, Restored, DirsFrom, Watch;
    ghost var before := cp.files.tree;
    var o := RollbackFiles(cp, operation, t, content);
    e := EndOf(o, false);
    hide OnlyTouches;
    if e.Undone? {
      CreationDiscarded(start, before, operation.account);
      assert cp.W() == start.(tree := Removed(before, operation.account));
    }
    hide RolledBack, ActionOf, Removed;
  }

  lemma CreationDiscarded(start: World, t: Tree, id: Id)
    requires Synced(start) && id !in start.catalog.accounts
    requires t.config == start.tree.config && DirsFrom(t.dirs, start.tree.dirs, {id})
    ensures Restored(start.(tree := Removed(t, id)), start)
  {
    hide Synced, Restored;
    NothingOf(start, id);
    OtherDirs(t.dirs, start.tree.dirs, id);
    hide DirsFrom, HasNoDirs, DirsOf;
    assert Removed(t, id).config == start.tree.config;
    BackupsAside(start, Removed(t, id));
  }

  /** From the prepared directories on. */
  method CreatePrepared(cp: ControlPlane, operation: Operation, candidate: Candidate, now: int, proxy: string, t: FileTransition,
                        ghost start: World, ghost content: Directory)
    returns (e: Ending, ghost users: seq<User>)
    requires InProgress(cp.W(), operation, content) && Holds(cp.journal, operation) && operation.kind == CreateAccount
    requires operation.account == candidate.id && operation.evacuated == map[]
    requires Synced(start) && cp.W() == start.(tree := cp.files.tree) && cp.files.tree.config == start.tree.config
    requires ActionOf(t.action, operation) && !t.rolledBack && !t.committed && operation.account !in start.catalog.accounts
    requires DirsFrom(cp.files.tree.dirs, start.tree.dirs, {operation.account}) && HasDirs(cp.files.tree.dirs, operation.account)
    modifies cp.files, t, cp`containers, cp`monitor, cp`secrets, cp`catalog, cp`active, cp`journal
    ensures SameUsers(cp.catalog.rows, start.catalog.rows)
    ensures InProgress(cp.W(), operation, content) && Holds(cp.journal, operation)
    ensures e in {Succeeded, Undone, Stuck, CutOff} && ListsActiveUsers(users, start.catalog.rows)
    ensures e.Undone? ==> Restored(cp.W(), start)
    ensures e.Succeeded? ==>
      && Synced(cp.W())
      && ApplyCreation(start.catalog, candidate, users, now).Ok?
      && cp.catalog == ApplyCreation(start.catalog, candidate, users, now).value.0
      && cp.secrets == SecretWritten(start.secrets, operation.account, ProxyOf(proxy))
    ensures OnlyHits(old(cp.monitor), cp.monitor, {operation.account} * old(cp.monitor.busy))
    ensures cp.files.calm && (candidate.mode == Custom ==> proxy != "") ==>
      e == if MayCreate(start.catalog, candidate) then Succeeded else Undone
  {
    hide InProgress, Invariant, ApplyCreation, ListsActiveUsers, CatalogPart, SyncedAccounts, Holds, Watch;
    hide ActionOf, DirsFrom, OthersKept, OnlyTouches, HasDirs, Restored, RestoreCreation, SecretWritten;
    assert Invariant(start.catalog);
    StartKeys(start);
    hide CanRender;
    UsersStay(start.catalog.rows);
    UnroutedAccount(start.catalog, operation.account);
    hide Synced, SameUsers;
    var o, creation;
    o, creation, users := StoreCreation(cp, candidate, now);
    ghost var applied := ApplyCreation(start.catalog, candidate, users, now);
    CreationAcceptedIff(start.catalog, candidate, users, now);
    if applied.Ok? {
      CreationFacts(start.catalog, operation, candidate, users, now, applied.value.0, applied.value.1);
      CatalogMoves(start.(tree := cp.files.tree), applied.value.0, operation, content);
      if candidate.mode == Custom ==> proxy != "" { CreatedRenders(start.catalog, start.secrets, candidate, users, now, proxy); }
    }
    e := CutOff;
    if o.Done? {
      e := CreateApplied(cp, operation, creation.value, t, proxy, start, content);
    } else if o.Failed? {
      e := DiscardFiles(cp, operation, t, start, content);
    }
  }

  lemma AcceptedStart(start: World, operation: Operation)
    requires Synced(start) && operation.kind == CreateAccount && operation.evacuated == map[]
    ensures Interrupted(start, operation)
    ensures operation.account !in start.catalog.accounts ==> JustAccepted(start, operation)
  {
    hide Invariant, CanRender, ConfigsMatch, ContainersMatch;
    NoEvacuation(start.catalog, operation);
    if operation.account !in start.catalog.accounts {
      NothingOf(start, operation.account);
      assert start.tree.dirs - DirsOf(operation.account) == start.tree.dirs;
      assert WithoutDirs(start, operation.account) == start;
    }
    hide DirsMatch;
    MatchingIsInterrupted(start, operation);
  }

  /** While the journal is still at its first phase. */
  lemma AcceptedIsSound(start: World, t: Tree, operation: Operation)
    requires Synced(start) && operation.kind == CreateAccount && operation.evacuated == map[]
    requires ValidOperation(operation) && operation.phase == Accepted
    requires OnlyTouches(t, start.tree, {operation.account}) && t.backups == start.tree.backups
    requires t.config.Keys <= start.tree.config.Keys
    requires operation.account in start.catalog.accounts ==> t == start.tree
    ensures Sound(Some(operation), start.(tree := t))
    ensures InProgress(start.(tree := t), operation, map[])
  {
    hide Synced, JustAccepted, Interrupted, InProgress, OnlyTouches, ValidOperation, Clashes;
    AcceptedStart(start, operation);
    AcceptedInProgress(start, t, operation);
    if operation.account !in start.catalog.accounts {
      AcceptedCreation(start, t, operation);
    }
    NoClashOfCreation(start.(tree := t), operation);
    ProgressIs(start.(tree := t), operation, map[]);
  }

  lemma NoClashOfCreation(w: World, operation: Operation)
    requires operation.kind == CreateAccount
    ensures !Clashes(w, operation)
  {
  }

  lemma AcceptedInProgress(start: World, t: Tree, operation: Operation)
    requires Interrupted(start, operation) && operation.kind == CreateAccount
    requires OnlyTouches(t, start.tree, {operation.account})
    ensures InProgress(start.(tree := t), operation, map[])
  {
    hide CatalogPart, ContainerPart, SecretPart;
    TouchKeepsTree(t, start.tree, start.catalog.accounts, operation);
    hide TreePart, OnlyTouches;
  }

  /** From the accepted journal on; the journal is left for Finalize to clear. */
  method CreateAccepted(cp: ControlPlane, operation: Operation, candidate: Candidate, now: int, proxy: string)
    returns (e: Ending, ghost users: seq<User>, split: bool)
    requires Synced(cp.W()) && cp.journal == Some(operation) && ValidOperation(operation)
    requires operation.kind == CreateAccount && operation.phase == Accepted && operation.evacuated == map[]
    requires operation.account == candidate.id
    modifies cp.files, cp`containers, cp`monitor, cp`secrets, cp`catalog, cp`active, cp`journal
    ensures SameUsers(cp.catalog.rows, old(cp.catalog.rows))
    ensures cp.journal.Some? && Sound(cp.journal, cp.W()) && e in {Succeeded, Undone, Stuck, CutOff}
    ensures split ==> e.Undone? && cp.W() == old(cp.W()).(tree := cp.files.tree) && !Synced(cp.W())
    ensures e.Undone? && !split ==> Restored(cp.W(), old(cp.W()))
    ensures e.Succeeded? ==>
      && Synced(cp.W()) && ListsActiveUsers(users, old(cp.catalog).rows)
      && ApplyCreation(old(cp.catalog), candidate, users, now).Ok?
      && cp.catalog == ApplyCreation(old(cp.catalog), candidate, users, now).value.0
      && cp.secrets == SecretWritten(old(cp.secrets), operation.account, ProxyOf(proxy))
    ensures OnlyHits(old(cp.monitor), cp.monitor,
                     if operation.account in old(cp.catalog).accounts then {} else {operation.account} * old(cp.monitor.busy))
    ensures cp.files.calm && (candidate.mode == Custom ==> proxy != "") ==>
      !split && e == if MayCreate(old(cp.catalog), candidate) then Succeeded else Undone
  {
    hide SameUsers, Synced, Restored, Interrupted, OAuthSafe, Sound;
    hide ApplyCreation, ListsActiveUsers, SecretWritten, Watch, ValidOperation;
    UsersStay(cp.catalog.rows);
    ghost var start := cp.W();
    var id, dirs := operation.account, cp.files.tree.dirs;
    if id in cp.catalog.accounts { StartDirs(start, id); }
    if id !in cp.catalog.accounts { NothingOf(start, id); }
    var o, t := cp.files.PrepareCreate(id);
    AcceptedIsSound(start, cp.files.tree, operation);
    ghost var prepared := cp.files.tree;
    e, users, split := CutOff, [], false;
    if o.Failed? {
      e, split := Undone, cp.files.tree.dirs != dirs;
      if split { LeftoverIsOutOfStep(start, cp.files.tree, id); } else { BackupsAside(start, cp.files.tree); }
    } else if o.Done? {
      assert id !in start.catalog.accounts;
      assert DirsFrom(cp.files.tree.dirs, start.tree.dirs, {id});
      o := Advance(cp, operation, FilesPrepared);
      if o.Done? {
        e, users := CreatePrepared(cp, operation, candidate, now, proxy, t, start, map[]);
      } else if o.Failed? {
        e := DiscardFiles(cp, operation, t, start, map[]);
        OnlyTouchesTrans(cp.files.tree, prepared, start.tree, {id});
        AcceptedIsSound(start, cp.files.tree, operation);
      }
      hide HasDirs, DirsFrom, OnlyTouches;
    }
    if Holds(cp.journal, operation) {
      HeldIsSound(cp.journal, cp.W(), operation);
    }
  }

  /** A creation that ends with any directory left over is out of step. */
  lemma LeftoverIsOutOfStep(w: World, t: Tree, id: Id)
    requires Synced(w) && id !in w.catalog.accounts
    requires OnlyTouches(t, w.tree, {id}) && t.dirs != w.tree.dirs
    ensures !Synced(w.(tree := t))
  {
    hide Invariant, CanRender, ConfigsMatch, ContainersMatch;
    SameUnlessThere(t, w.tree, id);
  }

  lemma SameUnlessThere(t: Tree, before: Tree, id: Id)
    requires OnlyTouches(t, before, {id}) && forall p :: p in before.dirs ==> p.id != id
    ensures (forall p :: p in t.dirs ==> p.id != id) ==> t.dirs == before.dirs
  {
    assert forall p: Path :: p.id != id ==> (p in t.dirs || p in before.dirs ==> SameAt(t.dirs, before.dirs, p));
  }

  lemma StartDirs(w: World, id: Id)
    requires Synced(w) && id in w.catalog.accounts
    ensures HasDirs(w.tree.dirs, id)
  {
    hide Invariant, CanRender, ConfigsMatch, ContainersMatch;
  }

  lemma ProxyStored(secrets: map<Id, string>, id: Id, proxy: string)
    requires id !in secrets
    ensures SecretWritten(secrets, id, ProxyOf(proxy)) == if proxy == "" then secrets else secrets[id := proxy]
  {
  }

  /** The first port of the range that neither an account nor the host uses. */
  ghost predicate LowestFree(accounts: map<Id, Account>, reserved: set<int>, start: int, end: int, port: int) {
    && start <= port <= end && FreePort(accounts, reserved, port)
    && forall p :: start <= p < port ==> !FreePort(accounts, reserved, p)
  }

  ghost predicate HasFreePort(accounts: map<Id, Account>, reserved: set<int>, start: int, end: int) {
    1024 <= start <= end <= 65535 && exists port :: start <= port <= end && FreePort(accounts, reserved, port)
  }

  /** What is refused before the journal is opened. */
  ghost predicate Admissible(request: Request, secrets: map<Id, string>, valid: string -> bool) {
    && ValidId(request.id) && request.id !in secrets
    && (request.proxy == "" || valid(request.proxy)) && (request.mode == Custom ==> request.proxy != "")
  }

  /**
   * `reserved` is None when the host's ports cannot be read.  `split` reports
   * the one way to end without journal and out of step: directories left over
   * by a preparation whose own clean-up failed.
   */
  method Create(cp: ControlPlane, request: Request, operationId: string,
                reserved: Option<set<int>>, portStart: int, portEnd: int, now: int)
    returns (e: Ending, ghost candidate: Candidate, ghost users: seq<User>, split: bool)
    requires Sound(cp.journal, cp.W())
    modifies cp, cp.files
    ensures SameUsers(cp.catalog.rows, old(cp.catalog.rows))
    ensures split <==> !Sound(cp.journal, cp.W())
    ensures split ==> e in {Undone, CutOff} && cp.W() == old(cp.W()).(tree := cp.files.tree)
    ensures old(cp.journal).Some? ==> e.Refused?
    ensures e.Refused? ==> cp.journal == old(cp.journal) && cp.W() == old(cp.W())
    ensures e.Stuck? ==> cp.journal.Some?
    ensures e.Undone? ==> cp.journal.None? && (split || Restored(cp.W(), old(cp.W())))
    ensures e.Succeeded? ==>
      && cp.journal.None? && ListsActiveUsers(users, old(cp.catalog).rows)
      && ApplyCreation(old(cp.catalog), candidate, users, now).Ok?
      && cp.catalog == ApplyCreation(old(cp.catalog), candidate, users, now).value.0
      && request.id !in old(cp.secrets)
      && cp.secrets == if request.proxy == "" then old(cp.secrets) else old(cp.secrets)[request.id := request.proxy]
    ensures !e.Refused? ==>
      && candidate == Candidate(request.id, request.email, candidate.port, request.mode, now)
      && reserved.Some? && LowestFree(old(cp.catalog).accounts, reserved.value, portStart, portEnd, candidate.port)
    ensures OnlyHits(old(cp.monitor), cp.monitor,
                     if request.id in old(cp.catalog).accounts then {} else {request.id} * old(cp.monitor.busy))
    ensures cp.files.calm && old(cp.journal).None? ==>
      !split && e == if !Admissible(request, old(cp.secrets), cp.validProxy) || reserved.None? ||
                        !HasFreePort(old(cp.catalog).accounts, reserved.value, portStart, portEnd) then Refused
                     else if MayCreate(old(cp.catalog), candidate) then Succeeded else Undone
  {
    hide SameUsers, Synced, Restored, ApplyCreation, ListsActiveUsers, SecretWritten, Watch, ValidId, FreePort, Recoverable;
    UsersStay(cp.catalog.rows);
    e, users, split, candidate := Refused, [], false, Candidate("", "", 0, Inherit, 0);
    var valid := request.proxy == "" || cp.validProxy(request.proxy);
    if ValidId(request.id) && request.id !in cp.secrets && valid && (request.mode == Custom ==> request.proxy != "") && reserved.Some? {
      var port := AllocatePort(cp.catalog.accounts, reserved.value, portStart, portEnd);
      if port.Some? {
        var chosen := Candidate(request.id, request.email, port.value, request.mode, now);
        candidate := chosen;
        ProxyStored(cp.secrets, request.id, request.proxy);
        e, users, split := CreateJournaled(cp, chosen, operationId, now, request.proxy);
      }
    }
  }

  method CreateJournaled(cp: ControlPlane, candidate: Candidate, operationId: string, now: int, proxy: string)
    returns (e: Ending, ghost users: seq<User>, split: bool)
    requires Sound(cp.journal, cp.W())
    modifies cp, cp.files
    ensures SameUsers(cp.catalog.rows, old(cp.catalog.rows))
    ensures split <==> !Sound(cp.journal, cp.W())
    ensures split ==> e in {Undone, CutOff} && cp.W() == old(cp.W()).(tree := cp.files.tree)
    ensures old(cp.journal).Some? ==> e.Refused?
    ensures e.Refused? ==> cp.journal == old(cp.journal) && cp.W() == old(cp.W())
    ensures e.Stuck? ==> cp.journal.Some?
    ensures e.Undone? ==> cp.journal.None? && (split || Restored(cp.W(), old(cp.W())))
    ensures e.Succeeded? ==>
      && cp.journal.None? && ListsActiveUsers(users, old(cp.catalog).rows)
      && ApplyCreation(old(cp.catalog), candidate, users, now).Ok?
      && cp.catalog == ApplyCreation(old(cp.catalog), candidate, users, now).value.0
      && cp.secrets == SecretWritten(old(cp.secrets), candidate.id, ProxyOf(proxy))
    ensures OnlyHits(old(cp.monitor), cp.monitor,
                     if candidate.id in old(cp.catalog).accounts then {} else {candidate.id} * old(cp.monitor.busy))
    ensures cp.files.calm && old(cp.journal).None? && ValidId(candidate.id) && (candidate.mode == Custom ==> proxy != "") ==>
      !split && e == if MayCreate(old(cp.catalog), candidate) then Succeeded else Undone
  {
    hide SameUsers, Synced, ApplyCreation, ListsActiveUsers, SecretWritten, Watch, ValidOperation, Recoverable;
    UsersStay(cp.catalog.rows);
    e, users, split := Refused, [], false;
    ghost var start := cp.W();
    if ValidId(candidate.id) { NamedIsValid(Operation(operationId, CreateAccount, Accepted, candidate.id, "", map[])); }
    var o, operation := Begin(cp, CreateAccount, candidate.id, "", operationId);
    if cp.journal != old(cp.journal) {
      AcceptedIsSound(start, cp.files.tree, operation);
    }
    if o.Crashed? {
      e := CutOff;
    } else if o.Done? {
      e, users, split := CreateAccepted(cp, operation, candidate, now, proxy);
      e := Finalize(cp, e);
      split := split && cp.journal.None?;
    }
  }
}
