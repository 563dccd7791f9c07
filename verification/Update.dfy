/**
 * Updating an account's ID, e-mail, proxy or selection policy.  Its users wait
 * on a fallback while files, rows, secret, config and container change.
 */
module Update {
  import opened Wrappers
  import opened Catalog
  import opened CatalogLaws
  import opened Journal
  import opened Routes
  import opened Files
  import opened Traffic
  import opened World
  import opened ControlPlane
  import opened RecoveryLaws
  import opened Transactions
  import opened Steps
  import opened Maintenance
  import opened TransactionLaws

  // ------------------------------------------------------------ catalog facts

  /** The change as the transaction sees it, from the settled catalog. */
  ghost predicate UpdatedBy(settled: Catalog, operation: Operation, request: UpdateRequest,
                            order: seq<Id>, next: Catalog, update: AccountUpdate) {
    && operation.kind == UpdateAccount && request.id == operation.account && request.newId == operation.newAccount
    && ApplyUpdate(settled, request, order) == Ok((next, update))
  }

  /** No user is on the account, or the update neither renames nor disables it. */
  ghost predicate UsersAside(settled: Catalog, request: UpdateRequest)
    requires request.id in settled.accounts
  {
    NoRoutesTo(settled, request.id) || (request.newId == request.id && DesiredEnabled(settled.accounts[request.id], request))
  }

  lemma UpdateShape(settled: Catalog, request: UpdateRequest, order: seq<Id>)
    requires ApplyUpdate(settled, request, order).Ok?
    ensures request.id in settled.accounts && (request.newId == request.id || request.newId !in settled.accounts)
    ensures
      var next := ApplyUpdate(settled, request, order).value.0;
      && next.accounts.Keys == settled.accounts.Keys - {request.id} + {request.newId}
      && next.accounts[request.newId].enabled == DesiredEnabled(settled.accounts[request.id], request)
      && next.accounts[request.newId].mode == request.mode
      && next.accounts[request.newId].port == settled.accounts[request.id].port
      && OthersKept(next.accounts, settled.accounts, {request.id, request.newId})
      && OthersKept(settled.accounts, next.accounts, {request.id, request.newId})
  {
    hide ValidId, AutoFallback, UpdateChanges, UpdatedRoutes, UpdatedRow, DesiredEnabled, DesiredDefault, EnabledOthers;
  }

  lemma UpdateLeavesRoutes(settled: Catalog, request: UpdateRequest, order: seq<Id>)
    requires ApplyUpdate(settled, request, order).Ok? && RoutesTargetEnabled(settled)
    requires request.id in settled.accounts && UsersAside(settled, request)
    ensures
      var (next, update) := ApplyUpdate(settled, request, order).value;
      next.routes == settled.routes && update.routes == map[]
  {
    UpdateShape(settled, request, order);
    assert request.newId != request.id ==> NoRoutesTo(settled, request.newId) by { hide ActiveUsers; }
    hide ValidId, AutoFallback, UpdatedAccounts, UpdatedRow, DesiredDefault, EnabledOthers, ActiveUsers, UpdateError, OthersKept;
    var fallback := UpdateFallback(order, settled.accounts, request);
    assert UpdatedRoutes(settled, request, fallback) == settled.routes;
    assert UpdateChanges(settled, request, fallback) == map[];
  }

  lemma UpdateRestores(settled: Catalog, request: UpdateRequest, order: seq<Id>)
    requires Invariant(settled) && ApplyUpdate(settled, request, order).Ok?
    ensures
      var (next, update) := ApplyUpdate(settled, request, order).value;
      RestoreUpdate(next, update) == Ok(settled)
  {
    UpdateShape(settled, request, order);
    NothingIsLeft(settled, request);
    assert UniqueColumns(settled.accounts);
    hide Invariant, UniqueColumns, ApplyUpdate, RestoreUpdate;
    RestoreUpdateUndoes(settled, request, order);
  }

  lemma NothingIsLeft(c: Catalog, request: UpdateRequest)
    requires Invariant(c) && request.id in c.accounts && (request.newId == request.id || request.newId !in c.accounts)
    ensures NothingDangles(c, request)
  {
    assert RoutesTargetEnabled(c) && RowsComplete(c);
    hide Invariant, ActiveUsers;
  }

  /** Routes that an update did not touch survive its restoration. */
  lemma RestoreLeavesRoutes(next: Catalog, update: AccountUpdate, settled: Catalog, routes: map<User, Id>)
    requires RestoreUpdate(next, update) == Ok(settled) && update.routes == map[]
    ensures RestoreUpdate(next.(routes := routes), update) == Ok(settled.(routes := routes))
  {
    hide UniqueColumns, FreeSequences, WithDefaults, WithoutRowsOf, Rename, AccountRows;
    assert UndoneRoutes(routes, map[]) == routes;
    assert UndoneRoutes(next.routes, map[]) == next.routes;
  }

  /** The base catalog, with each evacuated user on the fallback or on the operation's own account. */
  ghost predicate MovedFrom(c: Catalog, base: Catalog, operation: Operation) {
    && c == base.(routes := c.routes) && Settled(c, operation) == base && EvacuatedRoutes(c, operation)
  }

  ghost predicate OnFallback(routes: map<User, Id>, operation: Operation) {
    forall u :: u in operation.evacuated ==> u in routes && routes[u] == operation.evacuated[u]
  }

  /** A settled catalog that the operation may rest on. */
  ghost predicate Base(base: Catalog, operation: Operation) {
    && Invariant(base) && OneSide(base.accounts, operation) && Settled(base, operation) == base
    && forall u :: u in operation.evacuated ==> u in base.routes && operation.evacuated[u] !in OwnedIds(operation)
  }

  lemma BaseIsMoved(base: Catalog, operation: Operation)
    requires Base(base, operation)
    ensures MovedFrom(base, base, operation)
  {
    hide Invariant, OneSide, OwnedIds;
    assert forall u :: u in operation.evacuated ==> base.routes[u] == Settled(base, operation).routes[u];
  }

  lemma BaseOnFallback(base: Catalog, operation: Operation)
    requires Base(base, operation)
    ensures OnFallback(base.routes, operation)
  {
    hide Invariant, OneSide, OwnedIds;
    assert forall u :: u in operation.evacuated ==> base.routes[u] == Settled(base, operation).routes[u];
  }

  lemma MovedIsPart(c: Catalog, base: Catalog, operation: Operation)
    requires Base(base, operation) && MovedFrom(c, base, operation)
    ensures CatalogPart(c, operation)
  {
    hide Invariant, OneSide, OwnedIds, EvacuatedRoutes;
  }

  lemma ReturnIsMoved(c: Catalog, base: Catalog, operation: Operation, target: Id)
    requires Base(base, operation) && MovedFrom(c, base, operation)
    requires operation.evacuated != map[] ==> target in OwnedIds(operation) && DesiredIsEnabled(base.accounts, operation)
    ensures MovedFrom(c.(routes := ReturnTo(c.routes, operation.evacuated, target)), base, operation)
  {
    var back := c.(routes := ReturnTo(c.routes, operation.evacuated, target));
    hide Invariant, OneSide, OwnedIds, DesiredIsEnabled;
    assert Settled(back, operation).routes == Settled(c, operation).routes;
  }

  lemma MovedProgress(w: World, base: Catalog, next: Catalog, operation: Operation, content: Directory)
    requires InProgress(w, operation, content) && Base(base, operation) && MovedFrom(next, base, operation)
    requires OthersKept(base.accounts, w.catalog.accounts, OwnedIds(operation))
    ensures InProgress(w.(catalog := next), operation, content)
  {
    MovedIsPart(next, base, operation);
    assert next.accounts == base.accounts;
    hide InProgress, Base, MovedFrom, CatalogPart, OthersKept;
    CatalogMoves(w, next, operation, content);
  }

  /** What holds of the update before and after it is stored. */
  lemma UpdateFacts(settled: Catalog, operation: Operation, request: UpdateRequest, order: seq<Id>,
                    next: Catalog, update: AccountUpdate)
    requires Base(settled, operation) && UpdatedBy(settled, operation, request, order, next, update)
    requires request.id in settled.accounts && UsersAside(settled, request)
    ensures Base(next, operation) && RestoreUpdate(next, update) == Ok(settled) && update.routes == map[]
    ensures next.routes == settled.routes && Desired(next.accounts, operation) == Some(operation.newAccount)
    ensures OthersKept(next.accounts, settled.accounts, OwnedIds(operation)) && OthersKept(settled.accounts, next.accounts, OwnedIds(operation))
    ensures next.accounts.Keys == settled.accounts.Keys - {operation.account} + {operation.newAccount}
    ensures next.accounts[operation.newAccount].enabled == DesiredEnabled(settled.accounts[operation.account], request)
    ensures next.accounts[operation.newAccount].port == settled.accounts[operation.account].port
    ensures operation.account in settled.accounts && (operation.newAccount == operation.account || operation.newAccount !in settled.accounts)
  {
    BaseInvariant(settled, operation);
    hide Base, Invariant, RestoreUpdate, ApplyUpdate, OthersKept, RoutesTargetEnabled, DesiredEnabled, UsersAside;
    UpdateShape(settled, request, order);
    UpdateLeavesRoutes(settled, request, order);
    UpdateRestores(settled, request, order);
    UpdateKeepsInvariant(settled, request, order);
    NextBase(next, settled, operation);
  }

  lemma BaseInvariant(base: Catalog, operation: Operation)
    requires Base(base, operation)
    ensures Invariant(base) && RoutesTargetEnabled(base)
  {
  }

  lemma NextBase(next: Catalog, settled: Catalog, operation: Operation)
    requires Base(settled, operation) && Invariant(next) && next.routes == settled.routes && operation.kind == UpdateAccount
    requires operation.newAccount in next.accounts && (operation.account != operation.newAccount ==> operation.account !in next.accounts)
    ensures Base(next, operation)
  {
    hide Invariant;
    assert Settled(next, operation).routes == Settled(settled, operation).routes;
  }

  // ------------------------------------------------------------- coming home

  /** Evacuated users come from an enabled account. */
  lemma EvacuatedWasEnabled(start: Catalog, operation: Operation, fallback: Option<Id>)
    requires Invariant(start) && EvacuatedFrom(start, operation, fallback) && !ClashesIn(start.accounts, operation)
    ensures operation.evacuated != map[] ==> DesiredIsEnabled(start.accounts, operation)
  {
    assert RoutesTargetEnabled(start);
    hide Invariant, ActiveUsers;
    if operation.evacuated != map[] {
      var u :| u in operation.evacuated;
      assert start.routes[u] == operation.account;
    }
  }

  lemma UsersAreHome(c: Catalog, start: Catalog, operation: Operation, fallback: Option<Id>)
    requires EvacuatedFrom(start, operation, fallback) && MovedFrom(c, Settled(start, operation), operation)
    ensures c.(routes := ReturnTo(c.routes, operation.evacuated, operation.account)) == start
  {
    hide EvacuatedRoutes;
    var back := ReturnTo(c.routes, operation.evacuated, operation.account);
    assert forall u :: u in c.routes && u !in operation.evacuated ==> (c.routes + operation.evacuated)[u] == c.routes[u];
    assert forall u :: u in start.routes && u !in operation.evacuated ==> (start.routes + operation.evacuated)[u] == start.routes[u];
    assert (c.routes + operation.evacuated).Keys == (start.routes + operation.evacuated).Keys;
    assert forall u :: u in operation.evacuated ==> u in start.routes && start.routes[u] == operation.account;
    assert back == start.routes;
  }

  /** Restoring the rows keeps the users where they are. */
  lemma MovedBack(c: Catalog, next: Catalog, settled: Catalog, operation: Operation)
    requires Base(next, operation) && Base(settled, operation) && next.routes == settled.routes
    requires MovedFrom(c, next, operation)
    requires operation.evacuated != map[] ==> DesiredIsEnabled(settled.accounts, operation)
    ensures MovedFrom(settled.(routes := c.routes), settled, operation)
  {
    hide Invariant, OneSide, OwnedIds, DesiredIsEnabled;
    var back := settled.(routes := c.routes);
    assert Settled(back, operation).routes == Settled(c, operation).routes;
  }

  method RestoreUsersOn(cp: ControlPlane, operation: Operation, target: Id, ghost base: Catalog,
                        ghost content: Directory)
    returns (o: Outcome)
    requires InProgress(cp.W(), operation, content) && Base(base, operation) && MovedFrom(cp.catalog, base, operation)
    requires operation.evacuated != map[] ==> target in OwnedIds(operation) && DesiredIsEnabled(base.accounts, operation) && target != ""
    modifies cp`catalog
    ensures cp.catalog.rows == old(cp.catalog.rows)
    ensures InProgress(cp.W(), operation, content) && MovedFrom(cp.catalog, base, operation)
    ensures o.Done? ==> cp.catalog == old(cp.catalog).(routes := ReturnTo(old(cp.catalog).routes, operation.evacuated, target))
    ensures cp.files.calm && OnFallback(old(cp.catalog).routes, operation) ==> o.Done?
  {
    hide InProgress, Base, MovedFrom, OwnedIds, DesiredIsEnabled, ReturnTo, Watch, OthersKept;
    ghost var w := cp.W();
    ReturnIsMoved(cp.catalog, base, operation, target);
    o := RestoreTo(cp, operation.evacuated, operation.account, target);
    SameAccountsKept(w.catalog, base, operation);
    MovedProgress(w, base, cp.catalog, operation, content);
  }

  lemma SameAccountsKept(c: Catalog, base: Catalog, operation: Operation)
    requires MovedFrom(c, base, operation)
    ensures OthersKept(base.accounts, c.accounts, OwnedIds(operation))
  {
    hide OwnedIds;
  }

  // ------------------------------------------------------------------- store

  method StoreUpdate(cp: ControlPlane, request: UpdateRequest)
    returns (o: Outcome, update: Option<AccountUpdate>, ghost order: seq<Id>)
    modifies cp`catalog
    ensures Lists(order, old(cp.catalog).accounts)
    ensures o.Done? ==> update.Some? && ApplyUpdate(old(cp.catalog), request, order) == Ok((cp.catalog, update.value))
    ensures o.Failed? ==> cp.catalog == old(cp.catalog)
    ensures cp.catalog == old(cp.catalog) ||
      var applied := ApplyUpdate(old(cp.catalog), request, order);
      applied.Ok? && cp.catalog == applied.value.0
    ensures cp.files.calm ==> (o.Done? <==> ApplyUpdate(old(cp.catalog), request, order).Ok?) && !o.Crashed?
  {
    hide ApplyUpdate, Lists;
    var r;
    r, order := ApplyAccountUpdate(cp.catalog, request);
    o, update := Failed, None;
    if r.Ok? {
      update := Some(r.value.1);
      o := cp.Transact(r.value.0);
    }
  }

  method StoreRestoration(cp: ControlPlane, update: AccountUpdate) returns (o: Outcome)
    modifies cp`catalog
    ensures cp.catalog == old(cp.catalog) || RestoreUpdate(old(cp.catalog), update) == Ok(cp.catalog)
    ensures o.Done? ==> RestoreUpdate(old(cp.catalog), update) == Ok(cp.catalog)
    ensures cp.files.calm && RestoreUpdate(old(cp.catalog), update).Ok? ==> o.Done?
  {
    hide RestoreUpdate;
    var r := RestoreAccountUpdate(cp.catalog, update);
    o := Failed;
    if r.Ok? {
      o := cp.Transact(r.value);
    }
  }

  // ---------------------------------------------------------------- rollback

  /** Where the operation came from. */
  ghost predicate Origin(start: World, operation: Operation, fallback: Option<Id>) {
    && operation.kind == UpdateAccount && operation.account != "" && Synced(start)
    && EvacuatedFrom(start.catalog, operation, fallback) && !ClashesIn(start.catalog.accounts, operation)
    && Base(Settled(start.catalog, operation), operation)
  }

  /** Where its rows stand: as at the start, or as the update left them. */
  ghost predicate Stored(c: Catalog, update: Option<AccountUpdate>, next: Catalog, settled: Catalog, operation: Operation) {
    if update.None? then MovedFrom(c, settled, operation)
    else
      && MovedFrom(c, next, operation) && Base(next, operation) && next.routes == settled.routes
      && RestoreUpdate(next, update.value) == Ok(settled) && update.value.routes == map[]
      && OthersKept(settled.accounts, next.accounts, OwnedIds(operation))
  }

  lemma OriginFacts(start: World, operation: Operation, fallback: Option<Id>)
    requires Origin(start, operation, fallback)
    ensures Base(Settled(start.catalog, operation), operation)
    ensures operation.evacuated != map[] ==> DesiredIsEnabled(Settled(start.catalog, operation).accounts, operation)
    ensures operation.account in OwnedIds(operation) && operation.account != ""
  {
    hide SyncedAccounts, Invariant, EvacuatedFrom, ClashesIn, Base, DesiredIsEnabled;
    EvacuatedWasEnabled(start.catalog, operation, fallback);
  }

  /** The rows first, then the users' routes. */
  method RestoreCatalog(cp: ControlPlane, operation: Operation, update: Option<AccountUpdate>, ghost next: Catalog,
                        ghost start: World, ghost fallback: Option<Id>, ghost content: Directory)
    returns (o: Outcome)
    requires InProgress(cp.W(), operation, content) && Origin(start, operation, fallback)
    requires Stored(cp.catalog, update, next, Settled(start.catalog, operation), operation)
    modifies cp`catalog
    ensures cp.catalog.rows == old(cp.catalog.rows) || cp.catalog.rows == start.catalog.rows
    ensures InProgress(cp.W(), operation, content)
    ensures o.Done? ==> cp.catalog == start.catalog
    ensures cp.files.calm && update.None? && OnFallback(old(cp.catalog).routes, operation) ==> o.Done?
  {
    hide InProgress, Base, MovedFrom, OwnedIds, DesiredIsEnabled, ReturnTo, RestoreUpdate, Origin, Settled, Watch, OthersKept;
    ghost var settled := Settled(start.catalog, operation);
    OriginFacts(start, operation, fallback);
    SettledRows(start.catalog, operation);
    o := Done;
    if update.Some? {
      o := RestoreRows(cp, operation, update.value, next, settled, content);
    }
    if o.Done? {
      ghost var c := cp.catalog;
      o := RestoreUsersOn(cp, operation, operation.account, settled, content);
      HomeFromOrigin(c, start, operation, fallback);
    }
  }

  lemma HomeFromOrigin(c: Catalog, start: World, operation: Operation, fallback: Option<Id>)
    requires Origin(start, operation, fallback) && MovedFrom(c, Settled(start.catalog, operation), operation)
    ensures c.(routes := ReturnTo(c.routes, operation.evacuated, operation.account)) == start.catalog
  {
    hide Synced, EvacuatedFrom, ClashesIn, Base, MovedFrom, Settled, ReturnTo;
    UsersAreHome(c, start.catalog, operation, fallback);
  }

  method RestoreRows(cp: ControlPlane, operation: Operation, update: AccountUpdate,
                     ghost next: Catalog, ghost settled: Catalog, ghost content: Directory)
    returns (o: Outcome)
    requires InProgress(cp.W(), operation, content) && Base(settled, operation)
    requires Stored(cp.catalog, Some(update), next, settled, operation)
    requires operation.evacuated != map[] ==> DesiredIsEnabled(settled.accounts, operation)
    modifies cp`catalog
    ensures cp.catalog.rows == old(cp.catalog.rows) || cp.catalog.rows == settled.rows
    ensures InProgress(cp.W(), operation, content)
    ensures o.Done? ==> MovedFrom(cp.catalog, settled, operation)
  {
    hide InProgress, Base, MovedFrom, OwnedIds, DesiredIsEnabled, RestoreUpdate, Watch, OthersKept;
    ghost var w := cp.W();
    MovedBack(cp.catalog, next, settled, operation);
    RestoredRows(cp.catalog, update, next, settled, operation);
    o := StoreRestoration(cp, update);
    MovedProgress(w, settled, settled.(routes := w.catalog.routes), operation, content);
  }

  lemma RestoredRows(c: Catalog, update: AccountUpdate, next: Catalog, settled: Catalog, operation: Operation)
    requires Stored(c, Some(update), next, settled, operation)
    ensures RestoreUpdate(c, update) == Ok(settled.(routes := c.routes))
    ensures OthersKept(settled.accounts, c.accounts, OwnedIds(operation))
  {
    hide Base, RestoreUpdate, OwnedIds, EvacuatedRoutes, Settled;
    RestoreLeavesRoutes(next, update, settled, c.routes);
    assert c == next.(routes := c.routes);
  }

  /** What a rollback of the files gives back. */
  ghost predicate FilesBack(t: Tree, start: Tree, action: FileAction) {
    && RolledBack(t, action).dirs == start.dirs
    && RolledBack(t, action).config.Keys <= start.config.Keys
  }

  method RollbackUpdate(cp: ControlPlane, operation: Operation, update: Option<AccountUpdate>, t: FileTransition,
                        runtime: Option<RuntimeTransition>, plan: SecretPlan, ghost next: Catalog,
                        ghost start: World, ghost fallback: Option<Id>, ghost content: Directory)
    returns (e: Ending)
    requires InProgress(cp.W(), operation, content) && Origin(start, operation, fallback)
    requires Stored(cp.catalog, update, next, Settled(start.catalog, operation), operation)
    requires ActionOf(t.action, operation) && !t.rolledBack && RuntimeOf(runtime, operation)
    requires runtime.Some? ==> runtime.value.afterId == operation.newAccount
    requires FilesBack(cp.files.tree, start.tree, t.action)
    requires plan.before.Keys <= OwnedIds(operation) && PlanFrom(plan.ready, plan.before, cp.secrets, start.secrets)
    requires RuntimeFrom(runtime, cp.containers, start.containers)
    modifies cp.files, t, cp`containers, cp`monitor, cp`secrets, cp`catalog, cp`active
    ensures cp.catalog.rows == old(cp.catalog.rows) || cp.catalog.rows == start.catalog.rows
    ensures InProgress(cp.W(), operation, content) && e in {Undone, Stuck, CutOff}
    ensures e.Undone? ==> Restored(cp.W(), start)
    ensures OnlyHits(old(cp.monitor), cp.monitor, {operation.newAccount} * old(cp.monitor.busy))
    ensures !e.CutOff? && runtime.Some? && runtime.value.kind.ReplacedContainer? ==>
      operation.newAccount in old(cp.containers) && operation.newAccount in old(cp.monitor.busy) ==>
      Reports(old(cp.monitor), cp.monitor, operation.newAccount)
    ensures cp.files.calm && update.None? && OnFallback(old(cp.catalog).routes, operation) && CanUndo(old(cp.files.tree.dirs), t.action) ==>
      e.Undone?
  {
    hide InProgress, RestoreUpdate, RolledBack, RolledBackContainers, AllWritten, Origin, Synced, Restored;
    hide Stored, Settled, RuntimeOf, OwnedIds, Watch, ActionOf, OnlyTouches, PlanFrom, RuntimeFrom, FilesBack;
    hide CanRender, CanUndo, OnFallback, Invariant, Rendered;
    ghost var before := cp.W();
    OriginKeys(start, operation, fallback);
    StartKeys(start);
    var o := RollbackResources(cp, operation, t, runtime, plan, content);
    var failed := o.Failed?;
    if o.Done? {
      ResourcesBack(before, cp.W(), start, t.action, runtime, plan.ready, plan.before);
    }
    ghost var config := cp.files.tree.config;
    if !o.Crashed? {
      o := RestoreCatalog(cp, operation, update, next, start, fallback, content);
    }
    if o.Done? {
      o := RestorePublished(cp, operation, content);
    }
    e := EndOf(o, failed);
    if e.Undone? {
      RestoredIsSynced(cp.W(), start, config);
    }
  }

  /** Undoing files, container and secrets gives back those of the start. */
  lemma ResourcesBack(before: World, after: World, start: World, action: FileAction,
                      runtime: Option<RuntimeTransition>, ready: bool, secrets: map<Id, Option<string>>)
    requires FilesBack(before.tree, start.tree, action)
    requires PlanFrom(ready, secrets, before.secrets, start.secrets) && RuntimeFrom(runtime, before.containers, start.containers)
    requires after.tree == RolledBack(before.tree, action)
    requires after.containers == (if runtime.None? then before.containers else RolledBackContainers(before.containers, runtime.value))
    requires after.secrets == (if !ready then before.secrets else AllWritten(before.secrets, secrets))
    ensures after.tree.dirs == start.tree.dirs && after.tree.config.Keys <= start.tree.config.Keys
    ensures after.secrets == start.secrets && after.containers == start.containers
  {
    hide RolledBackContainers, AllWritten, RolledBack;
    if ready {
      SecretsRestored(before.secrets, start.secrets, secrets);
    }
  }

  lemma OriginKeys(start: World, operation: Operation, fallback: Option<Id>)
    requires Origin(start, operation, fallback)
    ensures Synced(start) && start.tree.config.Keys == start.catalog.accounts.Keys && operation.kind == UpdateAccount
  {
    hide Invariant, EvacuatedFrom, ClashesIn, Base, CanRender, DirsMatch, ContainersMatch;
  }

  // ----------------------------------------------------------------- forward

  lemma ReplacedRollsBack(containers: map<Id, Container>, before: map<Id, Container>, a: Id, n: Id)
    requires a in before && (n == a || n !in before)
    requires containers == before - {a} || (n in containers && containers == (before - {a})[n := containers[n]])
    ensures RuntimeFrom(Some(RuntimeTransition(ReplacedContainer, a, n, Get(before, a))), containers, before)
  {
    assert (containers - {n})[a := before[a]] == before;
  }

  lemma CommitKeepsBack(t: Tree, before: Tree, start: Tree, action: FileAction)
    requires FilesBack(before, start, action) && t.dirs == before.dirs && t.config.Keys <= before.config.Keys
    requires action.RenameFiles? || action.KeepFiles?
    ensures FilesBack(t, start, action)
  {
  }

  /** The container of the new row, and the commits. */
  method UpdateRuntime(cp: ControlPlane, operation: Operation, t: FileTransition, ghost start: Tree, ghost content: Directory)
    returns (o: Outcome, runtime: Option<RuntimeTransition>)
    requires InProgress(cp.W(), operation, content) && Holds(cp.journal, operation) && operation.kind == UpdateAccount
    requires operation.newAccount in cp.catalog.accounts && operation.account in cp.containers
    requires operation.newAccount == operation.account || operation.newAccount !in cp.containers
    requires ActionOf(t.action, operation) && !t.rolledBack && !t.committed && FilesBack(cp.files.tree, start, t.action)
    modifies cp.files, t, cp`containers, cp`monitor, cp`journal
    ensures InProgress(cp.W(), operation, content) && Holds(cp.journal, operation)
    ensures !t.rolledBack && FilesBack(cp.files.tree, start, t.action)
    ensures RuntimeOf(runtime, operation) && (runtime.Some? ==> runtime.value.afterId == operation.newAccount)
    ensures !o.Crashed? ==> RuntimeFrom(runtime, cp.containers, old(cp.containers))
    ensures o.Done? ==>
      && runtime.Some? && runtime.value.kind.ReplacedContainer?
      && cp.containers ==
        (old(cp.containers) - {operation.account})[operation.newAccount := Container(cp.catalog.accounts[operation.newAccount].port, true)]
      && cp.files.tree == Committed(old(cp.files.tree), t.action)
      && cp.journal == Some(operation.(phase := RuntimePrepared))
    ensures cp.monitor.busy == old(cp.monitor.busy)
    ensures OnlyHits(old(cp.monitor), cp.monitor, {operation.account} * cp.monitor.busy)
    ensures cp.files.calm ==> o.Done?
  {
    hide InProgress, FilesBack, ActionOf, Holds, Watch, Committed, OnlyTouches, RuntimeFrom;
    ghost var before := cp.files.tree;
    o, runtime := ReplaceContainer(cp, operation, content);
    if o.Done? {
      o := AdvanceInProgress(cp, operation, RuntimePrepared, content);
    }
    if o.Done? {
      o := CommitContainers(cp, operation, runtime.value, content);
    }
    if o.Done? {
      UpdateActions(t.action, operation);
      o := CommitFiles(cp, operation, t, content);
      CommitKeepsBack(cp.files.tree, before, start, t.action);
    }
  }

  lemma UpdateActions(action: FileAction, operation: Operation)
    requires ActionOf(action, operation) && operation.kind == UpdateAccount
    ensures action.RenameFiles? || action.KeepFiles?
  {
  }

  method ReplaceContainer(cp: ControlPlane, operation: Operation, ghost content: Directory)
    returns (o: Outcome, runtime: Option<RuntimeTransition>)
    requires InProgress(cp.W(), operation, content) && operation.kind == UpdateAccount
    requires operation.newAccount in cp.catalog.accounts && operation.account in cp.containers
    requires operation.newAccount == operation.account || operation.newAccount !in cp.containers
    modifies cp`containers, cp`monitor
    ensures InProgress(cp.W(), operation, content)
    ensures RuntimeOf(runtime, operation)
    ensures runtime.Some? ==> runtime.value.kind == ReplacedContainer && runtime.value.afterId == operation.newAccount
    ensures !o.Crashed? ==> RuntimeFrom(runtime, cp.containers, old(cp.containers))
    ensures o.Done? ==>
      && runtime.Some?
      && cp.containers ==
        (old(cp.containers) - {operation.account})[operation.newAccount := Container(cp.catalog.accounts[operation.newAccount].port, true)]
    ensures cp.monitor.busy == old(cp.monitor.busy)
    ensures OnlyHits(old(cp.monitor), cp.monitor, {operation.account} * cp.monitor.busy)
    ensures cp.files.calm ==> o.Done?
  {
    hide CatalogPart, TreePart, ContainerPart, SecretPart, OAuthSafe, Watch, RolledBackContainers;
    ghost var before := cp.containers;
    o, runtime := cp.PrepareUpdate(operation.account, operation.newAccount);
    OthersKeepContainers(cp.containers, before, cp.catalog.accounts, operation);
    if !o.Crashed? && runtime.Some? {
      ReplacedRollsBack(cp.containers, before, operation.account, operation.newAccount);
    }
  }

  /** Users return if the account is enabled, and the snapshot follows. */
  method UpdatePublish(cp: ControlPlane, operation: Operation, enabled: bool, ghost next: Catalog, ghost content: Directory)
    returns (o: Outcome, ghost late: bool)
    requires InProgress(cp.W(), operation, content) && Holds(cp.journal, operation) && operation.kind == UpdateAccount
    requires Base(next, operation) && cp.catalog == next && Desired(next.accounts, operation) == Some(operation.newAccount)
    requires enabled == next.accounts[operation.newAccount].enabled && operation.newAccount != ""
    modifies cp`catalog, cp`active, cp`monitor, cp`journal
    ensures cp.catalog.rows == old(cp.catalog.rows)
    ensures InProgress(cp.W(), operation, content) && Holds(cp.journal, operation)
    ensures MovedFrom(cp.catalog, next, operation)
    ensures o.Done? ==> cp.catalog == Returned(next, operation) && cp.active == cp.catalog.routes
    ensures OnlyHits(old(cp.monitor), cp.monitor, {})
    ensures late ==> o.Failed?
    ensures late ==>
      && cp.catalog == Returned(next, operation) && cp.journal == old(cp.journal)
      && cp.monitor == Observe(old(cp.monitor), Routed(cp.catalog.routes.Values))
    ensures o.Failed? && !late ==> cp.monitor.busy == old(cp.monitor.busy)
    ensures cp.files.calm ==> o.Done?
  {
    hide InProgress, Holds, Base, MovedFrom, ReturnTo, Watch, OwnedIds, OnFallback;
    BaseIsMoved(next, operation);
    BaseOnFallback(next, operation);
    NewIsOwned(operation);
    o, late := Done, false;
    if enabled {
      o := RestoreUsersOn(cp, operation, operation.newAccount, next, content);
    }
    if o.Done? {
      o := PublishInProgress(cp, operation, content);
      if o.Done? {
        o := AdvanceInProgress(cp, operation, SnapshotActivated, content);
        late := o.Failed?;
      }
    }
  }

  lemma NewIsOwned(operation: Operation)
    requires operation.kind == UpdateAccount
    ensures operation.newAccount in OwnedIds(operation) && operation.account in OwnedIds(operation)
  {
  }

  // ------------------------------------------------------- the updated account

  /** The directories as the preparation left them. */
  ghost predicate Prepared(dirs: map<Path, Directory>, start: map<Path, Directory>, action: FileAction, operation: Operation) {
    && ActionOf(action, operation) && operation.kind == UpdateAccount
    && (action.KeepFiles? ==> dirs == start)
    && (action.RenameFiles? ==>
          && dirs == MoveDirs(start, KINDS, operation.account, operation.newAccount)
          && HasNoDirs(start, operation.newAccount)
          && action.moved == MovesOf(start, KINDS, operation.account, operation.newAccount))
  }

  lemma PreparedDirsMatch(dirs: map<Path, Directory>, start: map<Path, Directory>, action: FileAction, operation: Operation,
                          accounts: map<Id, Account>, next: map<Id, Account>)
    requires Prepared(dirs, start, action, operation) && DirsMatch(start, accounts) && operation.account in accounts
    requires next.Keys == accounts.Keys - {operation.account} + {operation.newAccount}
    ensures DirsMatch(dirs, next)
  {
    hide MoveDirs, MovesBetween, MovesOAuth;
    if action.RenameFiles? {
      var a, n := operation.account, operation.newAccount;
      MoveDirsBoth(start, a, n);
      forall id | id in next && id != n
        ensures HasDirs(dirs, id)
      {
        assert HasDirs(start, id);
        assert SameAt(dirs, start, Path(Auth, id)) && SameAt(dirs, start, Path(Logs, id));
      }
      forall p | p in dirs
        ensures p.id in next
      {
        if p.id == a {
          match p.kind {
            case Auth =>
            case Logs =>
          }
        } else if p.id != n {
          assert SameAt(dirs, start, p);
        }
      }
    }
  }

  /** Undoing the preparation gives the directories of the start. */
  lemma PreparedIsBack(t: Tree, start: Tree, action: FileAction, operation: Operation)
    requires Prepared(t.dirs, start.dirs, action, operation)
    requires t.config.Keys <= start.config.Keys + {operation.newAccount}
    requires operation.newAccount == operation.account ==> operation.account in start.config
    ensures FilesBack(t, start, action)
  {
    hide MoveDirs, MovesBetween, MovesOAuth, UndoMoves, HasNoDirs;
    if action.RenameFiles? {
      assert KINDS[0] != KINDS[1];
      NoneThere(start.dirs, operation.newAccount, action, operation, t.dirs);
      UndoMovesUndoes(start.dirs, KINDS, operation.account, operation.newAccount);
    }
  }

  lemma NoneThere(start: map<Path, Directory>, id: Id, action: FileAction, operation: Operation, dirs: map<Path, Directory>)
    requires Prepared(dirs, start, action, operation) && action.RenameFiles? && id == operation.newAccount
    ensures forall k :: k in KINDS ==> Path(k, id) !in start
  {
    hide MoveDirs, MovesBetween, MovesOAuth;
  }

  function DesiredSecrets(account: Id, newAccount: Id, proxy: Option<string>): map<Id, Option<string>> {
    if account == newAccount then map[newAccount := proxy] else map[account := None, newAccount := proxy]
  }

  lemma SecretsFollow(start: map<Id, string>, account: Id, newAccount: Id, proxy: Option<string>,
                      accounts: map<Id, Account>, next: map<Id, Account>)
    requires start.Keys <= accounts.Keys && next.Keys == accounts.Keys - {account} + {newAccount}
    ensures AllWritten(start, DesiredSecrets(account, newAccount, proxy)).Keys <= next.Keys
  {
  }

  lemma ContainersFollow(containers: map<Id, Container>, accounts: map<Id, Account>, next: map<Id, Account>, a: Id, n: Id)
    requires ContainersMatch(containers, accounts) && next.Keys == accounts.Keys - {a} + {n}
    requires OthersKept(next, accounts, {a, n}) && (n == a || n !in accounts)
    ensures ContainersMatch((containers - {a})[n := Container(next[n].port, true)], next)
  {
  }

  lemma ConfigFollows(t: Tree, rendered: Tree, config: map<Id, Config>, action: FileAction,
                      operation: Operation, c: Catalog, secrets: map<Id, string>)
    requires ActionOf(action, operation) && operation.kind == UpdateAccount && t == Committed(rendered, action)
    requires rendered.config == config + Rendered(c, secrets)
    requires operation.newAccount in c.accounts && (operation.account != operation.newAccount ==> operation.account !in c.accounts)
    requires config.Keys <= c.accounts.Keys + {operation.account}
    ensures t.config.Keys <= c.accounts.Keys && t.dirs == rendered.dirs
    ensures t.config == (if action.RenameFiles? then config - {operation.account} else config) + Rendered(c, secrets)
  {
    hide ConfigOf, MovesBetween, MovesOAuth;
    assert Rendered(c, secrets).Keys == c.accounts.Keys;
    hide Rendered;
    if action.RenameFiles? {
      assert t.config == rendered.config - {operation.account};
    }
  }

  /** A new row whose users may have returned to it. */
  lemma ReturnedBase(next: Catalog, operation: Operation)
    requires Base(next, operation)
    ensures
      var c := Returned(next, operation);
      Invariant(c) && c.accounts == next.accounts && c.rows == next.rows
  {
    hide Base, Invariant, CatalogPart, MovedFrom;
    BaseIsMoved(next, operation);
    MovedIsPart(next, next, operation);
    ReturnedIsInvariant(next, operation);
  }

  lemma RenderedFromRows(c: Catalog, next: Catalog, secrets: map<Id, string>)
    requires c.accounts == next.accounts && c.rows == next.rows
    ensures Rendered(c, secrets) == Rendered(next, secrets) && (CanRender(c, secrets) <==> CanRender(next, secrets))
  {
    assert forall id :: id in c.accounts ==> ConfigOf(c, secrets, id) == ConfigOf(next, secrets, id);
    hide ConfigOf;
  }

  /** Once the update is committed and published, everything is in step with its rows. */
  lemma UpdatedIsSynced(w: World, start: World, rendered: Tree, config: map<Id, Config>,
                        action: FileAction, operation: Operation, next: Catalog)
    requires Synced(start) && operation.account in start.catalog.accounts && Base(next, operation) && operation.kind == UpdateAccount
    requires operation.newAccount == operation.account || operation.newAccount !in start.catalog.accounts
    requires next.accounts.Keys == start.catalog.accounts.Keys - {operation.account} + {operation.newAccount}
    requires OthersKept(next.accounts, start.catalog.accounts, {operation.account, operation.newAccount})
    requires w.catalog == Returned(next, operation) && w.active == w.catalog.routes
    requires CanRender(next, w.secrets) && rendered.config == config + Rendered(next, w.secrets)
    requires config.Keys <= start.catalog.accounts.Keys
    requires Prepared(rendered.dirs, start.tree.dirs, action, operation) && w.tree == Committed(rendered, action)
    requires w.containers ==
      (start.containers - {operation.account})[operation.newAccount := Container(next.accounts[operation.newAccount].port, true)]
    requires w.secrets.Keys <= next.accounts.Keys
    ensures Synced(w)
  {
    hide Invariant, CanRender, ConfigsMatch, ConfigOf, Rendered, Base, Returned;
    hide Committed, DirsMatch, ContainersMatch, OthersKept, Prepared, ActionOf;
    ReturnedBase(next, operation);
    RenderedFromRows(w.catalog, next, w.secrets);
    PreparedActs(rendered.dirs, start.tree.dirs, action, operation);
    ConfigFollows(w.tree, rendered, config, action, operation, next, w.secrets);
    PreparedDirsMatch(rendered.dirs, start.tree.dirs, action, operation, start.catalog.accounts, next.accounts);
    ContainersFollow(start.containers, start.catalog.accounts, next.accounts, operation.account, operation.newAccount);
    InStep(w, if action.RenameFiles? then config - {operation.account} else config);
    hide SyncedAccounts;
  }

  lemma PreparedActs(dirs: map<Path, Directory>, start: map<Path, Directory>, action: FileAction, operation: Operation)
    requires Prepared(dirs, start, action, operation)
    ensures ActionOf(action, operation)
  {
  }

  lemma UpdateStart(w: World, start: World, operation: Operation, fallback: Option<Id>,
                    action: FileAction, update: AccountUpdate, proxy: Option<string>)
    requires Origin(start, operation, fallback) && Prepared(w.tree.dirs, start.tree.dirs, action, operation)
    requires Stored(w.catalog, Some(update), w.catalog, Settled(start.catalog, operation), operation)
    ensures operation.kind == UpdateAccount && Synced(start) && Base(w.catalog, operation) && ActionOf(action, operation)
    ensures start.tree.config.Keys == start.catalog.accounts.Keys && start.containers.Keys == start.catalog.accounts.Keys
    ensures start.secrets.Keys <= start.catalog.accounts.Keys
    ensures DesiredSecrets(operation.account, operation.newAccount, proxy).Keys == OwnedIds(operation)
  {
    hide Invariant, EvacuatedFrom, ClashesIn, Base, MovedFrom, Settled, RestoreUpdate, CanRender, DirsMatch, ActionOf;
  }

  lemma StillStored(c: Catalog, next: Catalog, update: AccountUpdate, start: World, operation: Operation)
    requires Stored(next, Some(update), next, Settled(start.catalog, operation), operation) && MovedFrom(c, next, operation)
    ensures Stored(c, Some(update), next, Settled(start.catalog, operation), operation)
  {
    hide MovedFrom, Base, RestoreUpdate, Settled;
  }

  // ----------------------------------------------------------- late failures

  /** What the last snapshot put back into service, if only the journal write after it failed. */
  ghost function Exposed(late: bool, final: Catalog, id: Id): set<Id> {
    if late then {id} * final.routes.Values else {}
  }

  /**
   * The last snapshot was published, but not recorded: the journal still holds
   * the phase before it.  If the compensation ran, it disturbed the account that
   * the snapshot put into service.
   */
  ghost predicate Republished(before: Monitor, m: Monitor, journal: Option<Operation>, e: Ending, final: Catalog, id: Id) {
    && e in {Undone, Stuck, CutOff} && Took(before, m, Routed(final.routes.Values))
    && (journal.Some? ==> journal.value.phase == RuntimePrepared)
    && (!e.CutOff? && id in final.routes.Values ==> Reports(before, m, id))
  }

  /** The accounts of the operation that may have requests in flight; a taken new ID is never touched. */
  ghost function OwnBusy(operation: Operation, accounts: map<Id, Account>, busy: set<Id>): set<Id> {
    ({operation.account} + if operation.newAccount in accounts then {} else {operation.newAccount}) * busy
  }

  lemma BothAreOwn(operation: Operation, accounts: map<Id, Account>, busy: set<Id>)
    requires !ClashesIn(accounts, operation) && operation.account in accounts && operation.kind == UpdateAccount
    ensures OwnBusy(operation, accounts, busy) == {operation.account, operation.newAccount} * busy
  {
  }

  /** Where evacuating, updating and returning ends. */
  ghost function EndOfDetour(start: Catalog, operation: Operation, request: UpdateRequest, order: seq<Id>): Catalog {
    var applied := ApplyUpdate(Settled(start, operation), request, order);
    if applied.Ok? then Returned(applied.value.0, operation) else start
  }

  /** From the stored row to the published account. */
  method UpdateApplied(cp: ControlPlane, operation: Operation, update: AccountUpdate, t: FileTransition, plan: SecretPlan,
                       ghost proxy: Option<string>, ghost start: World, ghost fallback: Option<Id>, ghost content: Directory)
    returns (e: Ending, ghost late: bool)
    requires InProgress(cp.W(), operation, content) && Holds(cp.journal, operation) && Origin(start, operation, fallback)
    requires Stored(cp.catalog, Some(update), cp.catalog, Settled(start.catalog, operation), operation)
    requires Desired(cp.catalog.accounts, operation) == Some(operation.newAccount) && operation.newAccount != ""
    requires operation.newAccount == operation.account || operation.newAccount !in start.catalog.accounts
    requires operation.account in start.catalog.accounts && operation.newAccount in cp.catalog.accounts
    requires cp.catalog.accounts.Keys == start.catalog.accounts.Keys - {operation.account} + {operation.newAccount}
    requires OthersKept(cp.catalog.accounts, start.catalog.accounts, {operation.account, operation.newAccount})
    requires Prepared(cp.files.tree.dirs, start.tree.dirs, t.action, operation) && cp.files.tree.config == start.tree.config
    requires !t.rolledBack && !t.committed && update.after == cp.catalog.accounts[operation.newAccount]
    requires cp.secrets == start.secrets && cp.containers == start.containers
    requires plan.ready && plan.desired == DesiredSecrets(operation.account, operation.newAccount, proxy)
    requires plan.before == map id | id in plan.desired :: Get(start.secrets, id)
    modifies cp.files, t, cp`containers, cp`monitor, cp`secrets, cp`catalog, cp`active, cp`journal
    ensures cp.catalog.rows == old(cp.catalog.rows) || cp.catalog.rows == start.catalog.rows
    ensures InProgress(cp.W(), operation, content) && Holds(cp.journal, operation)
    ensures e in {Succeeded, Undone, Stuck, CutOff}
    ensures e.Undone? ==> Restored(cp.W(), start)
    ensures e.Succeeded? ==>
      && Synced(cp.W()) && cp.catalog == Returned(old(cp.catalog), operation)
      && cp.secrets == AllWritten(start.secrets, plan.desired)
    ensures OnlyHits(old(cp.monitor), cp.monitor, {operation.account, operation.newAccount} * old(cp.monitor.busy) +
                                                  Exposed(late, Returned(old(cp.catalog), operation), operation.newAccount))
    ensures late ==> Republished(old(cp.monitor), cp.monitor, cp.journal, e, Returned(old(cp.catalog), operation), operation.newAccount)
    ensures cp.files.calm && CanRender(old(cp.catalog), AllWritten(start.secrets, plan.desired)) ==> e.Succeeded?
  {
    hide InProgress, Base, MovedFrom, Rendered, CanRender, Synced, Holds;
    hide Watch, Origin, Stored, Settled, RuntimeFrom, PlanFrom, OwnedIds;
    hide AllWritten, ActionOf, OthersKept, Restored, Returned, Prepared, FilesBack, RuntimeOf, Committed, Desired, DesiredSecrets;
    UpdateStart(cp.W(), start, operation, fallback, t.action, update, proxy);
    ghost var next := cp.catalog;
    ghost var base := cp.files.tree.config;
    var o, runtime;
    ghost var rendered;
    o, runtime, rendered, late := UpdateForward(cp, operation, update.after.enabled, t, plan, start.tree, content);
    e := CutOff;
    if o.Done? {
      e := Succeeded;
      SecretsFollow(start.secrets, operation.account, operation.newAccount, proxy, start.catalog.accounts, next.accounts);
      UpdatedIsSynced(cp.W(), start, rendered, base, t.action, operation, next);
    } else if o.Failed? {
      StillStored(cp.catalog, next, update, start, operation);
      PlanIsFrom(plan.before, plan.desired, cp.secrets, start.secrets);
      e := RollbackUpdate(cp, operation, Some(update), t, runtime, plan, next, start, fallback, content);
    }
  }

  lemma PlanIsFrom(before: map<Id, Option<string>>, desired: map<Id, Option<string>>, secrets: map<Id, string>, start: map<Id, string>)
    requires before == map id | id in desired :: Get(start, id)
    requires forall id :: id !in desired ==> SameAt(secrets, start, id)
    ensures PlanFrom(true, before, secrets, start) && before.Keys == desired.Keys
  {
  }

  /** Secrets, configs, containers, directories, routes and snapshot, in this order. */
  method UpdateForward(cp: ControlPlane, operation: Operation, enabled: bool, t: FileTransition, plan: SecretPlan,
                       ghost start: Tree, ghost content: Directory)
    returns (o: Outcome, runtime: Option<RuntimeTransition>, ghost rendered: Tree, ghost late: bool)
    requires InProgress(cp.W(), operation, content) && Holds(cp.journal, operation) && operation.kind == UpdateAccount
    requires Base(cp.catalog, operation) && Desired(cp.catalog.accounts, operation) == Some(operation.newAccount) && operation.newAccount != ""
    requires operation.newAccount in cp.catalog.accounts && operation.account in cp.containers
    requires enabled == cp.catalog.accounts[operation.newAccount].enabled
    requires operation.newAccount == operation.account || operation.newAccount !in cp.containers
    requires Prepared(cp.files.tree.dirs, start.dirs, t.action, operation) && cp.files.tree.config == start.config
    requires cp.catalog.accounts.Keys <= start.config.Keys + {operation.newAccount} && operation.account in start.config
    requires ActionOf(t.action, operation) && !t.rolledBack && !t.committed && plan.desired.Keys <= OwnedIds(operation)
    modifies cp.files, t, cp`containers, cp`monitor, cp`secrets, cp`catalog, cp`active, cp`journal
    ensures cp.catalog.rows == old(cp.catalog.rows) && MovedFrom(cp.catalog, old(cp.catalog), operation)
    ensures InProgress(cp.W(), operation, content) && Holds(cp.journal, operation)
    ensures !t.rolledBack && FilesBack(cp.files.tree, start, t.action)
    ensures RuntimeOf(runtime, operation) && (runtime.Some? ==> runtime.value.afterId == operation.newAccount)
    ensures !o.Crashed? ==> RuntimeFrom(runtime, cp.containers, old(cp.containers))
    ensures forall id :: id !in plan.desired ==> SameAt(cp.secrets, old(cp.secrets), id)
    ensures o.Done? ==>
      && cp.secrets == AllWritten(old(cp.secrets), plan.desired) && CanRender(old(cp.catalog), cp.secrets)
      && rendered == old(cp.files.tree).(config := start.config + Rendered(old(cp.catalog), cp.secrets))
      && cp.files.tree == Committed(rendered, t.action)
      && cp.containers ==
        (old(cp.containers) - {operation.account})[operation.newAccount := Container(old(cp.catalog).accounts[operation.newAccount].port, true)]
      && cp.catalog == Returned(old(cp.catalog), operation) && cp.active == cp.catalog.routes
    ensures OnlyHits(old(cp.monitor), cp.monitor, {operation.account} * old(cp.monitor.busy))
    ensures late ==>
      && o.Failed? && cp.catalog == Returned(old(cp.catalog), operation)
      && cp.journal == Some(operation.(phase := RuntimePrepared))
      && Took(old(cp.monitor), cp.monitor, Routed(cp.catalog.routes.Values))
      && cp.monitor.busy == old(cp.monitor.busy) + cp.catalog.routes.Values
      && runtime.Some? && runtime.value.kind.ReplacedContainer? && operation.newAccount in cp.containers
    ensures o.Failed? && !late ==> cp.monitor.busy == old(cp.monitor.busy)
    ensures cp.files.calm && plan.ready && CanRender(old(cp.catalog), AllWritten(old(cp.secrets), plan.desired)) ==> o.Done?
  {
    hide InProgress, Base, MovedFrom, Rendered, CanRender, Holds, Watch, RuntimeFrom, OwnedIds, AllWritten, ActionOf, Returned;
    hide Prepared, FilesBack, RuntimeOf, Committed, Desired;
    BaseIsMoved(cp.catalog, operation);
    runtime, late := None, false;
    NoRuntime(operation, cp.containers);
    o := Project(cp, operation, plan, content);
    rendered := cp.files.tree;
    PreparedIsBack(rendered, start, t.action, operation);
    if o.Done? {
      o, runtime := UpdateRuntime(cp, operation, t, start, content);
    }
    if o.Done? {
      o, late := UpdatePublish(cp, operation, enabled, cp.catalog, content);
    }
  }

  /** The transaction on the settled catalog leaves a state that can be restored. */
  lemma StoredFacts(w: World, start: World, operation: Operation, fallback: Option<Id>, request: UpdateRequest, order: seq<Id>,
                    next: Catalog, update: AccountUpdate, content: Directory)
    requires InProgress(w, operation, content) && Origin(start, operation, fallback) && w.catalog == Settled(start.catalog, operation)
    requires UpdatedBy(w.catalog, operation, request, order, next, update)
    requires request.id in w.catalog.accounts && UsersAside(w.catalog, request)
    ensures InProgress(w.(catalog := next), operation, content)
    ensures Stored(next, Some(update), next, w.catalog, operation)
    ensures Desired(next.accounts, operation) == Some(operation.newAccount) && update.after == next.accounts[operation.newAccount]
    ensures operation.newAccount == operation.account || operation.newAccount !in start.catalog.accounts
    ensures operation.account in start.catalog.accounts
    ensures next.accounts.Keys == start.catalog.accounts.Keys - {operation.account} + {operation.newAccount}
    ensures OthersKept(next.accounts, start.catalog.accounts, {operation.account, operation.newAccount})
    ensures SameUsers(next.rows, start.catalog.rows)
  {
    hide ActiveUsers, UserSecrets, InProgress, Origin, UsersAside, Base;
    hide MovedFrom, RestoreUpdate, ApplyUpdate, OthersKept, Desired, DesiredEnabled;
    OriginFacts(start, operation, fallback);
    UpdateFacts(w.catalog, operation, request, order, next, update);
    BaseIsMoved(next, operation);
    MovedProgress(w, next, next, operation, content);
    AfterIsRow(w.catalog, request, order);
    UpdateKeepsUsers(w.catalog, request, order);
    assert OwnedIds(operation) == {operation.account, operation.newAccount};
  }

  lemma AfterIsRow(settled: Catalog, request: UpdateRequest, order: seq<Id>)
    requires ApplyUpdate(settled, request, order).Ok?
    ensures
      var (next, update) := ApplyUpdate(settled, request, order).value;
      request.newId in next.accounts && update.after == next.accounts[request.newId]
  {
    hide ValidId, AutoFallback, UpdateChanges, UpdatedRoutes, UpdatedRow, UpdateError;
  }

  /** The journal record of the moved directories, then the rows. */
  method StorePrepared(cp: ControlPlane, operation: Operation, request: UpdateRequest, ghost proxy: Option<string>,
                       ghost start: World, ghost fallback: Option<Id>, ghost content: Directory)
    returns (o: Outcome, update: Option<AccountUpdate>, ghost order: seq<Id>)
    requires InProgress(cp.W(), operation, content) && Holds(cp.journal, operation) && Origin(start, operation, fallback)
    requires request.id == operation.account && request.newId == operation.newAccount
    requires cp.catalog == Settled(start.catalog, operation) && request.id in cp.catalog.accounts && UsersAside(cp.catalog, request)
    modifies cp`catalog, cp`journal
    ensures InProgress(cp.W(), operation, content) && Holds(cp.journal, operation)
    ensures SameUsers(cp.catalog.rows, start.catalog.rows)
    ensures o.Failed? ==> cp.catalog == old(cp.catalog)
    ensures o.Done? ==>
      && update.Some? && Lists(order, start.catalog.accounts)
      && ApplyUpdate(old(cp.catalog), request, order) == Ok((cp.catalog, update.value))
      && Stored(cp.catalog, update, cp.catalog, old(cp.catalog), operation)
      && Desired(cp.catalog.accounts, operation) == Some(operation.newAccount)
      && operation.newAccount in cp.catalog.accounts && update.value.after == cp.catalog.accounts[operation.newAccount]
      && (operation.newAccount == operation.account || operation.newAccount !in start.catalog.accounts)
      && operation.account in start.catalog.accounts
      && cp.catalog.accounts.Keys == start.catalog.accounts.Keys - {operation.account} + {operation.newAccount}
      && OthersKept(cp.catalog.accounts, start.catalog.accounts, {operation.account, operation.newAccount})
    ensures o.Done? && (request.mode == Custom ==> proxy.Some?) ==>
      CanRender(cp.catalog, AllWritten(start.secrets, DesiredSecrets(operation.account, operation.newAccount, proxy)))
    ensures cp.files.calm ==> o == if MayUpdate(old(cp.catalog).accounts, request) then Done else Failed
  {
    hide SameUsers, InProgress, Base, MovedFrom, RestoreUpdate, Synced, Holds, Watch, Origin, Stored, Settled, ApplyUpdate, Lists;
    hide UsersAside, AllWritten, OthersKept, Desired, DesiredSecrets, EnabledOthers, CanRender, MayUpdate;
    UsersStay(cp.catalog.rows);
    ghost var w := cp.W();
    OriginKeys(start, operation, fallback);
    OriginRenders(start, operation, fallback);
    SettledRows(start.catalog, operation);
    o := AdvanceInProgress(cp, operation, FilesPrepared, content);
    update, order := None, [];
    if o.Done? {
      o, update, order := StoreUpdate(cp, request);
      ghost var applied := ApplyUpdate(w.catalog, request, order);
      UpdateAcceptedIff(w.catalog, request, order);
      if applied.Ok? {
        StoredFacts(w, start, operation, fallback, request, order, applied.value.0, applied.value.1, content);
        if request.mode == Custom ==> proxy.Some? { UpdatedRenders(w.catalog, start.secrets, request, order, proxy); }
      }
    }
  }

  /** From the moved directories on. */
  method UpdatePrepared(cp: ControlPlane, operation: Operation, request: UpdateRequest, t: FileTransition, plan: SecretPlan,
                        ghost proxy: Option<string>, ghost start: World, ghost fallback: Option<Id>, ghost content: Directory)
    returns (e: Ending, ghost order: seq<Id>, ghost late: bool)
    requires InProgress(cp.W(), operation, content) && Holds(cp.journal, operation) && Origin(start, operation, fallback)
    requires request.id == operation.account && request.newId == operation.newAccount && operation.newAccount != ""
    requires cp.catalog == Settled(start.catalog, operation) && request.id in cp.catalog.accounts && UsersAside(cp.catalog, request)
    requires Prepared(cp.files.tree.dirs, start.tree.dirs, t.action, operation) && cp.files.tree.config == start.tree.config
    requires !t.rolledBack && !t.committed && cp.secrets == start.secrets && cp.containers == start.containers
    requires plan.ready && plan.desired == DesiredSecrets(operation.account, operation.newAccount, proxy)
    requires plan.before == map id | id in plan.desired :: Get(start.secrets, id)
    modifies cp.files, t, cp`containers, cp`monitor, cp`secrets, cp`catalog, cp`active, cp`journal
    ensures SameUsers(cp.catalog.rows, start.catalog.rows)
    ensures InProgress(cp.W(), operation, content) && Holds(cp.journal, operation)
    ensures e in {Succeeded, Undone, Stuck, CutOff}
    ensures e.Undone? ==> Restored(cp.W(), start)
    ensures e.Succeeded? ==>
      && Synced(cp.W()) && Lists(order, start.catalog.accounts)
      && ApplyUpdate(Settled(start.catalog, operation), request, order).Ok?
      && cp.catalog == Returned(ApplyUpdate(Settled(start.catalog, operation), request, order).value.0, operation)
      && cp.secrets == AllWritten(start.secrets, plan.desired)
    ensures OnlyHits(old(cp.monitor), cp.monitor, {operation.account, operation.newAccount} * old(cp.monitor.busy) +
                                                  Exposed(late, EndOfDetour(start.catalog, operation, request, order), request.newId))
    ensures late ==>
      && ApplyUpdate(Settled(start.catalog, operation), request, order).Ok?
      && Republished(old(cp.monitor), cp.monitor, cp.journal, e, EndOfDetour(start.catalog, operation, request, order), request.newId)
    ensures cp.files.calm && (request.mode == Custom ==> proxy.Some?) ==>
      !late && e == if MayUpdate(start.catalog.accounts, request) then Succeeded else Undone
  {
    hide SameUsers, InProgress, Base, MovedFrom, RestoreUpdate, Synced, Holds;
    hide Watch, Origin, Stored, Settled, ApplyUpdate, Lists, UsersAside;
    hide AllWritten, OthersKept, Restored, Returned, Prepared, FilesBack, Desired, DesiredSecrets, ActionOf, EnabledOthers;
    hide CanRender, CanUndo, OnFallback, MoveDirs, OnlyHits, Reports, Took;
    HitsNone(cp.monitor);
    UsersStay(start.catalog.rows);
    ghost var w := cp.W();
    PreparedStart(w, start, operation, fallback, t.action, proxy);
    PreparedCanUndo(w.tree.dirs, start.tree.dirs, t.action, operation);
    var o, update;
    o, update, order := StorePrepared(cp, operation, request, proxy, start, fallback, content);
    e, late := CutOff, false;
    if o.Done? {
      e, late := UpdateApplied(cp, operation, update.value, t, plan, proxy, start, fallback, content);
    } else if o.Failed? {
      UnstoredIs(cp.catalog, start, operation, fallback);
      NoRuntime(operation, cp.containers);
      e := RollbackUpdate(cp, operation, None, t, None, plan, cp.catalog, start, fallback, content);
      HitsTrans(old(cp.monitor), old(cp.monitor), cp.monitor, {}, {operation.newAccount} * old(cp.monitor.busy));
    }
  }

  lemma OriginRenders(start: World, operation: Operation, fallback: Option<Id>)
    requires Origin(start, operation, fallback)
    ensures CanRender(Settled(start.catalog, operation), start.secrets)
  {
    hide EvacuatedFrom, ClashesIn, Base;
    StartKeys(start);
  }

  lemma PreparedCanUndo(dirs: map<Path, Directory>, start: map<Path, Directory>, action: FileAction, operation: Operation)
    requires Prepared(dirs, start, action, operation)
    ensures CanUndo(dirs, action)
  {
    if action.RenameFiles? {
      PreparedActs(dirs, start, action, operation);
      MoveDirsBoth(start, operation.account, operation.newAccount);
      hide MoveDirs;
    }
  }

  /** A proxy in custom mode is among the secrets the update writes. */
  lemma UpdatedRenders(settled: Catalog, secrets: map<Id, string>, request: UpdateRequest, order: seq<Id>, proxy: Option<string>)
    requires ApplyUpdate(settled, request, order).Ok? && CanRender(settled, secrets)
    requires request.mode == Custom ==> proxy.Some?
    ensures CanRender(ApplyUpdate(settled, request, order).value.0, AllWritten(secrets, DesiredSecrets(request.id, request.newId, proxy)))
  {
    hide ValidId, AutoFallback, UpdateChanges, UpdatedRoutes, UpdatedRow, DesiredEnabled, DesiredDefault, EnabledOthers;
  }

  lemma PreparedStart(w: World, start: World, operation: Operation, fallback: Option<Id>, action: FileAction, proxy: Option<string>)
    requires Origin(start, operation, fallback) && Prepared(w.tree.dirs, start.tree.dirs, action, operation)
    requires w.tree.config == start.tree.config && w.catalog == Settled(start.catalog, operation)
    requires operation.account in w.catalog.accounts
    ensures FilesBack(w.tree, start.tree, action) && ActionOf(action, operation)
    ensures w.catalog.accounts == start.catalog.accounts && w.catalog.rows == start.catalog.rows
    ensures CanRender(w.catalog, start.secrets) && OnFallback(w.catalog.routes, operation)
    ensures DesiredSecrets(operation.account, operation.newAccount, proxy).Keys == OwnedIds(operation)
    ensures operation.kind == UpdateAccount
  {
    hide Origin, ActionOf, Prepared, FilesBack, Synced;
    OriginKeys(start, operation, fallback);
    OriginRenders(start, operation, fallback);
    SettledRows(start.catalog, operation);
    PreparedActs(w.tree.dirs, start.tree.dirs, action, operation);
    PreparedIsBack(w.tree, start.tree, action, operation);
  }

  lemma UnstoredIs(c: Catalog, start: World, operation: Operation, fallback: Option<Id>)
    requires Origin(start, operation, fallback) && c == Settled(start.catalog, operation)
    ensures Stored(c, None, c, Settled(start.catalog, operation), operation)
  {
    hide Base, MovedFrom, Synced, EvacuatedFrom, ClashesIn;
    BaseIsMoved(c, operation);
  }

  // ----------------------------------------------- when nothing was prepared

  /** Users may have moved and configs been rendered; directories are as the failed preparation left them. */
  ghost predicate Lingering(w: World, start: World, prepared: Tree, operation: Operation) {
    && w == start.(catalog := w.catalog, tree := prepared.(config := w.tree.config), active := w.active)
    && OnlyEvacuated(w.catalog, start.catalog, operation)
    && (forall id :: id in w.tree.config ==> id in start.catalog.accounts)
  }

  /** A preparation that failed keeps the frame of a rename, and touches nothing when the target is taken. */
  ghost predicate FailedPreparation(prepared: Tree, start: World, operation: Operation) {
    && RenameFrame(prepared, start.tree, operation.account, operation.newAccount, OperationBackup(operation))
    && prepared.config == start.tree.config
    && (ClashesIn(start.catalog.accounts, operation) ==> prepared.dirs == start.tree.dirs)
    && (prepared.dirs == start.tree.dirs || Scattered(prepared.dirs, start.tree.dirs, operation.account, operation.newAccount))
  }

  lemma LingeringIsSound(w: World, start: World, prepared: Tree, operation: Operation,
                         fallback: Option<Id>, journal: Option<Operation>)
    requires Synced(start) && EvacuatedFrom(start.catalog, operation, fallback) && operation.kind == UpdateAccount
    requires Lingering(w, start, prepared, operation) && FailedPreparation(prepared, start, operation)
    requires Holds(journal, operation) && ValidOperation(operation)
    ensures journal.Some? && Sound(journal, w)
  {
    hide Synced, EvacuatedFrom, RenameFrame, OnlyEvacuated, Sound, ValidOperation;
    LingeringRows(w, start, prepared, operation);
    var op := journal.value;
    assert op == operation.(phase := op.phase);
    SameValid(operation, op);
    if ClashesIn(start.catalog.accounts, operation) {
      ClashIsSound(w, start, op);
    } else {
      LingeringIsInterrupted(w, start, prepared, operation, fallback);
      HeldIsSound(journal, w, operation);
    }
    hide Clashes, Interrupted;
  }

  lemma LingeringRows(w: World, start: World, prepared: Tree, operation: Operation)
    requires Lingering(w, start, prepared, operation)
    ensures w.catalog.accounts == start.catalog.accounts && w.catalog.rows == start.catalog.rows
  {
  }

  lemma LingeringIsInterrupted(w: World, start: World, prepared: Tree, operation: Operation, fallback: Option<Id>)
    requires Synced(start) && EvacuatedFrom(start.catalog, operation, fallback) && operation.kind == UpdateAccount
    requires Lingering(w, start, prepared, operation) && FailedPreparation(prepared, start, operation)
    requires !ClashesIn(start.catalog.accounts, operation)
    ensures Interrupted(w, operation)
  {
    hide Invariant, CanRender, ConfigOf, EvacuatedFrom, CatalogPart, OperationBackup;
    EvacuationFacts(w.catalog, start.catalog, operation, fallback);
    MovedKind(start.catalog, operation, fallback);
    LingeringRows(w, start, prepared, operation);
    RenamedTree(prepared, start, operation);
    hide RenameFrame, OnlyEvacuated;
    RenderKeepsTree(w.tree, prepared, w.catalog.accounts, operation);
    ContainersOfMatching(w.containers, w.catalog.accounts, operation);
    hide TreePart, ContainerPart, DirsMatch, ContainersMatch;
  }

  lemma RenamedTree(prepared: Tree, start: World, operation: Operation)
    requires Synced(start) && FailedPreparation(prepared, start, operation) && operation.kind == UpdateAccount
    requires operation.account in start.catalog.accounts && !ClashesIn(start.catalog.accounts, operation)
    ensures TreePart(prepared, start.catalog.accounts, operation)
  {
    hide Invariant, CanRender, ConfigOf, KeepsOAuth;
    TreeOfMatching(start.tree, start.catalog.accounts, operation);
    TouchKeepsTree(prepared, start.tree, start.catalog.accounts, operation);
    hide TreePart;
  }

  lemma SameSecrets(secrets: map<Id, string>, start: map<Id, string>, before: map<Id, Option<string>>)
    requires forall id :: id !in before ==> SameAt(secrets, start, id)
    requires forall id :: id in before ==> SameAt(secrets, start, id) || Get(secrets, id) == before[id]
    requires forall id :: id in before ==> before[id] == Get(start, id)
    ensures secrets == start
  {
    assert forall id :: SameAt(secrets, start, id);
    assert forall id :: id in secrets ==> SameAt(secrets, start, id);
    assert forall id :: id in start ==> SameAt(secrets, start, id);
  }

  lemma LingeringMoves(w: World, config: map<Id, Config>, active: map<User, Id>, start: World, prepared: Tree, operation: Operation)
    requires Lingering(w, start, prepared, operation)
    requires forall id :: id in config ==> id in w.tree.config || id in w.catalog.accounts
    ensures Lingering(w.(tree := w.tree.(config := config), active := active), start, prepared, operation)
    ensures w == start.(catalog := w.catalog, tree := prepared.(config := w.tree.config), active := w.active)
  {
  }

  /** Secrets are written back as they were found, and users return. */
  method ReturnUntouched(cp: ControlPlane, operation: Operation, plan: SecretPlan,
                         ghost start: World, ghost fallback: Option<Id>, ghost prepared: Tree)
    returns (o: Outcome, failed: bool)
    requires EvacuatedFrom(start.catalog, operation, fallback) && operation.account != ""
    requires Lingering(cp.W(), start, prepared, operation)
    requires forall id :: id in plan.before ==> plan.before[id] == Get(start.secrets, id)
    modifies cp`secrets, cp`catalog
    ensures cp.catalog.rows == start.catalog.rows
    ensures Lingering(cp.W(), start, prepared, operation)
    ensures o.Done? ==> cp.catalog == start.catalog
    ensures cp.files.calm ==> o.Done? && !failed
  {
    hide EvacuatedFrom, OnlyEvacuated, ReturnTo, Watch;
    UsersAreBack(cp.catalog, start.catalog, operation, fallback);
    NobodyIsForeign(cp.catalog, start.catalog, operation, operation.account);
    o := plan.Rollback(cp);
    SameSecrets(cp.secrets, start.secrets, plan.before);
    failed := o.Failed?;
    if !o.Crashed? {
      o := RestoreTo(cp, operation.evacuated, operation.account, operation.account);
    }
  }

  /** The rollback of an update that prepared no files and stored no rows. */
  method RollbackNothing(cp: ControlPlane, operation: Operation, plan: SecretPlan,
                         ghost start: World, ghost fallback: Option<Id>, ghost prepared: Tree)
    returns (e: Ending)
    requires Synced(start) && EvacuatedFrom(start.catalog, operation, fallback) && operation.account != ""
    requires Lingering(cp.W(), start, prepared, operation) && prepared.config == start.tree.config && cp.files.tree == prepared
    requires forall id :: id in plan.before ==> plan.before[id] == Get(start.secrets, id)
    modifies cp.files, cp`secrets, cp`catalog, cp`active, cp`monitor
    ensures cp.catalog.rows == start.catalog.rows
    ensures Lingering(cp.W(), start, prepared, operation) && e in {Undone, Stuck, CutOff}
    ensures e.Undone? ==> cp.W() == start.(tree := cp.files.tree) && cp.files.tree.dirs == prepared.dirs
    ensures e.Undone? && prepared.dirs == start.tree.dirs ==> Restored(cp.W(), start)
    ensures OnlyHits(old(cp.monitor), cp.monitor, {})
    ensures cp.files.calm ==> e.Undone?
  {
    hide Synced, EvacuatedFrom, OnlyEvacuated, Lingering, Restored, Rendered, CanRender, Watch, Invariant, OperationBackup;
    hide OnlyHits, Scattered;
    HitsNone(cp.monitor);
    StartKeys(start);
    var o, failed := ReturnUntouched(cp, operation, plan, start, fallback, prepared);
    ghost var w := cp.W();
    if o.Done? {
      o := cp.Render();
    }
    if o.Done? {
      o := cp.Publish();
    }
    e := EndOf(o, failed);
    LingeringMoves(w, cp.files.tree.config, cp.active, start, prepared, operation);
    if e.Undone? && prepared.dirs == start.tree.dirs {
      RestoredIsSynced(cp.W(), start, start.tree.config);
    }
  }

  // ------------------------------------------------------- out of service

  lemma OriginIs(start: World, operation: Operation, fallback: Option<Id>)
    requires Synced(start) && EvacuatedFrom(start.catalog, operation, fallback) && operation.kind == UpdateAccount
    requires !ClashesIn(start.catalog.accounts, operation) && operation.account != ""
    ensures Origin(start, operation, fallback)
  {
    hide Invariant, SyncedAccounts, EvacuatedFrom, ClashesIn, Base;
    SettledIsBase(start.catalog, operation, fallback);
  }

  lemma SettledIsBase(start: Catalog, operation: Operation, fallback: Option<Id>)
    requires Invariant(start) && EvacuatedFrom(start, operation, fallback) && !ClashesIn(start.accounts, operation)
    ensures Base(Settled(start, operation), operation)
  {
    hide Invariant, RoutesTargetEnabled, EvacuatedFrom, ClashesIn, OneSide, OwnedIds, DesiredIsEnabled;
    RoutesAreEnabled(start);
    EvacuationIsInvariant(start, operation, fallback);
    Evacuees(start, operation, fallback);
    assert start.routes + operation.evacuated + operation.evacuated == start.routes + operation.evacuated;
  }

  lemma PreparationFrame(t: Tree, start: World, operation: Operation)
    requires Synced(start) && operation.kind == UpdateAccount
    requires RenameFrame(t, start.tree, operation.account, operation.newAccount,
                         BackupKey(operation.id, operation.account, RenamedTo(operation.newAccount)))
    requires t.config == start.tree.config
    requires operation.account != operation.newAccount && Path(Auth, operation.newAccount) in start.tree.dirs ==> t == start.tree
    requires operation.account == operation.newAccount ==> t == start.tree
    requires
      var a, n := operation.account, operation.newAccount;
      a != n && HasDirs(start.tree.dirs, a) && HasNoDirs(start.tree.dirs, n) ==> Scattered(t.dirs, start.tree.dirs, a, n)
    requires operation.account in start.catalog.accounts
    ensures FailedPreparation(t, start, operation)
  {
    hide Invariant, CanRender, ConfigsMatch, ContainersMatch, RenameFrame, Scattered;
    assert HasDirs(start.tree.dirs, operation.account);
    if operation.newAccount in start.catalog.accounts {
      assert HasDirs(start.tree.dirs, operation.newAccount);
    }
  }

  lemma PreparedAction(t: Tree, start: World, operation: Operation, action: FileAction)
    requires Synced(start) && operation.kind == UpdateAccount && operation.account in start.catalog.accounts
    requires WellFormedAction(action)
    requires operation.account == operation.newAccount ==> action == KeepFiles && t == start.tree
    requires operation.account != operation.newAccount ==>
      && action == RenameFiles(operation.account, operation.newAccount, MovesOf(start.tree.dirs, KINDS, operation.account, operation.newAccount))
      && HasNoDirs(start.tree.dirs, operation.newAccount)
      && t.dirs == MoveDirs(start.tree.dirs, KINDS, operation.account, operation.newAccount)
    ensures Prepared(t.dirs, start.tree.dirs, action, operation)
    ensures !ClashesIn(start.catalog.accounts, operation)
  {
    hide Invariant, CanRender, ConfigsMatch, ContainersMatch, MoveDirs;
    assert HasDirs(start.tree.dirs, operation.account);
    if operation.newAccount in start.catalog.accounts {
      assert HasDirs(start.tree.dirs, operation.newAccount);
    }
    if operation.account != operation.newAccount {
      assert MovesOAuth(action.moved) by { OAuthIsMoved(start.tree.dirs, operation.account, operation.newAccount); }
    }
  }

  lemma PreparedIsSafe(t: Tree, start: World, operation: Operation)
    requires Synced(start) && FailedPreparation(t, start, operation) && operation.kind == UpdateAccount
    requires operation.account in start.catalog.accounts
    ensures OAuthSafe(t, operation, OAuthAt(start.tree, operation.account))
  {
    hide Invariant, CanRender, ConfigsMatch, ContainersMatch, OperationBackup, OnlyTouches, NotBoth;
    assert HasDirs(start.tree.dirs, operation.account);
    assert OAuthHeld(start.tree, operation.account, operation.newAccount, OperationBackup(operation), OAuthAt(start.tree, operation.account));
  }

  /** From the account out of service on. */
  method UpdateEvacuated(cp: ControlPlane, operation: Operation, request: UpdateRequest, plan: SecretPlan,
                         ghost proxy: Option<string>, ghost start: World, ghost fallback: Option<Id>)
    returns (e: Ending, ghost order: seq<Id>, split: bool, ghost late: bool)
    requires Synced(start) && EvacuatedFrom(start.catalog, operation, fallback) && operation.kind == UpdateAccount
    requires cp.W() == start.(catalog := Settled(start.catalog, operation), active := cp.active)
    requires Holds(cp.journal, operation) && ValidOperation(operation) && operation.account != "" && operation.newAccount != ""
    requires request.id == operation.account && request.newId == operation.newAccount && request.id in cp.catalog.accounts
    requires UsersAside(cp.catalog, request)
    requires plan.ready && plan.desired == DesiredSecrets(operation.account, operation.newAccount, proxy)
    requires plan.before == map id | id in plan.desired :: Get(start.secrets, id)
    modifies cp.files, cp`containers, cp`monitor, cp`secrets, cp`catalog, cp`active, cp`journal
    ensures SameUsers(cp.catalog.rows, start.catalog.rows)
    ensures cp.journal.Some? && Sound(cp.journal, cp.W()) && e in {Succeeded, Undone, Stuck, CutOff}
    ensures split ==> cp.W() == start.(tree := cp.files.tree) && e.Undone? && !Synced(cp.W())
    ensures split ==> Scattered(cp.files.tree.dirs, start.tree.dirs, operation.account, operation.newAccount)
    ensures e.Undone? && !split ==> Restored(cp.W(), start)
    ensures e.Succeeded? ==>
      && Synced(cp.W()) && Lists(order, start.catalog.accounts)
      && ApplyUpdate(Settled(start.catalog, operation), request, order).Ok?
      && cp.catalog == Returned(ApplyUpdate(Settled(start.catalog, operation), request, order).value.0, operation)
      && cp.secrets == AllWritten(start.secrets, plan.desired)
    ensures OnlyHits(old(cp.monitor), cp.monitor, OwnBusy(operation, start.catalog.accounts, old(cp.monitor.busy)) +
                                                  Exposed(late, EndOfDetour(start.catalog, operation, request, order), request.newId))
    ensures late ==>
      && ApplyUpdate(Settled(start.catalog, operation), request, order).Ok?
      && Republished(old(cp.monitor), cp.monitor, cp.journal, e, EndOfDetour(start.catalog, operation, request, order), request.newId)
    ensures OAuthSafe(cp.files.tree, operation, OAuthAt(start.tree, operation.account))
    ensures cp.files.calm && (request.mode == Custom ==> proxy.Some?) && FreshId(start.tree, operation.id) ==>
      !split && !late && e == if MayUpdate(start.catalog.accounts, request) then Succeeded else Undone
  {
    hide SameUsers, Synced, EvacuatedFrom, OnlyEvacuated, Settled, Holds, ValidOperation;
    hide UsersAside, Interrupted, Sound, Watch, Origin, Prepared;
    hide Lingering, FailedPreparation, RenameFrame, Restored, ApplyUpdate, Lists;
    hide Returned, AllWritten, OAuthSafe, DesiredSecrets, MoveDirs, OnlyHits, Reports, Took, Scattered;
    hide EndOfDetour, Exposed, OwnBusy, ClashesIn, OAuthAt;
    HitsNone(cp.monitor);
    UsersStay(start.catalog.rows);
    ghost var content := OAuthAt(start.tree, operation.account);
    LingeringStart(start, operation, fallback, cp.active);
    var dirs := cp.files.tree.dirs;
    UpdateTarget(start, operation, request);
    if FreshId(start.tree, operation.id) { FreshKey(start.tree, OperationBackup(operation)); }
    var o, t := cp.files.PrepareUpdate(operation.id, operation.account, operation.newAccount);
    ghost var prepared := cp.files.tree;
    PreparationFrame(prepared, start, operation);
    PreparedIsSafe(prepared, start, operation);
    LingeringTree(start, prepared, operation, cp.catalog, cp.active);
    e, order, split, late := CutOff, [], false, false;
    if o.Done? {
      PreparedAction(prepared, start, operation, t.action);
      OriginIs(start, operation, fallback);
      LingeringIsInterrupted(cp.W(), start, prepared, operation, fallback);
      e, order, late := UpdatePrepared(cp, operation, request, t, plan, proxy, start, fallback, content);
      BothAreOwn(operation, start.catalog.accounts, old(cp.monitor.busy));
      HitsTrans(old(cp.monitor), old(cp.monitor), cp.monitor, {},
                {operation.account, operation.newAccount} * old(cp.monitor.busy) +
                Exposed(late, EndOfDetour(start.catalog, operation, request, order), request.newId));
      ProgressIs(cp.W(), operation, content);
      HeldIsSound(cp.journal, cp.W(), operation);
    } else {
      e, split := UpdateUnprepared(cp, operation, o, dirs, plan, start, fallback, prepared, content);
      HitsTrans(old(cp.monitor), old(cp.monitor), cp.monitor, {}, {});
      SameRowsSameUsers(cp.catalog.rows, start.catalog.rows);
    }
  }

  lemma SameRowsSameUsers(rows: map<nat, KeyRow>, start: map<nat, KeyRow>)
    requires rows == start
    ensures SameUsers(rows, start)
  {
    UsersStay(start);
  }

  /** The preparation failed or was cut off: routes and configs are put back, directories stay as they are. */
  method UpdateUnprepared(cp: ControlPlane, operation: Operation, o: Outcome, dirs: map<Path, Directory>, plan: SecretPlan,
                          ghost start: World, ghost fallback: Option<Id>, ghost prepared: Tree, ghost content: Directory)
    returns (e: Ending, split: bool)
    requires Synced(start) && EvacuatedFrom(start.catalog, operation, fallback) && operation.kind == UpdateAccount && operation.account != ""
    requires Lingering(cp.W(), start, prepared, operation) && cp.files.tree == prepared && dirs == start.tree.dirs && !o.Done?
    requires FailedPreparation(prepared, start, operation) && prepared.config == start.tree.config && OAuthSafe(prepared, operation, content)
    requires Holds(cp.journal, operation) && ValidOperation(operation) && operation.account in start.catalog.accounts
    requires forall id :: id in plan.before ==> plan.before[id] == Get(start.secrets, id)
    modifies cp.files, cp`secrets, cp`catalog, cp`active, cp`monitor
    ensures cp.catalog.rows == start.catalog.rows && cp.journal.Some? && Sound(cp.journal, cp.W())
    ensures e in {Undone, Stuck, CutOff} && OAuthSafe(cp.files.tree, operation, content)
    ensures e.Undone? ==> if split then cp.W() == start.(tree := cp.files.tree) else Restored(cp.W(), start)
    ensures split ==>
      && e.Undone? && !Synced(cp.W())
      && Scattered(cp.files.tree.dirs, start.tree.dirs, operation.account, operation.newAccount)
    ensures OnlyHits(old(cp.monitor), cp.monitor, {})
    ensures cp.files.calm && o.Failed? && prepared.dirs == dirs ==> e.Undone? && !split
  {
    hide Synced, EvacuatedFrom, OnlyEvacuated, Holds, ValidOperation, Interrupted, Sound;
    hide Watch, Lingering, FailedPreparation, RenameFrame, Restored, OAuthSafe;
    e, split := CutOff, false;
    if o.Failed? {
      e := RollbackNothing(cp, operation, plan, start, fallback, prepared);
      split := e.Undone? && cp.files.tree.dirs != dirs;
      if split { ScatteredIsOutOfStep(start, prepared, cp.files.tree, operation); }
    }
    LingeringRows(cp.W(), start, prepared, operation);
    LingeringIsSound(cp.W(), start, prepared, operation, fallback, cp.journal);
    LingeringSafe(cp.W(), start, prepared, operation, content);
  }

  /** A rename that left any directory at the new ID is out of step. */
  lemma ScatteredIsOutOfStep(start: World, prepared: Tree, t: Tree, operation: Operation)
    requires Synced(start) && operation.account in start.catalog.accounts && FailedPreparation(prepared, start, operation)
    requires t.dirs == prepared.dirs != start.tree.dirs
    ensures !Synced(start.(tree := t)) && Scattered(t.dirs, start.tree.dirs, operation.account, operation.newAccount)
  {
    hide Invariant, CanRender, ConfigsMatch, ContainersMatch, KeepsOAuth, NotBoth;
    var a, n := operation.account, operation.newAccount;
    if HasDirs(t.dirs, a) {
      assert SameAt(t.dirs, start.tree.dirs, Path(Auth, a)) && SameAt(t.dirs, start.tree.dirs, Path(Logs, a));
    }
  }

  /** The new ID is either free at all its paths, or taken and then refused by the transaction too. */
  lemma UpdateTarget(start: World, operation: Operation, request: UpdateRequest)
    requires Synced(start) && operation.kind == UpdateAccount && operation.account in start.catalog.accounts
    requires request.id == operation.account && request.newId == operation.newAccount
    ensures operation.newAccount == operation.account || Vacant(start.tree, operation.newAccount) ||
      (Path(Auth, operation.newAccount) in start.tree.dirs &&
       !MayUpdate(start.catalog.accounts, request))
  {
    hide ValidId, StepsDown, Available;
    if operation.newAccount in start.catalog.accounts {
      hide Invariant, CanRender, ConfigsMatch, ContainersMatch;
      assert HasDirs(start.tree.dirs, operation.newAccount);
    } else {
      NothingOf(start, operation.newAccount);
    }
  }

  lemma LingeringStart(start: World, operation: Operation, fallback: Option<Id>, active: map<User, Id>)
    requires Synced(start) && EvacuatedFrom(start.catalog, operation, fallback)
    ensures Lingering(start.(catalog := Settled(start.catalog, operation), active := active), start, start.tree, operation)
    ensures operation.account in start.catalog.accounts
  {
    StartKeys(start);
    hide Synced, EvacuatedFrom, OnlyEvacuated;
    UsersHaveMoved(start.catalog, operation, fallback);
    MovedKind(start.catalog, operation, fallback);
  }

  lemma LingeringTree(start: World, prepared: Tree, operation: Operation, c: Catalog, active: map<User, Id>)
    requires Lingering(start.(catalog := c, active := active), start, start.tree, operation) && prepared.config == start.tree.config
    ensures Lingering(start.(catalog := c, tree := prepared, active := active), start, prepared, operation)
  {
    hide OnlyEvacuated;
  }

  lemma LingeringSafe(w: World, start: World, prepared: Tree, operation: Operation, content: Directory)
    requires Lingering(w, start, prepared, operation) && OAuthSafe(prepared, operation, content)
    ensures OAuthSafe(w.tree, operation, content)
  {
    hide OnlyEvacuated;
    ConfigOnlyIsSafe(w.tree, prepared, operation);
  }

  // ------------------------------------------- the detour leaves no trace

  /** The transaction decides the same on the settled catalog, and writes the same rows. */
  lemma SameRowsWritten(start: Catalog, settled: Catalog, request: UpdateRequest, order: seq<Id>)
    requires settled == start.(routes := settled.routes)
    ensures ApplyUpdate(start, request, order).Ok? <==> ApplyUpdate(settled, request, order).Ok?
    ensures ApplyUpdate(start, request, order).Ok? ==>
      var a, b := ApplyUpdate(start, request, order).value.0, ApplyUpdate(settled, request, order).value.0;
      a.accounts == b.accounts && a.rows == b.rows
  {
    hide ValidId, AutoFallback, UpdatedRow, UpdateChanges, UpdatedRoutes;
    hide DesiredEnabled, DesiredDefault, EnabledOthers, UpdatedAccount;
    assert UpdateError(start, request, order) == UpdateError(settled, request, order);
    if request.id in start.accounts {
      var fallback := UpdateFallback(order, start.accounts, request);
      assert UpdatedAccounts(start, request, fallback) == UpdatedAccounts(settled, request, fallback);
    }
    hide UpdatedAccounts, UpdateError;
  }

  /** Where the plain transaction puts each user. */
  lemma PlainRoute(start: Catalog, request: UpdateRequest, order: seq<Id>, u: User)
    requires ApplyUpdate(start, request, order).Ok? && RoutesTargetEnabled(start) && u in start.routes
    ensures request.id in start.accounts
    ensures
      var routes := ApplyUpdate(start, request, order).value.0.routes;
      var fallback := UpdateFallback(order, start.accounts, request);
      && u in routes
      && (!DesiredEnabled(start.accounts[request.id], request) ==> fallback.Some?)
      && routes[u] == if start.routes[u] != request.id then start.routes[u]
                      else if DesiredEnabled(start.accounts[request.id], request) then request.newId
                      else fallback.value
  {
    UpdateShape(start, request, order);
    hide ValidId, AutoFallback, UpdatedAccounts, UpdatedRow, UpdateChanges;
    hide DesiredEnabled, DesiredDefault, EnabledOthers, ActiveUsers, OthersKept;
  }

  lemma PlainKeys(start: Catalog, request: UpdateRequest, order: seq<Id>)
    requires ApplyUpdate(start, request, order).Ok?
    ensures ApplyUpdate(start, request, order).value.0.routes.Keys == start.routes.Keys
  {
    hide ValidId, AutoFallback, UpdatedAccounts, UpdatedRow, UpdateChanges;
    hide DesiredEnabled, DesiredDefault, EnabledOthers, UpdateError, UpdateFallback;
  }

  /** Where the detour puts each user. */
  lemma ReturnedRoute(start: Catalog, next: Catalog, operation: Operation, fallback: Option<Id>, u: User)
    requires EvacuatedFrom(start, operation, fallback) && operation.kind == UpdateAccount && u in start.routes
    requires next.routes == Settled(start, operation).routes && Desired(next.accounts, operation) == Some(operation.newAccount)
    ensures Returned(next, operation).routes.Keys == start.routes.Keys
    ensures Returned(next, operation).routes[u] ==
      if start.routes[u] != operation.account || fallback.None? then start.routes[u]
      else if next.accounts[operation.newAccount].enabled then operation.newAccount
      else fallback.value
  {
    hide EnabledOthers;
  }

  lemma ReturnedKeys(start: Catalog, next: Catalog, operation: Operation, fallback: Option<Id>)
    requires EvacuatedFrom(start, operation, fallback) && next.routes == Settled(start, operation).routes
    ensures Returned(next, operation).routes.Keys == start.routes.Keys
  {
    hide EnabledOthers, Desired;
  }

  /** Evacuating, updating and returning ends where the transaction alone would have. */
  lemma EvacuationIsInvisible(start: Catalog, operation: Operation, fallback: Option<Id>, request: UpdateRequest, order: seq<Id>)
    requires Invariant(start) && EvacuatedFrom(start, operation, fallback) && !ClashesIn(start.accounts, operation)
    requires operation.kind == UpdateAccount && request.id == operation.account && request.newId == operation.newAccount
    requires fallback.Some? ==> request.fallback == fallback
    requires request.id in start.accounts && UsersAside(Settled(start, operation), request)
    requires ApplyUpdate(Settled(start, operation), request, order).Ok?
    ensures ApplyUpdate(start, request, order).Ok?
    ensures Returned(ApplyUpdate(Settled(start, operation), request, order).value.0, operation) == ApplyUpdate(start, request, order).value.0
  {
    hide Invariant, EvacuatedFrom, ClashesIn, UsersAside, ApplyUpdate, Settled, Base, Returned, OthersKept, DesiredEnabled, Desired;
    var settled := Settled(start, operation);
    SettledIsBase(start, operation, fallback);
    BaseInvariant(settled, operation);
    SettledRows(start, operation);
    SameRowsWritten(start, settled, request, order);
    UpdateLeavesRoutes(settled, request, order);
    var next, plain := ApplyUpdate(settled, request, order).value.0, ApplyUpdate(start, request, order).value.0;
    UpdateShape(settled, request, order);
    UpdateFindsNew(next, operation);
    PlainKeys(start, request, order);
    ReturnedKeys(start, next, operation, fallback);
    forall u | u in start.routes
      ensures Returned(next, operation).routes[u] == plain.routes[u]
    {
      SameRoute(start, next, operation, fallback, request, order, u);
    }
    assert Returned(next, operation).routes == plain.routes;
    ReturnedRows(next, operation);
  }

  lemma SettledRows(start: Catalog, operation: Operation)
    ensures Settled(start, operation) == start.(routes := Settled(start, operation).routes)
  {
  }

  lemma ReturnedRows(next: Catalog, operation: Operation)
    ensures Returned(next, operation).accounts == next.accounts && Returned(next, operation).rows == next.rows
  {
    hide Desired;
  }

  lemma UpdateFindsNew(next: Catalog, operation: Operation)
    requires operation.kind == UpdateAccount && operation.newAccount in next.accounts
    ensures Desired(next.accounts, operation) == Some(operation.newAccount)
  {
  }

  lemma SameRoute(start: Catalog, next: Catalog, operation: Operation, fallback: Option<Id>,
                  request: UpdateRequest, order: seq<Id>, u: User)
    requires Invariant(start) && EvacuatedFrom(start, operation, fallback) && operation.kind == UpdateAccount && u in start.routes
    requires request.id == operation.account && request.newId == operation.newAccount
    requires fallback.Some? ==> request.fallback == fallback
    requires request.id in start.accounts && UsersAside(Settled(start, operation), request)
    requires ApplyUpdate(start, request, order).Ok?
    requires next.routes == Settled(start, operation).routes && Desired(next.accounts, operation) == Some(operation.newAccount)
    requires next.accounts[operation.newAccount].enabled == DesiredEnabled(start.accounts[request.id], request)
    ensures Returned(next, operation).routes.Keys == start.routes.Keys && u in ApplyUpdate(start, request, order).value.0.routes
    ensures Returned(next, operation).routes[u] == ApplyUpdate(start, request, order).value.0.routes[u]
  {
    assert RoutesTargetEnabled(start);
    hide Invariant, EvacuatedFrom, ApplyUpdate, Returned, DesiredEnabled, Desired, RoutesTargetEnabled;
    PlainRoute(start, request, order, u);
    ReturnedRoute(start, next, operation, fallback, u);
    if fallback.None? {
      NoneEvacuated(start, operation);
    }
  }

  lemma NoneEvacuated(start: Catalog, operation: Operation)
    requires EvacuatedFrom(start, operation, None)
    ensures Settled(start, operation) == start
  {
    assert start.routes + map[] == start.routes;
  }

  // --------------------------------------------------------------- operation

  /** An update as a caller states it; absent fields keep the stored value. */
  datatype Request = Request(
    id: Id,
    newId: Option<Id>,
    email: Option<string>,
    mode: Option<ProxyMode>,
    proxyUrl: Option<string>,
    enabled: Option<bool>,
    isDefault: Option<bool>,
    fallback: Option<Id>,
    repair: bool)

  lemma AsideByEvacuation(start: Catalog, operation: Operation, fallback: Option<Id>, request: UpdateRequest)
    requires EvacuatedFrom(start, operation, fallback) && request.id == operation.account
    requires fallback.Some? ==> HasUsers(start.routes, operation.account)
    requires fallback.None? ==> !HasUsers(start.routes, operation.account)
    ensures request.id in Settled(start, operation).accounts && UsersAside(Settled(start, operation), request)
    ensures HasUsers(start.routes, operation.account) ==> operation.evacuated != map[]
  {
    hide EnabledOthers;
    if fallback.Some? {
      var u :| u in start.routes && start.routes[u] == operation.account;
      assert u in operation.evacuated;
    }
    UsersHaveMoved(start, operation, fallback);
  }

  lemma AsideByRepair(start: Catalog, operation: Operation, request: UpdateRequest)
    requires Invariant(start) && EvacuatedFrom(start, operation, None) && request.id == operation.account
    requires HasUsers(start.routes, operation.account) && request.newId == request.id && request.enabled.None?
    ensures request.id in Settled(start, operation).accounts && UsersAside(Settled(start, operation), request)
  {
    assert RoutesTargetEnabled(start);
    hide Invariant, ActiveUsers;
    NoneEvacuated(start, operation);
  }

  lemma NoClashOnSuccess(start: Catalog, operation: Operation, request: UpdateRequest, order: seq<Id>)
    requires ApplyUpdate(Settled(start, operation), request, order).Ok?
    requires request.id == operation.account && request.newId == operation.newAccount
    ensures !ClashesIn(start.accounts, operation)
  {
    UpdateShape(Settled(start, operation), request, order);
    hide ApplyUpdate;
  }

  lemma StartIsSafe(start: World, operation: Operation)
    requires Synced(start) && operation.account in start.catalog.accounts && operation.kind == UpdateAccount
    ensures OAuthSafe(start.tree, operation, OAuthAt(start.tree, operation.account))
  {
    hide Invariant, CanRender, ConfigsMatch, ContainersMatch;
    assert HasDirs(start.tree.dirs, operation.account);
  }

  /** What the operation's contract says of its end. */
  ghost predicate UpdateEnds(e: Ending, split: bool, w: World, start: World, change: UpdateRequest,
                             order: seq<Id>, proxy: Option<string>) {
    && (split ==>
          && e in {Undone, CutOff} && w == start.(tree := w.tree) && !Synced(w)
          && Scattered(w.tree.dirs, start.tree.dirs, change.id, change.newId))
    && (e.Undone? && !split ==> Restored(w, start))
    && (e.Succeeded? ==>
          && Synced(w) && Lists(order, start.catalog.accounts)
          && ApplyUpdate(start.catalog, change, order).Ok?
          && w.catalog == ApplyUpdate(start.catalog, change, order).value.0
          && w.secrets == AllWritten(start.secrets, DesiredSecrets(change.id, change.newId, proxy)))
  }

  /**
   * The accounts an update may disturb while requests are in flight: its own,
   * if no user was there to be moved away or its proxy is repaired in place;
   * an unused new ID that still has requests from an earlier account; and what
   * a late failure exposes.
   */
  ghost function Disturbed(c: Catalog, change: UpdateRequest, order: seq<Id>, repair: bool, busy: set<Id>, late: bool): set<Id> {
    var applied := ApplyUpdate(c, change, order);
    (if repair || !HasUsers(c.routes, change.id) then {change.id} * busy else {}) +
    (if change.newId in c.accounts then {} else {change.newId} * busy) +
    Exposed(late, if applied.Ok? then applied.value.0 else c, change.newId)
  }

  /** A requested fallback is always checked; otherwise one is needed to take over service or default. */
  predicate NeedsAnother(stored: Account, change: UpdateRequest, requested: Option<Id>) {
    requested.Some? || change.enabled == Some(false) || (stored.isDefault && change.isDefault == Some(false))
  }

  /** What is refused, and compensated, once the journal is open. */
  ghost predicate Plannable(c: Catalog, stated: UpdateRequest, requested: Option<Id>, repair: bool,
                            eligible: Option<set<Id>>, drainer: bool)
    requires stated.id in c.accounts
  {
    && (!repair ==> CanEvacuate(c, stated.id, requested, eligible, drainer))
    && ((!repair && HasUsers(c.routes, stated.id)) ||
        (TakesSuccessor(c, stated, requested, repair) ==> HasFallback(c.accounts, stated.id, requested, eligible)))
  }

  /** Another account is chosen to take over users, service or default, or because the caller names one. */
  ghost predicate TakesSuccessor(c: Catalog, stated: UpdateRequest, requested: Option<Id>, repair: bool)
    requires stated.id in c.accounts
  {
    || (!repair && HasUsers(c.routes, stated.id)) || requested.Some? || stated.enabled == Some(false)
    || (c.accounts[stated.id].isDefault && stated.isDefault == Some(false))
  }

  /** Whom the change names: the chosen account, exactly when one is taken. */
  ghost predicate NamesSuccessor(c: Catalog, change: UpdateRequest, requested: Option<Id>, repair: bool, eligible: Option<set<Id>>)
    requires change.id in c.accounts
  {
    if TakesSuccessor(c, change, requested, repair) then
      change.fallback.Some? && Chosen(c.accounts, change.id, requested, eligible, change.fallback.value)
    else change.fallback.None?
  }

  /** The fallback of the transaction: that of the evacuation, or one the change itself needs. */
  method EffectiveFallback(cp: ControlPlane, change: UpdateRequest, evacuation: Option<Id>,
                           requested: Option<Id>, eligible: Option<set<Id>>)
    returns (ok: bool, fallback: Option<Id>)
    requires change.id in cp.catalog.accounts
    ensures ok && evacuation.Some? ==> fallback == evacuation
    ensures ok ==> (fallback.Some? <==> evacuation.Some? || NeedsAnother(cp.catalog.accounts[change.id], change, requested))
    ensures fallback.Some? && evacuation.None? ==> Chosen(cp.catalog.accounts, change.id, requested, eligible, fallback.value)
    ensures ok <==> evacuation.Some? || (NeedsAnother(cp.catalog.accounts[change.id], change, requested) ==>
      HasFallback(cp.catalog.accounts, change.id, requested, eligible))
  {
    var stored := cp.catalog.accounts[change.id];
    ok, fallback := true, evacuation;
    if evacuation.None? && NeedsAnother(stored, change, requested) {
      fallback := SelectFallback(cp.catalog.accounts, change.id, requested, eligible);
      ok := fallback.Some?;
    }
  }

  /** From the accepted journal on; the journal is left for Finalize to clear. */
  method UpdateAccepted(cp: ControlPlane, accepted: Operation, stated: UpdateRequest,
                        requested: Option<Id>, repair: bool, plan: SecretPlan,
                        eligible: Option<set<Id>>, drainer: bool, ghost proxy: Option<string>)
    returns (e: Ending, ghost change: UpdateRequest, ghost order: seq<Id>, split: bool, ghost late: bool)
    requires Synced(cp.W()) && cp.journal == Some(accepted) && ValidOperation(accepted) && accepted.kind == UpdateAccount
    requires accepted.phase == Accepted && accepted.evacuated == map[] && accepted.account in cp.catalog.accounts
    requires stated.id == accepted.account && stated.newId == accepted.newAccount
    requires repair ==> HasUsers(cp.catalog.routes, stated.id) && stated.newId == stated.id && stated.enabled.None?
    requires plan.ready && plan.desired == DesiredSecrets(stated.id, stated.newId, proxy)
    requires plan.before == map id | id in plan.desired :: Get(cp.secrets, id)
    modifies cp.files, cp`containers, cp`monitor, cp`secrets, cp`catalog, cp`active, cp`journal
    ensures SameUsers(cp.catalog.rows, old(cp.catalog.rows))
    ensures cp.journal.Some? && Sound(cp.journal, cp.W()) && e in {Succeeded, Undone, Stuck, CutOff}
    ensures change == stated.(fallback := change.fallback) && UpdateEnds(e, split, cp.W(), old(cp.W()), change, order, proxy)
    ensures e.Succeeded? ==> NamesSuccessor(old(cp.catalog), change, requested, repair, eligible)
    ensures split ==> e.Undone?
    ensures OnlyHits(old(cp.monitor), cp.monitor, if e.Refused? then {} else
                       Disturbed(old(cp.catalog), change, order, repair, old(cp.monitor.busy), late))
    ensures late ==>
      && ApplyUpdate(old(cp.catalog), change, order).Ok?
      && Republished(old(cp.monitor), cp.monitor, cp.journal, e, ApplyUpdate(old(cp.catalog), change, order).value.0, change.newId)
    ensures OAuthSafe(cp.files.tree, accepted, OAuthAt(old(cp.files.tree), stated.id))
    ensures cp.files.calm && (stated.mode == Custom ==> proxy.Some?) && FreshId(old(cp.files.tree), accepted.id) ==>
      && !split && !late
      && e == if Plannable(old(cp.catalog), stated, requested, repair, eligible, drainer) && MayUpdate(old(cp.catalog).accounts, change)
              then Succeeded else Undone
  {
    hide SameUsers, Synced, Restored, OAuthSafe, OAuthAt, Sound, Watch, FreshId;
    hide ValidOperation, Evacuation, EnabledOthers, ApplyUpdate, Lists, AllWritten, DesiredSecrets, Invariant, PlannedFrom;
    UsersStay(cp.catalog.rows);
    ghost var start := cp.W();
    StartIsSafe(start, accepted);
    AcceptedIsSound(start, accepted);
    BackupsAside(start, start.tree);
    var ok, evacuated, evacuation := true, map[], None;
    if !repair {
      ok, evacuated, evacuation := PlanRoutes(cp, stated.id, requested, eligible);
    }
    var fallback: Option<Id> := None;
    if ok {
      ok, fallback := EffectiveFallback(cp, stated, evacuation, requested, eligible);
    }
    change, e, order, split, late := stated.(fallback := fallback), Undone, [], false, false;
    if ok {
      IsPlanned(start.catalog, accepted.(evacuated := evacuated), evacuation, change, repair);
      e, order, split, late := UpdatePlanned(cp, accepted, stated.(fallback := fallback), repair, plan, evacuated, drainer, proxy, evacuation);
    }
  }

  /** The evacuation that was planned: all users of the account, or none of them for a repair. */
  ghost predicate PlannedFrom(start: Catalog, operation: Operation, fallback: Option<Id>, change: UpdateRequest, repair: bool) {
    && operation.kind == UpdateAccount && operation.account in start.accounts
    && change.id == operation.account && change.newId == operation.newAccount
    && (fallback.Some? ==> change.fallback == fallback)
    && if repair then
         fallback.None? && operation.evacuated == map[] && HasUsers(start.routes, change.id) && change.newId == change.id && change.enabled.None?
       else if HasUsers(start.routes, change.id) then
         && fallback.Some? && fallback.value in EnabledOthers(start.accounts, change.id)
         && operation.evacuated == Evacuation(start.routes, change.id, fallback.value)
       else
         fallback.None? && operation.evacuated == map[]
  }

  lemma IsPlanned(start: Catalog, operation: Operation, fallback: Option<Id>, change: UpdateRequest, repair: bool)
    requires operation.kind == UpdateAccount && operation.account in start.accounts
    requires change.id == operation.account && change.newId == operation.newAccount && (fallback.Some? ==> change.fallback == fallback)
    requires repair ==>
      && fallback.None? && operation.evacuated == map[] && HasUsers(start.routes, change.id)
      && change.newId == change.id && change.enabled.None?
    requires !repair ==>
      && (fallback.Some? ==> fallback.value in EnabledOthers(start.accounts, change.id) && HasUsers(start.routes, change.id))
      && operation.evacuated == (if fallback.Some? then Evacuation(start.routes, change.id, fallback.value) else map[])
      && (fallback.None? ==> !HasUsers(start.routes, change.id))
    ensures PlannedFrom(start, operation, fallback, change, repair)
  {
    hide HasUsers, EnabledOthers, Evacuation;
  }

  /** The account goes out of service as planned, and then changes. */
  method UpdatePlanned(cp: ControlPlane, accepted: Operation, change: UpdateRequest, ghost repair: bool, plan: SecretPlan,
                       evacuated: map<User, Id>, drainer: bool, ghost proxy: Option<string>, ghost evacuation: Option<Id>)
    returns (e: Ending, ghost order: seq<Id>, split: bool, ghost late: bool)
    requires Synced(cp.W()) && cp.journal == Some(accepted) && ValidOperation(accepted)
    requires accepted.phase == Accepted && accepted.evacuated == map[]
    requires PlannedFrom(cp.catalog, accepted.(evacuated := evacuated), evacuation, change, repair)
    requires plan.ready && plan.desired == DesiredSecrets(change.id, change.newId, proxy)
    requires plan.before == map id | id in plan.desired :: Get(cp.secrets, id)
    modifies cp.files, cp`containers, cp`monitor, cp`secrets, cp`catalog, cp`active, cp`journal
    ensures SameUsers(cp.catalog.rows, old(cp.catalog.rows))
    ensures cp.journal.Some? && Sound(cp.journal, cp.W()) && e in {Succeeded, Undone, Stuck, CutOff}
    ensures UpdateEnds(e, split, cp.W(), old(cp.W()), change, order, proxy)
    ensures split ==> e.Undone?
    ensures OnlyHits(old(cp.monitor), cp.monitor, if e.Refused? then {} else
                       Disturbed(old(cp.catalog), change, order, repair, old(cp.monitor.busy), late))
    ensures late ==>
      && ApplyUpdate(old(cp.catalog), change, order).Ok?
      && Republished(old(cp.monitor), cp.monitor, cp.journal, e, ApplyUpdate(old(cp.catalog), change, order).value.0, change.newId)
    ensures OAuthSafe(cp.files.tree, accepted, OAuthAt(old(cp.files.tree), change.id))
    ensures cp.files.calm && (change.mode == Custom ==> proxy.Some?) && FreshId(old(cp.files.tree), accepted.id) ==>
      && !split && !late
      && e == if (drainer || repair || !HasUsers(old(cp.catalog).routes, change.id)) && MayUpdate(old(cp.catalog).accounts, change)
              then Succeeded else Undone
  {
    hide SameUsers, Synced, Restored, OAuthSafe, OAuthAt, Sound, Watch, FreshId, PlannedFrom;
    hide ValidOperation, Holds, Settled, ApplyUpdate, Lists, HasUsers;
    hide EvacuatedFrom, OnlyEvacuated, UsersAside, Returned, AllWritten, DesiredSecrets, ClashesIn, Invariant;
    UsersStay(cp.catalog.rows);
    ghost var start := cp.W();
    var operation := accepted.(evacuated := evacuated);
    StartKeys(start);
    PlannedFacts(start.catalog, operation, evacuation, change, repair);
    StartIsSafe(start, accepted);
    Named(accepted);
    NewNamed(accepted);
    BackupsAside(start, start.tree);
    SameRecord(accepted, operation);
    order, split, late := [], false, false;
    var end := Evacuate(cp, operation, drainer, evacuation);
    SameRows(cp.catalog, start.catalog, operation);
    if end.Some? {
      e := end.value;
    } else {
      ghost var moved := cp.monitor;
      OnlyOwnBusy(start.catalog, operation, evacuation, old(cp.monitor.busy), moved.busy);
      e, order, split, late := UpdateEvacuated(cp, operation, change, plan, proxy, start, evacuation);
      HitsTrans(old(cp.monitor), moved, cp.monitor, {}, OwnBusy(operation, start.catalog.accounts, moved.busy) +
                Exposed(late, EndOfDetour(start.catalog, operation, change, order), change.newId));
      if e.Succeeded? || late {
        NoClashOnSuccess(start.catalog, operation, change, order);
        EvacuationIsInvisible(start.catalog, operation, evacuation, change, order);
      }
    }
  }

  /** Evacuating leaves no account of the operation busy that was not, and its own only if nobody was there to move. */
  lemma OnlyOwnBusy(start: Catalog, operation: Operation, fallback: Option<Id>, before: set<Id>, busy: set<Id>)
    requires Invariant(start) && EvacuatedFrom(start, operation, fallback)
    requires busy <= before + Settled(start, operation).routes.Values
    requires operation.evacuated != map[] ==> operation.account !in busy
    requires operation.evacuated == map[] ==> busy == before
    ensures OwnBusy(operation, start.accounts, busy) <=
      (if operation.evacuated == map[] then {operation.account} * before else {}) +
      (if operation.newAccount in start.accounts then {} else {operation.newAccount} * before)
  {
    EvacuationIsInvariant(start, operation, fallback);
    SettledRows(start, operation);
    if operation.newAccount !in start.accounts {
      UnroutedAccount(Settled(start, operation), operation.newAccount);
    }
    hide Invariant, EvacuatedFrom, Settled;
  }

  lemma NewNamed(operation: Operation)
    requires ValidOperation(operation) && operation.kind == UpdateAccount
    ensures operation.newAccount != ""
  {
    hide IdLetter;
  }

  lemma PlannedFacts(start: Catalog, operation: Operation, fallback: Option<Id>, change: UpdateRequest, repair: bool)
    requires Invariant(start) && PlannedFrom(start, operation, fallback, change, repair)
    ensures EvacuatedFrom(start, operation, fallback) && operation.kind == UpdateAccount && operation.account in start.accounts
    ensures change.id == operation.account && change.newId == operation.newAccount && (fallback.Some? ==> change.fallback == fallback)
    ensures change.id in Settled(start, operation).accounts && UsersAside(Settled(start, operation), change)
    ensures operation.evacuated == map[] <==> repair || !HasUsers(start.routes, operation.account)
  {
    assert EvacuatedFrom(start, operation, fallback);
    EvacueesOf(start.routes, operation.account, fallback);
    hide EvacuatedFrom, Invariant, UsersAside, Settled, Evacuation, EnabledOthers;
    if repair {
      AsideByRepair(start, operation, change);
    } else {
      AsideByEvacuation(start, operation, fallback, change);
    }
  }

  // ---------------------------------------------------------------- admission

  /** The proxy the account is to have: as requested, or as stored. */
  function ProxyOf(secrets: map<Id, string>, account: Id, requested: Option<string>): Option<string> {
    if requested.None? then Get(secrets, account) else if requested.value == "" then None else requested
  }

  /** The stored and the requested proxy are usable, and nothing stale is in the way of a rename. */
  ghost predicate ProxyPlannable(secrets: map<Id, string>, account: Id, newAccount: Id, requested: Option<string>, valid: string -> bool) {
    && (account in secrets ==> valid(secrets[account]))
    && (requested.Some? && requested.value != "" ==> valid(requested.value))
    && (newAccount == account || newAccount !in secrets)
  }

  /** The secrets the update will write, captured before the journal is opened; null if the update is refused. */
  method UpdateProxyPlan(cp: ControlPlane, account: Id, newAccount: Id, requested: Option<string>)
    returns (plan: SecretPlan?, proxy: Option<string>)
    ensures plan != null ==>
      && fresh(plan) && plan.ready && plan.desired == DesiredSecrets(account, newAccount, proxy)
      && plan.before == (map id | id in plan.desired :: Get(cp.secrets, id))
      && (account != newAccount ==> newAccount !in cp.secrets)
    ensures cp.files.calm ==> (plan != null <==> ProxyPlannable(cp.secrets, account, newAccount, requested, cp.validProxy))
    ensures proxy == ProxyOf(cp.secrets, account, requested)
  {
    plan, proxy := null, Get(cp.secrets, account);
    var valid := account in cp.secrets ==> cp.validProxy(cp.secrets[account]);
    if requested.Some? {
      proxy := if requested.value == "" then None else requested;
      valid := valid && (requested.value != "" ==> cp.validProxy(requested.value));
    }
    if valid && (newAccount == account || newAccount !in cp.secrets) {
      var captured := new SecretPlan(DesiredSecrets(account, newAccount, proxy));
      var o := captured.Capture(cp);
      if o.Done? {
        plan := captured;
      }
    }
  }

  /** The one update that may rebuild a routed account in place. */
  predicate RepairAllowed(c: Catalog, request: Request, newId: Id, email: string, mode: ProxyMode,
                          proxy: Option<string>, states: Option<map<Id, AccountState>>)
    requires request.id in c.accounts
  {
    && request.proxyUrl.Some? && mode == Custom && proxy.Some?
    && newId == request.id && email == c.accounts[request.id].email
    && request.enabled.None? && request.isDefault.None? && request.fallback.None?
    && states.Some?
    && (exists u :: u in c.routes && c.routes[u] == request.id)
    && request.id in states.value && !states.value[request.id].eligible
    && forall a :: a in states.value && a != request.id ==> !(states.value[a].eligible && states.value[a].headroom > 0)
  }

  /** Absent fields filled in; a default account that is disabled gives up its default. */
  function Stated(stored: Account, request: Request): UpdateRequest {
    UpdateRequest(
      request.id,
      if request.newId.Some? then request.newId.value else request.id,
      if request.email.Some? then request.email.value else stored.email,
      if request.mode.Some? then request.mode.value else stored.mode,
      request.enabled,
      if request.enabled == Some(false) && stored.isDefault && request.isDefault.None? then Some(false) else request.isDefault,
      None)
  }

  /** What is stated, or else what is stored; a default account that is disabled gives up its default. */
  ghost function StatedAs(stored: Account, request: Request, fallback: Option<Id>): UpdateRequest {
    UpdateRequest(request.id, Wanted(request.newId, request.id), Wanted(request.email, stored.email), Wanted(request.mode, stored.mode),
                  request.enabled,
                  if stored.isDefault && request.enabled == Some(false) && request.isDefault.None? then Some(false) else request.isDefault,
                  fallback)
  }

  /** The account's proxy is as stated or else as before, under its new ID alone; no other secret changes. */
  ghost predicate SecretsAre(secrets: map<Id, string>, before: map<Id, string>, id: Id, newId: Id, proxyUrl: Option<string>) {
    && Get(secrets, newId) ==
         (if proxyUrl.None? then Get(before, id) else if proxyUrl.value == "" then None else proxyUrl)
    && (newId != id ==> id !in secrets)
    && forall a :: a != id && a != newId ==> SameAt(secrets, before, a)
  }

  lemma SecretsWritten(secrets: map<Id, string>, before: map<Id, string>, id: Id, newId: Id, proxyUrl: Option<string>)
    requires secrets == AllWritten(before, DesiredSecrets(id, newId, ProxyOf(before, id, proxyUrl)))
    ensures SecretsAre(secrets, before, id, newId, proxyUrl)
  {
  }

  /** What is refused before the journal is opened. */
  ghost predicate Admissible(request: Request, c: Catalog, secrets: map<Id, string>, valid: string -> bool,
                             states: Option<map<Id, AccountState>>)
  {
    && ValidId(request.id) && request.id in c.accounts
    && var stated := Stated(c.accounts[request.id], request);
    var proxy := ProxyOf(secrets, request.id, request.proxyUrl);
    && ValidId(stated.newId) && ProxyPlannable(secrets, request.id, stated.newId, request.proxyUrl, valid)
    && (stated.mode == Custom ==> proxy.Some?)
    && (request.repair ==> RepairAllowed(c, request, stated.newId, stated.email, stated.mode, proxy, states))
  }

  /**
   * `split` reports directories that a failed preparation left behind with the
   * journal cleared; `late` that only the last journal write failed, after the
   * new snapshot was active.
   */
  method Update(cp: ControlPlane, request: Request, operationId: string, states: Option<map<Id, AccountState>>, drainer: bool)
    returns (e: Ending, ghost change: UpdateRequest, ghost order: seq<Id>, ghost proxy: Option<string>, split: bool, ghost late: bool)
    requires Sound(cp.journal, cp.W())
    modifies cp, cp.files
    ensures SameUsers(cp.catalog.rows, old(cp.catalog.rows))
    ensures split <==> !Sound(cp.journal, cp.W())
    ensures old(cp.journal).Some? ==> e.Refused?
    ensures e.Refused? ==> cp.journal == old(cp.journal) && cp.W() == old(cp.W())
    ensures e.Stuck? ==> cp.journal.Some?
    ensures e in {Undone, Succeeded} ==> cp.journal.None?
    ensures UpdateEnds(e, split, cp.W(), old(cp.W()), change, order, proxy)
    ensures !e.Refused? ==>
      && request.id in old(cp.catalog).accounts
      && change == StatedAs(old(cp.catalog).accounts[request.id], request, change.fallback)
      && proxy == ProxyOf(old(cp.secrets), request.id, request.proxyUrl)
    ensures e.Succeeded? ==>
      && NamesSuccessor(old(cp.catalog), change, request.fallback, request.repair, Eligible(states))
      && SecretsAre(cp.secrets, old(cp.secrets), request.id, change.newId, request.proxyUrl)
    ensures OnlyHits(old(cp.monitor), cp.monitor, if e.Refused? then {} else
                       Disturbed(old(cp.catalog), change, order, request.repair, old(cp.monitor.busy), late))
    ensures late ==>
      && ApplyUpdate(old(cp.catalog), change, order).Ok?
      && Republished(old(cp.monitor), cp.monitor, cp.journal, e, ApplyUpdate(old(cp.catalog), change, order).value.0, change.newId)
    ensures !e.Refused? ==>
      OAuthHeld(cp.files.tree, request.id, change.newId,
                BackupKey(operationId, request.id, RenamedTo(change.newId)), OAuthAt(old(cp.files.tree), request.id))
    ensures cp.files.calm && old(cp.journal).None? && FreshId(old(cp.files.tree), operationId) ==>
      if !Admissible(request, old(cp.catalog), old(cp.secrets), cp.validProxy, states) then e.Refused?
      else
        var stated := Stated(old(cp.catalog).accounts[request.id], request);
        !split && !late &&
        e == if Plannable(old(cp.catalog), stated, request.fallback, request.repair, Eligible(states), drainer) &&
                MayUpdate(old(cp.catalog).accounts, change) then Succeeded else Undone
  {
    hide SameUsers, Sound, ValidId, Synced, Restored, ApplyUpdate, Lists;
    hide AllWritten, OAuthHeld, OAuthAt, Watch, HasUsers, DesiredSecrets, SecretsAre, MayUpdate, OnlyHits, Disturbed;
    HitsNone(cp.monitor);
    UsersStay(cp.catalog.rows);
    e, change, order, proxy, split, late := Refused, UpdateRequest("", "", "", Inherit, None, None, None), [], None, false, false;
    if ValidId(request.id) && request.id in cp.catalog.accounts {
      var stated := Stated(cp.catalog.accounts[request.id], request);
      var plan, desired := UpdateProxyPlan(cp, stated.id, stated.newId, request.proxyUrl);
      if plan != null && ValidId(stated.newId) && (stated.mode == Custom ==> desired.Some?) &&
        (request.repair ==> RepairAllowed(cp.catalog, request, stated.newId, stated.email, stated.mode, desired, states)) {
        RepairIsRouted(cp.catalog, request, stated, desired, states);
        proxy := desired;
        e, change, order, split, late :=
          UpdateJournaled(cp, stated, request.fallback, request.repair, plan, operationId, Eligible(states), drainer, desired);
        if e.Succeeded? { SecretsWritten(cp.secrets, old(cp.secrets), stated.id, stated.newId, request.proxyUrl); }
      }
    }
  }

  predicate WellStated(stated: UpdateRequest, proxy: Option<string>) {
    ValidId(stated.id) && ValidId(stated.newId) && (stated.mode == Custom ==> proxy.Some?)
  }

  lemma NamedUpdateIsValid(operation: Operation)
    requires operation.kind == UpdateAccount && ValidId(operation.account) && ValidId(operation.newAccount)
    ensures ValidOperation(operation)
  {
    hide ValidId;
  }

  lemma RepairIsRouted(c: Catalog, request: Request, stated: UpdateRequest, proxy: Option<string>,
                       states: Option<map<Id, AccountState>>)
    requires request.id in c.accounts && stated == Stated(c.accounts[request.id], request)
    requires request.repair ==> RepairAllowed(c, request, stated.newId, stated.email, stated.mode, proxy, states)
    ensures request.repair ==> HasUsers(c.routes, stated.id) && stated.newId == stated.id && stated.enabled.None?
  {
  }

  method UpdateJournaled(cp: ControlPlane, stated: UpdateRequest, requested: Option<Id>, repair: bool, plan: SecretPlan,
                         operationId: string, eligible: Option<set<Id>>, drainer: bool, ghost proxy: Option<string>)
    returns (e: Ending, ghost change: UpdateRequest, ghost order: seq<Id>, split: bool, ghost late: bool)
    requires Sound(cp.journal, cp.W()) && stated.id in cp.catalog.accounts
    requires repair ==> HasUsers(cp.catalog.routes, stated.id) && stated.newId == stated.id && stated.enabled.None?
    requires plan.ready && plan.desired == DesiredSecrets(stated.id, stated.newId, proxy)
    requires plan.before == map id | id in plan.desired :: Get(cp.secrets, id)
    modifies cp, cp.files
    ensures SameUsers(cp.catalog.rows, old(cp.catalog.rows))
    ensures split <==> !Sound(cp.journal, cp.W())
    ensures old(cp.journal).Some? ==> e.Refused?
    ensures e.Refused? ==> cp.journal == old(cp.journal) && cp.W() == old(cp.W())
    ensures e.Stuck? ==> cp.journal.Some?
    ensures e in {Undone, Succeeded} ==> cp.journal.None?
    ensures change == stated.(fallback := change.fallback) && UpdateEnds(e, split, cp.W(), old(cp.W()), change, order, proxy)
    ensures e.Succeeded? ==> NamesSuccessor(old(cp.catalog), change, requested, repair, eligible)
    ensures OnlyHits(old(cp.monitor), cp.monitor, if e.Refused? then {} else
                       Disturbed(old(cp.catalog), change, order, repair, old(cp.monitor.busy), late))
    ensures late ==>
      && ApplyUpdate(old(cp.catalog), change, order).Ok?
      && Republished(old(cp.monitor), cp.monitor, cp.journal, e, ApplyUpdate(old(cp.catalog), change, order).value.0, change.newId)
    ensures !e.Refused? ==>
      OAuthHeld(cp.files.tree, stated.id, stated.newId,
                BackupKey(operationId, stated.id, RenamedTo(stated.newId)), OAuthAt(old(cp.files.tree), stated.id))
    ensures cp.files.calm && old(cp.journal).None? && WellStated(stated, proxy) && FreshId(old(cp.files.tree), operationId) ==>
      && !split && !late
      && e == if Plannable(old(cp.catalog), stated, requested, repair, eligible, drainer) && MayUpdate(old(cp.catalog).accounts, change)
              then Succeeded else Undone
  {
    hide SameUsers, Recoverable, Synced, ValidOperation, ApplyUpdate, Lists;
    hide AllWritten, OAuthHeld, OAuthAt, Watch, HasUsers, DesiredSecrets;
    hide OnlyHits, Reports, Took, Disturbed, Plannable, Scattered, FreshId;
    HitsNone(cp.monitor);
    UsersStay(cp.catalog.rows);
    e, change, order, split, late := Refused, stated, [], false, false;
    ghost var start := cp.W();
    if ValidId(stated.id) && ValidId(stated.newId) {
      NamedUpdateIsValid(Operation(operationId, UpdateAccount, Accepted, stated.id, stated.newId, map[]));
    }
    var o, operation := Begin(cp, UpdateAccount, stated.id, stated.newId, operationId);
    if cp.journal != old(cp.journal) {
      AcceptedIsSound(start, operation);
    }
    if o.Crashed? {
      e := CutOff;
      StartIsSafe(start, operation);
    } else if o.Done? {
      e, change, order, split, late := UpdateAccepted(cp, operation, stated, requested, repair, plan, eligible, drainer, proxy);
      e := Finalize(cp, e);
      split := split && cp.journal.None?;
    }
  }
}
