/**
 * Recovery after a crash: the journaled operation is reconciled to whatever
 * the control plane's rows say, and may itself be cut off at any step and run
 * again.
 */
module Recovery {
  import opened Wrappers
  import opened Catalog
  import opened Journal
  import opened Routes
  import opened Files
  import opened Traffic
  import opened World
  import opened ControlPlane
  import opened RecoveryLaws

  // ------------------------------------------------------- what may stop it

  /** The proxy secrets that recovery leaves for the rows as they are: none at an ID that lost its account. */
  function RecoveredSecrets(accounts: map<Id, Account>, secrets: map<Id, string>, operation: Operation): map<Id, string> {
    var desired := Desired(accounts, operation);
    var a, n := operation.account, operation.newAccount;
    match operation.kind
    case DeleteAccount => if desired.None? then secrets - {a} else secrets
    case CreateAccount => if desired.None? then secrets - {a} else secrets
    case UpdateAccount =>
      if desired.None? || n == a then secrets
      else if desired.value == a then secrets - {n}
      else if n !in secrets && a in secrets then secrets[n := secrets[a]] - {a}
      else secrets - {a}
    case _ => secrets
  }

  /**
   * A committed rename has its secret at the new ID alone, what was at the new
   * ID winning; an ID without an account has none; everything else stays.
   */
  lemma RecoveredSecretsAre(accounts: map<Id, Account>, secrets: map<Id, string>, operation: Operation)
    ensures
      var a, n := operation.account, operation.newAccount;
      var after := RecoveredSecrets(accounts, secrets, operation);
      && (forall id :: id != a && (id != n || operation.kind != UpdateAccount) ==> SameAt(after, secrets, id))
      && (operation.kind in {CreateAccount, DeleteAccount} ==>
            if a in accounts then SameAt(after, secrets, a) else a !in after)
      && (operation.kind == UpdateAccount && n != a && n in accounts ==>
            a !in after && Get(after, n) == if n in secrets then Get(secrets, n) else Get(secrets, a))
      && (operation.kind == UpdateAccount && n != a && n !in accounts && a in accounts ==>
            n !in after && SameAt(after, secrets, a))
      && ((operation.kind == UpdateAccount && n == a) || operation.kind == ClearAccountAuth ==> after == secrets)
  {
  }

  /**
   * Recovery looks at the secret a custom account ends up with, unless a rename
   * was not committed; and it passes when every stored one is usable.
   */
  lemma PassedIsUsable(accounts: map<Id, Account>, secrets: map<Id, string>, operation: Operation, valid: string -> bool)
    ensures
      var a, n := operation.account, operation.newAccount;
      var home := if operation.kind == UpdateAccount && n in accounts then n else a;
      var after := RecoveredSecrets(accounts, secrets, operation);
      && (SecretsPass(accounts, secrets, operation, valid) && home in accounts && accounts[home].mode == Custom ==>
            operation.kind == CreateAccount || (operation.kind == UpdateAccount && (n == a || home == n)) ==>
            home in after && valid(after[home]))
      && ((forall id :: id in secrets ==> valid(secrets[id])) && (home in accounts && accounts[home].mode == Custom ==> home in after) ==>
            SecretsPass(accounts, secrets, operation, valid))
  {
  }

  predicate Usable(mode: ProxyMode, secrets: map<Id, string>, id: Id, valid: string -> bool) {
    mode == Custom ==> id in secrets && valid(secrets[id])
  }

  /** The secrets that recovery looks at are usable; a new ID may still find its secret at the old one. */
  predicate SecretsPass(accounts: map<Id, Account>, secrets: map<Id, string>, operation: Operation, valid: string -> bool) {
    var desired := Desired(accounts, operation);
    var a, n := operation.account, operation.newAccount;
    desired.Some? ==>
      match operation.kind
      case CreateAccount => Usable(accounts[a].mode, secrets, a, valid)
      case UpdateAccount =>
        if desired.value == a then n == a ==> Usable(accounts[a].mode, secrets, a, valid)
        else if n in secrets then valid(secrets[n])
        else if a in secrets then valid(secrets[a])
        else accounts[n].mode != Custom
      case _ => true
  }

  /** Nothing but routes and directories can differ, so no secret is looked at. */
  ghost predicate EarlyPhase(w: World, operation: Operation) {
    || operation.kind == ChangePolicy
    || (operation.phase == Accepted && !CreatesExisting(w, operation))
    || operation.phase == RoutesPrepared
  }

  /** When nothing outside fails, recovery finishes if and only if this holds. */
  ghost predicate CanRecover(w: World, operation: Operation, valid: string -> bool) {
    var accounts := w.catalog.accounts;
    && !Clashes(w, operation)
    && (EarlyPhase(w, operation) ||
        (SecretsPass(accounts, w.secrets, operation, valid) && CanRender(w.catalog, RecoveredSecrets(accounts, w.secrets, operation))))
  }

  /**
   * The accounts recovery may disturb while requests are in flight: its own,
   * unless it is still early, stops at a clash or has drained a deletion.
   */
  ghost function Disturbed(w: World, operation: Operation, busy: set<Id>): set<Id> {
    if EarlyPhase(w, operation) || Clashes(w, operation) then {}
    else if operation.kind == DeleteAccount && operation.account !in w.catalog.accounts then {}
    else OwnedIds(operation) * busy
  }

  // ------------------------------------------------------------ proxy secrets

  /** Fails closed when a custom proxy is missing or unusable. */
  method RequireCustomProxy(cp: ControlPlane, account: Account, id: Id) returns (o: Outcome)
    ensures o.Done? ==> Usable(account.mode, cp.secrets, id, cp.validProxy)
    ensures !o.Crashed?
    ensures Usable(account.mode, cp.secrets, id, cp.validProxy) ==> o.Done?
  {
    if account.mode != Custom {
      o := Done;
    } else if id in cp.secrets && cp.validProxy(cp.secrets[id]) {
      o := Done;
    } else {
      o := Failed;
    }
  }

  method MoveProxySecret(cp: ControlPlane, oldId: Id, newId: Id) returns (o: Outcome)
    requires oldId != newId && newId in cp.catalog.accounts
    modifies cp`secrets
    ensures forall id :: id != oldId && id != newId ==> SameAt(cp.secrets, old(cp.secrets), id)
    ensures o.Done? ==> oldId !in cp.secrets
    ensures o.Done? ==> Get(cp.secrets, newId) == Get(old(cp.secrets), if newId in old(cp.secrets) then newId else oldId)
    ensures
      var secrets := old(cp.secrets);
      var usable := if newId in secrets then cp.validProxy(secrets[newId])
                    else if oldId in secrets then cp.validProxy(secrets[oldId])
                    else cp.catalog.accounts[newId].mode != Custom;
      (o.Done? ==> usable) && (cp.files.calm && usable ==> o.Done?)
  {
    if newId in cp.secrets {
      o := Failed;
      if cp.validProxy(cp.secrets[newId]) {
        o := cp.WriteSecret(oldId, None);
      }
    } else if oldId in cp.secrets {
      o := Failed;
      if cp.validProxy(cp.secrets[oldId]) {
        o := cp.WriteSecret(newId, Some(cp.secrets[oldId]));
      }
      if o.Done? {
        o := cp.WriteSecret(oldId, None);
      }
    } else {
      o := RequireCustomProxy(cp, cp.catalog.accounts[newId], newId);
    }
  }

  method RecoverProxySecrets(cp: ControlPlane, operation: Operation, desired: Option<Id>) returns (o: Outcome)
    requires operation.kind != ChangePolicy && desired == Desired(cp.catalog.accounts, operation)
    modifies cp`secrets
    ensures forall id :: id !in OwnedIds(operation) ==> SameAt(cp.secrets, old(cp.secrets), id)
    ensures o.Done? ==>
      && SecretsPass(cp.catalog.accounts, old(cp.secrets), operation, cp.validProxy)
      && cp.secrets == RecoveredSecrets(cp.catalog.accounts, old(cp.secrets), operation)
    ensures cp.files.calm && SecretsPass(cp.catalog.accounts, old(cp.secrets), operation, cp.validProxy) ==> o.Done?
  {
    ghost var before := cp.secrets;
    var a, n := operation.account, operation.newAccount;
    o := Done;
    match operation.kind {
      case DeleteAccount =>
        if desired.None? {
          o := cp.WriteSecret(a, None);
        }
      case UpdateAccount =>
        if desired.Some? {
          if desired.value == a && n != a {
            o := cp.WriteSecret(n, None);
          } else if desired.value == a {
            o := RequireCustomProxy(cp, cp.catalog.accounts[a], a);
          } else {
            o := MoveProxySecret(cp, a, n);
          }
        }
      case CreateAccount =>
        if desired.Some? {
          o := RequireCustomProxy(cp, cp.catalog.accounts[a], a);
        } else {
          o := cp.WriteSecret(a, None);
        }
      case ClearAccountAuth =>
    }
    if operation.kind == UpdateAccount && desired == Some(n) && n != a && o.Done? {
      SecretMoved(cp.secrets, before, a, n);
    }
  }

  lemma SecretMoved(secrets: map<Id, string>, before: map<Id, string>, a: Id, n: Id)
    requires a != n && a !in secrets && Get(secrets, n) == Get(before, if n in before then n else a)
    requires forall id :: id != a && id != n ==> SameAt(secrets, before, id)
    ensures secrets == if n !in before && a in before then before[n := before[a]] - {a} else before - {a}
  {
    var moved := if n !in before && a in before then before[n := before[a]] - {a} else before - {a};
    forall id
      ensures SameAt(secrets, moved, id)
    {
      if id != a && id != n {
        assert SameAt(secrets, before, id);
      }
    }
    assert forall id :: id in secrets ==> SameAt(secrets, moved, id);
    assert forall id :: id in moved ==> SameAt(secrets, moved, id);
  }

  // ------------------------------------------------------------------ routes

  /** Puts the evacuated users back on the desired account, all or none. */
  method RecoverEvacuatedRoutes(cp: ControlPlane, operation: Operation, desired: Option<Id>) returns (o: Outcome)
    requires desired == Desired(cp.catalog.accounts, operation) && "" !in cp.catalog.accounts
    modifies cp`catalog
    ensures cp.catalog == old(cp.catalog) || cp.catalog == Returned(old(cp.catalog), operation)
    ensures o.Done? ==> cp.catalog == Returned(old(cp.catalog), operation) && UsersHome(cp.catalog, old(cp.catalog), operation)
    ensures cp.files.calm && EvacuatedRoutes(old(cp.catalog), operation) ==> o.Done?
  {
    ReturnedAreHome(cp.catalog, operation);
    if desired.None? || !cp.catalog.accounts[desired.value].enabled {
      return Done;
    }
    var ok, assignments, expected :=
      PlanReturn(cp.catalog.routes, operation.evacuated, desired.value, {operation.account, operation.newAccount});
    if !ok {
      o := Failed;
    } else if assignments == map[] {
      o := Done;
    } else {
      o := cp.ApplyRoutes(assignments, expected);
    }
  }

  // ---------------------------------------------------------------- branches

  /** Rows and routes of a policy change commit together; only the copies lag. */
  method RecoverPolicy(cp: ControlPlane) returns (o: Outcome)
    requires PolicyPart(cp.W())
    modifies cp.files, cp`active, cp`monitor
    ensures PolicyPart(cp.W()) && cp.files.tree == old(cp.files.tree).(config := cp.files.tree.config)
    ensures o.Done? ==> Synced(cp.W())
    ensures OnlyHits(old(cp.monitor), cp.monitor, {})
    ensures cp.files.calm ==> o.Done?
  {
    hide Watch, Invariant, CanRender, ConfigOf, ContainersMatch, DirsMatch;
    o := cp.Render();
    assert cp.files.tree.config.Keys == old(cp.files.tree).config.Keys;
    assert o.Done? ==> cp.files.tree.config == Rendered(cp.catalog, cp.secrets);
    assert o.Done? ==> ConfigsMatch(cp.files.tree.config, cp.catalog, cp.secrets);
    if o.Done? {
      o := cp.Publish();
    }
  }

  /** Nothing but the directories of a creation can be left over. */
  method RecoverAccepted(cp: ControlPlane, operation: Operation) returns (o: Outcome)
    requires ValidOperation(operation) && operation.kind != ChangePolicy && JustAccepted(cp.W(), operation)
    modifies cp.files
    ensures JustAccepted(cp.W(), operation) && cp.files.tree.backups == old(cp.files.tree).backups
    ensures operation.kind != CreateAccount ==> cp.files.tree == old(cp.files.tree)
    ensures o.Done? ==> Synced(cp.W())
    ensures cp.files.calm ==> o.Done?
  {
    hide Synced, Watch, ValidId;
    o := Done;
    if operation.kind == CreateAccount {
      ghost var w := cp.W();
      o := cp.files.Recover(operation, None);
      AcceptedCreation(w, cp.files.tree, operation);
      hide JustAccepted;
    }
  }

  /** Only evacuated routes and the snapshot can differ. */
  method RecoverRouted(cp: ControlPlane, operation: Operation) returns (o: Outcome)
    requires ValidOperation(operation) && OnlyRoutesMoved(cp.W(), operation)
    modifies cp`catalog, cp`active, cp`monitor
    ensures OnlyRoutesMoved(cp.W(), operation)
    ensures cp.catalog in {old(cp.catalog), Returned(old(cp.catalog), operation)}
    ensures o.Done? ==> cp.catalog == Returned(old(cp.catalog), operation) && Synced(cp.W())
    ensures OnlyHits(old(cp.monitor), cp.monitor, {})
    ensures cp.files.calm ==> o.Done?
  {
    hide Watch, SyncedAccounts, Invariant;
    ghost var w := cp.W();
    NoEmptyId(cp.catalog, operation);
    ReturnedIsInvariant(cp.catalog, operation);
    hide CatalogPart, ValidId;
    o := RecoverEvacuatedRoutes(cp, operation, Desired(cp.catalog.accounts, operation));
    assert cp.catalog == w.catalog.(routes := cp.catalog.routes);
    if o.Done? {
      o := cp.Publish();
    }
    RoutesLeaveAccounts(w, cp.catalog.routes, cp.active);
    assert cp.W() == w.(catalog := w.catalog.(routes := cp.catalog.routes), active := cp.active);
    hide Returned;
  }

  lemma NoEmptyId(c: Catalog, operation: Operation)
    requires CatalogPart(c, operation)
    ensures "" !in c.accounts
  {
    assert ValidIds(Settled(c, operation).accounts);
    hide UniqueColumns, UniquePositions, OneDefault, RoutesTargetEnabled, UnifiedKeys;
    assert !ValidId("");
  }

  /**
   * A committed deletion or an uncommitted creation: the stale route goes first,
   * a deletion drains, then container and files are removed.
   */
  method RecoverRemoved(cp: ControlPlane, operation: Operation) returns (o: Outcome)
    requires ValidOperation(operation) && operation.kind in {CreateAccount, DeleteAccount}
    requires Interrupted(cp.W(), operation) && operation.account !in cp.catalog.accounts
    requires cp.secrets.Keys <= cp.catalog.accounts.Keys
    modifies cp.files, cp`containers, cp`active, cp`monitor
    ensures Interrupted(cp.W(), operation) && KeepsSafe(cp.files.tree, old(cp.files.tree), operation)
    ensures o.Done? ==> Synced(cp.W())
    ensures OnlyHits(old(cp.monitor), cp.monitor, if operation.kind == DeleteAccount then {} else {operation.account} * old(cp.monitor.busy))
    ensures cp.files.calm && CanRender(cp.catalog, cp.secrets) ==> o.Done?
  {
    hide Watch, CatalogPart, TreePart, ContainerPart, SecretPart, ValidId, Invariant, Synced, CanRender, Rendered, KeepsSafe, OnlyHits;
    HitsNone(cp.monitor);
    NothingToReturn(cp.catalog, operation);
    UnroutedAccount(cp.catalog, operation.account);
    ghost var start := cp.files.tree;
    o := RenderCurrent(cp, operation);
    ghost var rendered := cp.files.tree;
    if o.Done? {
      o := Unroute(cp, operation);
      HitsTrans(old(cp.monitor), old(cp.monitor), cp.monitor, {}, {});
    }
    if o.Done? {
      ghost var watched := cp.monitor;
      o := RemoveAccount(cp, operation, start);
      HitsTrans(old(cp.monitor), watched, cp.monitor, {}, {operation.account} * watched.busy);
      SafeTrans(cp.files.tree, rendered, start, operation);
    }
  }

  /** The snapshot without the account, and the drain of a deleted one. */
  method Unroute(cp: ControlPlane, operation: Operation) returns (o: Outcome)
    requires operation.account !in cp.catalog.routes.Values
    modifies cp`active, cp`monitor
    ensures cp.active in {old(cp.active), cp.catalog.routes}
    ensures o.Done? ==> cp.active == cp.catalog.routes
    ensures o.Done? ==>
      {operation.account} * cp.monitor.busy <= if operation.kind == DeleteAccount then {} else {operation.account} * old(cp.monitor.busy)
    ensures OnlyHits(old(cp.monitor), cp.monitor, {})
    ensures cp.files.calm ==> o.Done?
  {
    hide Watch;
    o := cp.Publish();
    if o.Done? && operation.kind == DeleteAccount {
      o := cp.WaitDrained(operation.account);
    }
  }

  /** Renders while the operation is under way. */
  method RenderCurrent(cp: ControlPlane, operation: Operation) returns (o: Outcome)
    requires Interrupted(cp.W(), operation)
    modifies cp.files
    ensures Interrupted(cp.W(), operation) && KeepsSafe(cp.files.tree, old(cp.files.tree), operation)
    ensures cp.files.tree == old(cp.files.tree).(config := cp.files.tree.config)
    ensures o.Done? ==> CanRender(cp.catalog, cp.secrets)
    ensures o.Done? ==> cp.files.tree.config == old(cp.files.tree).config + Rendered(cp.catalog, cp.secrets)
    ensures cp.files.calm && CanRender(cp.catalog, cp.secrets) ==> o.Done?
  {
    hide Watch, CatalogPart, ContainerPart, SecretPart, TreePart, KeepsSafe, Rendered, ConfigOf, CanRender;
    o := cp.Render();
    RenderKeepsTree(cp.files.tree, old(cp.files.tree), cp.catalog.accounts, operation);
    ConfigOnlyIsSafe(cp.files.tree, old(cp.files.tree), operation);
  }

  /** Container and files of an account whose row and routes are gone. */
  method RemoveAccount(cp: ControlPlane, operation: Operation, ghost start: Tree) returns (o: Outcome)
    requires ValidOperation(operation) && operation.kind in {CreateAccount, DeleteAccount}
    requires Interrupted(cp.W(), operation) && operation.account !in cp.catalog.accounts
    requires cp.secrets.Keys <= cp.catalog.accounts.Keys
    requires Invariant(cp.catalog) && cp.active == cp.catalog.routes && CanRender(cp.catalog, cp.secrets)
    requires cp.files.tree.config == start.config + Rendered(cp.catalog, cp.secrets)
    requires operation.kind == DeleteAccount ==> operation.account !in cp.monitor.busy
    modifies cp.files, cp`containers, cp`monitor
    ensures Interrupted(cp.W(), operation) && KeepsSafe(cp.files.tree, old(cp.files.tree), operation)
    ensures o.Done? ==> Synced(cp.W())
    ensures OnlyHits(old(cp.monitor), cp.monitor, {operation.account} * old(cp.monitor.busy))
    ensures cp.files.calm ==> o.Done?
  {
    hide Watch, CatalogPart, SecretPart, Invariant, Rendered, ConfigOf, CanRender, IdLetter;
    assert operation.account != "";
    ghost var rendered, containers := cp.files.tree, cp.containers;
    o := cp.ReconcileAccount(operation.account, None);
    OthersKeepContainers(cp.containers, containers, cp.catalog.accounts, operation);
    RemovedContainer(containers, cp.catalog.accounts, operation);
    hide ContainerPart, ContainersMatch;
    if o.Done? {
      o := cp.files.Recover(operation, None);
    }
    assert OnlyTouches(cp.files.tree, rendered, OwnedIds(operation));
    TouchKeepsTree(cp.files.tree, rendered, cp.catalog.accounts, operation);
    TouchKeepsSafe(cp.files.tree, rendered, operation);
    hide OnlyTouches, KeepsSafe, TreePart;
    if o.Done? {
      RemovedInStep(cp.W(), rendered, start.config, operation);
    }
    hide SyncedAccounts;
  }

  /**
   * The account the control plane holds gets its files, config, container and
   * users back.  A rename onto another account stops at its directories.
   */
  method RecoverKept(cp: ControlPlane, operation: Operation, d: Id) returns (o: Outcome)
    requires ValidOperation(operation) && operation.kind != ChangePolicy
    requires Underway(cp.W(), operation) && Desired(cp.catalog.accounts, operation) == Some(d)
    requires Interrupted(cp.W(), operation) ==> cp.secrets.Keys <= cp.catalog.accounts.Keys
    modifies cp.files, cp`catalog, cp`containers, cp`active, cp`monitor
    ensures Underway(cp.W(), operation) && KeepsSafe(cp.files.tree, old(cp.files.tree), operation)
    ensures Clashes(old(cp.W()), operation) ==> o.Failed? && cp.W() == old(cp.W())
    ensures Interrupted(old(cp.W()), operation) ==> Interrupted(cp.W(), operation)
    ensures cp.catalog in {old(cp.catalog), Returned(old(cp.catalog), operation)}
    ensures o.Done? ==> Synced(cp.W()) && cp.catalog == Returned(old(cp.catalog), operation)
    ensures OnlyHits(old(cp.monitor), cp.monitor, if Clashes(old(cp.W()), operation) then {} else OwnedIds(operation) * old(cp.monitor.busy))
    ensures cp.files.calm && Interrupted(old(cp.W()), operation) && CanRender(old(cp.catalog), cp.secrets) ==> o.Done?
  {
    hide Watch, ValidId, Returned, Invariant, CatalogPart, TreePart, ContainerPart, SecretPart;
    hide CanRender, ConfigsMatch, DirsMatch, ContainersMatch, KeepsSafe, Desired, Clashes;
    o := RecoverFiles(cp, operation, d);
    if o.Done? {
      o := RecoverContainers(cp, operation, d);
    }
    if o.Done? {
      o := RecoverReturn(cp, operation, d);
    }
  }

  method RecoverFiles(cp: ControlPlane, operation: Operation, d: Id) returns (o: Outcome)
    requires ValidOperation(operation) && operation.kind != ChangePolicy
    requires Underway(cp.W(), operation) && Desired(cp.catalog.accounts, operation) == Some(d)
    modifies cp.files
    ensures KeepsSafe(cp.files.tree, old(cp.files.tree), operation)
    ensures Clashes(old(cp.W()), operation) ==> o.Failed? && cp.files.tree == old(cp.files.tree)
    ensures Interrupted(old(cp.W()), operation) ==> Interrupted(cp.W(), operation)
    ensures o.Done? ==>
      && CanRender(cp.catalog, cp.secrets)
      && ConfigsMatch(cp.files.tree.config, cp.catalog, cp.secrets)
      && DirsMatch(cp.files.tree.dirs, cp.catalog.accounts)
    ensures cp.files.calm && Interrupted(old(cp.W()), operation) && CanRender(cp.catalog, cp.secrets) ==> o.Done?
  {
    hide Watch, ValidOperation, Interrupted, Clashes, ConfigsMatch, CanRender, Rendered, DirsMatch, KeepsSafe, Desired;
    ghost var start := cp.files.tree;
    o := RecoverDirs(cp, operation, d);
    ghost var recovered := cp.files.tree;
    if o.Done? {
      o := RenderCurrent(cp, operation);
      SafeTrans(cp.files.tree, recovered, start, operation);
      if o.Done? {
        RenderedMatches(cp.files.tree.config, recovered.config, cp.catalog, cp.secrets);
      }
    }
  }

  lemma RenderedMatches(config: map<Id, Config>, before: map<Id, Config>, c: Catalog, secrets: map<Id, string>)
    requires config == before + Rendered(c, secrets) && before.Keys <= c.accounts.Keys
    ensures ConfigsMatch(config, c, secrets)
  {
    hide ConfigOf;
  }

  /** Directories and stale configs, from the rows and the backup. */
  method RecoverDirs(cp: ControlPlane, operation: Operation, d: Id) returns (o: Outcome)
    requires ValidOperation(operation) && operation.kind != ChangePolicy
    requires Underway(cp.W(), operation) && Desired(cp.catalog.accounts, operation) == Some(d)
    modifies cp.files
    ensures KeepsSafe(cp.files.tree, old(cp.files.tree), operation)
    ensures Clashes(old(cp.W()), operation) ==> o.Failed? && cp.files.tree == old(cp.files.tree)
    ensures Interrupted(old(cp.W()), operation) ==> Interrupted(cp.W(), operation)
    ensures o.Done? ==> DirsMatch(cp.files.tree.dirs, cp.catalog.accounts) && cp.files.tree.config.Keys <= cp.catalog.accounts.Keys
    ensures cp.files.calm && Interrupted(old(cp.W()), operation) ==> o.Done?
  {
    hide Watch, SecretPart, ContainerPart, Invariant, IdLetter, ConfigOf, DirsMatch;
    ghost var start := cp.files.tree;
    o := cp.files.Recover(operation, Some(d));
    if Interrupted(cp.W().(tree := start), operation) {
      TouchKeepsTree(cp.files.tree, start, cp.catalog.accounts, operation);
      TouchKeepsSafe(cp.files.tree, start, operation);
      if o.Done? {
        RecoveredDirs(cp.files.tree, start, cp.catalog.accounts, operation);
      }
    }
    hide OnlyTouches, TreePart, CatalogPart, KeepsSafe, KeepsOAuth, Recovered;
  }

  method RecoverContainers(cp: ControlPlane, operation: Operation, d: Id) returns (o: Outcome)
    requires ValidOperation(operation)
    requires Interrupted(cp.W(), operation) && Desired(cp.catalog.accounts, operation) == Some(d)
    modifies cp`containers, cp`monitor
    ensures Interrupted(cp.W(), operation)
    ensures o.Done? ==> ContainersMatch(cp.containers, cp.catalog.accounts)
    ensures OnlyHits(old(cp.monitor), cp.monitor, OwnedIds(operation) * old(cp.monitor.busy))
    ensures cp.files.calm ==> o.Done?
  {
    hide Watch, SecretPart, TreePart, Invariant, ContainersMatch, ContainerPart;
    assert OneSide(cp.catalog.accounts, operation);
    NoEmptyId(cp.catalog, operation);
    hide CatalogPart, OneSide;
    assert operation.account != "" && (operation.kind == UpdateAccount <==> operation.newAccount != "");
    hide ValidId;
    var previous := if d == operation.account then operation.newAccount else operation.account;
    assert d in OwnedIds(operation) && (previous in OwnedIds(operation) || previous == "");
    ghost var before := cp.containers;
    o := cp.ReconcileAccount(previous, Some(d));
    hide OwnedIds;
    OthersKeepContainers(cp.containers, before, cp.catalog.accounts, operation);
    if o.Done? {
      ReconciledContainers(cp.containers, before, cp.catalog.accounts, operation, d, previous);
    }
  }

  method RecoverReturn(cp: ControlPlane, operation: Operation, d: Id) returns (o: Outcome)
    requires Interrupted(cp.W(), operation) && Desired(cp.catalog.accounts, operation) == Some(d)
    requires SyncedAccounts(cp.W())
    modifies cp`catalog, cp`active, cp`monitor
    ensures Interrupted(cp.W(), operation)
    ensures cp.catalog in {old(cp.catalog), Returned(old(cp.catalog), operation)}
    ensures o.Done? ==> Synced(cp.W()) && cp.catalog == Returned(old(cp.catalog), operation)
    ensures OnlyHits(old(cp.monitor), cp.monitor, {})
    ensures cp.files.calm ==> o.Done?
  {
    hide Watch, SyncedAccounts, Invariant, TreePart, ContainerPart, SecretPart;
    ghost var w := cp.W();
    NoEmptyId(cp.catalog, operation);
    ReturnedIsInvariant(cp.catalog, operation);
    hide CatalogPart;
    o := RecoverEvacuatedRoutes(cp, operation, Some(d));
    assert cp.catalog == w.catalog.(routes := cp.catalog.routes);
    if o.Done? {
      o := cp.Publish();
    }
    RoutesLeaveAccounts(w, cp.catalog.routes, cp.active);
    assert cp.W() == w.(catalog := w.catalog.(routes := cp.catalog.routes), active := cp.active);
    hide Returned;
  }

  // ----------------------------------------------------------------- recover

  /** No authoritative change was made since the journal was accepted. */
  predicate AcceptedUnchanged(operation: Operation, desired: Option<Id>) {
    match operation.kind
    case CreateAccount => desired.None?
    case ChangePolicy => false
    case _ => desired == Some(operation.account)
  }

  method RecoverUnderway(cp: ControlPlane, operation: Operation, desired: Option<Id>) returns (o: Outcome)
    requires ValidOperation(operation) && operation.kind != ChangePolicy
    requires Underway(cp.W(), operation) && desired == Desired(cp.catalog.accounts, operation)
    requires operation.kind in {UpdateAccount, ClearAccountAuth} ==> desired.Some?
    modifies cp.files, cp`catalog, cp`secrets, cp`containers, cp`active, cp`monitor
    ensures KeepsSafe(cp.files.tree, old(cp.files.tree), operation)
    ensures Clashes(old(cp.W()), operation) ==> cp.W() == old(cp.W()).(secrets := cp.secrets) && Stopped(o, cp, old(cp.W()), operation)
    ensures Interrupted(old(cp.W()), operation) ==> Interrupted(cp.W(), operation)
    ensures cp.catalog in {old(cp.catalog), Returned(old(cp.catalog), operation)}
    ensures o.Done? ==> Synced(cp.W()) && cp.catalog == Returned(old(cp.catalog), operation)
    ensures o.Done? ==>
      && SecretsPass(old(cp.catalog).accounts, old(cp.secrets), operation, cp.validProxy)
      && cp.secrets == RecoveredSecrets(old(cp.catalog).accounts, old(cp.secrets), operation)
    ensures OnlyHits(old(cp.monitor), cp.monitor,
                     if Clashes(old(cp.W()), operation) || (operation.kind == DeleteAccount && desired.None?) then {}
                     else OwnedIds(operation) * old(cp.monitor.busy))
    ensures cp.files.calm && Interrupted(old(cp.W()), operation) ==>
      SecretsPass(old(cp.catalog).accounts, old(cp.secrets), operation, cp.validProxy) ==>
      CanRender(old(cp.catalog), RecoveredSecrets(old(cp.catalog).accounts, old(cp.secrets), operation)) ==> o.Done?
  {
    hide Watch, ValidId, Returned, Invariant, CatalogPart, TreePart, ContainerPart, Synced, CanRender, SecretsPass, RecoveredSecrets;
    o := RecoverSecrets(cp, operation, desired);
    hide SecretPart;
    if o.Done? {
      if desired.None? {
        NothingToReturn(cp.catalog, operation);
        o := RecoverRemoved(cp, operation);
      } else {
        o := RecoverKept(cp, operation, desired.value);
      }
    }
  }

  /** A rename onto another account is not finished, but its secret has moved already. */
  ghost predicate Stopped(o: Outcome, cp: ControlPlane, w: World, operation: Operation)
    reads cp
  {
    && !o.Done?
    && (forall id :: id !in OwnedIds(operation) ==> SameAt(cp.secrets, w.secrets, id))
    && (cp.files.calm && SecretsPass(w.catalog.accounts, w.secrets, operation, cp.validProxy) ==>
          o.Failed? && cp.secrets == RecoveredSecrets(w.catalog.accounts, w.secrets, operation))
  }

  lemma IsOneSided(c: Catalog, operation: Operation)
    requires CatalogPart(c, operation)
    ensures OneSide(c.accounts, operation)
  {
  }

  lemma RecoveredKeys(accounts: map<Id, Account>, secrets: map<Id, string>, operation: Operation)
    requires SecretPart(secrets, accounts, operation)
    requires operation.kind in {UpdateAccount, ClearAccountAuth} ==> Desired(accounts, operation).Some?
    requires operation.kind != ChangePolicy
    ensures RecoveredSecrets(accounts, secrets, operation).Keys <= accounts.Keys
  {
  }

  lemma DoneRenders(w: World, c: Catalog, operation: Operation)
    requires Synced(w) && w.catalog in {c, Returned(c, operation)}
    ensures CanRender(c, w.secrets)
  {
    hide Invariant, ConfigsMatch, DirsMatch, ContainersMatch, Desired;
  }

  method RecoverSecrets(cp: ControlPlane, operation: Operation, desired: Option<Id>) returns (o: Outcome)
    requires operation.kind != ChangePolicy
    requires Underway(cp.W(), operation) && desired == Desired(cp.catalog.accounts, operation)
    requires operation.kind in {UpdateAccount, ClearAccountAuth} ==> desired.Some?
    modifies cp`secrets
    ensures Clashes(old(cp.W()), operation) ==> Clashes(cp.W(), operation)
    ensures Interrupted(old(cp.W()), operation) ==> Interrupted(cp.W(), operation)
    ensures forall id :: id !in OwnedIds(operation) ==> SameAt(cp.secrets, old(cp.secrets), id)
    ensures o.Done? && Interrupted(cp.W(), operation) ==> cp.secrets.Keys <= cp.catalog.accounts.Keys
    ensures o.Done? ==>
      && SecretsPass(cp.catalog.accounts, old(cp.secrets), operation, cp.validProxy)
      && cp.secrets == RecoveredSecrets(cp.catalog.accounts, old(cp.secrets), operation)
    ensures cp.files.calm && SecretsPass(cp.catalog.accounts, old(cp.secrets), operation, cp.validProxy) ==> o.Done?
  {
    hide Watch, Invariant, CatalogPart, TreePart, ContainerPart, OneSide, CanRender, SecretsPass, RecoveredSecrets;
    if Interrupted(cp.W(), operation) { IsOneSided(cp.catalog, operation); }
    ghost var before := cp.secrets;
    o := RecoverProxySecrets(cp, operation, desired);
    if SecretPart(before, cp.catalog.accounts, operation) {
      RecoveredKeys(cp.catalog.accounts, before, operation);
      OthersKeepSecrets(cp.secrets, before, cp.catalog.accounts, operation);
    }
  }

  /** Every kind but a policy change. */
  method RecoverAccount(cp: ControlPlane, operation: Operation) returns (o: Outcome)
    requires operation.kind != ChangePolicy && Recoverable(cp.W(), operation)
    modifies cp.files, cp`catalog, cp`secrets, cp`containers, cp`active, cp`monitor
    ensures Recoverable(cp.W(), operation) && KeepsSafe(cp.files.tree, old(cp.files.tree), operation)
    ensures Clashes(old(cp.W()), operation) ==> cp.W() == old(cp.W()).(secrets := cp.secrets) && Stopped(o, cp, old(cp.W()), operation)
    ensures cp.catalog in {old(cp.catalog), Returned(old(cp.catalog), operation)}
    ensures o.Done? ==> Synced(cp.W()) && cp.catalog == Returned(old(cp.catalog), operation)
    ensures o.Done? ==> cp.secrets == (if EarlyPhase(old(cp.W()), operation) then old(cp.secrets)
                                        else RecoveredSecrets(old(cp.catalog).accounts, old(cp.secrets), operation))
    ensures OnlyHits(old(cp.monitor), cp.monitor, Disturbed(old(cp.W()), operation, old(cp.monitor.busy)))
    ensures o.Done? ==> CanRecover(old(cp.W()), operation, cp.validProxy)
    ensures cp.files.calm && CanRecover(old(cp.W()), operation, cp.validProxy) ==> o.Done?
  {
    hide Watch, ValidId, Invariant, CatalogPart, TreePart, ContainerPart, SecretPart, Synced, SyncedAccounts, SecretsPass, RecoveredSecrets;
    if Interrupted(cp.W(), operation) { IsOneSided(cp.catalog, operation); }
    var desired := Desired(cp.catalog.accounts, operation);
    if desired.None? && operation.kind in {UpdateAccount, ClearAccountAuth} {
      o := Failed;
    } else if operation.phase == Accepted && AcceptedUnchanged(operation, desired) {
      NothingMoved(cp.catalog, operation);
      o := RecoverAccepted(cp, operation);
    } else if operation.phase == RoutesPrepared &&
      (operation.kind == ClearAccountAuth || (operation.kind == UpdateAccount && desired == Some(operation.account))) {
      o := RecoverRouted(cp, operation);
    } else {
      ghost var c := cp.catalog;
      o := RecoverUnderway(cp, operation, desired);
      if o.Done? { DoneRenders(cp.W(), c, operation); }
    }
  }

  lemma NothingMoved(c: Catalog, operation: Operation)
    ensures operation.evacuated == map[] ==> Returned(c, operation) == c
  {
    assert operation.evacuated == map[] ==> forall r: map<User, Id>, d :: ReturnTo(r, operation.evacuated, d) == r;
  }

  /**
   * Runs before the Admin accepts mutations.  It keeps every crash state
   * recoverable; a run that reports success leaves no journal and everything
   * in step with the account rows, which it never changes.
   */
  method Recover(cp: ControlPlane) returns (o: Outcome)
    requires Sound(cp.journal, cp.W())
    modifies cp, cp.files
    ensures Sound(cp.journal, cp.W())
    ensures o.Done? ==> cp.journal.None?
    ensures o.Failed? ==> cp.journal == old(cp.journal)
    ensures old(cp.journal).None? ==> o.Done? && cp.W() == old(cp.W())
    ensures match old(cp.journal)
      case None => true
      case Some(operation) =>
        && cp.journal in {None, Some(operation)}
        && KeepsSafe(cp.files.tree, old(cp.files.tree), operation)
        && (Clashes(old(cp.W()), operation) ==>
              && cp.journal == Some(operation) && cp.W() == old(cp.W()).(secrets := cp.secrets)
              && Stopped(o, cp, old(cp.W()), operation))
        && cp.catalog in {old(cp.catalog), RecoveredCatalog(old(cp.catalog), operation)}
        && (o.Done? ==> cp.catalog == RecoveredCatalog(old(cp.catalog), operation))
        && (o.Done? && operation.kind != ChangePolicy ==> UsersHome(cp.catalog, old(cp.catalog), operation))
        && (o.Done? && operation.kind == ChangePolicy ==> cp.catalog == old(cp.catalog))
        && (o.Done? ==> cp.secrets == if EarlyPhase(old(cp.W()), operation) then old(cp.secrets)
                                       else RecoveredSecrets(old(cp.catalog).accounts, old(cp.secrets), operation))
        && (o.Done? ==> CanRecover(old(cp.W()), operation, cp.validProxy))
        && (cp.files.calm && CanRecover(old(cp.W()), operation, cp.validProxy) ==> o.Done?)
    ensures OnlyHits(old(cp.monitor), cp.monitor, if old(cp.journal).None? then {} else
                       Disturbed(old(cp.W()), old(cp.journal).value, old(cp.monitor.busy)))
  {
    hide UsersHome, Watch, ValidId, Synced, PolicyPart, JustAccepted, OnlyRoutesMoved, Interrupted, Clashes, Returned;
    o := Done;
    if cp.journal.Some? {
      var operation := cp.journal.value;
      ReturnedAreHome(cp.catalog, operation);
      ghost var start := cp.files.tree;
      if operation.kind == ChangePolicy {
        NoClash(cp.W(), operation);
        o := RecoverPolicy(cp);
        ConfigOnlyIsSafe(cp.files.tree, start, operation);
      } else {
        o := RecoverAccount(cp, operation);
      }
      hide KeepsSafe, OAuthSafe;
      if o.Done? {
        o := cp.DeleteJournal();
      }
    }
  }

  lemma NoClash(w: World, operation: Operation)
    requires operation.kind == ChangePolicy
    ensures !Clashes(w, operation)
  {
  }

  /** The rows as they are; evacuated users on their account when it is enabled. */
  function RecoveredCatalog(c: Catalog, operation: Operation): Catalog {
    if operation.kind == ChangePolicy then c else Returned(c, operation)
  }
}
