/** What the steps of a recovery add up to. */
module RecoveryLaws {
  import opened Wrappers
  import opened Catalog
  import opened Journal
  import opened Routes
  import opened Files
  import opened World
  import opened ControlPlane

  /** Every evacuated user on the desired account, when it is enabled. */
  function Returned(c: Catalog, operation: Operation): Catalog {
    var d := Desired(c.accounts, operation);
    if d.Some? && c.accounts[d.value].enabled then
      c.(routes := ReturnTo(c.routes, operation.evacuated, d.value))
    else c
  }

  /**
   * Every evacuated user is on the account of the operation, under its new ID if
   * that exists, when it exists and is enabled; nothing else has changed.
   */
  ghost predicate UsersHome(c: Catalog, before: Catalog, operation: Operation) {
    var home := if operation.kind == UpdateAccount && operation.newAccount in before.accounts then operation.newAccount
                else operation.account;
    && c.accounts == before.accounts && c.rows == before.rows
    && (home in before.accounts && before.accounts[home].enabled ==>
          forall u :: u in operation.evacuated ==> u in c.routes && c.routes[u] == home)
    && (home !in before.accounts || !before.accounts[home].enabled ==> c.routes == before.routes)
    && forall u :: u !in operation.evacuated ==> SameAt(c.routes, before.routes, u)
  }

  lemma ReturnedAreHome(c: Catalog, operation: Operation)
    ensures UsersHome(Returned(c, operation), c, operation)
  {
  }

  lemma ReroutedKeepsInvariant(c: Catalog, routes: map<User, Id>)
    requires Invariant(c)
    requires forall u :: u in routes ==>
      u in ActiveUsers(c.rows) && routes[u] in c.accounts && c.accounts[routes[u]].enabled
    ensures Invariant(c.(routes := routes))
  {
    hide ActiveUsers, UserSecrets, ValidIds, UniqueColumns, UniquePositions, OneDefault, HasRow;
  }

  /** Returning the evacuated users gives a catalog that satisfies the invariant. */
  lemma ReturnedIsInvariant(c: Catalog, operation: Operation)
    requires CatalogPart(c, operation)
    ensures Invariant(Returned(c, operation)) && CatalogPart(Returned(c, operation), operation)
  {
    var r := Returned(c, operation);
    hide ActiveUsers, UserSecrets, ValidIds, UniqueColumns, UniquePositions, OneDefault, UnifiedKeys, OneSide;
    assert Settled(r, operation) == Settled(c, operation);
    assert RoutesTargetEnabled(Settled(c, operation));
    forall u | u in r.routes
      ensures u in ActiveUsers(c.rows) && r.routes[u] in c.accounts && c.accounts[r.routes[u]].enabled
    {
      assert u in Settled(c, operation).routes;
    }
    ReroutedKeepsInvariant(Settled(c, operation), r.routes);
    assert Settled(c, operation).(routes := r.routes) == r;
    hide Invariant;
  }

  /** Dirs and configs of exactly the catalog's accounts, and no stray secret. */
  ghost predicate FilesInStep(w: World) {
    && DirsMatch(w.tree.dirs, w.catalog.accounts)
    && w.tree.config.Keys <= w.catalog.accounts.Keys
    && w.secrets.Keys <= w.catalog.accounts.Keys
  }

  lemma RecoveredDirs(t: Tree, before: Tree, accounts: map<Id, Account>, operation: Operation)
    requires TreePart(before, accounts, operation) && OneSide(accounts, operation)
    requires OnlyTouches(t, before, OwnedIds(operation))
    requires Recovered(t, before, operation, Desired(accounts, operation))
    requires operation.kind != ChangePolicy
    requires operation.kind == ClearAccountAuth ==>
      && SameAt(t.dirs, before.dirs, Path(Logs, operation.account))
      && (Path(Auth, operation.account) in before.dirs ==> Path(Auth, operation.account) in t.dirs)
    ensures DirsMatch(t.dirs, accounts) && t.config.Keys <= accounts.Keys
  {
    forall id | id in accounts
      ensures HasDirs(t.dirs, id)
    {
      if id !in OwnedIds(operation) {
        assert SameAt(t.dirs, before.dirs, Path(Auth, id)) && SameAt(t.dirs, before.dirs, Path(Logs, id));
      }
    }
    forall p | p in t.dirs
      ensures p.id in accounts
    {
      if p.id !in OwnedIds(operation) {
        assert SameAt(t.dirs, before.dirs, p);
      } else if p.id !in accounts {
        assert HasNoDirs(t.dirs, p.id);
        match p.kind {
          case Auth =>
          case Logs =>
        }
      }
    }
  }

  /** Once everything of a recovery is in step, the accounts are. */
  lemma InStep(w: World, config: map<Id, Config>)
    requires FilesInStep(w) && CanRender(w.catalog, w.secrets)
    requires w.tree.config == config + Rendered(w.catalog, w.secrets)
    requires ContainersMatch(w.containers, w.catalog.accounts)
    ensures SyncedAccounts(w)
  {
    hide ConfigOf;
  }

  lemma ReconciledContainers(containers: map<Id, Container>, before: map<Id, Container>,
                             accounts: map<Id, Account>, operation: Operation, d: Id, previous: Id)
    requires ContainerPart(before, accounts, operation) && OneSide(accounts, operation)
    requires Desired(accounts, operation) == Some(d)
    requires previous == if d == operation.account then operation.newAccount else operation.account
    requires operation.kind == UpdateAccount <==> operation.newAccount != ""
    requires "" !in accounts && operation.account != ""
    requires containers ==
      (if d == previous then before else WithoutContainer(before, previous))[d := Container(accounts[d].port, true)]
    ensures ContainersMatch(containers, accounts)
  {
    forall id
      ensures id in containers <==> id in accounts
    {
      if id in OwnedIds(operation) {
        assert id == d || (id == previous && id !in accounts);
      } else {
        assert id in before <==> id in accounts;
        assert operation.kind == UpdateAccount ==> id != previous;
      }
    }
  }

  // ------------------------------------------------- what single steps keep

  lemma RenderKeepsTree(t: Tree, before: Tree, accounts: map<Id, Account>, operation: Operation)
    requires TreePart(before, accounts, operation) && t == before.(config := t.config)
    requires forall id :: id in t.config ==> id in before.config || id in accounts
    ensures TreePart(t, accounts, operation)
  {
  }

  lemma TouchKeepsTree(t: Tree, before: Tree, accounts: map<Id, Account>, operation: Operation)
    requires TreePart(before, accounts, operation) && OnlyTouches(t, before, OwnedIds(operation))
    requires operation.kind == UpdateAccount && operation.account != operation.newAccount ==>
      NotBoth(t.dirs, operation.account, operation.newAccount)
    requires operation.kind == ClearAccountAuth ==>
      && SameAt(t.dirs, before.dirs, Path(Logs, operation.account))
      && (Path(Auth, operation.account) in t.dirs || OperationBackup(operation) in t.backups)
    ensures TreePart(t, accounts, operation)
  {
    forall id | id in accounts && id !in OwnedIds(operation)
      ensures HasDirs(t.dirs, id)
    {
      assert SameAt(t.dirs, before.dirs, Path(Auth, id)) && SameAt(t.dirs, before.dirs, Path(Logs, id));
    }
    hide OperationBackup, NotBoth;
  }

  lemma OthersKeepContainers(containers: map<Id, Container>, before: map<Id, Container>,
                             accounts: map<Id, Account>, operation: Operation)
    requires ContainerPart(before, accounts, operation)
    requires forall id :: id !in OwnedIds(operation) ==> SameAt(containers, before, id)
    ensures ContainerPart(containers, accounts, operation)
  {
    assert forall id :: id in containers && id !in OwnedIds(operation) ==> SameAt(containers, before, id) && id in before;
    assert forall id :: id in accounts && id !in OwnedIds(operation) ==> SameAt(containers, before, id);
  }

  lemma OthersKeepSecrets(secrets: map<Id, string>, before: map<Id, string>, accounts: map<Id, Account>, operation: Operation)
    requires SecretPart(before, accounts, operation)
    requires forall id :: id !in OwnedIds(operation) ==> SameAt(secrets, before, id)
    ensures SecretPart(secrets, accounts, operation)
  {
    assert forall id :: id in secrets && id !in OwnedIds(operation) ==> SameAt(secrets, before, id);
  }

  /** Backups are never lost, so only the directories matter. */
  lemma TouchKeepsSafe(t: Tree, before: Tree, operation: Operation)
    requires t.backups == before.backups
    requires operation.kind == UpdateAccount ==>
      KeepsOAuth(t, before, operation.account, operation.newAccount, OperationBackup(operation))
    requires operation.kind == DeleteAccount ==> OperationBackup(operation) in t.backups
    requires operation.kind == ClearAccountAuth ==> t.dirs == before.dirs || OperationBackup(operation) in t.backups
    ensures KeepsSafe(t, before, operation)
  {
    hide OperationBackup;
  }

  lemma SafeTrans(t2: Tree, t1: Tree, t0: Tree, operation: Operation)
    requires KeepsSafe(t2, t1, operation) && KeepsSafe(t1, t0, operation)
    ensures KeepsSafe(t2, t0, operation)
  {
    hide OAuthSafe;
  }

  lemma ConfigOnlyIsSafe(t: Tree, before: Tree, operation: Operation)
    requires t == before.(config := t.config)
    ensures KeepsSafe(t, before, operation)
  {
    hide OperationBackup;
  }

  // ----------------------------------------------- the account is no more

  lemma NothingToReturn(c: Catalog, operation: Operation)
    requires CatalogPart(c, operation) && Desired(c.accounts, operation).None?
    ensures Invariant(c) && Returned(c, operation) == c
  {
    ReturnedIsInvariant(c, operation);
    hide CatalogPart, Invariant;
  }

  lemma RemovedInStep(w: World, rendered: Tree, before: map<Id, Config>, operation: Operation)
    requires operation.kind in {CreateAccount, DeleteAccount} && operation.account !in w.catalog.accounts
    requires TreePart(rendered, w.catalog.accounts, operation)
    requires rendered.config == before + Rendered(w.catalog, w.secrets) && CanRender(w.catalog, w.secrets)
    requires OnlyTouches(w.tree, rendered, {operation.account})
    requires HasNoDirs(w.tree.dirs, operation.account) && operation.account !in w.tree.config
    requires w.secrets.Keys <= w.catalog.accounts.Keys
    requires ContainersMatch(w.containers, w.catalog.accounts)
    ensures SyncedAccounts(w)
  {
    hide ContainersMatch, CanRender, ConfigOf;
    RecoveredDirs(w.tree, rendered, w.catalog.accounts, operation);
    hide TreePart, HasNoDirs, DirsMatch;
    ConfigRemoved(w.tree.config, before, Rendered(w.catalog, w.secrets), operation.account);
    hide OnlyTouches, Rendered;
    InStep(w, before - {operation.account});
  }

  lemma ConfigRemoved(config: map<Id, Config>, before: map<Id, Config>, rendered: map<Id, Config>, id: Id)
    requires id !in config && id !in rendered
    requires forall a :: a in config || a in before + rendered ==> a == id || SameAt(config, before + rendered, a)
    ensures config == (before - {id}) + rendered
  {
    assert forall a :: a != id ==> (a in config <==> a in before + rendered);
    assert forall a :: a in config ==> config[a] == (before + rendered)[a];
  }

  lemma RemovedContainer(containers: map<Id, Container>, accounts: map<Id, Account>, operation: Operation)
    requires ContainerPart(containers, accounts, operation) && OwnedIds(operation) == {operation.account}
    requires operation.account !in accounts && operation.account != ""
    ensures ContainersMatch(WithoutContainer(containers, operation.account), accounts)
  {
  }

  // --------------------------------------------------- the first two phases

  lemma OtherDirs(dirs: map<Path, Directory>, before: map<Path, Directory>, id: Id)
    requires forall p :: p in dirs || p in before ==> p.id == id || SameAt(dirs, before, p)
    ensures dirs - DirsOf(id) == before - DirsOf(id)
    ensures HasNoDirs(dirs, id) ==> dirs - DirsOf(id) == dirs
  {
    forall p: Path | p !in DirsOf(id)
      ensures p.id != id
    {
      match p.kind {
        case Auth =>
        case Logs =>
      }
    }
    assert forall p :: p in dirs - DirsOf(id) || p in before - DirsOf(id) ==> SameAt(dirs, before, p);
  }

  /** Removing an accepted creation's directories only. */
  lemma AcceptedCreation(w: World, t: Tree, operation: Operation)
    requires JustAccepted(w, operation) && operation.kind == CreateAccount
    requires OnlyTouches(t, w.tree, {operation.account}) && t.config.Keys <= w.tree.config.Keys
    requires t.backups == w.tree.backups
    ensures JustAccepted(w.(tree := t), operation)
    ensures HasNoDirs(t.dirs, operation.account) ==> Synced(w.(tree := t))
  {
    hide Invariant, CanRender, ConfigOf, DirsMatch, ContainersMatch;
    var next := w.(tree := t);
    var id := operation.account;
    assert id !in w.tree.config by {
      assert ConfigsMatch(WithoutDirs(w, id).tree.config, w.catalog, w.secrets);
    }
    hide Synced, ConfigsMatch;
    SameConfigs(t.config, w.tree.config, id);
    OtherDirs(t.dirs, w.tree.dirs, id);
    hide OnlyTouches, DirsOf;
    assert WithoutDirs(next, id) == WithoutDirs(w, id);
    assert HasNoDirs(t.dirs, id) ==> WithoutDirs(next, id) == next;
  }

  lemma SameConfigs(config: map<Id, Config>, before: map<Id, Config>, id: Id)
    requires id !in before && config.Keys <= before.Keys
    requires forall a :: a in config || a in before ==> a == id || SameAt(config, before, a)
    ensures config == before
  {
    assert forall a :: a in before ==> SameAt(config, before, a);
  }

  lemma RoutesLeaveAccounts(w: World, routes: map<User, Id>, active: map<User, Id>)
    ensures SyncedAccounts(w.(catalog := w.catalog.(routes := routes), active := active)) <==> SyncedAccounts(w)
  {
    var next := w.(catalog := w.catalog.(routes := routes), active := active);
    assert forall id :: id in w.catalog.accounts ==>
      ConfigOf(next.catalog, next.secrets, id) == ConfigOf(w.catalog, w.secrets, id);
    hide ConfigOf, DirsMatch, ContainersMatch;
  }

  lemma UnroutedAccount(c: Catalog, id: Id)
    requires Invariant(c) && id !in c.accounts
    ensures id !in c.routes.Values
  {
    assert RoutesTargetEnabled(c);
  }
}
