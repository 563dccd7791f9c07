/**
 * Where the code stops short of what its comments promise: each lemma gives
 * the exact condition, or the state a failure leaves behind.
 */
module Limits {
  import opened Wrappers
  import opened Catalog
  import opened Journal
  import opened Routes
  import opened Files
  import opened Traffic
  import opened World
  import opened Steps
  import opened ControlPlane
  import R = Recovery
  import U = Update
  import G = GatewayMaps
  import Strings

  /**
   * A crash during an update can leave a journal that no recovery finishes, and
   * that is exactly when the new ID is another existing account.
   */
  lemma UnrecoverableIffTaken(w: World, operation: Operation)
    requires Synced(w) && operation.kind == UpdateAccount && operation.account in w.catalog.accounts
    ensures Clashes(w, operation) <==> operation.newAccount != operation.account && operation.newAccount in w.catalog.accounts
  {
    hide Invariant, CanRender, ConfigsMatch, ContainersMatch;
    if operation.newAccount in w.catalog.accounts {
      assert HasDirs(w.tree.dirs, operation.account) && HasDirs(w.tree.dirs, operation.newAccount);
    }
  }

  /**
   * Such a recovery moves the proxy secret before it stops: the renamed account
   * loses it and the other account gets it, and nothing else changes.
   */
  method ClashMovesSecret(cp: ControlPlane, operation: Operation) returns (o: Outcome)
    requires cp.journal == Some(operation) && Sound(cp.journal, cp.W()) && Clashes(cp.W(), operation) && cp.files.calm
    requires operation.account in cp.secrets && cp.validProxy(cp.secrets[operation.account])
    requires operation.newAccount !in cp.secrets
    modifies cp, cp.files
    ensures o.Failed? && cp.journal == Some(operation)
    ensures
      var before := old(cp.secrets);
      cp.W() == old(cp.W()).(secrets := before[operation.newAccount := before[operation.account]] - {operation.account})
  {
    hide Sound, KeepsSafe, R.CanRecover, R.RecoveredCatalog, R.Disturbed, Watch;
    o := R.Recover(cp);
  }

  const ALPHA := Account("alpha@example.com", 18319, Inherit, 1, true, true, 0)
  const BETA := Account("beta@example.com", 18320, Inherit, 1, true, false, 1)

  const BOTH := map["alpha" := ALPHA, "beta" := BETA]

  /** Two accounts, no users. */
  function TwoAccounts(): World {
    var c := Catalog(BOTH, map[], map[]);
    World(c, map[],
          Tree(map["alpha" := ConfigOf(c, map[], "alpha"), "beta" := ConfigOf(c, map[], "beta")],
               map[Path(Auth, "alpha") := map[], Path(Logs, "alpha") := map[], Path(Auth, "beta") := map[], Path(Logs, "beta") := map[]],
               map[]),
          map["alpha" := Container(18319, true), "beta" := Container(18320, true)],
          map[])
  }

  lemma TwoAccountsInvariant()
    ensures Invariant(TwoAccounts().catalog)
  {
    hide TwoAccounts, RowsComplete, OneSecretEach, RowsEverywhere, ValidIds;
    hide UniqueColumns, UniquePositions, OneDefault, RoutesTargetEnabled;
    TwoColumns();
    TwoDefaults();
    BothAre();
    NoUsers();
  }

  lemma BothAre()
    ensures TwoAccounts().catalog.accounts == BOTH
  {
    hide ConfigOf, BOTH;
  }

  lemma TwoColumns()
    ensures ValidIds(BOTH) && UniqueColumns(BOTH) && UniquePositions(BOTH)
  {
    hide ValidId;
    TwoValidIds();
  }

  lemma TwoDefaults()
    ensures OneDefault(BOTH)
  {
    assert BOTH["alpha"].isDefault;
  }

  lemma TwoValidIds()
    ensures ValidId("alpha") && ValidId("beta")
  {
  }

  lemma NoUsers()
    ensures RoutesTargetEnabled(TwoAccounts().catalog)
    ensures RowsComplete(TwoAccounts().catalog) && OneSecretEach(TwoAccounts().catalog.rows) && RowsEverywhere(TwoAccounts().catalog)
  {
    hide ConfigOf;
    assert ActiveUsers(TwoAccounts().catalog.rows) == {};
  }

  lemma TwoAccountsAreSynced()
    ensures Synced(TwoAccounts())
  {
    hide Invariant, CanRender, ConfigsMatch, DirsMatch, ContainersMatch, TwoAccounts;
    TwoAccountsInvariant();
    TwoConfigs();
    TwoDirs();
    TwoOthers();
  }

  lemma TwoDirs()
    ensures DirsMatch(TwoAccounts().tree.dirs, TwoAccounts().catalog.accounts)
  {
    hide ConfigOf;
  }

  lemma TwoOthers()
    ensures
      var w := TwoAccounts();
      && CanRender(w.catalog, w.secrets) && ContainersMatch(w.containers, w.catalog.accounts)
      && w.secrets.Keys <= w.catalog.accounts.Keys && w.active == w.catalog.routes && w.secrets == map[]
  {
    hide ConfigOf;
  }

  /** Rows do not enter the configs but through their users. */
  lemma TwoConfigs()
    ensures ConfigsMatch(TwoAccounts().tree.config, TwoAccounts().catalog, map[])
  {
    hide ActiveUsers;
  }

  /** The shortest such input: renaming one of two accounts to the other. */
  lemma RenameOntoOther(id: string)
    ensures
      var operation := Operation(id, UpdateAccount, Accepted, "alpha", "beta", map[]);
      Synced(TwoAccounts()) && Clashes(TwoAccounts(), operation) && Sound(Some(operation), TwoAccounts())
  {
    var operation := Operation(id, UpdateAccount, Accepted, "alpha", "beta", map[]);
    TwoAccountsAreSynced();
    UnrecoverableIffTaken(TwoAccounts(), operation);
    assert ValidId("alpha") && ValidId("beta");
    hide Synced, Clashes, Interrupted;
  }

  /**
   * A deletion whose first journal write failed rolls its untouched files back
   * by removing and copying them.  Cut off in between, recovery at the accepted
   * phase sees nothing to do, while one phase later it would restore them.
   */
  lemma RollbackBeforeFirstPhase(w: World, operation: Operation)
    requires Synced(w) && ValidOperation(operation) && operation.kind == DeleteAccount && operation.evacuated == map[]
    requires operation.account in w.catalog.accounts
    ensures
      var key := OperationBackup(operation);
      var t := w.tree.(backups := w.tree.backups[key := BackupOf(w.tree, operation.account, true, true, true)],
                       dirs := w.tree.dirs - {Path(Auth, operation.account)});
      && !Synced(w.(tree := t))
      && R.AcceptedUnchanged(operation, Desired(w.catalog.accounts, operation))
      && Interrupted(w.(tree := t), operation)
  {
    hide Synced, Interrupted, ValidOperation;
    var key := OperationBackup(operation);
    var backed := w.tree.(backups := w.tree.backups[key := BackupOf(w.tree, operation.account, true, true, true)]);
    BackedUpDeletion(w, backed, operation);
    MissingDirectory(w, backed.(dirs := w.tree.dirs - {Path(Auth, operation.account)}), operation.account);
    StillInterrupted(w.(tree := backed), operation);
    hide BackupOf;
  }

  lemma BackedUpDeletion(w: World, backed: Tree, operation: Operation)
    requires Synced(w) && operation.kind == DeleteAccount && operation.evacuated == map[]
    requires backed == w.tree.(backups := backed.backups) && OperationBackup(operation) in backed.backups
    ensures Interrupted(w.(tree := backed), operation)
  {
    hide Invariant, SyncedAccounts, CatalogPart, Restored;
    BackupsAside(w, backed);
    RestoredParts(w.(tree := backed), w);
    NoEvacuation(w.catalog, operation);
    MatchingIsInterrupted(w.(tree := backed), operation);
    hide Interrupted;
  }

  lemma RestoredParts(w: World, start: World)
    requires Restored(w, start)
    ensures SyncedAccounts(w)
  {
    hide Invariant, SyncedAccounts;
  }

  lemma MissingDirectory(w: World, t: Tree, id: Id)
    requires id in w.catalog.accounts && Path(Auth, id) !in t.dirs
    ensures !Synced(w.(tree := t))
  {
    hide Invariant, CanRender, ConfigsMatch, ContainersMatch;
  }

  lemma StillInterrupted(w: World, operation: Operation)
    requires Interrupted(w, operation) && operation.kind == DeleteAccount
    ensures Interrupted(w.(tree := w.tree.(dirs := w.tree.dirs - {Path(Auth, operation.account)})), operation)
  {
    hide CatalogPart, ContainerPart, SecretPart, OperationBackup;
  }

  /** After a rename has brought users to the new ID, the compensation takes them for someone else's. */
  lemma ReturnedUsersAreForeign(routes: map<User, Id>, evacuated: map<User, Id>, id: Id, newId: Id, u: User)
    requires u in evacuated && evacuated[u] != newId && newId != id
    ensures Foreign(ReturnTo(routes, evacuated, newId), evacuated, id, {id}, u)
    ensures !Foreign(ReturnTo(routes, evacuated, newId), evacuated, id, {id, newId}, u)
  {
  }

  /**
   * An update whose last journal write failed after the snapshot had put the
   * account back into service: its compensation hits some requests there.
   */
  method RollbackAfterPublish(cp: ControlPlane, request: U.Request, operationId: string,
                              states: Option<map<Id, AccountState>>, drainer: bool)
    returns (e: Ending, ghost change: UpdateRequest, ghost order: seq<Id>, ghost late: bool, ghost run: seq<Event>)
    requires Sound(cp.journal, cp.W())
    modifies cp, cp.files
    ensures late ==>
      var applied := ApplyUpdate(old(cp.catalog), change, order);
      && applied.Ok? && change.id == request.id && e in {Undone, Stuck, CutOff}
      && (!e.CutOff? && change.newId in applied.value.0.routes.Values ==>
            ValidRun(run) && Actions(run) == cp.monitor.trace && Hits(run, |old(cp.monitor.trace)|, change.newId))
  {
    hide Sound, Restored, ApplyUpdate, Lists, Reports, HasUsers, Watch, ValidRun, Actions, Hits;
    var split;
    ghost var proxy;
    run := [];
    e, change, order, proxy, split, late := U.Update(cp, request, operationId, states, drainer);
    if late && !e.CutOff? && change.newId in ApplyUpdate(old(cp.catalog), change, order).value.0.routes.Values {
      run := ReportIsHit(old(cp.monitor), cp.monitor, change.newId);
    }
  }

  // ---------------------------------------------------------- shared secrets

  function KeyFor(user: User, id: Id): KeyRow {
    KeyRow(RowLabel(user, id), id, id + "@example.com", user, "active", "k", 1, 1)
  }

  const SHARED_ROWS := [KeyFor("a", "alpha"), KeyFor("a", "beta"), KeyFor("b", "alpha"), KeyFor("b", "beta")]

  /** Two users with the same secret, routed to different accounts. */
  function SharedSecret(): Catalog {
    Catalog(BOTH,
            map[0 := SHARED_ROWS[0], 1 := SHARED_ROWS[1], 2 := SHARED_ROWS[2], 3 := SHARED_ROWS[3]],
            map["a" := "alpha", "b" := "beta"])
  }

  lemma SharedSecretInvariant()
    ensures Invariant(SharedSecret())
  {
    hide RowLabel, TwoAccounts, SharedSecret, ValidIds, UniqueColumns, UniquePositions;
    hide OneDefault, RoutesTargetEnabled, RowsComplete, OneSecretEach, RowsEverywhere;
    TwoAccountsInvariant();
    SharedAccounts();
    SharedUsers();
    SharedRowsEverywhere();
  }

  lemma SharedAccounts()
    ensures SharedSecret().accounts == TwoAccounts().catalog.accounts
  {
    hide RowLabel, ConfigOf, BOTH;
  }

  lemma SharedUsers()
    ensures ActiveUsers(SharedSecret().rows) == {"a", "b"}
    ensures RoutesTargetEnabled(SharedSecret()) && RowsComplete(SharedSecret()) && OneSecretEach(SharedSecret().rows)
  {
    hide RowLabel;
    var c := SharedSecret();
    assert Active(c.rows[0]) && Active(c.rows[2]);
    assert ActiveUsers(c.rows) == {"a", "b"};
  }

  lemma SharedRowsEverywhere()
    ensures RowsEverywhere(SharedSecret())
  {
    SharedUsers();
    hide RowLabel, RoutesTargetEnabled, RowsComplete, OneSecretEach, ActiveUsers;
    var c := SharedSecret();
    forall u, a | u in ActiveUsers(c.rows) && a in c.accounts ensures HasRow(c.rows, u, a) {
      var s := if u == "a" then (if a == "alpha" then 0 else 1) else (if a == "alpha" then 2 else 3);
      assert Active(c.rows[s]) && c.rows[s].user == u && c.rows[s].account == a;
    }
  }

  lemma SharedSecretReads()
    ensures G.Reads(SharedSecret(), SHARED_ROWS)
  {
    hide RowLabel, Strings.Trim;
    var c := SharedSecret();
    Strings.TrimOfTrimmed("a");
    Strings.TrimOfTrimmed("b");
    assert G.NormalUser("a") == "a" && G.NormalUser("b") == "b";
    assert c.rows[0] in c.rows.Values && c.rows[1] in c.rows.Values && c.rows[2] in c.rows.Values && c.rows[3] in c.rows.Values;
  }

  /** The catalog invariant allows it, and the second user's requests then reach the first user's account. */
  lemma SharedSecretMisroutes(users: seq<User>, lines: seq<G.KeyLine>)
    requires G.Sorted(users, G.Users(SHARED_ROWS))
    requires G.KeyLines(SharedSecret().accounts, SharedSecret().routes, SHARED_ROWS, users) == Ok(lines)
    ensures Invariant(SharedSecret()) && G.Reads(SharedSecret(), SHARED_ROWS)
    ensures SharedSecret().routes["b"] == "beta"
    ensures exists secret :: (
      && UserSecrets(SharedSecret().rows, "b") == {secret}
      && G.Resolve(lines, G.AccountMap(["alpha", "beta"]), G.BackendMap(["alpha", "beta"]), secret) == Some(G.Container("alpha")))
  {
    hide Invariant, G.Reads, G.Sorted, G.KeyLines, G.Users, G.Resolve, G.AccountMap, G.BackendMap, G.Container, RowLabel;
    SharedSecretInvariant();
    SharedSecretReads();
    var c := SharedSecret();
    var secret, holder := G.ResolvesToFirstHolder(c, ["alpha", "beta"], SHARED_ROWS, users, lines, "b");
    FirstIsA(secret, holder);
  }

  lemma FirstIsA(secret: Secret, holder: User)
    requires G.FirstHolder(SharedSecret(), secret, holder) && UserSecrets(SharedSecret().rows, "b") == {secret}
    ensures holder == "a"
  {
    hide RowLabel;
    var c := SharedSecret();
    assert Active(c.rows[0]) && Active(c.rows[2]);
    assert "k" in UserSecrets(c.rows, "a") && "k" in UserSecrets(c.rows, "b");
    assert UserSecrets(c.rows, "a") == {secret};
    BeforeIsTotal("a", "b");
    assert Before("a", "b");
  }
}
