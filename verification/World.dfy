/**
 * Everything an account operation changes, as one value: the catalog, the proxy
 * secrets, the files, the containers and the route table the Gateway serves.
 * Synced is the state between operations; Recoverable is what every crash
 * leaves for the journaled operation.
 */
module World {
  import opened Wrappers
  import opened Catalog
  import opened Journal
  import opened Files

  datatype Container = Container(port: int, running: bool)

  datatype World = World(
    catalog: Catalog,
    secrets: map<Id, string>,
    tree: Tree,
    containers: map<Id, Container>,
    active: map<User, Id>)

  // -------------------------------------------------------------- projection

  /** The effective proxy enters the config only in custom mode. */
  function ConfigOf(c: Catalog, secrets: map<Id, string>, id: Id): Config
    requires id in c.accounts
  {
    var a := c.accounts[id];
    Config(id, a.email, a.mode, a.enabled, if a.mode == Custom then Get(secrets, id) else None, ActiveUsers(c.rows))
  }

  /** Rendering refuses an account in custom mode without a proxy secret. */
  ghost predicate CanRender(c: Catalog, secrets: map<Id, string>) {
    forall id :: id in c.accounts && c.accounts[id].mode == Custom ==> id in secrets
  }

  ghost predicate ConfigsMatch(config: map<Id, Config>, c: Catalog, secrets: map<Id, string>) {
    && config.Keys == c.accounts.Keys
    && forall id :: id in config ==> config[id] == ConfigOf(c, secrets, id)
  }

  ghost predicate DirsMatch(dirs: map<Path, Directory>, accounts: map<Id, Account>) {
    && (forall id :: id in accounts ==> HasDirs(dirs, id))
    && (forall p :: p in dirs ==> p.id in accounts)
  }

  ghost predicate ContainersMatch(containers: map<Id, Container>, accounts: map<Id, Account>) {
    && containers.Keys == accounts.Keys
    && forall id :: id in containers ==> containers[id] == Container(accounts[id].port, true)
  }

  /** Everything but the route tables agrees with the account rows. */
  ghost predicate SyncedAccounts(w: World) {
    && CanRender(w.catalog, w.secrets)
    && ConfigsMatch(w.tree.config, w.catalog, w.secrets)
    && DirsMatch(w.tree.dirs, w.catalog.accounts)
    && ContainersMatch(w.containers, w.catalog.accounts)
    && w.secrets.Keys <= w.catalog.accounts.Keys
  }

  /** The state between operations. */
  ghost predicate Synced(w: World) {
    Invariant(w.catalog) && w.active == w.catalog.routes && SyncedAccounts(w)
  }

  // ------------------------------------------------------- interrupted states

  /** The account the control plane holds for the operation, as recovery looks it up. */
  function Desired(accounts: map<Id, Account>, operation: Operation): Option<Id> {
    if operation.kind == UpdateAccount && operation.newAccount in accounts then Some(operation.newAccount)
    else if operation.account in accounts then Some(operation.account)
    else None
  }

  /** The catalog with every evacuated user on the fallback. */
  function Settled(c: Catalog, operation: Operation): Catalog {
    c.(routes := c.routes + operation.evacuated)
  }

  /** Evacuated users are on their fallback or on one of the operation's own IDs. */
  ghost predicate EvacuatedRoutes(c: Catalog, operation: Operation) {
    forall u :: u in operation.evacuated ==>
      && u in c.routes
      && operation.evacuated[u] !in OwnedIds(operation)
      && (c.routes[u] == operation.evacuated[u] ||
          (c.routes[u] in OwnedIds(operation) && DesiredIsEnabled(c.accounts, operation)))
  }

  ghost predicate DesiredIsEnabled(accounts: map<Id, Account>, operation: Operation) {
    var d := Desired(accounts, operation);
    d.Some? && accounts[d.value].enabled
  }

  /** An update holds exactly one side of the rename; an OAuth clear keeps its account. */
  ghost predicate OneSide(accounts: map<Id, Account>, operation: Operation) {
    match operation.kind
    case UpdateAccount =>
      && Desired(accounts, operation).Some?
      && (operation.account != operation.newAccount ==>
            !(operation.account in accounts && operation.newAccount in accounts))
    case ClearAccountAuth => operation.account in accounts
    case _ => true
  }

  ghost predicate CatalogPart(c: Catalog, operation: Operation) {
    && Invariant(Settled(c, operation))
    && EvacuatedRoutes(c, operation)
    && OneSide(c.accounts, operation)
  }

  ghost predicate TreePart(t: Tree, accounts: map<Id, Account>, operation: Operation) {
    && (forall id :: id in accounts && id !in OwnedIds(operation) ==> HasDirs(t.dirs, id))
    && (forall p :: p in t.dirs ==> p.id in accounts || p.id in OwnedIds(operation))
    && (forall id :: id in t.config ==> id in accounts || id in OwnedIds(operation))
    && (operation.kind == UpdateAccount && operation.account != operation.newAccount ==>
          NotBoth(t.dirs, operation.account, operation.newAccount))
    && (operation.kind == ClearAccountAuth ==>
          && Path(Logs, operation.account) in t.dirs
          && (Path(Auth, operation.account) in t.dirs || OperationBackup(operation) in t.backups))
    && (operation.kind == DeleteAccount ==> OperationBackup(operation) in t.backups)
  }

  /** The account's OAuth content is in the old path, the new path or the operation's backup. */
  ghost predicate OAuthSafe(t: Tree, operation: Operation, content: Directory) {
    var key := OperationBackup(operation);
    match operation.kind
    case UpdateAccount => OAuthHeld(t, operation.account, operation.newAccount, key, content)
    case CreateAccount => true
    case ChangePolicy => true
    case _ =>
      if key in t.backups then t.backups[key].auth == Some(content)
      else Get(t.dirs, Path(Auth, operation.account)) == Some(content)
  }

  ghost predicate KeepsSafe(t: Tree, before: Tree, operation: Operation) {
    forall content :: OAuthSafe(before, operation, content) ==> OAuthSafe(t, operation, content)
  }

  ghost predicate ContainerPart(containers: map<Id, Container>, accounts: map<Id, Account>, operation: Operation) {
    && (forall id :: id in accounts && id !in OwnedIds(operation) ==>
          id in containers && containers[id] == Container(accounts[id].port, true))
    && (forall id :: id in containers ==> id in accounts || id in OwnedIds(operation))
  }

  ghost predicate SecretPart(secrets: map<Id, string>, accounts: map<Id, Account>, operation: Operation) {
    forall id :: id in secrets ==> id in accounts || id in OwnedIds(operation)
  }

  /** Once an operation may have touched its accounts. */
  ghost predicate Interrupted(w: World, operation: Operation) {
    && CatalogPart(w.catalog, operation)
    && TreePart(w.tree, w.catalog.accounts, operation)
    && ContainerPart(w.containers, w.catalog.accounts, operation)
    && SecretPart(w.secrets, w.catalog.accounts, operation)
  }

  /** Before any account is touched: only evacuated routes may differ from Synced. */
  ghost predicate OnlyRoutesMoved(w: World, operation: Operation) {
    && operation.kind in {UpdateAccount, ClearAccountAuth}
    && Desired(w.catalog.accounts, operation) == Some(operation.account)
    && CatalogPart(w.catalog, operation)
    && SyncedAccounts(w)
  }

  function WithoutDirs(w: World, id: Id): World {
    w.(tree := w.tree.(dirs := w.tree.dirs - DirsOf(id)))
  }

  /** A journal that is still at its first phase. */
  ghost predicate JustAccepted(w: World, operation: Operation) {
    operation.evacuated == map[] &&
    if operation.kind == CreateAccount then
      operation.account !in w.catalog.accounts && Synced(WithoutDirs(w, operation.account))
    else
      Desired(w.catalog.accounts, operation) == Some(operation.account) && Synced(w)
  }

  /** A policy change touches rows and routes in one transaction. */
  ghost predicate PolicyPart(w: World) {
    && Invariant(w.catalog)
    && CanRender(w.catalog, w.secrets)
    && w.tree.config.Keys == w.catalog.accounts.Keys
    && DirsMatch(w.tree.dirs, w.catalog.accounts)
    && ContainersMatch(w.containers, w.catalog.accounts)
    && w.secrets.Keys <= w.catalog.accounts.Keys
  }

  /** A rename onto the ID of another existing account. */
  ghost predicate Clashes(w: World, operation: Operation) {
    && operation.kind == UpdateAccount && operation.account != operation.newAccount
    && operation.account in w.catalog.accounts && operation.newAccount in w.catalog.accounts
    && Path(Auth, operation.account) in w.tree.dirs && Path(Auth, operation.newAccount) in w.tree.dirs
  }

  /** A creation accepted for an ID that is taken; its directories will refuse it. */
  ghost predicate CreatesExisting(w: World, operation: Operation) {
    operation.kind == CreateAccount && operation.account in w.catalog.accounts
  }

  ghost predicate Underway(w: World, operation: Operation) {
    Clashes(w, operation) || Interrupted(w, operation)
  }

  /** What a crash leaves behind for recovery. */
  ghost predicate Recoverable(w: World, operation: Operation) {
    && ValidOperation(operation)
    && (Clashes(w, operation) ||
        if operation.kind == ChangePolicy then PolicyPart(w)
        else if operation.phase == Accepted && !CreatesExisting(w, operation) then JustAccepted(w, operation)
        else if operation.phase == RoutesPrepared then OnlyRoutesMoved(w, operation)
        else Interrupted(w, operation))
  }

  /** The invariant of every run: no journal and in step, or a recoverable journal. */
  ghost predicate Sound(journal: Option<Operation>, w: World) {
    match journal
    case None => Synced(w)
    case Some(operation) => Recoverable(w, operation)
  }

  // ------------------------------------------------------------------ lemmas

  lemma TreeOfMatching(t: Tree, accounts: map<Id, Account>, operation: Operation)
    requires DirsMatch(t.dirs, accounts) && t.config.Keys == accounts.Keys && OneSide(accounts, operation)
    requires operation.kind == DeleteAccount ==> OperationBackup(operation) in t.backups
    ensures TreePart(t, accounts, operation)
  {
  }

  lemma ContainersOfMatching(containers: map<Id, Container>, accounts: map<Id, Account>, operation: Operation)
    requires ContainersMatch(containers, accounts)
    ensures ContainerPart(containers, accounts, operation)
  {
  }

  /** Accounts in step satisfy everything an interrupted operation needs but its routes. */
  lemma MatchingIsInterrupted(w: World, operation: Operation)
    requires SyncedAccounts(w) && CatalogPart(w.catalog, operation)
    requires operation.kind == DeleteAccount ==> OperationBackup(operation) in w.tree.backups
    ensures Interrupted(w, operation)
  {
    TreeOfMatching(w.tree, w.catalog.accounts, operation);
    ContainersOfMatching(w.containers, w.catalog.accounts, operation);
    hide TreePart, ContainerPart, DirsMatch, ContainersMatch, CatalogPart, CanRender, ConfigOf;
  }

  /**
   * The rendered config says what the row says; it carries the proxy secret in
   * custom mode, where there always is one, and none in any other mode.
   */
  lemma ConfigCarries(w: World, id: Id)
    requires Synced(w) && id in w.catalog.accounts
    ensures
      var row := w.catalog.accounts[id];
      && id in w.tree.config && w.tree.config[id].id == id
      && w.tree.config[id].email == row.email && w.tree.config[id].mode == row.mode && w.tree.config[id].enabled == row.enabled
      && (row.mode == Custom ==> id in w.secrets && w.tree.config[id].proxy == Some(w.secrets[id]))
      && (row.mode != Custom ==> w.tree.config[id].proxy == None)
      && (forall u :: u in w.tree.config[id].users <==>
            exists s :: s in w.catalog.rows && w.catalog.rows[s].status == "active" && w.catalog.rows[s].user == u)
  {
    hide Invariant, DirsMatch, ContainersMatch;
  }
}
