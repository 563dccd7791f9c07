/**
 * The account tables of the control plane as one value, and what each account
 * transaction does to it.  Apply* returns the new catalog together with the
 * footprint that Restore* later checks and undoes.
 */
module Catalog {
  import opened Wrappers

  type Id = string
  type User = string
  type Secret = string

  datatype ProxyMode = Inherit | Direct | Custom

  datatype Account = Account(
    email: string,
    port: int,
    mode: ProxyMode,
    createdAt: int,
    enabled: bool,
    isDefault: bool,
    position: nat)

  datatype KeyRow = KeyRow(
    keyLabel: string,
    account: Id,
    accountEmail: string,
    user: User,
    status: string,
    secret: Secret,
    createdAt: int,
    updatedAt: int)

  datatype Catalog = Catalog(accounts: map<Id, Account>, rows: map<nat, KeyRow>, routes: map<User, Id>)

  datatype CatalogError =
    | InvalidInput
    | AlreadyExists
    | EmailExists
    | PortExists
    | NotFound
    | Conflict
    | DeleteLast
    | NeedsFallback
    | RequiresRevoke
    | Constraint

  // ---------------------------------------------------------------- identity

  predicate IdLetter(c: char) {
    'a' <= c <= 'z' || '0' <= c <= '9' || c == '-'
  }

  const RESERVED_IDS: set<Id> := {"admin", "all", "gateway", "management"}

  predicate ValidId(id: Id) {
    && 2 <= |id| <= 32
    && 'a' <= id[0] <= 'z'
    && (forall i :: 0 <= i < |id| ==> IdLetter(id[i]))
    && id !in RESERVED_IDS
  }

  predicate ValidPort(port: int) {
    1 <= port <= 65535
  }

  function RowLabel(user: User, id: Id): string {
    user + ":" + id
  }

  // -------------------------------------------------------------- queries

  predicate Active(row: KeyRow) {
    row.status == "active"
  }

  function ActiveUsers(rows: map<nat, KeyRow>): set<User> {
    set s | s in rows && Active(rows[s]) :: rows[s].user
  }

  function UserSecrets(rows: map<nat, KeyRow>, user: User): set<Secret> {
    set s | s in rows && Active(rows[s]) && rows[s].user == user :: rows[s].secret
  }

  function AccountRows(rows: map<nat, KeyRow>, id: Id): map<nat, KeyRow> {
    map s | s in rows && rows[s].account == id :: rows[s]
  }

  function EnabledOthers(accounts: map<Id, Account>, id: Id): set<Id> {
    set a | a in accounts && a != id && accounts[a].enabled
  }

  function DefaultOthers(accounts: map<Id, Account>, id: Id): set<Id> {
    set a | a in accounts && a != id && accounts[a].enabled && accounts[a].isDefault
  }

  function DefaultFlags(accounts: map<Id, Account>): map<Id, bool> {
    map a | a in accounts :: accounts[a].isDefault
  }

  /** The first listed ID that is in `wanted`. */
  function First(order: seq<Id>, wanted: set<Id>): (r: Option<Id>)
    ensures r.Some? ==> r.value in wanted && r.value in order
    ensures r.None? ==> forall a :: a in order ==> a !in wanted
  {
    if order == [] then None
    else if order[0] in wanted then Some(order[0])
    else First(order[1..], wanted)
  }

  /** `order` lists every account once, by position: SELECT ... ORDER BY position, id. */
  ghost predicate Lists(order: seq<Id>, accounts: map<Id, Account>) {
    && (forall a :: a in accounts <==> a in order)
    && (forall i, j :: 0 <= i < j < |order| ==> order[i] != order[j])
    && (forall i, j :: 0 <= i < j < |order| && order[i] in accounts && order[j] in accounts ==>
          accounts[order[i]].position <= accounts[order[j]].position)
  }

  /** The fallback chosen when the caller names none. */
  function AutoFallback(order: seq<Id>, accounts: map<Id, Account>, id: Id): (r: Option<Id>)
    ensures r.Some? ==> r.value in EnabledOthers(accounts, id)
  {
    var preferred := First(order, DefaultOthers(accounts, id));
    if preferred.Some? then preferred else First(order, EnabledOthers(accounts, id))
  }

  /** COALESCE(MAX(column), -1) + 1. */
  ghost function NextFree(used: set<nat>): (r: nat)
    ensures forall s :: s in used ==> s < r
    ensures used == {} ==> r == 0
    ensures used != {} ==> r - 1 in used
  {
    if used == {} then 0
    else
      var s :| s in used;
      assert forall t :: t in used ==> t == s || t in used - {s};
      var rest := NextFree(used - {s});
      if s + 1 > rest then s + 1 else rest
  }

  function Positions(accounts: map<Id, Account>): set<nat> {
    set a | a in accounts :: accounts[a].position
  }

  // ------------------------------------------------------------- invariants

  /** The UNIQUE columns of the accounts table. */
  predicate UniqueColumns(accounts: map<Id, Account>) {
    forall a, b :: a in accounts && b in accounts && a != b ==>
      accounts[a].email != accounts[b].email && accounts[a].port != accounts[b].port
  }

  ghost predicate UniquePositions(accounts: map<Id, Account>) {
    forall a, b :: a in accounts && b in accounts && a != b ==> accounts[a].position != accounts[b].position
  }

  /** Exactly one default account when there are any, and it is enabled. */
  ghost predicate OneDefault(accounts: map<Id, Account>) {
    && (accounts != map[] ==> exists d :: d in accounts && accounts[d].isDefault)
    && (forall a :: a in accounts && accounts[a].isDefault ==> accounts[a].enabled)
    && (forall a, b :: a in accounts && b in accounts && accounts[a].isDefault && accounts[b].isDefault ==> a == b)
  }

  /** Every route belongs to an active user and targets an existing enabled account. */
  predicate RoutesTargetEnabled(c: Catalog) {
    forall u :: u in c.routes ==>
      && u in ActiveUsers(c.rows)
      && c.routes[u] in c.accounts
      && c.accounts[c.routes[u]].enabled
  }

  predicate HasRow(rows: map<nat, KeyRow>, user: User, id: Id) {
    exists s :: s in rows && Active(rows[s]) && rows[s].user == user && rows[s].account == id
  }

  /** Rows belong to existing accounts, and active ones name a user and a key. */
  predicate RowsComplete(c: Catalog) {
    forall s :: s in c.rows ==>
      c.rows[s].account in c.accounts && (Active(c.rows[s]) ==> c.rows[s].user != "" && c.rows[s].secret != "")
  }

  ghost predicate OneSecretEach(rows: map<nat, KeyRow>) {
    forall u, k, l :: k in UserSecrets(rows, u) && l in UserSecrets(rows, u) ==> k == l
  }

  predicate RowsEverywhere(c: Catalog) {
    forall u, a :: u in ActiveUsers(c.rows) && a in c.accounts ==> HasRow(c.rows, u, a)
  }

  /** Every active user has one secret and an active row on every account. */
  ghost predicate UnifiedKeys(c: Catalog) {
    RowsComplete(c) && OneSecretEach(c.rows) && RowsEverywhere(c)
  }

  ghost predicate ValidIds(accounts: map<Id, Account>) {
    forall a :: a in accounts ==> ValidId(a) && ValidPort(accounts[a].port)
  }

  ghost predicate Invariant(c: Catalog) {
    && ValidIds(c.accounts)
    && UniqueColumns(c.accounts)
    && UniquePositions(c.accounts)
    && OneDefault(c.accounts)
    && RoutesTargetEnabled(c)
    && UnifiedKeys(c)
  }

  /** Nothing in the catalog refers to an ID that has no account row. */
  ghost predicate NoRowsOf(c: Catalog, id: Id) {
    forall s :: s in c.rows ==> c.rows[s].account != id
  }

  ghost predicate NoRoutesTo(c: Catalog, id: Id) {
    forall u :: u in c.routes ==> c.routes[u] != id
  }

  // --------------------------------------------------------------- creation

  datatype Candidate = Candidate(id: Id, email: string, port: int, mode: ProxyMode, createdAt: int)

  datatype AccountCreation = AccountCreation(id: Id, account: Account, createdRows: map<nat, KeyRow>)

  /** `users` is the ordered, duplicate-free list of users with an active row. */
  ghost predicate ListsActiveUsers(users: seq<User>, rows: map<nat, KeyRow>) {
    && (forall u :: u in users <==> u in ActiveUsers(rows))
    && (forall i, j :: 0 <= i < j < |users| ==> users[i] != users[j])
  }

  ghost predicate HasUnifiedKey(rows: map<nat, KeyRow>, user: User) {
    user != "" && exists k :: k != "" && UserSecrets(rows, user) == {k}
  }

  ghost function SecretOf(rows: map<nat, KeyRow>, user: User): (k: Secret)
    requires UserSecrets(rows, user) != {}
    ensures k in UserSecrets(rows, user)
  {
    var k :| k in UserSecrets(rows, user);
    k
  }

  ghost function NewRow(rows: map<nat, KeyRow>, candidate: Candidate, user: User, now: int): KeyRow
    requires UserSecrets(rows, user) != {}
  {
    KeyRow(RowLabel(user, candidate.id), candidate.id, candidate.email, user, "active",
           SecretOf(rows, user), now, now)
  }

  /** One row per listed user, numbered from `first` in list order. */
  ghost function CreatedRows(rows: map<nat, KeyRow>, candidate: Candidate, users: seq<User>, first: nat, now: int)
    : map<nat, KeyRow>
    requires forall u :: u in users ==> UserSecrets(rows, u) != {}
  {
    if users == [] then map[]
    else
      var last := |users| - 1;
      CreatedRows(rows, candidate, users[..last], first, now)[first + last := NewRow(rows, candidate, users[last], now)]
  }

  ghost function CreatedAccount(c: Catalog, candidate: Candidate): Account {
    Account(candidate.email, candidate.port, candidate.mode, candidate.createdAt, true,
            |c.accounts| == 0, NextFree(Positions(c.accounts)))
  }

  function CandidateError(accounts: map<Id, Account>, candidate: Candidate): Option<CatalogError> {
    if !ValidId(candidate.id) || !ValidPort(candidate.port) then Some(InvalidInput)
    else if candidate.id in accounts then Some(AlreadyExists)
    else if exists a :: a in accounts && accounts[a].email == candidate.email then Some(EmailExists)
    else if exists a :: a in accounts && accounts[a].port == candidate.port then Some(PortExists)
    else None
  }

  ghost function CreationError(c: Catalog, candidate: Candidate, users: seq<User>): Option<CatalogError> {
    var refused := CandidateError(c.accounts, candidate);
    if refused.Some? then refused
    else if exists u :: u in users && !HasUnifiedKey(c.rows, u) then Some(Conflict)
    else None
  }

  ghost function ApplyCreation(c: Catalog, candidate: Candidate, users: seq<User>, now: int)
    : Result<(Catalog, AccountCreation), CatalogError>
  {
    var e := CreationError(c, candidate, users);
    if e.Some? then Err(e.value)
    else
      var account := CreatedAccount(c, candidate);
      var created := CreatedRows(c.rows, candidate, users, NextFree(c.rows.Keys), now);
      Ok((Catalog(c.accounts[candidate.id := account], c.rows + created, c.routes),
          AccountCreation(candidate.id, account, created)))
  }

  /** Every column but the position. */
  predicate SameAccount(left: Account, right: Account) {
    left.(position := 0) == right.(position := 0)
  }

  ghost predicate CreationFootprint(c: Catalog, creation: AccountCreation) {
    && creation.id in c.accounts
    && SameAccount(c.accounts[creation.id], creation.account)
    && NoRoutesTo(c, creation.id)
    && (forall s :: s in creation.createdRows ==> s in c.rows && c.rows[s] == creation.createdRows[s])
  }

  ghost function RestoreCreation(c: Catalog, creation: AccountCreation): Result<Catalog, CatalogError> {
    if !CreationFootprint(c, creation) then Err(Conflict)
    else Ok(Catalog(c.accounts - {creation.id}, c.rows - creation.createdRows.Keys, c.routes))
  }

  // ----------------------------------------------------------------- update

  datatype UpdateRequest = UpdateRequest(
    id: Id,
    newId: Id,
    email: string,
    mode: ProxyMode,
    enabled: Option<bool>,
    isDefault: Option<bool>,
    fallback: Option<Id>)

  datatype RouteChange = RouteChange(before: Id, after: Id)

  datatype AccountUpdate = AccountUpdate(
    id: Id,
    before: Account,
    newId: Id,
    after: Account,
    rowsBefore: map<nat, KeyRow>,
    rowsAfter: map<nat, KeyRow>,
    routes: map<User, RouteChange>,
    defaultsBefore: map<Id, bool>,
    defaultsAfter: map<Id, bool>)

  function DesiredEnabled(before: Account, request: UpdateRequest): bool {
    if request.enabled.Some? then request.enabled.value else before.enabled
  }

  function DesiredDefault(before: Account, request: UpdateRequest): bool {
    if request.isDefault.Some? then request.isDefault.value else before.isDefault
  }

  /** The fallback the transaction ends up with. */
  function UpdateFallback(order: seq<Id>, accounts: map<Id, Account>, request: UpdateRequest): Option<Id>
    requires request.id in accounts
  {
    var before := accounts[request.id];
    if request.fallback.Some? then request.fallback
    else if !DesiredEnabled(before, request) || (before.isDefault && !DesiredDefault(before, request)) then
      AutoFallback(order, accounts, request.id)
    else None
  }

  ghost function UpdateError(c: Catalog, request: UpdateRequest, order: seq<Id>): Option<CatalogError> {
    if !ValidId(request.id) || !ValidId(request.newId) then Some(InvalidInput)
    else if request.id !in c.accounts then Some(NotFound)
    else if request.newId != request.id && request.newId in c.accounts then Some(AlreadyExists)
    else if exists a :: a in c.accounts && a != request.id && c.accounts[a].email == request.email then Some(EmailExists)
    else
      var before := c.accounts[request.id];
      var enabled := DesiredEnabled(before, request);
      var isDefault := DesiredDefault(before, request);
      var others := EnabledOthers(c.accounts, request.id);
      var fallback := UpdateFallback(order, c.accounts, request);
      if !enabled && others == {} then Some(NeedsFallback)
      else if request.fallback.Some? && request.fallback.value !in others then Some(NeedsFallback)
      else if !enabled && isDefault then Some(InvalidInput)
      else if fallback.None? && (!enabled || (before.isDefault && !isDefault)) then Some(NeedsFallback)
      else None
  }

  function UpdatedAccount(before: Account, request: UpdateRequest): Account {
    before.(email := request.email, mode := request.mode,
            enabled := DesiredEnabled(before, request), isDefault := DesiredDefault(before, request))
  }

  function Rename<T>(m: map<Id, T>, id: Id, newId: Id, value: T): map<Id, T> {
    (m - {id})[newId := value]
  }

  /** UPDATE accounts SET default_group = CASE WHEN id = ? THEN 1 ELSE 0 END. */
  function SoleDefault(accounts: map<Id, Account>, id: Id): map<Id, Account> {
    map a | a in accounts :: accounts[a].(isDefault := a == id)
  }

  function UpdatedRow(row: KeyRow, request: UpdateRequest): KeyRow {
    if row.account == request.id then
      row.(account := request.newId, accountEmail := request.email, keyLabel := RowLabel(row.user, request.newId))
    else row
  }

  /** UPDATE user_routes SET account_id = `to` WHERE account_id = `from`. */
  function MoveRoutes(routes: map<User, Id>, from: Id, to: Id): map<User, Id> {
    map u | u in routes :: if routes[u] == from then to else routes[u]
  }

  function RenameChanges(routes: map<User, Id>, request: UpdateRequest): map<User, RouteChange> {
    if request.newId == request.id then map[]
    else map u | u in routes && routes[u] == request.id :: RouteChange(request.id, request.newId)
  }

  function DisableChanges(routes: map<User, Id>, request: UpdateRequest, fallback: Id): map<User, RouteChange> {
    map u | u in routes && routes[u] == request.newId :: RouteChange(request.id, fallback)
  }

  ghost function UpdatedAccounts(c: Catalog, request: UpdateRequest, fallback: Option<Id>): map<Id, Account>
    requires request.id in c.accounts
  {
    var before := c.accounts[request.id];
    var renamed := Rename(c.accounts, request.id, request.newId, UpdatedAccount(before, request));
    if DesiredDefault(before, request) then SoleDefault(renamed, request.newId)
    else if before.isDefault && fallback.Some? then SoleDefault(renamed, fallback.value)
    else renamed
  }

  ghost function UpdatedRoutes(c: Catalog, request: UpdateRequest, fallback: Option<Id>): map<User, Id>
    requires request.id in c.accounts
  {
    var renamed := if request.newId == request.id then c.routes else MoveRoutes(c.routes, request.id, request.newId);
    if DesiredEnabled(c.accounts[request.id], request) || fallback.None? then renamed
    else MoveRoutes(renamed, request.newId, fallback.value)
  }

  ghost function UpdateChanges(c: Catalog, request: UpdateRequest, fallback: Option<Id>): map<User, RouteChange>
    requires request.id in c.accounts
  {
    var renamed := if request.newId == request.id then c.routes else MoveRoutes(c.routes, request.id, request.newId);
    var changes := RenameChanges(c.routes, request);
    if DesiredEnabled(c.accounts[request.id], request) || fallback.None? then changes
    else changes + DisableChanges(renamed, request, fallback.value)
  }

  ghost function Updated(c: Catalog, request: UpdateRequest, fallback: Option<Id>): Catalog
    requires request.id in c.accounts
  {
    Catalog(UpdatedAccounts(c, request, fallback),
            map s | s in c.rows :: UpdatedRow(c.rows[s], request),
            UpdatedRoutes(c, request, fallback))
  }

  ghost function ApplyUpdate(c: Catalog, request: UpdateRequest, order: seq<Id>)
    : Result<(Catalog, AccountUpdate), CatalogError>
  {
    var e := UpdateError(c, request, order);
    if e.Some? then Err(e.value)
    else
      var fallback := UpdateFallback(order, c.accounts, request);
      var next := Updated(c, request, fallback);
      Ok((next,
          AccountUpdate(request.id, c.accounts[request.id], request.newId, next.accounts[request.newId],
                        AccountRows(c.rows, request.id), AccountRows(next.rows, request.newId),
                        UpdateChanges(c, request, fallback),
                        DefaultFlags(c.accounts), DefaultFlags(next.accounts))))
  }

  ghost predicate UpdateFootprint(c: Catalog, update: AccountUpdate) {
    && update.newId in c.accounts
    && c.accounts[update.newId] == update.after
    && (update.id != update.newId ==> update.id !in c.accounts)
    && AccountRows(c.rows, update.newId) == update.rowsAfter
    && (forall u :: u in update.routes ==> u in c.routes && c.routes[u] == update.routes[u].after)
    && (forall a :: a in update.defaultsAfter ==> a in c.accounts && c.accounts[a].isDefault == update.defaultsAfter[a])
  }

  /** UPDATE accounts SET default_group = ? WHERE id = ?, for every recorded flag. */
  function WithDefaults(accounts: map<Id, Account>, flags: map<Id, bool>): map<Id, Account> {
    map a | a in accounts :: if a in flags then accounts[a].(isDefault := flags[a]) else accounts[a]
  }

  function UndoneRoutes(routes: map<User, Id>, changes: map<User, RouteChange>): map<User, Id> {
    map u | u in routes ::
      if u in changes && routes[u] == changes[u].after then changes[u].before else routes[u]
  }

  /** A sequence number may be inserted only where no row is left. */
  predicate FreeSequences(rows: map<nat, KeyRow>, inserted: map<nat, KeyRow>) {
    forall s :: s in inserted ==> s !in rows
  }

  function WithoutRowsOf(rows: map<nat, KeyRow>, id: Id): map<nat, KeyRow> {
    map s | s in rows && rows[s].account != id :: rows[s]
  }

  ghost function RestoreUpdate(c: Catalog, update: AccountUpdate): Result<Catalog, CatalogError> {
    if !UpdateFootprint(c, update) then Err(Conflict)
    else
      var renamed := Rename(c.accounts, update.newId, update.id, update.before);
      var kept := WithoutRowsOf(c.rows, update.newId);
      if !UniqueColumns(renamed) || !FreeSequences(kept, update.rowsBefore) then Err(Constraint)
      else Ok(Catalog(WithDefaults(renamed, update.defaultsBefore), kept + update.rowsBefore,
                      UndoneRoutes(c.routes, update.routes)))
  }

  // --------------------------------------------------------------- deletion

  datatype AccountDeletion = AccountDeletion(
    id: Id,
    account: Account,
    rows: map<nat, KeyRow>,
    routes: map<User, RouteChange>,
    defaults: map<Id, bool>,
    fallback: Id,
    revoked: set<Secret>)

  /** Active keys of the account whose user has them on no other account. */
  ghost function ExclusiveKeys(rows: map<nat, KeyRow>, id: Id): set<Secret> {
    set s | s in rows && rows[s].account == id && Active(rows[s]) && !KeyElsewhere(rows, id, rows[s]) :: rows[s].secret
  }

  predicate KeyElsewhere(rows: map<nat, KeyRow>, id: Id, row: KeyRow) {
    exists t :: t in rows && rows[t].user == row.user && rows[t].secret == row.secret && Active(rows[t]) && rows[t].account != id
  }

  function DeletionFallback(accounts: map<Id, Account>, id: Id, fallback: Option<Id>, order: seq<Id>): Option<Id> {
    if fallback.Some? then fallback else AutoFallback(order, accounts, id)
  }

  ghost function DeletionError(c: Catalog, id: Id, fallback: Option<Id>, revoke: bool, order: seq<Id>): Option<CatalogError> {
    if !ValidId(id) then Some(InvalidInput)
    else if id !in c.accounts then Some(NotFound)
    else if |c.accounts| <= 1 then Some(DeleteLast)
    else if fallback.Some? && fallback.value !in EnabledOthers(c.accounts, id) then Some(NeedsFallback)
    else if DeletionFallback(c.accounts, id, fallback, order).None? then Some(NeedsFallback)
    else if ExclusiveKeys(c.rows, id) != {} && !revoke then Some(RequiresRevoke)
    else None
  }

  function DeletionChanges(routes: map<User, Id>, id: Id, fallback: Id): map<User, RouteChange> {
    map u | u in routes && routes[u] == id :: RouteChange(id, fallback)
  }

  ghost function Deleted(c: Catalog, id: Id, fallback: Id): Catalog
    requires id in c.accounts
  {
    Catalog((if c.accounts[id].isDefault then SoleDefault(c.accounts, fallback) else c.accounts) - {id},
            WithoutRowsOf(c.rows, id),
            MoveRoutes(c.routes, id, fallback))
  }

  ghost function ApplyDeletion(c: Catalog, id: Id, fallback: Option<Id>, revoke: bool, order: seq<Id>)
    : Result<(Catalog, AccountDeletion), CatalogError>
  {
    var e := DeletionError(c, id, fallback, revoke, order);
    if e.Some? then Err(e.value)
    else
      var target := DeletionFallback(c.accounts, id, fallback, order).value;
      Ok((Deleted(c, id, target),
          AccountDeletion(id, c.accounts[id], AccountRows(c.rows, id), DeletionChanges(c.routes, id, target),
                          DefaultFlags(c.accounts), target, ExclusiveKeys(c.rows, id))))
  }

  ghost predicate DeletionFootprint(c: Catalog, deletion: AccountDeletion) {
    && deletion.id !in c.accounts
    && (forall u :: u in deletion.routes ==> u in c.routes && c.routes[u] == deletion.routes[u].after)
    && FreeSequences(c.rows, deletion.rows)
  }

  ghost function RestoreDeletion(c: Catalog, deletion: AccountDeletion): Result<Catalog, CatalogError> {
    if !DeletionFootprint(c, deletion) then Err(Conflict)
    else
      var restored := c.accounts[deletion.id := deletion.account];
      if !UniqueColumns(restored) then Err(Constraint)
      else Ok(Catalog(WithDefaults(restored, deletion.defaults), c.rows + deletion.rows,
                      UndoneRoutes(c.routes, deletion.routes)))
  }
}
