/**
 * What the account transactions keep and undo: Restore after Apply is the
 * identity exactly when nothing dangled on the new ID, every Apply keeps the
 * catalog invariant, and no API key changes.
 */
module CatalogLaws {
  import opened Wrappers
  import opened Catalog

  // ------------------------------------------------------------- table lemmas

  ghost predicate SameColumns(next: map<Id, Account>, accounts: map<Id, Account>) {
    forall a :: a in next ==> a in accounts && next[a].(isDefault := true) == accounts[a].(isDefault := true)
  }

  lemma SameColumnsUnique(next: map<Id, Account>, accounts: map<Id, Account>)
    requires SameColumns(next, accounts)
    ensures UniqueColumns(accounts) ==> UniqueColumns(next)
    ensures UniquePositions(accounts) ==> UniquePositions(next)
    ensures ValidIds(accounts) ==> ValidIds(next)
  {
    hide ValidId;
    assert forall a :: a in next ==>
      next[a].email == accounts[a].email && next[a].port == accounts[a].port && next[a].position == accounts[a].position;
  }

  lemma SoleDefaultIsOne(accounts: map<Id, Account>, d: Id)
    requires d in accounts && accounts[d].enabled
    ensures OneDefault(SoleDefault(accounts, d))
    ensures SameColumns(SoleDefault(accounts, d), accounts)
  {
    assert SoleDefault(accounts, d)[d].isDefault;
  }

  /** Tables with the same users, status and keys have the same active users and secrets. */
  lemma SameKeysSameUsers(next: map<nat, KeyRow>, rows: map<nat, KeyRow>)
    requires next.Keys == rows.Keys
    requires forall s :: s in rows ==>
      next[s].user == rows[s].user && next[s].status == rows[s].status && next[s].secret == rows[s].secret
    ensures ActiveUsers(next) == ActiveUsers(rows)
    ensures forall u :: UserSecrets(next, u) == UserSecrets(rows, u)
  {
    assert forall s :: s in rows ==> (Active(next[s]) <==> Active(rows[s]));
    forall u
      ensures UserSecrets(next, u) == UserSecrets(rows, u)
    {
    }
  }

  lemma SameSecret(rows: map<nat, KeyRow>, s: nat, t: nat)
    requires OneSecretEach(rows)
    requires s in rows && t in rows && Active(rows[s]) && Active(rows[t]) && rows[s].user == rows[t].user
    ensures rows[s].secret == rows[t].secret
  {
    assert rows[s].secret in UserSecrets(rows, rows[s].user) && rows[t].secret in UserSecrets(rows, rows[s].user);
  }

  // ------------------------------------------------------- restore undoes apply

  lemma CreatedRowAt(rows: map<nat, KeyRow>, candidate: Candidate, users: seq<User>, first: nat, now: int, s: nat)
    requires forall u :: u in users ==> UserSecrets(rows, u) != {}
    requires s in CreatedRows(rows, candidate, users, first, now)
    ensures first <= s < first + |users|
    ensures CreatedRows(rows, candidate, users, first, now)[s] == NewRow(rows, candidate, users[s - first], now)
  {
    hide NewRow, UserSecrets;
    var last := |users| - 1;
    if s != first + last {
      CreatedRowAt(rows, candidate, users[..last], first, now, s);
    }
  }

  lemma CreatedRowOf(rows: map<nat, KeyRow>, candidate: Candidate, users: seq<User>, first: nat, now: int, user: User)
    returns (s: nat)
    requires forall u :: u in users ==> UserSecrets(rows, u) != {}
    requires user in users
    ensures
      var created := CreatedRows(rows, candidate, users, first, now);
      s < first + |users| && s in created && created[s] == NewRow(rows, candidate, user, now)
  {
    hide NewRow, UserSecrets;
    var last := |users| - 1;
    if users[last] == user {
      s := first + last;
    } else {
      s := CreatedRowOf(rows, candidate, users[..last], first, now, user);
    }
  }

  lemma RestoreCreationUndoes(c: Catalog, candidate: Candidate, users: seq<User>, now: int)
    requires ApplyCreation(c, candidate, users, now).Ok?
    ensures
      var (next, creation) := ApplyCreation(c, candidate, users, now).value;
      RestoreCreation(next, creation) == Ok(c) <==> NoRoutesTo(c, candidate.id)
  {
    hide ValidId, UserSecrets, SecretOf, NewRow, CreatedRows, CreatedAccount;
    var (next, creation) := ApplyCreation(c, candidate, users, now).value;
    forall s | s in creation.createdRows
      ensures s >= NextFree(c.rows.Keys)
    {
      CreatedRowAt(c.rows, candidate, users, NextFree(c.rows.Keys), now, s);
    }
    RowsRemoved(c.rows, creation.createdRows);
    assert next.accounts - {candidate.id} == c.accounts;
  }

  lemma RowsRemoved(rows: map<nat, KeyRow>, created: map<nat, KeyRow>)
    requires forall s :: s in created ==> s >= NextFree(rows.Keys)
    ensures rows + created - created.Keys == rows
  {
  }

  /** No row of the new ID, and no route to it when the routes are moved on. */
  ghost predicate NothingDangles(c: Catalog, request: UpdateRequest)
    requires request.id in c.accounts
  {
    request.newId == request.id ||
    (NoRowsOf(c, request.newId) &&
     (DesiredEnabled(c.accounts[request.id], request) || NoRoutesTo(c, request.newId)))
  }

  lemma AccountsBack(c: Catalog, request: UpdateRequest, fallback: Option<Id>)
    requires request.id in c.accounts && (request.newId == request.id || request.newId !in c.accounts)
    requires UniqueColumns(c.accounts)
    ensures
      var renamed := Rename(UpdatedAccounts(c, request, fallback), request.newId, request.id, c.accounts[request.id]);
      UniqueColumns(renamed) && WithDefaults(renamed, DefaultFlags(c.accounts)) == c.accounts
  {
    hide UniqueColumns;
    var renamed := Rename(UpdatedAccounts(c, request, fallback), request.newId, request.id, c.accounts[request.id]);
    RenamedBack(c, request, fallback);
    SameColumnsUnique(renamed, c.accounts);
    hide UpdatedAccounts, Rename;
  }

  lemma RenamedBack(c: Catalog, request: UpdateRequest, fallback: Option<Id>)
    requires request.id in c.accounts && (request.newId == request.id || request.newId !in c.accounts)
    ensures
      var renamed := Rename(UpdatedAccounts(c, request, fallback), request.newId, request.id, c.accounts[request.id]);
      && renamed.Keys == c.accounts.Keys && SameColumns(renamed, c.accounts)
      && forall a :: a in renamed ==> renamed[a].(isDefault := c.accounts[a].isDefault) == c.accounts[a]
  {
  }

  lemma RowsBack(c: Catalog, request: UpdateRequest, fallback: Option<Id>)
    requires request.id in c.accounts
    ensures
      var kept := WithoutRowsOf(Updated(c, request, fallback).rows, request.newId);
      && FreeSequences(kept, AccountRows(c.rows, request.id))
      && (kept + AccountRows(c.rows, request.id) == c.rows <==> request.newId == request.id || NoRowsOf(c, request.newId))
  {
    hide UpdatedAccounts, UpdatedRoutes;
    var kept := WithoutRowsOf(Updated(c, request, fallback).rows, request.newId);
    var back := kept + AccountRows(c.rows, request.id);
    forall s | s in c.rows
      ensures s in back <==> request.newId == request.id || c.rows[s].account != request.newId
      ensures s in back ==> back[s] == c.rows[s]
    {
    }
    assert back.Keys <= c.rows.Keys;
  }

  lemma RouteBack(c: Catalog, request: UpdateRequest, fallback: Option<Id>, u: User)
    requires request.id in c.accounts && (fallback.Some? ==> fallback.value != request.id)
    requires !DesiredEnabled(c.accounts[request.id], request) ==> fallback.Some? && fallback.value != request.newId
    requires u in c.routes
    ensures
      var undone := UndoneRoutes(UpdatedRoutes(c, request, fallback), UpdateChanges(c, request, fallback));
      var moved := request.newId != request.id && !DesiredEnabled(c.accounts[request.id], request);
      u in undone && undone[u] == if moved && c.routes[u] == request.newId then request.id else c.routes[u]
  {
    hide DesiredEnabled;
  }

  lemma RoutesBack(c: Catalog, request: UpdateRequest, fallback: Option<Id>)
    requires request.id in c.accounts && (fallback.Some? ==> fallback.value != request.id)
    requires !DesiredEnabled(c.accounts[request.id], request) ==> fallback.Some? && fallback.value != request.newId
    ensures
      UndoneRoutes(UpdatedRoutes(c, request, fallback), UpdateChanges(c, request, fallback)) == c.routes <==>
        request.newId == request.id || DesiredEnabled(c.accounts[request.id], request) || NoRoutesTo(c, request.newId)
  {
    var undone := UndoneRoutes(UpdatedRoutes(c, request, fallback), UpdateChanges(c, request, fallback));
    assert undone.Keys <= c.routes.Keys;
    forall u | u in c.routes {
      RouteBack(c, request, fallback, u);
    }
    hide DesiredEnabled, UndoneRoutes, UpdatedRoutes, UpdateChanges;
  }

  lemma NotRefused(c: Catalog, request: UpdateRequest, order: seq<Id>)
    requires UpdateError(c, request, order).None?
    ensures request.id in c.accounts
  {
    hide ValidId, DesiredEnabled, DesiredDefault, EnabledOthers, UpdateFallback;
  }

  lemma UpdatedNames(c: Catalog, request: UpdateRequest, fallback: Option<Id>)
    requires request.id in c.accounts
    ensures request.newId in UpdatedAccounts(c, request, fallback)
    ensures request.newId != request.id ==> request.id !in UpdatedAccounts(c, request, fallback)
  {
    hide DesiredDefault, UpdatedAccount;
  }

  lemma UpdatedRoutesRecorded(c: Catalog, request: UpdateRequest, fallback: Option<Id>)
    requires request.id in c.accounts
    ensures
      var changes := UpdateChanges(c, request, fallback);
      forall u :: u in changes ==> u in UpdatedRoutes(c, request, fallback) && UpdatedRoutes(c, request, fallback)[u] == changes[u].after
  {
    hide DesiredEnabled;
  }

  /** Right after an update its footprint is there. */
  lemma UpdateLeavesFootprint(c: Catalog, request: UpdateRequest, order: seq<Id>)
    requires ApplyUpdate(c, request, order).Ok?
    ensures UpdateFootprint(ApplyUpdate(c, request, order).value.0, ApplyUpdate(c, request, order).value.1)
  {
    hide UpdateError, UpdateFallback, UpdatedRow, UpdatedAccounts, UpdatedRoutes, UpdateChanges;
    NotRefused(c, request, order);
    var fallback := UpdateFallback(order, c.accounts, request);
    UpdatedNames(c, request, fallback);
    UpdatedRoutesRecorded(c, request, fallback);
  }

  /** Rename, disabling, rerouting and default transfer together are undone exactly. */
  lemma RestoreUpdateUndoes(c: Catalog, request: UpdateRequest, order: seq<Id>)
    requires ApplyUpdate(c, request, order).Ok?
    requires UniqueColumns(c.accounts)
    ensures
      var (next, update) := ApplyUpdate(c, request, order).value;
      RestoreUpdate(next, update) == Ok(c) <==> NothingDangles(c, request)
  {
    hide ValidId, AutoFallback, DesiredEnabled, DesiredDefault, UpdatedAccount, UpdatedAccounts, UpdatedRoutes, UpdateChanges;
    hide UniqueColumns, WithDefaults, Rename, WithoutRowsOf, AccountRows, UndoneRoutes, DefaultFlags;
    var fallback := UpdateFallback(order, c.accounts, request);
    UpdateLeavesFootprint(c, request, order);
    AccountsBack(c, request, fallback);
    RowsBack(c, request, fallback);
    RoutesBack(c, request, fallback);
    hide UpdateFootprint, FreeSequences, UpdateFallback, EnabledOthers, UpdatedRow, NoRowsOf, NoRoutesTo;
  }

  lemma DeletedAccountsBack(accounts: map<Id, Account>, id: Id, fallback: Id)
    requires id in accounts && UniqueColumns(accounts)
    ensures
      var left := (if accounts[id].isDefault then SoleDefault(accounts, fallback) else accounts) - {id};
      var restored := left[id := accounts[id]];
      UniqueColumns(restored) && WithDefaults(restored, DefaultFlags(accounts)) == accounts
  {
    var left := (if accounts[id].isDefault then SoleDefault(accounts, fallback) else accounts) - {id};
    var restored := left[id := accounts[id]];
    assert restored.Keys == accounts.Keys;
    assert SameColumns(restored, accounts);
    SameColumnsUnique(restored, accounts);
    hide UniqueColumns, ValidIds, UniquePositions;
  }

  lemma DeletedRowsBack(rows: map<nat, KeyRow>, id: Id)
    ensures WithoutRowsOf(rows, id) + AccountRows(rows, id) == rows
    ensures FreeSequences(WithoutRowsOf(rows, id), AccountRows(rows, id))
  {
  }

  lemma DeletedRoutesBack(routes: map<User, Id>, id: Id, fallback: Id)
    requires id != fallback
    ensures UndoneRoutes(MoveRoutes(routes, id, fallback), DeletionChanges(routes, id, fallback)) == routes
  {
  }

  lemma RestoreDeletionUndoes(c: Catalog, id: Id, fallback: Option<Id>, revoke: bool, order: seq<Id>)
    requires ApplyDeletion(c, id, fallback, revoke, order).Ok?
    requires UniqueColumns(c.accounts)
    ensures
      var (next, deletion) := ApplyDeletion(c, id, fallback, revoke, order).value;
      RestoreDeletion(next, deletion) == Ok(c)
  {
    hide ValidId, ExclusiveKeys, AutoFallback, First;
    var (next, deletion) := ApplyDeletion(c, id, fallback, revoke, order).value;
    DeletedAccountsBack(c.accounts, id, deletion.fallback);
    DeletedRowsBack(c.rows, id);
    DeletedRoutesBack(c.routes, id, deletion.fallback);
    hide UniqueColumns, WithDefaults, WithoutRowsOf, AccountRows, UndoneRoutes, DefaultFlags, SoleDefault;
  }

  // ------------------------------------------------------ apply keeps invariant

  lemma AddedDefault(accounts: map<Id, Account>, id: Id, account: Account)
    requires OneDefault(accounts) && id !in accounts
    requires account.enabled && (account.isDefault <==> |accounts| == 0)
    ensures OneDefault(accounts[id := account])
  {
    var next := accounts[id := account];
    if accounts == map[] {
      assert next[id].isDefault;
    } else {
      var d :| d in accounts && accounts[d].isDefault;
      assert next[d].isDefault;
    }
  }

  lemma AddedColumns(accounts: map<Id, Account>, id: Id, account: Account)
    requires UniqueColumns(accounts) && id !in accounts
    requires forall a :: a in accounts ==> accounts[a].email != account.email && accounts[a].port != account.port
    ensures UniqueColumns(accounts[id := account])
  {
  }

  lemma AddedPosition(accounts: map<Id, Account>, id: Id, account: Account)
    requires UniquePositions(accounts) && id !in accounts
    requires account.position == NextFree(Positions(accounts))
    ensures UniquePositions(accounts[id := account])
  {
    assert forall a :: a in accounts ==> accounts[a].position in Positions(accounts);
  }

  lemma AddAccount(accounts: map<Id, Account>, id: Id, account: Account)
    requires ValidIds(accounts) && UniqueColumns(accounts) && UniquePositions(accounts) && OneDefault(accounts)
    requires id !in accounts && ValidId(id) && ValidPort(account.port)
    requires forall a :: a in accounts ==> accounts[a].email != account.email && accounts[a].port != account.port
    requires account.position == NextFree(Positions(accounts))
    requires account.enabled && (account.isDefault <==> |accounts| == 0)
    ensures
      var next := accounts[id := account];
      ValidIds(next) && UniqueColumns(next) && UniquePositions(next) && OneDefault(next)
  {
    AddedDefault(accounts, id, account);
    AddedColumns(accounts, id, account);
    AddedPosition(accounts, id, account);
    hide OneDefault, ValidId, ValidPort, UniqueColumns, UniquePositions;
  }

  /** Creation copies the users' keys and adds no user. */
  lemma CreationKeepsUsers(c: Catalog, candidate: Candidate, users: seq<User>, now: int)
    requires ListsActiveUsers(users, c.rows)
    requires ApplyCreation(c, candidate, users, now).Ok?
    ensures
      var next := ApplyCreation(c, candidate, users, now).value.0;
      && ActiveUsers(next.rows) == ActiveUsers(c.rows)
      && forall u :: UserSecrets(next.rows, u) == UserSecrets(c.rows, u)
  {
    hide ValidId, CreatedAccount;
    var (next, creation) := ApplyCreation(c, candidate, users, now).value;
    forall s | s in creation.createdRows
      ensures s !in c.rows && AddsNoUser(c.rows, creation.createdRows[s])
    {
      CreatedRowAt(c.rows, candidate, users, NextFree(c.rows.Keys), now, s);
      assert users[s - NextFree(c.rows.Keys)] in users;
    }
    CopiedKeys(c.rows, creation.createdRows);
    hide CreationError, CreatedRows, UserSecrets, ActiveUsers, AddsNoUser;
  }

  ghost predicate AddsNoUser(rows: map<nat, KeyRow>, row: KeyRow) {
    row.user in ActiveUsers(rows) && row.secret in UserSecrets(rows, row.user)
  }

  lemma CopiedKeys(rows: map<nat, KeyRow>, created: map<nat, KeyRow>)
    requires forall s :: s in created ==> s !in rows && AddsNoUser(rows, created[s])
    ensures ActiveUsers(rows + created) == ActiveUsers(rows)
    ensures forall u :: UserSecrets(rows + created, u) == UserSecrets(rows, u)
  {
    var next := rows + created;
    assert forall s :: s in rows ==> next[s] == rows[s];
    forall u
      ensures UserSecrets(next, u) == UserSecrets(rows, u)
    {
      forall s | s in rows && Active(rows[s]) && rows[s].user == u
        ensures rows[s].secret in UserSecrets(next, u)
      {
        assert Active(next[s]);
      }
    }
    forall s | s in rows && Active(rows[s])
      ensures rows[s].user in ActiveUsers(next)
    {
      assert Active(next[s]);
    }
  }

  lemma CreatedRowsUnify(c: Catalog, candidate: Candidate, users: seq<User>, now: int)
    requires UnifiedKeys(c) && ListsActiveUsers(users, c.rows)
    requires ApplyCreation(c, candidate, users, now).Ok?
    ensures
      var next := ApplyCreation(c, candidate, users, now).value.0;
      forall u, a :: u in ActiveUsers(c.rows) && a in next.accounts ==> HasRow(next.rows, u, a)
  {
    hide ValidId, CreatedAccount, UserSecrets;
    var (next, creation) := ApplyCreation(c, candidate, users, now).value;
    var created := creation.createdRows;
    forall s | s in created
      ensures s !in c.rows
    {
      CreatedRowAt(c.rows, candidate, users, NextFree(c.rows.Keys), now, s);
    }
    forall u, a | u in ActiveUsers(c.rows) && a in next.accounts
      ensures HasRow(next.rows, u, a)
    {
      if a == candidate.id {
        var s := CreatedRowOf(c.rows, candidate, users, NextFree(c.rows.Keys), now, u);
        assert next.rows[s] == NewRow(c.rows, candidate, u, now);
      } else {
        assert HasRow(c.rows, u, a);
        var s :| s in c.rows && Active(c.rows[s]) && c.rows[s].user == u && c.rows[s].account == a;
        assert next.rows[s] == c.rows[s];
      }
    }
  }

  lemma NewRowsAreComplete(c: Catalog, candidate: Candidate, users: seq<User>, now: int)
    requires RowsComplete(c)
    requires ApplyCreation(c, candidate, users, now).Ok?
    ensures RowsComplete(ApplyCreation(c, candidate, users, now).value.0)
  {
    hide ValidId, CreatedAccount, CreatedRows, HasUnifiedKey, SecretOf, UserSecrets;
    var (next, creation) := ApplyCreation(c, candidate, users, now).value;
    forall u | u in users
      ensures u != "" && UserSecrets(c.rows, u) != {} && SecretOf(c.rows, u) != ""
    {
      UnifiedKeyIsNamed(c.rows, u);
    }
    forall s | s in creation.createdRows
      ensures next.rows[s].account == candidate.id && next.rows[s].user != "" && next.rows[s].secret != ""
    {
      CreatedRowAt(c.rows, candidate, users, NextFree(c.rows.Keys), now, s);
    }
  }

  lemma UnifiedKeyIsNamed(rows: map<nat, KeyRow>, user: User)
    requires HasUnifiedKey(rows, user)
    ensures user != "" && UserSecrets(rows, user) != {} && SecretOf(rows, user) != ""
  {
    hide UserSecrets;
  }

  lemma CreationKeepsTables(c: Catalog, candidate: Candidate, users: seq<User>, now: int)
    requires ValidIds(c.accounts) && UniqueColumns(c.accounts) && UniquePositions(c.accounts) && OneDefault(c.accounts)
    requires ApplyCreation(c, candidate, users, now).Ok?
    ensures
      var next := ApplyCreation(c, candidate, users, now).value.0;
      ValidIds(next.accounts) && UniqueColumns(next.accounts) && UniquePositions(next.accounts) && OneDefault(next.accounts)
  {
    hide ValidId, UniqueColumns, UniquePositions, OneDefault, ValidIds, CreatedRows;
    AddAccount(c.accounts, candidate.id, CreatedAccount(c, candidate));
  }

  lemma CreationKeepsRoutes(c: Catalog, candidate: Candidate, users: seq<User>, now: int)
    requires RoutesTargetEnabled(c) && ListsActiveUsers(users, c.rows)
    requires ApplyCreation(c, candidate, users, now).Ok?
    ensures RoutesTargetEnabled(ApplyCreation(c, candidate, users, now).value.0)
  {
    hide ValidId, ActiveUsers, UserSecrets, CreatedRows, CreatedAccount;
    CreationKeepsUsers(c, candidate, users, now);
  }

  lemma CreationKeepsInvariant(c: Catalog, candidate: Candidate, users: seq<User>, now: int)
    requires Invariant(c) && ListsActiveUsers(users, c.rows)
    requires ApplyCreation(c, candidate, users, now).Ok?
    ensures Invariant(ApplyCreation(c, candidate, users, now).value.0)
  {
    hide ValidIds, UniqueColumns, UniquePositions, OneDefault, RoutesTargetEnabled, RowsComplete;
    hide ListsActiveUsers, CreationError, CreatedRows, CreatedAccount, UserSecrets, ActiveUsers, HasRow;
    CreationKeepsTables(c, candidate, users, now);
    CreationKeepsRoutes(c, candidate, users, now);
    NewRowsAreComplete(c, candidate, users, now);
    CreationKeepsUsers(c, candidate, users, now);
    CreatedRowsUnify(c, candidate, users, now);
  }

  lemma RenamedAccounts(accounts: map<Id, Account>, id: Id, newId: Id, value: Account)
    requires id in accounts && (newId == id || newId !in accounts) && ValidId(newId)
    requires ValidIds(accounts) && UniqueColumns(accounts) && UniquePositions(accounts)
    requires value.port == accounts[id].port && value.position == accounts[id].position
    requires forall a :: a in accounts && a != id ==> accounts[a].email != value.email
    ensures
      var next := Rename(accounts, id, newId, value);
      ValidIds(next) && UniqueColumns(next) && UniquePositions(next)
  {
    hide ValidId, ValidPort;
  }

  lemma RenamedDefault(accounts: map<Id, Account>, id: Id, newId: Id, value: Account)
    requires id in accounts && (newId == id || newId !in accounts)
    requires OneDefault(accounts) && !accounts[id].isDefault && !value.isDefault
    ensures OneDefault(Rename(accounts, id, newId, value))
  {
    var next := Rename(accounts, id, newId, value);
    var d :| d in accounts && accounts[d].isDefault;
    assert next[d].isDefault;
  }

  lemma UpdateKeepsAccounts(c: Catalog, request: UpdateRequest, order: seq<Id>)
    requires ValidIds(c.accounts) && UniqueColumns(c.accounts) && UniquePositions(c.accounts) && OneDefault(c.accounts)
    requires ApplyUpdate(c, request, order).Ok?
    ensures
      var next := ApplyUpdate(c, request, order).value.0;
      ValidIds(next.accounts) && UniqueColumns(next.accounts) && UniquePositions(next.accounts) && OneDefault(next.accounts)
  {
    hide ValidId, AutoFallback, UniqueColumns, UniquePositions, ValidIds, OneDefault, UpdateChanges, UpdatedRoutes, SoleDefault;
    var before := c.accounts[request.id];
    var fallback := UpdateFallback(order, c.accounts, request);
    var renamed := Rename(c.accounts, request.id, request.newId, UpdatedAccount(before, request));
    RenamedAccounts(c.accounts, request.id, request.newId, UpdatedAccount(before, request));
    if DesiredDefault(before, request) {
      SoleDefaultIsOne(renamed, request.newId);
      SameColumnsUnique(SoleDefault(renamed, request.newId), renamed);
    } else if before.isDefault {
      SoleDefaultIsOne(renamed, fallback.value);
      SameColumnsUnique(SoleDefault(renamed, fallback.value), renamed);
    } else {
      RenamedDefault(c.accounts, request.id, request.newId, UpdatedAccount(before, request));
    }
  }

  /** An update renames rows but touches no user, status or key. */
  lemma UpdateKeepsUsers(c: Catalog, request: UpdateRequest, order: seq<Id>)
    requires ApplyUpdate(c, request, order).Ok?
    ensures
      var next := ApplyUpdate(c, request, order).value.0;
      && ActiveUsers(next.rows) == ActiveUsers(c.rows)
      && forall u :: UserSecrets(next.rows, u) == UserSecrets(c.rows, u)
  {
    hide ValidId, UpdatedAccounts, UpdatedRoutes, UpdateChanges, AutoFallback;
    var next := ApplyUpdate(c, request, order).value.0;
    SameKeysSameUsers(next.rows, c.rows);
  }

  lemma UpdateKeepsRows(c: Catalog, request: UpdateRequest, order: seq<Id>)
    requires RowsComplete(c) && RowsEverywhere(c) && ApplyUpdate(c, request, order).Ok?
    ensures
      var next := ApplyUpdate(c, request, order).value.0;
      RowsComplete(next) && RowsEverywhere(next)
  {
    hide ValidId, UpdatedRoutes, UpdateChanges, AutoFallback, DesiredEnabled, DesiredDefault, ActiveUsers, UserSecrets;
    var next := ApplyUpdate(c, request, order).value.0;
    assert next.accounts.Keys == c.accounts.Keys - {request.id} + {request.newId};
    assert forall s :: s in next.rows ==> next.rows[s] == UpdatedRow(c.rows[s], request);
    UpdateKeepsUsers(c, request, order);
    hide ApplyUpdate, UpdatedAccounts, UpdateError;
    RenamedRows(c, next, request);
  }

  lemma RenamedRows(c: Catalog, next: Catalog, request: UpdateRequest)
    requires RowsComplete(c) && RowsEverywhere(c) && request.id in c.accounts
    requires next.accounts.Keys == c.accounts.Keys - {request.id} + {request.newId}
    requires next.rows.Keys == c.rows.Keys
    requires forall s :: s in next.rows ==> next.rows[s] == UpdatedRow(c.rows[s], request)
    requires ActiveUsers(next.rows) == ActiveUsers(c.rows)
    ensures RowsComplete(next) && RowsEverywhere(next)
  {
    hide ActiveUsers;
    forall u, a | u in ActiveUsers(next.rows) && a in next.accounts
      ensures HasRow(next.rows, u, a)
    {
      var from := if a == request.newId then request.id else a;
      assert HasRow(c.rows, u, from);
      var s :| s in c.rows && Active(c.rows[s]) && c.rows[s].user == u && c.rows[s].account == from;
      assert Active(next.rows[s]) && next.rows[s].user == u && next.rows[s].account == a;
    }
  }

  lemma UpdateKeepsUnified(c: Catalog, request: UpdateRequest, order: seq<Id>)
    requires UnifiedKeys(c) && ApplyUpdate(c, request, order).Ok?
    ensures UnifiedKeys(ApplyUpdate(c, request, order).value.0)
  {
    UpdateKeepsRows(c, request, order);
    UpdateKeepsUsers(c, request, order);
    hide ApplyUpdate, RowsComplete, RowsEverywhere, UserSecrets;
  }

  lemma UpdateKeepsRoutes(c: Catalog, request: UpdateRequest, order: seq<Id>)
    requires RoutesTargetEnabled(c) && ApplyUpdate(c, request, order).Ok?
    ensures RoutesTargetEnabled(ApplyUpdate(c, request, order).value.0)
  {
    hide ValidId, AutoFallback, ActiveUsers, UserSecrets;
    var next := ApplyUpdate(c, request, order).value.0;
    UpdateKeepsUsers(c, request, order);
    forall u | u in next.routes
      ensures next.routes[u] in next.accounts && next.accounts[next.routes[u]].enabled
    {
      assert c.routes[u] in c.accounts;
    }
  }

  lemma UpdateKeepsInvariant(c: Catalog, request: UpdateRequest, order: seq<Id>)
    requires Invariant(c) && ApplyUpdate(c, request, order).Ok?
    ensures Invariant(ApplyUpdate(c, request, order).value.0)
  {
    UpdateKeepsAccounts(c, request, order);
    UpdateKeepsRoutes(c, request, order);
    UpdateKeepsUnified(c, request, order);
    hide *;
  }

  lemma OtherAccount(accounts: map<Id, Account>, id: Id) returns (other: Id)
    requires |accounts| > 1
    ensures other in accounts && other != id
  {
    if accounts.Keys <= {id} {
      SubsetIsSmaller(accounts.Keys, {id});
    }
    other :| other in accounts.Keys && other != id;
  }

  lemma SubsetIsSmaller<T>(a: set<T>, b: set<T>)
    requires a <= b
    ensures |a| <= |b|
  {
    if a != {} {
      var x :| x in a;
      SubsetIsSmaller(a - {x}, b - {x});
    }
  }

  /** With unified keys no key is exclusive to one of several accounts. */
  lemma NoExclusiveKeys(c: Catalog, id: Id)
    requires UnifiedKeys(c) && id in c.accounts && |c.accounts| > 1
    ensures ExclusiveKeys(c.rows, id) == {}
  {
    var other := OtherAccount(c.accounts, id);
    forall s | s in c.rows && c.rows[s].account == id && Active(c.rows[s])
      ensures KeyElsewhere(c.rows, id, c.rows[s])
    {
      assert c.rows[s].user in ActiveUsers(c.rows);
      assert HasRow(c.rows, c.rows[s].user, other);
      var t :| t in c.rows && Active(c.rows[t]) && c.rows[t].user == c.rows[s].user && c.rows[t].account == other;
      SameSecret(c.rows, s, t);
    }
  }

  lemma KeysSurvive(c: Catalog, id: Id)
    requires UnifiedKeys(c) && |c.accounts| > 1
    ensures ActiveUsers(WithoutRowsOf(c.rows, id)) == ActiveUsers(c.rows)
    ensures forall u :: UserSecrets(WithoutRowsOf(c.rows, id), u) == UserSecrets(c.rows, u)
  {
    var left := WithoutRowsOf(c.rows, id);
    var other := OtherAccount(c.accounts, id);
    forall s | s in c.rows && Active(c.rows[s])
      ensures c.rows[s].user in ActiveUsers(left) && c.rows[s].secret in UserSecrets(left, c.rows[s].user)
    {
      assert HasRow(c.rows, c.rows[s].user, other);
      var t :| t in c.rows && Active(c.rows[t]) && c.rows[t].user == c.rows[s].user && c.rows[t].account == other;
      SameSecret(c.rows, s, t);
      assert t in left && Active(left[t]);
    }
    forall u
      ensures UserSecrets(left, u) == UserSecrets(c.rows, u)
    {
    }
  }

  /** Deleting one of several accounts costs no user a key. */
  lemma DeletionKeepsUsers(c: Catalog, id: Id, fallback: Option<Id>, revoke: bool, order: seq<Id>)
    requires UnifiedKeys(c) && ApplyDeletion(c, id, fallback, revoke, order).Ok?
    ensures
      var (next, deletion) := ApplyDeletion(c, id, fallback, revoke, order).value;
      && ActiveUsers(next.rows) == ActiveUsers(c.rows)
      && (forall u :: UserSecrets(next.rows, u) == UserSecrets(c.rows, u))
      && deletion.revoked == {}
  {
    hide ValidId, AutoFallback, UserSecrets, ActiveUsers, HasRow;
    KeysSurvive(c, id);
    NoExclusiveKeys(c, id);
  }

  lemma DeletionKeepsAccounts(accounts: map<Id, Account>, id: Id, fallback: Id)
    requires ValidIds(accounts) && UniqueColumns(accounts) && UniquePositions(accounts) && OneDefault(accounts)
    requires id in accounts && fallback in EnabledOthers(accounts, id)
    ensures
      var next := (if accounts[id].isDefault then SoleDefault(accounts, fallback) else accounts) - {id};
      ValidIds(next) && UniqueColumns(next) && UniquePositions(next) && OneDefault(next)
  {
    hide ValidId;
    var next := (if accounts[id].isDefault then SoleDefault(accounts, fallback) else accounts) - {id};
    assert SameColumns(next, accounts);
    SameColumnsUnique(next, accounts);
    hide UniqueColumns, UniquePositions, ValidIds;
    if accounts[id].isDefault {
      assert next[fallback].isDefault;
    } else {
      var d :| d in accounts && accounts[d].isDefault;
      assert next[d].isDefault;
    }
  }

  lemma DeletionKeepsRows(c: Catalog, id: Id, fallback: Option<Id>, revoke: bool, order: seq<Id>)
    requires UnifiedKeys(c) && ApplyDeletion(c, id, fallback, revoke, order).Ok?
    ensures UnifiedKeys(ApplyDeletion(c, id, fallback, revoke, order).value.0)
  {
    hide ValidId, AutoFallback, UserSecrets, ExclusiveKeys, DeletionChanges, MoveRoutes;
    var (next, deletion) := ApplyDeletion(c, id, fallback, revoke, order).value;
    DeletionKeepsUsers(c, id, fallback, revoke, order);
    assert next.accounts.Keys == c.accounts.Keys - {id};
    hide ActiveUsers;
    forall u, a | u in ActiveUsers(next.rows) && a in next.accounts
      ensures HasRow(next.rows, u, a)
    {
      assert HasRow(c.rows, u, a);
      var s :| s in c.rows && Active(c.rows[s]) && c.rows[s].user == u && c.rows[s].account == a;
      assert s in next.rows && next.rows[s] == c.rows[s];
    }
  }

  lemma DeletionKeepsRoutes(c: Catalog, id: Id, fallback: Option<Id>, revoke: bool, order: seq<Id>)
    requires UnifiedKeys(c) && RoutesTargetEnabled(c) && ApplyDeletion(c, id, fallback, revoke, order).Ok?
    ensures RoutesTargetEnabled(ApplyDeletion(c, id, fallback, revoke, order).value.0)
  {
    hide ValidId, AutoFallback, UserSecrets, ExclusiveKeys, DeletionChanges, ActiveUsers, UnifiedKeys;
    DeletionKeepsUsers(c, id, fallback, revoke, order);
  }

  lemma DeletionKeepsInvariant(c: Catalog, id: Id, fallback: Option<Id>, revoke: bool, order: seq<Id>)
    requires Invariant(c) && ApplyDeletion(c, id, fallback, revoke, order).Ok?
    ensures Invariant(ApplyDeletion(c, id, fallback, revoke, order).value.0)
  {
    hide ValidIds, UniqueColumns, UniquePositions, OneDefault, RoutesTargetEnabled, UnifiedKeys;
    hide ExclusiveKeys, AutoFallback;
    var (next, deletion) := ApplyDeletion(c, id, fallback, revoke, order).value;
    DeletionKeepsAccounts(c.accounts, id, deletion.fallback);
    DeletionKeepsRoutes(c, id, fallback, revoke, order);
    DeletionKeepsRows(c, id, fallback, revoke, order);
  }
}
