/**
 * The bodies of the account transactions, statement by statement.  Each works
 * on the transaction's private view of the tables and is proved to compute
 * what Catalog specifies; nothing is stored when it reports an error.
 */
module Transactions {
  import opened Wrappers
  import opened Catalog

  // -------------------------------------------------------------- selections

  method FirstByPosition(todo: set<Id>, accounts: map<Id, Account>) returns (first: Id)
    requires todo != {} && todo <= accounts.Keys
    ensures first in todo && forall a :: a in todo ==> accounts[first].position <= accounts[a].position
  {
    first :| first in todo;
    var rest := todo - {first};
    while rest != {}
      invariant rest <= todo && first in todo
      invariant forall a :: a in todo && a !in rest ==> accounts[first].position <= accounts[a].position
      decreases |rest|
    {
      var a :| a in rest;
      rest := rest - {a};
      if accounts[a].position < accounts[first].position {
        first := a;
      }
    }
  }

  /** SELECT ... FROM accounts ORDER BY position. */
  method SelectAccounts(accounts: map<Id, Account>) returns (order: seq<Id>)
    ensures Lists(order, accounts)
  {
    order := [];
    var todo := accounts.Keys;
    while todo != {}
      invariant todo <= accounts.Keys
      invariant forall a :: a in order <==> a in accounts && a !in todo
      invariant forall i, j :: 0 <= i < j < |order| ==> order[i] != order[j]
      invariant forall i, j :: 0 <= i < j < |order| ==> accounts[order[i]].position <= accounts[order[j]].position
      invariant forall i, a :: 0 <= i < |order| && a in todo ==> accounts[order[i]].position <= accounts[a].position
      decreases |todo|
    {
      var first := FirstByPosition(todo, accounts);
      order := order + [first];
      todo := todo - {first};
    }
  }

  /** SELECT ... FROM key_records WHERE status = 'active' GROUP BY user_email. */
  method SelectActiveUsers(rows: map<nat, KeyRow>) returns (users: seq<User>)
    ensures ListsActiveUsers(users, rows)
  {
    users := [];
    var todo := ActiveUsers(rows);
    while todo != {}
      invariant todo <= ActiveUsers(rows)
      invariant forall u :: u in users <==> u in ActiveUsers(rows) && u !in todo
      invariant forall i, j :: 0 <= i < j < |users| ==> users[i] != users[j]
      decreases |todo|
    {
      hide ActiveUsers;
      var u :| u in todo;
      users := users + [u];
      todo := todo - {u};
    }
  }

  /** SELECT COALESCE(MAX(column), -1) + 1. */
  method AllocateNext(used: set<nat>) returns (next: nat)
    ensures next == NextFree(used)
  {
    next := 0;
    var todo := used;
    while todo != {}
      invariant todo <= used
      invariant forall s :: s in used && s !in todo ==> s < next
      invariant next == 0 || next - 1 in used
      decreases |todo|
    {
      var s :| s in todo;
      todo := todo - {s};
      if next <= s {
        next := s + 1;
      }
    }
  }

  /** The first enabled default account, or else the first enabled one. */
  method PickFallback(order: seq<Id>, accounts: map<Id, Account>, id: Id) returns (fallback: Option<Id>)
    ensures fallback == AutoFallback(order, accounts, id)
  {
    fallback := FirstIn(order, DefaultOthers(accounts, id));
    if fallback.None? {
      fallback := FirstIn(order, EnabledOthers(accounts, id));
    }
  }

  method FirstIn(order: seq<Id>, wanted: set<Id>) returns (first: Option<Id>)
    ensures first == First(order, wanted)
  {
    first := None;
    var i := 0;
    while i < |order| && first.None?
      invariant 0 <= i <= |order|
      invariant First(order, wanted) == if first.Some? then first else First(order[i..], wanted)
      decreases |order| - i, first.None?
    {
      if order[i] in wanted {
        first := Some(order[i]);
      } else {
        i := i + 1;
      }
    }
  }

  // ---------------------------------------------------------------- creation

  /** key_count = 1 and a non-empty user and key. */
  lemma UnifiedKeyCheck(rows: map<nat, KeyRow>, user: User)
    ensures HasUnifiedKey(rows, user) <==>
      user != "" && |UserSecrets(rows, user)| == 1 && "" !in UserSecrets(rows, user)
    ensures HasUnifiedKey(rows, user) ==>
      UserSecrets(rows, user) != {} && forall k :: k in UserSecrets(rows, user) ==> k == SecretOf(rows, user)
  {
    var keys := UserSecrets(rows, user);
    hide UserSecrets;
    if |keys| == 1 {
      var k :| k in keys;
      assert |keys - {k}| == 0;
      assert keys == {k};
    }
  }

  /** One row per user, each with the user's own key; refused unless every user has exactly one. */
  method CreateKeyRows(rows: map<nat, KeyRow>, candidate: Candidate, users: seq<User>, first: nat, now: int)
    returns (ok: bool, created: map<nat, KeyRow>)
    ensures ok <==> forall u :: u in users ==> HasUnifiedKey(rows, u)
    ensures ok ==> (forall u :: u in users ==> UserSecrets(rows, u) != {}) && created == CreatedRows(rows, candidate, users, first, now)
  {
    hide UserSecrets, RowLabel, HasUnifiedKey, SecretOf;
    ok, created := true, map[];
    var i := 0;
    while i < |users| && ok
      invariant 0 <= i <= |users|
      invariant forall u :: u in users[..i] ==> HasUnifiedKey(rows, u) && UserSecrets(rows, u) != {}
      invariant ok ==> created == CreatedRows(rows, candidate, users[..i], first, now)
      invariant !ok ==> i < |users| && !HasUnifiedKey(rows, users[i])
      decreases |users| - i, ok
    {
      var user := users[i];
      var keys := UserSecrets(rows, user);
      UnifiedKeyCheck(rows, user);
      if user == "" || |keys| != 1 || "" in keys {
        ok := false;
      } else {
        var key :| key in keys;
        assert users[..i + 1][..i] == users[..i];
        created := created[first + i := KeyRow(RowLabel(user, candidate.id), candidate.id, candidate.email, user, "active", key, now, now)];
        i := i + 1;
      }
    }
    assert users[..|users|] == users;
  }

  method ApplyAccountCreation(c: Catalog, candidate: Candidate, now: int)
    returns (r: Result<(Catalog, AccountCreation), CatalogError>, users: seq<User>)
    ensures ListsActiveUsers(users, c.rows) && r == ApplyCreation(c, candidate, users, now)
  {
    hide ActiveUsers, UserSecrets, HasUnifiedKey, CreatedRows, ListsActiveUsers;
    users := SelectActiveUsers(c.rows);
    var refused := CandidateError(c.accounts, candidate);
    hide CandidateError;
    if refused.Some? {
      r := Err(refused.value);
    } else {
      var position := AllocateNext(Positions(c.accounts));
      var sequence := AllocateNext(c.rows.Keys);
      var ok, created := CreateKeyRows(c.rows, candidate, users, sequence, now);
      if ok {
        var account := Account(candidate.email, candidate.port, candidate.mode, candidate.createdAt, true, |c.accounts| == 0, position);
        r := Ok((Catalog(c.accounts[candidate.id := account], c.rows + created, c.routes),
                 AccountCreation(candidate.id, account, created)));
      } else {
        r := Err(Conflict);
      }
    }
  }

  method RowsUnchanged(rows: map<nat, KeyRow>, expected: map<nat, KeyRow>) returns (same: bool)
    ensures same <==> forall s :: s in expected ==> s in rows && rows[s] == expected[s]
  {
    same := true;
    var todo := expected.Keys;
    while todo != {} && same
      invariant todo <= expected.Keys
      invariant same ==> forall s :: s in expected && s !in todo ==> s in rows && rows[s] == expected[s]
      invariant !same ==> exists s :: s in expected && !(s in rows && rows[s] == expected[s])
      decreases |todo|, same
    {
      var s :| s in todo;
      if s in rows && rows[s] == expected[s] {
        todo := todo - {s};
      } else {
        same := false;
      }
    }
  }

  method RestoreAccountCreation(c: Catalog, creation: AccountCreation) returns (r: Result<Catalog, CatalogError>)
    ensures r == RestoreCreation(c, creation)
  {
    if creation.id !in c.accounts || !SameAccount(c.accounts[creation.id], creation.account) {
      r := Err(Conflict);
    } else if exists u :: u in c.routes && c.routes[u] == creation.id {
      r := Err(Conflict);
    } else {
      var same := RowsUnchanged(c.rows, creation.createdRows);
      if same {
        r := Ok(Catalog(c.accounts - {creation.id}, c.rows - creation.createdRows.Keys, c.routes));
      } else {
        r := Err(Conflict);
      }
    }
  }

  // ------------------------------------------------------------------ update

  method CheckUpdate(c: Catalog, request: UpdateRequest, order: seq<Id>)
    returns (refused: Option<CatalogError>, fallback: Option<Id>)
    ensures refused == UpdateError(c, request, order)
    ensures refused.None? ==> request.id in c.accounts && fallback == UpdateFallback(order, c.accounts, request)
  {
    hide ValidId, First;
    refused, fallback := None, request.fallback;
    if !ValidId(request.id) || !ValidId(request.newId) {
      refused := Some(InvalidInput);
    } else if request.id !in c.accounts {
      refused := Some(NotFound);
    } else if request.newId != request.id && request.newId in c.accounts {
      refused := Some(AlreadyExists);
    } else if exists a :: a in c.accounts && a != request.id && c.accounts[a].email == request.email {
      refused := Some(EmailExists);
    } else {
      refused, fallback := CheckFallback(c.accounts, request, order);
    }
  }

  method CheckFallback(accounts: map<Id, Account>, request: UpdateRequest, order: seq<Id>)
    returns (refused: Option<CatalogError>, fallback: Option<Id>)
    requires request.id in accounts
    ensures fallback == UpdateFallback(order, accounts, request)
    ensures refused ==
      var before := accounts[request.id];
      var enabled, isDefault := DesiredEnabled(before, request), DesiredDefault(before, request);
      var others := EnabledOthers(accounts, request.id);
      if !enabled && others == {} then Some(NeedsFallback)
      else if request.fallback.Some? && request.fallback.value !in others then Some(NeedsFallback)
      else if !enabled && isDefault then Some(InvalidInput)
      else if fallback.None? && (!enabled || (before.isDefault && !isDefault)) then Some(NeedsFallback)
      else None
  {
    hide AutoFallback, EnabledOthers;
    var before := accounts[request.id];
    var enabled := if request.enabled.Some? then request.enabled.value else before.enabled;
    var isDefault := if request.isDefault.Some? then request.isDefault.value else before.isDefault;
    var others := EnabledOthers(accounts, request.id);
    refused, fallback := None, request.fallback;
    if fallback.None? && (!enabled || (before.isDefault && !isDefault)) {
      fallback := PickFallback(order, accounts, request.id);
    }
    if !enabled && others == {} {
      refused := Some(NeedsFallback);
    } else if request.fallback.Some? && request.fallback.value !in others {
      refused := Some(NeedsFallback);
    } else if !enabled && isDefault {
      refused := Some(InvalidInput);
    } else if fallback.None? && (!enabled || (before.isDefault && !isDefault)) {
      refused := Some(NeedsFallback);
    }
  }

  /** The routes of an updated account, and what changed for each user. */
  method RerouteUpdated(routes: map<User, Id>, request: UpdateRequest, enabled: bool, fallback: Option<Id>)
    returns (next: map<User, Id>, changes: map<User, RouteChange>)
    ensures
      var renamed := if request.newId == request.id then routes else MoveRoutes(routes, request.id, request.newId);
      && next == (if enabled || fallback.None? then renamed else MoveRoutes(renamed, request.newId, fallback.value))
      && changes == (if enabled || fallback.None? then RenameChanges(routes, request)
                     else RenameChanges(routes, request) + DisableChanges(renamed, request, fallback.value))
  {
    next, changes := routes, map[];
    if request.newId != request.id {
      changes := RecordMoved(routes, request.id, request.id, request.newId, map[]);
      next := MoveRoutes(routes, request.id, request.newId);
      assert changes == RenameChanges(routes, request);
    }
    if !enabled && fallback.Some? {
      assert DisableChanges(next, request, fallback.value) ==
        map u | u in next && next[u] == request.newId :: RouteChange(request.id, fallback.value);
      changes := RecordMoved(next, request.newId, request.id, fallback.value, changes);
      next := MoveRoutes(next, request.newId, fallback.value);
    }
  }

  /** Appends one change per user on `current`, or redirects the one already recorded. */
  method RecordMoved(routes: map<User, Id>, current: Id, before: Id, after: Id, recorded: map<User, RouteChange>)
    returns (changes: map<User, RouteChange>)
    requires forall u :: u in recorded ==> recorded[u].before == before
    ensures changes == recorded + map u | u in routes && routes[u] == current :: RouteChange(before, after)
  {
    changes := recorded;
    var moved := set u | u in routes && routes[u] == current;
    var todo := moved;
    while todo != {}
      invariant todo <= moved
      invariant changes.Keys == recorded.Keys + (moved - todo)
      invariant forall u :: u in changes ==>
        changes[u] == if u in moved && u !in todo then RouteChange(before, after) else recorded[u]
      decreases |todo|
    {
      var user :| user in todo;
      todo := todo - {user};
      var change := if user in changes then changes[user].(after := after) else RouteChange(before, after);
      assert change == RouteChange(before, after);
      changes := changes[user := change];
    }
    AllRecorded(changes, recorded, routes, current, RouteChange(before, after));
  }

  lemma AllRecorded(changes: map<User, RouteChange>, recorded: map<User, RouteChange>,
                    routes: map<User, Id>, current: Id, change: RouteChange)
    requires forall u :: u in changes <==> u in recorded || (u in routes && routes[u] == current)
    requires forall u :: u in changes ==>
      changes[u] == if u in routes && routes[u] == current then change else recorded[u]
    ensures changes == recorded + map u | u in routes && routes[u] == current :: change
  {
  }

  method WriteUpdated(accounts: map<Id, Account>, request: UpdateRequest, fallback: Option<Id>) returns (next: map<Id, Account>)
    requires request.id in accounts
    ensures next == UpdatedAccounts(Catalog(accounts, map[], map[]), request, fallback)
  {
    var before := accounts[request.id];
    next := Rename(accounts, request.id, request.newId, UpdatedAccount(before, request));
    if DesiredDefault(before, request) {
      next := SoleDefault(next, request.newId);
    } else if before.isDefault && fallback.Some? {
      next := SoleDefault(next, fallback.value);
    }
  }

  method ApplyAccountUpdate(c: Catalog, request: UpdateRequest)
    returns (r: Result<(Catalog, AccountUpdate), CatalogError>, order: seq<Id>)
    ensures Lists(order, c.accounts) && r == ApplyUpdate(c, request, order)
  {
    order := SelectAccounts(c.accounts);
    hide Lists, UpdateError, UpdateFallback, MoveRoutes, RenameChanges, DisableChanges, Rename, SoleDefault, DesiredDefault;
    var refused, fallback := CheckUpdate(c, request, order);
    if refused.Some? {
      r := Err(refused.value);
    } else {
      var accounts := WriteUpdated(c.accounts, request, fallback);
      var rows := map s | s in c.rows :: UpdatedRow(c.rows[s], request);
      var routes, changes := RerouteUpdated(c.routes, request, DesiredEnabled(c.accounts[request.id], request), fallback);
      assert request.newId in accounts by { NewIdWritten(c, request, fallback); }
      r := Ok((Catalog(accounts, rows, routes),
               AccountUpdate(request.id, c.accounts[request.id], request.newId, accounts[request.newId],
                             AccountRows(c.rows, request.id), AccountRows(rows, request.newId), changes,
                             DefaultFlags(c.accounts), DefaultFlags(accounts))));
    }
  }

  lemma NewIdWritten(c: Catalog, request: UpdateRequest, fallback: Option<Id>)
    requires request.id in c.accounts
    ensures request.newId in UpdatedAccounts(c, request, fallback)
  {
  }

  /** Every recorded route still reads as the transaction left it. */
  method RoutesUnchanged(routes: map<User, Id>, changes: map<User, RouteChange>) returns (same: bool)
    ensures same <==> forall u :: u in changes ==> u in routes && routes[u] == changes[u].after
  {
    same := true;
    var todo := changes.Keys;
    while todo != {} && same
      invariant todo <= changes.Keys
      invariant same ==> forall u :: u in changes && u !in todo ==> u in routes && routes[u] == changes[u].after
      invariant !same ==> exists u :: u in changes && !(u in routes && routes[u] == changes[u].after)
      decreases |todo|, same
    {
      var user :| user in todo;
      if user in routes && routes[user] == changes[user].after {
        todo := todo - {user};
      } else {
        same := false;
      }
    }
  }

  method DefaultsUnchanged(accounts: map<Id, Account>, flags: map<Id, bool>) returns (same: bool)
    ensures same <==> forall a :: a in flags ==> a in accounts && accounts[a].isDefault == flags[a]
  {
    same := true;
    var todo := flags.Keys;
    while todo != {} && same
      invariant todo <= flags.Keys
      invariant same ==> forall a :: a in flags && a !in todo ==> a in accounts && accounts[a].isDefault == flags[a]
      invariant !same ==> exists a :: a in flags && !(a in accounts && accounts[a].isDefault == flags[a])
      decreases |todo|, same
    {
      var id :| id in todo;
      if id in accounts && accounts[id].isDefault == flags[id] {
        todo := todo - {id};
      } else {
        same := false;
      }
    }
  }

  /** UPDATE user_routes ... WHERE user_email = ? AND account_id = ?, once per recorded change. */
  method UndoRoutes(routes: map<User, Id>, changes: map<User, RouteChange>) returns (undone: map<User, Id>)
    ensures undone == UndoneRoutes(routes, changes)
  {
    undone := routes;
    var todo := changes.Keys;
    while todo != {}
      invariant todo <= changes.Keys && undone.Keys == routes.Keys
      invariant forall u :: u in routes ==>
        undone[u] == if u in changes && u !in todo && routes[u] == changes[u].after then changes[u].before else routes[u]
      decreases |todo|
    {
      var user :| user in todo;
      todo := todo - {user};
      if user in undone && undone[user] == changes[user].after {
        undone := undone[user := changes[user].before];
      }
    }
  }

  /** UPDATE accounts SET default_group = ? WHERE id = ?, once per recorded flag. */
  method RestoreDefaults(accounts: map<Id, Account>, flags: map<Id, bool>) returns (next: map<Id, Account>)
    ensures next == WithDefaults(accounts, flags)
  {
    next := accounts;
    var todo := flags.Keys;
    while todo != {}
      invariant todo <= flags.Keys && next.Keys == accounts.Keys
      invariant forall a :: a in accounts ==>
        next[a] == if a in flags && a !in todo then accounts[a].(isDefault := flags[a]) else accounts[a]
      decreases |todo|
    {
      var id :| id in todo;
      todo := todo - {id};
      if id in next {
        next := next[id := next[id].(isDefault := flags[id])];
      }
    }
  }

  method RestoreAccountUpdate(c: Catalog, update: AccountUpdate) returns (r: Result<Catalog, CatalogError>)
    ensures r == RestoreUpdate(c, update)
  {
    hide AccountRows, WithDefaults, UndoneRoutes, UniqueColumns, FreeSequences, WithoutRowsOf, Rename;
    if update.newId !in c.accounts || c.accounts[update.newId] != update.after {
      return Err(Conflict);
    }
    if (update.id != update.newId && update.id in c.accounts) || AccountRows(c.rows, update.newId) != update.rowsAfter {
      return Err(Conflict);
    }
    var same := RoutesUnchanged(c.routes, update.routes);
    var sameDefaults := DefaultsUnchanged(c.accounts, update.defaultsAfter);
    if !same || !sameDefaults {
      return Err(Conflict);
    }
    assert UpdateFootprint(c, update);
    hide UpdateFootprint;
    var renamed := Rename(c.accounts, update.newId, update.id, update.before);
    var kept := WithoutRowsOf(c.rows, update.newId);
    if !UniqueColumns(renamed) || !FreeSequences(kept, update.rowsBefore) {
      return Err(Constraint);
    }
    var routes := UndoRoutes(c.routes, update.routes);
    var accounts := RestoreDefaults(renamed, update.defaultsBefore);
    r := Ok(Catalog(accounts, kept + update.rowsBefore, routes));
  }

  // ---------------------------------------------------------------- deletion

  /** Counts, for each active key of the account, the same key elsewhere. */
  method FindExclusive(rows: map<nat, KeyRow>, id: Id) returns (exclusive: set<Secret>)
    ensures exclusive == ExclusiveKeys(rows, id)
  {
    hide KeyElsewhere;
    exclusive := {};
    var todo := set s | s in rows && rows[s].account == id;
    while todo != {}
      invariant todo <= set s | s in rows && rows[s].account == id
      invariant exclusive == set s | s in rows && rows[s].account == id && s !in todo && Active(rows[s]) && !KeyElsewhere(rows, id, rows[s]) :: rows[s].secret
      decreases |todo|
    {
      var s :| s in todo;
      todo := todo - {s};
      if Active(rows[s]) && !KeyElsewhere(rows, id, rows[s]) {
        exclusive := exclusive + {rows[s].secret};
      }
    }
  }

  method ApplyAccountDeletion(c: Catalog, id: Id, requested: Option<Id>, revoke: bool)
    returns (r: Result<(Catalog, AccountDeletion), CatalogError>, order: seq<Id>)
    ensures Lists(order, c.accounts) && r == ApplyDeletion(c, id, requested, revoke, order)
  {
    order := SelectAccounts(c.accounts);
    hide Lists, ExclusiveKeys, AutoFallback, IdLetter, EnabledOthers, SoleDefault, MoveRoutes, WithoutRowsOf;
    if !ValidId(id) {
      return Err(InvalidInput), order;
    }
    if id !in c.accounts {
      return Err(NotFound), order;
    }
    if |c.accounts| <= 1 {
      return Err(DeleteLast), order;
    }
    var fallback := requested;
    if requested.Some? && requested.value !in EnabledOthers(c.accounts, id) {
      return Err(NeedsFallback), order;
    }
    if requested.None? {
      fallback := PickFallback(order, c.accounts, id);
    }
    if fallback.None? {
      return Err(NeedsFallback), order;
    }
    var exclusive := FindExclusive(c.rows, id);
    if exclusive != {} && !revoke {
      return Err(RequiresRevoke), order;
    }
    r := DeleteRows(c, id, fallback.value, exclusive);
  }

  method DeleteRows(c: Catalog, id: Id, fallback: Id, exclusive: set<Secret>)
    returns (r: Result<(Catalog, AccountDeletion), CatalogError>)
    requires id in c.accounts
    ensures r == Ok((Deleted(c, id, fallback),
                     AccountDeletion(id, c.accounts[id], AccountRows(c.rows, id), DeletionChanges(c.routes, id, fallback),
                                     DefaultFlags(c.accounts), fallback, exclusive)))
  {
    var changes := RecordMoved(c.routes, id, id, fallback, map[]);
    assert changes == DeletionChanges(c.routes, id, fallback);
    var routes := MoveRoutes(c.routes, id, fallback);
    var accounts := c.accounts;
    if accounts[id].isDefault {
      accounts := SoleDefault(accounts, fallback);
    }
    r := Ok((Catalog(accounts - {id}, WithoutRowsOf(c.rows, id), routes),
             AccountDeletion(id, c.accounts[id], AccountRows(c.rows, id), changes, DefaultFlags(c.accounts), fallback, exclusive)));
  }

  method RestoreAccountDeletion(c: Catalog, deletion: AccountDeletion) returns (r: Result<Catalog, CatalogError>)
    ensures r == RestoreDeletion(c, deletion)
  {
    hide WithDefaults, UndoneRoutes, UniqueColumns, FreeSequences;
    var same := RoutesUnchanged(c.routes, deletion.routes);
    if deletion.id in c.accounts || !same || !FreeSequences(c.rows, deletion.rows) {
      return Err(Conflict);
    }
    assert DeletionFootprint(c, deletion);
    hide DeletionFootprint;
    var restored := c.accounts[deletion.id := deletion.account];
    if !UniqueColumns(restored) {
      return Err(Constraint);
    }
    var routes := UndoRoutes(c.routes, deletion.routes);
    var accounts := RestoreDefaults(restored, deletion.defaults);
    r := Ok(Catalog(accounts, c.rows + deletion.rows, routes));
  }
}
