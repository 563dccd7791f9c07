/**
 * What the account transactions accept, write and record, stated over the
 * tables alone and whatever the order in which accounts are listed.
 */
module TransactionLaws {
  import opened Wrappers
  import opened Catalog
  import opened CatalogLaws

  // ----------------------------------------------------------------- fallback

  /** Another account that is enabled. */
  predicate Available(accounts: map<Id, Account>, id: Id, a: Id) {
    a in accounts && a != id && accounts[a].enabled
  }

  /**
   * The account that takes over: the requested one, or else an available
   * default account, or else the first available one by position.
   */
  ghost predicate TakesOver(accounts: map<Id, Account>, id: Id, requested: Option<Id>, f: Id) {
    && Available(accounts, id, f)
    && (requested.Some? ==> f == requested.value)
    && (requested.None? ==>
          forall a :: Available(accounts, id, a) ==>
            || (accounts[f].isDefault && !accounts[a].isDefault)
            || (accounts[f].isDefault == accounts[a].isDefault && accounts[f].position <= accounts[a].position))
  }

  lemma OnlyOneTakesOver(accounts: map<Id, Account>, id: Id, requested: Option<Id>, f: Id, g: Id)
    requires UniquePositions(accounts) && TakesOver(accounts, id, requested, f) && TakesOver(accounts, id, requested, g)
    ensures f == g
  {
    assert requested.None? ==> accounts[f].position == accounts[g].position;
  }

  /** The automatic choice takes over, and there is one whenever any account is available. */
  lemma FallbackTakesOver(accounts: map<Id, Account>, id: Id, order: seq<Id>)
    requires Lists(order, accounts)
    ensures
      var chosen := AutoFallback(order, accounts, id);
      && (chosen.Some? <==> exists a :: Available(accounts, id, a))
      && (chosen.Some? ==> TakesOver(accounts, id, None, chosen.value))
  {
    assert forall a :: Available(accounts, id, a) <==> a in EnabledOthers(accounts, id);
    FirstIsLeast(accounts, DefaultOthers(accounts, id), order);
    FirstIsLeast(accounts, EnabledOthers(accounts, id), order);
    hide First, Lists;
  }

  lemma FirstIsLeast(accounts: map<Id, Account>, wanted: set<Id>, order: seq<Id>)
    requires Lists(order, accounts) && wanted <= accounts.Keys
    ensures
      var first := First(order, wanted);
      && (first.None? <==> wanted == {})
      && (first.Some? ==>
            first.value in wanted && forall a :: a in wanted ==> accounts[first.value].position <= accounts[a].position)
  {
    if a :| a in wanted {
      assert a in order;
    }
    FirstInOrder(order, wanted);
    var first := First(order, wanted);
    if first.Some? {
      var i :| 0 <= i < |order| && order[i] == first.value && forall j :: 0 <= j < i ==> order[j] !in wanted;
      forall a | a in wanted
        ensures accounts[first.value].position <= accounts[a].position
      {
        var k :| 0 <= k < |order| && order[k] == a;
        assert k >= i;
      }
    }
  }

  lemma {:induction false} FirstInOrder(order: seq<Id>, wanted: set<Id>)
    ensures First(order, wanted).Some? ==>
      exists i :: 0 <= i < |order| && order[i] == First(order, wanted).value && forall j :: 0 <= j < i ==> order[j] !in wanted
  {
    if order != [] && order[0] !in wanted && First(order, wanted).Some? {
      FirstInOrder(order[1..], wanted);
      var i :| 0 <= i < |order[1..]| && order[1..][i] == First(order[1..], wanted).value &&
        forall j :: 0 <= j < i ==> order[1..][j] !in wanted;
      assert order[i + 1] == First(order, wanted).value;
      forall j | 0 <= j < i + 1
        ensures order[j] !in wanted
      {
        if j > 0 {
          assert order[1..][j - 1] == order[j];
        }
      }
    } else if order != [] && order[0] in wanted {
      assert order[0] == First(order, wanted).value;
    }
  }

  // ----------------------------------------------------------------- creation

  /** Every active row names its user and key, and rows of one user carry one key. */
  ghost predicate KeysAgree(rows: map<nat, KeyRow>) {
    && (forall s :: s in rows && rows[s].status == "active" ==> rows[s].user != "" && rows[s].secret != "")
    && (forall s, t :: s in rows && t in rows && rows[s].status == "active" && rows[t].status == "active" ==>
          rows[s].user == rows[t].user ==> rows[s].secret == rows[t].secret)
  }

  /** What a creation needs, over the catalog alone. */
  ghost predicate MayCreate(c: Catalog, candidate: Candidate) {
    && ValidId(candidate.id) && 1 <= candidate.port <= 65535 && candidate.id !in c.accounts
    && (forall a :: a in c.accounts ==> c.accounts[a].email != candidate.email && c.accounts[a].port != candidate.port)
    && KeysAgree(c.rows)
  }

  /**
   * A creation is accepted iff its ID, email and port are valid and free and
   * every active user has one key to copy.
   */
  lemma CreationAcceptedIff(c: Catalog, candidate: Candidate, users: seq<User>, now: int)
    requires ListsActiveUsers(users, c.rows)
    ensures ApplyCreation(c, candidate, users, now).Ok? <==> MayCreate(c, candidate)
  {
    hide ValidId, CreatedAccount, CreatedRows;
    if forall u :: u in users ==> HasUnifiedKey(c.rows, u) {
      forall s | s in c.rows && Active(c.rows[s])
        ensures c.rows[s].user != "" && UserSecrets(c.rows, c.rows[s].user) == {c.rows[s].secret} && c.rows[s].secret != ""
      {
        KeyOfRow(c.rows, s);
      }
    } else {
      var u :| u in users && !HasUnifiedKey(c.rows, u);
      var s :| s in c.rows && Active(c.rows[s]) && c.rows[s].user == u;
      if KeysAgree(c.rows) {
        KeysAreOne(c.rows, s);
      }
    }
  }

  lemma KeyOfRow(rows: map<nat, KeyRow>, s: nat)
    requires s in rows && Active(rows[s]) && HasUnifiedKey(rows, rows[s].user)
    ensures rows[s].user != "" && UserSecrets(rows, rows[s].user) == {rows[s].secret} && rows[s].secret != ""
  {
    assert rows[s].secret in UserSecrets(rows, rows[s].user);
  }

  lemma KeysAreOne(rows: map<nat, KeyRow>, s: nat)
    requires s in rows && Active(rows[s]) && KeysAgree(rows)
    ensures UserSecrets(rows, rows[s].user) == {rows[s].secret}
  {
  }

  /** A row that gives `user` the key they have, under the account's ID and email. */
  ghost predicate RowFor(row: KeyRow, rows: map<nat, KeyRow>, candidate: Candidate, user: User, now: int) {
    && row.keyLabel == user + ":" + candidate.id && row.account == candidate.id && row.accountEmail == candidate.email
    && row.user == user && row.status == "active" && row.createdAt == now && row.updatedAt == now
    && forall s :: s in rows && rows[s].status == "active" && rows[s].user == user ==> rows[s].secret == row.secret
  }

  /** The new account is enabled, last in order, and the default iff it is the only one; no other account and no route changes. */
  lemma CreatedTable(c: Catalog, candidate: Candidate, users: seq<User>, now: int, position: nat)
    requires ApplyCreation(c, candidate, users, now).Ok?
    requires FollowsAll(position, set a | a in c.accounts :: c.accounts[a].position)
    ensures
      var (next, creation) := ApplyCreation(c, candidate, users, now).value;
      && next.routes == c.routes
      && next.accounts == c.accounts[candidate.id :=
           Account(candidate.email, candidate.port, candidate.mode, candidate.createdAt, true, c.accounts == map[], position)]
      && creation.id == candidate.id && creation.account == next.accounts[candidate.id]
  {
    hide ValidId, CandidateError, CreatedRows, HasUnifiedKey;
    assert Positions(c.accounts) == set a | a in c.accounts :: c.accounts[a].position;
    OneFollowsAll(position, NextFree(Positions(c.accounts)), Positions(c.accounts));
    hide NextFree, Positions;
  }

  /** Every user gets one row, numbered after all others in list order; the others stay and the new ones are recorded. */
  lemma CreatedRowsAre(c: Catalog, candidate: Candidate, users: seq<User>, now: int, first: nat)
    requires ListsActiveUsers(users, c.rows) && ApplyCreation(c, candidate, users, now).Ok?
    requires FollowsAll(first, c.rows.Keys)
    ensures
      var (next, creation) := ApplyCreation(c, candidate, users, now).value;
      && next.rows == c.rows + creation.createdRows
      && (forall s :: s in creation.createdRows <==> first <= s < first + |users|)
      && (forall s :: s in creation.createdRows ==> RowFor(creation.createdRows[s], c.rows, candidate, users[s - first], now))
  {
    hide ValidId, CandidateError, CreatedAccount, RowFor, HasUnifiedKey;
    OneFollowsAll(first, NextFree(c.rows.Keys), c.rows.Keys);
    KeysToCopy(c.rows, users);
    hide NextFree, ListsActiveUsers;
    CreatedKeys(c.rows, candidate, users, first, now);
    var created := CreatedRows(c.rows, candidate, users, first, now);
    forall s | s in created
      ensures RowFor(created[s], c.rows, candidate, users[s - first], now)
    {
      CreatedRowAt(c.rows, candidate, users, first, now, s);
      assert users[s - first] in users;
      NewRowIsFor(c.rows, candidate, users[s - first], now);
    }
  }

  /** One more than the largest, or zero. */
  ghost predicate FollowsAll(n: nat, used: set<nat>) {
    (forall s :: s in used ==> s < n) && (if used == {} then n == 0 else n - 1 in used)
  }

  lemma OneFollowsAll(a: nat, b: nat, used: set<nat>)
    requires FollowsAll(a, used) && FollowsAll(b, used)
    ensures a == b
  {
  }

  lemma KeysToCopy(rows: map<nat, KeyRow>, users: seq<User>)
    requires ListsActiveUsers(users, rows)
    ensures forall u :: u in users ==> UserSecrets(rows, u) != {}
  {
    forall u | u in users
      ensures UserSecrets(rows, u) != {}
    {
      var s :| s in rows && Active(rows[s]) && rows[s].user == u;
      assert rows[s].secret in UserSecrets(rows, u);
    }
  }

  lemma {:induction false} CreatedKeys(rows: map<nat, KeyRow>, candidate: Candidate, users: seq<User>, first: nat, now: int)
    requires forall u :: u in users ==> UserSecrets(rows, u) != {}
    ensures forall s :: s in CreatedRows(rows, candidate, users, first, now) <==> first <= s < first + |users|
  {
    if users != [] {
      CreatedKeys(rows, candidate, users[..|users| - 1], first, now);
    }
  }

  lemma NewRowIsFor(rows: map<nat, KeyRow>, candidate: Candidate, user: User, now: int)
    requires HasUnifiedKey(rows, user)
    ensures UserSecrets(rows, user) != {} && RowFor(NewRow(rows, candidate, user, now), rows, candidate, user, now)
  {
    var k := SecretOf(rows, user);
    forall s | s in rows && rows[s].status == "active" && rows[s].user == user
      ensures rows[s].secret == k
    {
      assert rows[s].secret in UserSecrets(rows, user);
    }
  }

  /** Whatever a creation is refused for is really the case. */
  lemma CreationRefusals(c: Catalog, candidate: Candidate, users: seq<User>, now: int)
    requires ListsActiveUsers(users, c.rows) && ApplyCreation(c, candidate, users, now).Err?
    ensures
      match ApplyCreation(c, candidate, users, now).error
      case InvalidInput => !ValidId(candidate.id) || !(1 <= candidate.port <= 65535)
      case AlreadyExists => candidate.id in c.accounts
      case EmailExists => exists a :: a in c.accounts && c.accounts[a].email == candidate.email
      case PortExists => exists a :: a in c.accounts && c.accounts[a].port == candidate.port
      case Conflict => !KeysAgree(c.rows)
      case _ => false
  {
    CreationAcceptedIff(c, candidate, users, now);
    hide ValidId, HasUnifiedKey;
  }

  // ------------------------------------------------------------------- update

  /** What a request states, or else what is stored. */
  function Wanted<T>(stated: Option<T>, stored: T): T {
    if stated.Some? then stated.value else stored
  }

  /** The account stops serving its users or gives up being the default. */
  predicate StepsDown(before: Account, request: UpdateRequest) {
    !Wanted(request.enabled, before.enabled) || (before.isDefault && !Wanted(request.isDefault, true))
  }

  /** What an update needs, over the accounts alone. */
  ghost predicate MayUpdate(accounts: map<Id, Account>, request: UpdateRequest) {
    && ValidId(request.id) && ValidId(request.newId) && request.id in accounts
    && (request.newId in accounts ==> request.newId == request.id)
    && (forall a :: a in accounts && accounts[a].email == request.email ==> a == request.id)
    && (request.fallback.Some? ==> Available(accounts, request.id, request.fallback.value))
    && (StepsDown(accounts[request.id], request) ==> exists a :: Available(accounts, request.id, a))
    && (Wanted(request.isDefault, accounts[request.id].isDefault) ==> Wanted(request.enabled, accounts[request.id].enabled))
  }

  /**
   * An update is accepted iff its IDs and email are free, whoever is named to
   * take over can, somebody can when the account steps down, and no disabled
   * account is to be the default.
   */
  lemma UpdateAcceptedIff(c: Catalog, request: UpdateRequest, order: seq<Id>)
    requires Lists(order, c.accounts)
    ensures ApplyUpdate(c, request, order).Ok? <==> MayUpdate(c.accounts, request)
  {
    hide ValidId, UpdatedAccounts, UpdatedRoutes, UpdateChanges, AutoFallback;
    FallbackTakesOver(c.accounts, request.id, order);
    AvailableAreOthers(c.accounts, request.id);
    hide EnabledOthers, Available;
  }

  lemma AvailableAreOthers(accounts: map<Id, Account>, id: Id)
    ensures forall a :: Available(accounts, id, a) <==> a in EnabledOthers(accounts, id)
    ensures EnabledOthers(accounts, id) == {} <==> forall a :: !Available(accounts, id, a)
  {
  }

  /** The fallback of the transaction is the account that takes over. */
  lemma FallbackIs(c: Catalog, request: UpdateRequest, order: seq<Id>, f: Id)
    requires Lists(order, c.accounts) && UniquePositions(c.accounts) && ApplyUpdate(c, request, order).Ok?
    requires TakesOver(c.accounts, request.id, request.fallback, f)
    ensures
      var fallback := UpdateFallback(order, c.accounts, request);
      && (fallback.Some? <==> request.fallback.Some? || StepsDown(c.accounts[request.id], request))
      && (fallback.Some? ==> fallback.value == f)
  {
    hide ValidId, UpdatedAccounts, UpdatedRoutes, UpdateChanges, AutoFallback, EnabledOthers;
    FallbackTakesOver(c.accounts, request.id, order);
    var chosen := AutoFallback(order, c.accounts, request.id);
    if request.fallback.None? && chosen.Some? {
      OnlyOneTakesOver(c.accounts, request.id, None, chosen.value, f);
    }
    hide TakesOver, Available;
  }

  /** Whoever is the only default account. */
  ghost predicate DefaultIs(accounts: map<Id, Account>, d: Id) {
    d in accounts && forall a :: a in accounts ==> (accounts[a].isDefault <==> a == d)
  }

  /** The account that the transaction falls back on, if it needs one. */
  ghost predicate Successor(c: Catalog, request: UpdateRequest, f: Id) {
    request.id in c.accounts && StepsDown(c.accounts[request.id], request) ==>
      TakesOver(c.accounts, request.id, request.fallback, f)
  }

  /**
   * The account is found under its new ID with its new fields and its old port,
   * place and time, every other row is as before but for the default flag, and
   * `d` is the only default.
   */
  ghost predicate Retabled(next: map<Id, Account>, accounts: map<Id, Account>, request: UpdateRequest, d: Id)
    requires request.id in accounts
  {
    var before := accounts[request.id];
    && next.Keys == accounts.Keys - {request.id} + {request.newId}
    && next[request.newId] ==
         Account(request.email, before.port, request.mode, before.createdAt,
                 Wanted(request.enabled, before.enabled), Wanted(request.isDefault, before.isDefault), before.position)
    && (forall a :: a in next && a != request.newId ==> next[a].(isDefault := accounts[a].isDefault) == accounts[a])
    && DefaultIs(next, d)
  }

  /** The default passes on exactly when the account takes it or gives it up. */
  lemma UpdatedTable(c: Catalog, request: UpdateRequest, order: seq<Id>, d: Id, f: Id)
    requires Invariant(c) && Lists(order, c.accounts) && ApplyUpdate(c, request, order).Ok?
    requires DefaultIs(c.accounts, d) && Successor(c, request, f)
    ensures Retabled(ApplyUpdate(c, request, order).value.0.accounts, c.accounts, request,
                     if Wanted(request.isDefault, c.accounts[request.id].isDefault) then request.newId
                     else if d == request.id then f else d)
  {
    hide ValidId, AutoFallback, UpdateChanges, UpdatedRoutes, UpdatedAccounts, UpdatedRow, Invariant, EnabledOthers;
    hide UniquePositions, Lists, Retabled;
    UniqueOf(c);
    var fallback := UpdateFallback(order, c.accounts, request);
    if StepsDown(c.accounts[request.id], request) {
      FallbackIs(c, request, order, f);
    }
    UpdatedAccountsAre(c, request, fallback, d);
    hide UpdateFallback, TakesOver;
  }

  lemma UpdatedAccountsAre(c: Catalog, request: UpdateRequest, fallback: Option<Id>, d: Id)
    requires request.id in c.accounts && (request.newId in c.accounts ==> request.newId == request.id)
    requires DefaultIs(c.accounts, d)
    requires
      d == request.id && !Wanted(request.isDefault, true) ==> fallback.Some? && Available(c.accounts, request.id, fallback.value)
    ensures Retabled(UpdatedAccounts(c, request, fallback), c.accounts, request,
                     if Wanted(request.isDefault, c.accounts[request.id].isDefault) then request.newId
                     else if d == request.id then fallback.value else d)
  {
  }

  lemma UniqueOf(c: Catalog)
    requires Invariant(c)
    ensures UniquePositions(c.accounts)
    ensures forall u :: u in c.routes ==> c.routes[u] in c.accounts
  {
    assert RoutesTargetEnabled(c);
  }

  /** Rows of the account carry its new ID, email and label; nothing else of them changes, and no other row. */
  lemma UpdatedRowsAre(c: Catalog, request: UpdateRequest, order: seq<Id>)
    requires ApplyUpdate(c, request, order).Ok?
    ensures
      var next := ApplyUpdate(c, request, order).value.0.rows;
      && next.Keys == c.rows.Keys
      && forall s :: s in c.rows ==>
           var row := c.rows[s];
           next[s] == if row.account != request.id then row
                      else row.(keyLabel := row.user + ":" + request.newId, account := request.newId, accountEmail := request.email)
  {
    hide ValidId, AutoFallback, UpdateChanges, UpdatedRoutes, UpdatedAccounts, UpdateError;
  }

  /** Users of the updated account follow it, or go to the successor when it is disabled; nobody else moves. */
  lemma UsersFollow(c: Catalog, request: UpdateRequest, order: seq<Id>, f: Id, u: User)
    requires Invariant(c) && Lists(order, c.accounts) && ApplyUpdate(c, request, order).Ok?
    requires Successor(c, request, f)
    ensures
      var next := ApplyUpdate(c, request, order).value.0.routes;
      && next.Keys == c.routes.Keys
      && (u in c.routes && c.routes[u] != request.id ==> next[u] == c.routes[u])
      && (u in c.routes && c.routes[u] == request.id ==>
            next[u] == if Wanted(request.enabled, c.accounts[request.id].enabled) then request.newId else f)
  {
    hide ValidId, AutoFallback, UpdateChanges, UpdatedAccounts, Invariant, EnabledOthers;
    UniqueOf(c);
    if StepsDown(c.accounts[request.id], request) {
      FallbackIs(c, request, order, f);
    }
    hide Lists, TakesOver, UniquePositions;
  }

  /** The footprint holds both versions of the account and its rows and of all default flags; ChangesRecorded adds the routes. */
  lemma UpdateRecorded(c: Catalog, request: UpdateRequest, order: seq<Id>)
    requires Invariant(c) && ApplyUpdate(c, request, order).Ok?
    ensures
      var (next, update) := ApplyUpdate(c, request, order).value;
      && update.id == request.id && update.before == c.accounts[request.id]
      && update.newId == request.newId && request.newId in next.accounts && update.after == next.accounts[request.newId]
      && update.rowsBefore == (map s | s in c.rows && c.rows[s].account == request.id :: c.rows[s])
      && update.rowsAfter == (map s | s in next.rows && next.rows[s].account == request.newId :: next.rows[s])
      && update.defaultsBefore == (map a | a in c.accounts :: c.accounts[a].isDefault)
      && update.defaultsAfter == (map a | a in next.accounts :: next.accounts[a].isDefault)
  {
    hide ValidId, Invariant, AutoFallback, UpdateChanges, UpdatedRoutes, UpdatedRow, UpdateError;
  }

  lemma ChangesRecorded(c: Catalog, request: UpdateRequest, order: seq<Id>, u: User)
    requires Invariant(c) && ApplyUpdate(c, request, order).Ok?
    ensures
      var (next, update) := ApplyUpdate(c, request, order).value;
      && next.routes.Keys == c.routes.Keys
      && (u in update.routes <==> u in c.routes && next.routes[u] != c.routes[u])
      && (u in update.routes ==> update.routes[u] == RouteChange(c.routes[u], next.routes[u]))
  {
    hide ValidId, Invariant, UpdatedAccounts, UpdatedRow, AutoFallback, UniquePositions, UpdatedRoutes, UpdateChanges, Available;
    UniqueOf(c);
    AvailableAreOthers(c.accounts, request.id);
    ChangesAre(c, request, UpdateFallback(order, c.accounts, request), u);
    hide UpdateFallback, EnabledOthers;
  }

  lemma ChangesAre(c: Catalog, request: UpdateRequest, fallback: Option<Id>, u: User)
    requires request.id in c.accounts && (request.newId in c.accounts ==> request.newId == request.id)
    requires forall v :: v in c.routes ==> c.routes[v] in c.accounts
    requires fallback.Some? ==> fallback.value in c.accounts && fallback.value != request.id
    ensures
      var next, changes := UpdatedRoutes(c, request, fallback), UpdateChanges(c, request, fallback);
      && next.Keys == c.routes.Keys
      && (u in changes <==> u in c.routes && next[u] != c.routes[u])
      && (u in changes ==> changes[u] == RouteChange(c.routes[u], next[u]))
  {
  }

  /** Whatever an update is refused for is really the case. */
  lemma UpdateRefusals(c: Catalog, request: UpdateRequest, order: seq<Id>)
    requires Lists(order, c.accounts) && ApplyUpdate(c, request, order).Err?
    ensures
      match ApplyUpdate(c, request, order).error
      case InvalidInput =>
        || !ValidId(request.id) || !ValidId(request.newId)
        || (request.id in c.accounts && Wanted(request.isDefault, c.accounts[request.id].isDefault)
            && !Wanted(request.enabled, c.accounts[request.id].enabled))
      case NotFound => request.id !in c.accounts
      case AlreadyExists => request.newId != request.id && request.newId in c.accounts
      case EmailExists => exists a :: a in c.accounts && a != request.id && c.accounts[a].email == request.email
      case NeedsFallback =>
        || (request.fallback.Some? && !Available(c.accounts, request.id, request.fallback.value))
        || (request.id in c.accounts && StepsDown(c.accounts[request.id], request)
            && forall a :: !Available(c.accounts, request.id, a))
      case _ => false
  {
    hide ValidId, UpdatedAccounts, UpdatedRoutes, UpdateChanges, AutoFallback;
    FallbackTakesOver(c.accounts, request.id, order);
    AvailableAreOthers(c.accounts, request.id);
    hide EnabledOthers, Available, TakesOver;
  }

  // ----------------------------------------------------------------- deletion

  /** Every active key of the account is active for the same user on another account. */
  ghost predicate KeysElsewhere(rows: map<nat, KeyRow>, id: Id) {
    forall s :: s in rows && rows[s].account == id && rows[s].status == "active" ==>
      exists t :: t in rows && rows[t].account != id && rows[t].status == "active" &&
                  rows[t].user == rows[s].user && rows[t].secret == rows[s].secret
  }

  /** What a deletion needs, over the catalog alone. */
  ghost predicate MayDelete(c: Catalog, id: Id, requested: Option<Id>, revoke: bool) {
    && ValidId(id) && id in c.accounts && (exists a :: Available(c.accounts, id, a))
    && (requested.Some? ==> Available(c.accounts, id, requested.value))
    && (revoke || KeysElsewhere(c.rows, id))
  }

  /**
   * A deletion is accepted iff the account exists, another enabled account can
   * take over, the requested one if one is named, and no key would be lost or
   * the caller revokes it.
   */
  lemma DeletionAcceptedIff(c: Catalog, id: Id, requested: Option<Id>, revoke: bool, order: seq<Id>)
    requires Lists(order, c.accounts)
    ensures ApplyDeletion(c, id, requested, revoke, order).Ok? <==> MayDelete(c, id, requested, revoke)
  {
    hide ValidId, AutoFallback, SoleDefault, MoveRoutes, WithoutRowsOf;
    FallbackTakesOver(c.accounts, id, order);
    AvailableAreOthers(c.accounts, id);
    ExclusiveIff(c.rows, id);
    if id in c.accounts { LastIsAlone(c.accounts, id); }
    hide EnabledOthers, ExclusiveKeys, KeysElsewhere;
  }

  /** With a fallback named the listing plays no part at all. */
  lemma NamedDeletionAcceptedIff(c: Catalog, id: Id, fallback: Id, revoke: bool, order: seq<Id>)
    ensures ApplyDeletion(c, id, Some(fallback), revoke, order).Ok? <==> MayDelete(c, id, Some(fallback), revoke)
  {
    hide ValidId, AutoFallback, SoleDefault, MoveRoutes, WithoutRowsOf;
    AvailableAreOthers(c.accounts, id);
    ExclusiveIff(c.rows, id);
    if id in c.accounts { LastIsAlone(c.accounts, id); }
    hide EnabledOthers, ExclusiveKeys, KeysElsewhere;
  }

  lemma ExclusiveIff(rows: map<nat, KeyRow>, id: Id)
    ensures ExclusiveKeys(rows, id) == {} <==> KeysElsewhere(rows, id)
  {
    if s :| s in rows && rows[s].account == id && Active(rows[s]) && !KeyElsewhere(rows, id, rows[s]) {
      assert rows[s].secret in ExclusiveKeys(rows, id);
    }
  }

  lemma LastIsAlone(accounts: map<Id, Account>, id: Id)
    requires id in accounts
    ensures |accounts| <= 1 <==> accounts.Keys == {id}
  {
    if a :| a in accounts && a != id {
      SubsetIsSmaller({id, a}, accounts.Keys);
    } else {
      assert accounts.Keys == {id};
    }
    assert |accounts| == |accounts.Keys|;
  }

  /**
   * A deletion takes the account and all its rows and nothing else; its users
   * go to the account that takes over, and so does the default if it had it.
   */
  lemma DeletedTables(c: Catalog, id: Id, requested: Option<Id>, revoke: bool, order: seq<Id>, d: Id, f: Id)
    requires Invariant(c) && Lists(order, c.accounts) && ApplyDeletion(c, id, requested, revoke, order).Ok?
    requires DefaultIs(c.accounts, d) && TakesOver(c.accounts, id, requested, f)
    ensures
      var next := ApplyDeletion(c, id, requested, revoke, order).value.0;
      && next.accounts.Keys == c.accounts.Keys - {id}
      && (forall a :: a in next.accounts ==> next.accounts[a].(isDefault := c.accounts[a].isDefault) == c.accounts[a])
      && DefaultIs(next.accounts, if d == id then f else d)
      && (forall s :: s in next.rows <==> s in c.rows && c.rows[s].account != id)
      && (forall s :: s in next.rows ==> next.rows[s] == c.rows[s])
      && next.routes.Keys == c.routes.Keys
      && (forall u :: u in c.routes ==> next.routes[u] == if c.routes[u] == id then f else c.routes[u])
  {
    hide ValidId, AutoFallback, ExclusiveKeys, Invariant, EnabledOthers, UniquePositions, DeletionFallback, Lists, TakesOver;
    UniqueOf(c);
    DeletionFallbackIs(c.accounts, id, requested, order, f);
  }

  lemma DeletionFallbackIs(accounts: map<Id, Account>, id: Id, requested: Option<Id>, order: seq<Id>, f: Id)
    requires Lists(order, accounts) && UniquePositions(accounts) && TakesOver(accounts, id, requested, f)
    ensures DeletionFallback(accounts, id, requested, order) == Some(f) && Available(accounts, id, f)
  {
    hide AutoFallback;
    FallbackTakesOver(accounts, id, order);
    if requested.None? {
      OnlyOneTakesOver(accounts, id, None, AutoFallback(order, accounts, id).value, f);
    }
  }

  /** The footprint holds the account, its rows, every moved route, all default flags and the keys that were lost. */
  lemma DeletionRecorded(c: Catalog, id: Id, requested: Option<Id>, revoke: bool, order: seq<Id>, f: Id)
    requires Lists(order, c.accounts) && UniquePositions(c.accounts) && ApplyDeletion(c, id, requested, revoke, order).Ok?
    requires TakesOver(c.accounts, id, requested, f)
    ensures
      var deletion := ApplyDeletion(c, id, requested, revoke, order).value.1;
      && deletion.id == id && deletion.account == c.accounts[id] && deletion.fallback == f
      && deletion.rows == (map s | s in c.rows && c.rows[s].account == id :: c.rows[s])
      && deletion.routes == (map u | u in c.routes && c.routes[u] == id :: RouteChange(id, f))
      && deletion.defaults == (map a | a in c.accounts :: c.accounts[a].isDefault)
      && (deletion.revoked == {} <==> KeysElsewhere(c.rows, id))
  {
    hide ValidId, AutoFallback, SoleDefault, MoveRoutes, WithoutRowsOf, EnabledOthers;
    DeletionFallbackIs(c.accounts, id, requested, order, f);
    ExclusiveIff(c.rows, id);
    hide Lists, UniquePositions, TakesOver, ExclusiveKeys, KeysElsewhere;
  }

  /** Whatever a deletion is refused for is really the case. */
  lemma DeletionRefusals(c: Catalog, id: Id, requested: Option<Id>, revoke: bool, order: seq<Id>)
    requires Lists(order, c.accounts) && ApplyDeletion(c, id, requested, revoke, order).Err?
    ensures
      match ApplyDeletion(c, id, requested, revoke, order).error
      case InvalidInput => !ValidId(id)
      case NotFound => id !in c.accounts
      case DeleteLast => c.accounts.Keys == {id}
      case NeedsFallback =>
        || (requested.Some? && !Available(c.accounts, id, requested.value))
        || forall a :: !Available(c.accounts, id, a)
      case RequiresRevoke => !revoke && !KeysElsewhere(c.rows, id)
      case _ => false
  {
    hide ValidId, AutoFallback, SoleDefault, MoveRoutes, WithoutRowsOf;
    FallbackTakesOver(c.accounts, id, order);
    AvailableAreOthers(c.accounts, id);
    ExclusiveIff(c.rows, id);
    if id in c.accounts { LastIsAlone(c.accounts, id); }
    hide EnabledOthers, ExclusiveKeys, KeysElsewhere, Lists, TakesOver;
  }
}
