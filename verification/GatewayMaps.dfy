/**
 * The three maps the Gateway composes: secret to key label, label suffix to
 * account, and account to container.
 */
module GatewayMaps {
  import opened Wrappers
  import opened Strings
  import opened Catalog
  import opened Routes

  /** One line of key.map: the bearer secret and its label. */
  datatype KeyLine = KeyLine(secret: Secret, keyLabel: string)

  datatype MapError = EmptyRecord | NoRow(user: User, account: Id) | UnknownAccount(user: User, account: Id)

  function LowerChar(c: char): char {
    if 'A' <= c <= 'Z' then c + ' ' else c
  }

  function Lower(s: string): string {
    seq(|s|, i requires 0 <= i < |s| => LowerChar(s[i]))
  }

  function NormalUser(user: User): User {
    Lower(Trim(user))
  }

  // ------------------------------------------------------------------ key.map

  predicate Malformed(record: KeyRow) {
    Active(record) && (NormalUser(record.user) == "" || record.secret == "")
  }

  /** The active records of one user, in order. */
  function ItemsOf(records: seq<KeyRow>, user: User): (items: seq<KeyRow>)
    ensures forall r :: r in items <==> r in records && Active(r) && NormalUser(r.user) == user
  {
    if records == [] then []
    else
      var n := |records| - 1;
      var last := records[n];
      assert records == records[..n] + [last];
      ItemsOf(records[..n], user) + Only(last, user)
  }

  function Only(record: KeyRow, user: User): seq<KeyRow> {
    if Active(record) && NormalUser(record.user) == user then [record] else []
  }

  function Users(records: seq<KeyRow>): set<User> {
    set r | r in records && Active(r) :: NormalUser(r.user)
  }

  function Secrets(items: seq<KeyRow>): set<Secret> {
    set r | r in items :: r.secret
  }

  function FirstOn(items: seq<KeyRow>, id: Id): (r: Option<KeyRow>)
    ensures r.Some? ==> r.value in items && r.value.account == id
    ensures r.None? ==> forall item :: item in items ==> item.account != id
  {
    if items == [] then None
    else if items[0].account == id then Some(items[0])
    else FirstOn(items[1..], id)
  }

  /** Before secrets were unified each row had its own line. */
  function LegacyLines(accounts: map<Id, Account>, user: User, items: seq<KeyRow>): Result<seq<KeyLine>, MapError> {
    if items == [] then Ok([])
    else
      var n := |items| - 1;
      var before := LegacyLines(accounts, user, items[..n]);
      if before.Err? then before
      else if items[n].account !in accounts then Err(UnknownAccount(user, items[n].account))
      else Ok(before.value + [KeyLine(items[n].secret, RowLabel(user, items[n].account))])
  }

  /** The lines a user contributes, were no secret emitted before. */
  function LinesOf(accounts: map<Id, Account>, routes: map<User, Id>, user: User, items: seq<KeyRow>): Result<seq<KeyLine>, MapError> {
    if |Secrets(items)| != 1 then LegacyLines(accounts, user, items)
    else
      var id := Current(routes, user);
      if id !in accounts || !accounts[id].enabled then Ok([])
      else
        var row := FirstOn(items, id);
        if row.None? then Err(NoRow(user, id)) else Ok([KeyLine(row.value.secret, RowLabel(user, id))])
  }

  predicate Emitted(lines: seq<KeyLine>, secret: Secret) {
    exists i :: 0 <= i < |lines| && lines[i].secret == secret
  }

  function Append(lines: seq<KeyLine>, more: seq<KeyLine>): seq<KeyLine> {
    if more == [] then lines
    else
      var n := |more| - 1;
      var before := Append(lines, more[..n]);
      if Emitted(before, more[n].secret) then before else before + [more[n]]
  }

  function KeyLines(accounts: map<Id, Account>, routes: map<User, Id>, records: seq<KeyRow>, users: seq<User>): Result<seq<KeyLine>, MapError> {
    if users == [] then Ok([])
    else
      var n := |users| - 1;
      var before := KeyLines(accounts, routes, records, users[..n]);
      if before.Err? then before
      else
        var lines := LinesOf(accounts, routes, users[n], ItemsOf(records, users[n]));
        if lines.Err? then lines else Ok(Append(before.value, lines.value))
  }

  predicate Ascending(users: seq<User>) {
    forall i, j :: 0 <= i < j < |users| ==> Before(users[i], users[j])
  }

  ghost predicate Sorted(users: seq<User>, members: set<User>) {
    Ascending(users) && forall u :: u in users <==> u in members
  }

  // ---------------------------------------------------------------- rendering

  method GroupByUser(records: seq<KeyRow>) returns (r: Result<map<User, seq<KeyRow>>, MapError>)
    ensures r.Err? <==> exists i :: 0 <= i < |records| && Malformed(records[i])
    ensures r.Err? ==> r.error == EmptyRecord
    ensures r.Ok? ==> r.value.Keys == Users(records) && forall u :: u in r.value ==> r.value[u] == ItemsOf(records, u)
  {
    hide NormalUser, ItemsOf, Users, Malformed;
    NothingGrouped();
    var byUser: map<User, seq<KeyRow>> := map[];
    var i, ok := 0, true;
    while i < |records| && ok
      invariant 0 <= i <= |records|
      invariant ok ==> forall k :: 0 <= k < i ==> !Malformed(records[k])
      invariant !ok ==> i < |records| && Malformed(records[i])
      invariant byUser.Keys == Users(records[..i])
      invariant forall u :: u in byUser ==> byUser[u] == ItemsOf(records[..i], u)
      invariant forall u :: u !in byUser ==> ItemsOf(records[..i], u) == []
      decreases |records| - i, ok
    {
      var record := records[i];
      if Malformed(record) {
        ok := false;
      } else {
        assert records[..i + 1] == records[..i] + [record];
        GroupedAfter(records[..i], record);
        if Active(record) {
          var user := NormalUser(record.user);
          byUser := byUser[user := (if user in byUser then byUser[user] else []) + [record]];
        }
        i := i + 1;
      }
    }
    assert i == |records| ==> records[..i] == records;
    r := if ok then Ok(byUser) else Err(EmptyRecord);
  }

  lemma NothingGrouped()
    ensures Users([]) == {} && forall u :: ItemsOf([], u) == []
  {
  }

  lemma GroupedAfter(records: seq<KeyRow>, record: KeyRow)
    ensures Users(records + [record]) == Users(records) + if Active(record) then {NormalUser(record.user)} else {}
    ensures forall u :: ItemsOf(records + [record], u) == ItemsOf(records, u) + Only(record, u)
  {
    hide NormalUser;
    var all := records + [record];
    assert all[..|all| - 1] == records && all[|all| - 1] == record;
    forall u | u in Users(records) ensures u in Users(all) {
      var r :| r in records && Active(r) && NormalUser(r.user) == u;
      assert r in all;
    }
  }

  function Insert(users: seq<User>, user: User): (r: seq<User>)
    requires Ascending(users)
    ensures Ascending(r)
    ensures forall u :: u in r <==> u in users || u == user
  {
    if users == [] then [user]
    else if users[0] == user then users
    else
      var rest := Insert(users[1..], user);
      BeforeIsTotal(users[0], user);
      assert users == [users[0]] + users[1..];
      if Before(user, users[0]) then
        assert forall j :: 0 <= j < |users| ==> Before(user, users[j]) by {
          forall j | 0 < j < |users| ensures Before(user, users[j]) {
            BeforeIsTransitive(user, users[0], users[j]);
          }
        }
        [user] + users
      else
        assert forall u :: u in rest ==> Before(users[0], u);
        [users[0]] + rest
  }

  method SortUsers(members: set<User>) returns (users: seq<User>)
    ensures Sorted(users, members)
  {
    hide Before;
    users := [];
    var left := members;
    while left != {}
      invariant left <= members && Sorted(users, members - left)
      decreases left
    {
      var user :| user in left;
      users := Insert(users, user);
      left := left - {user};
    }
  }

  method RenderLegacy(accounts: map<Id, Account>, user: User, items: seq<KeyRow>) returns (r: Result<seq<KeyLine>, MapError>)
    ensures r == LegacyLines(accounts, user, items)
  {
    r := Ok([]);
    var i := 0;
    while i < |items| && r.Ok?
      invariant 0 <= i <= |items|
      invariant r.Ok? ==> r == LegacyLines(accounts, user, items[..i])
      invariant r.Err? ==> r == LegacyLines(accounts, user, items)
      decreases |items| - i, r.Ok?
    {
      assert items[..i + 1][..i] == items[..i];
      if items[i].account !in accounts {
        r := Err(UnknownAccount(user, items[i].account));
        LegacyErrorStays(accounts, user, items, i + 1);
      } else {
        r := Ok(r.value + [KeyLine(items[i].secret, RowLabel(user, items[i].account))]);
        i := i + 1;
      }
    }
    assert items[..|items|] == items;
  }

  lemma {:induction false} LegacyErrorStays(accounts: map<Id, Account>, user: User, items: seq<KeyRow>, n: nat)
    requires n <= |items| && LegacyLines(accounts, user, items[..n]).Err?
    ensures LegacyLines(accounts, user, items) == LegacyLines(accounts, user, items[..n])
    decreases |items|
  {
    if n < |items| {
      assert items[..|items| - 1][..n] == items[..n];
      LegacyErrorStays(accounts, user, items[..|items| - 1], n);
    } else {
      assert items[..n] == items;
    }
  }

  method AppendLines(lines: seq<KeyLine>, emitted: set<Secret>, more: seq<KeyLine>) returns (all: seq<KeyLine>, seen: set<Secret>)
    requires forall k :: k in emitted <==> Emitted(lines, k)
    ensures all == Append(lines, more)
    ensures forall k :: k in seen <==> Emitted(all, k)
  {
    all, seen := lines, emitted;
    var i := 0;
    while i < |more|
      invariant 0 <= i <= |more|
      invariant all == Append(lines, more[..i])
      invariant forall k :: k in seen <==> Emitted(all, k)
    {
      assert more[..i + 1][..i] == more[..i];
      if more[i].secret !in seen {
        EmittedAfter(all, more[i]);
        all, seen := all + [more[i]], seen + {more[i].secret};
      }
      i := i + 1;
    }
    assert more[..i] == more;
  }

  lemma EmittedAfter(lines: seq<KeyLine>, line: KeyLine)
    ensures forall k :: Emitted(lines + [line], k) <==> Emitted(lines, k) || k == line.secret
  {
    forall k ensures Emitted(lines + [line], k) <==> Emitted(lines, k) || k == line.secret {
      assert (lines + [line])[|lines|] == line;
      if Emitted(lines, k) {
        var i :| 0 <= i < |lines| && lines[i].secret == k;
        assert (lines + [line])[i].secret == k;
      }
    }
  }

  method RenderUser(accounts: map<Id, Account>, routes: map<User, Id>, user: User, items: seq<KeyRow>)
    returns (r: Result<seq<KeyLine>, MapError>)
    ensures r == LinesOf(accounts, routes, user, items)
  {
    if |Secrets(items)| == 1 {
      var id := Current(routes, user);
      if id !in accounts || !accounts[id].enabled {
        r := Ok([]);
      } else {
        var row := FirstOn(items, id);
        r := if row.None? then Err(NoRow(user, id)) else Ok([KeyLine(row.value.secret, RowLabel(user, id))]);
      }
    } else {
      r := RenderLegacy(accounts, user, items);
    }
  }

  method RenderKeyMap(accounts: map<Id, Account>, routes: map<User, Id>, records: seq<KeyRow>)
    returns (r: Result<seq<KeyLine>, MapError>, users: seq<User>)
    ensures
      if exists i :: 0 <= i < |records| && Malformed(records[i]) then r == Err(EmptyRecord)
      else Sorted(users, Users(records)) && r == KeyLines(accounts, routes, records, users)
  {
    hide *;
    users := [];
    var byUser := GroupByUser(records);
    if byUser.Err? {
      r := Err(byUser.error);
    } else {
      users := SortUsers(byUser.value.Keys);
      SortedMembers(users, byUser.value.Keys);
      r := RenderUsers(accounts, routes, records, byUser.value, users);
    }
  }

  lemma SortedMembers(users: seq<User>, members: set<User>)
    requires Sorted(users, members)
    ensures forall i :: 0 <= i < |users| ==> users[i] in members
  {
  }

  method RenderUsers(accounts: map<Id, Account>, routes: map<User, Id>, ghost records: seq<KeyRow>,
                     byUser: map<User, seq<KeyRow>>, users: seq<User>)
    returns (r: Result<seq<KeyLine>, MapError>)
    requires forall i :: 0 <= i < |users| ==> users[i] in byUser && byUser[users[i]] == ItemsOf(records, users[i])
    ensures r == KeyLines(accounts, routes, records, users)
  {
    hide LinesOf, Append, ItemsOf, Emitted;
    var emitted: set<Secret> := {};
    r := Ok([]);
    NothingEmitted();
    var i := 0;
    while i < |users| && r.Ok?
      invariant 0 <= i <= |users|
      invariant r.Ok? ==> r == KeyLines(accounts, routes, records, users[..i])
      invariant r.Ok? ==> forall k :: k in emitted <==> Emitted(r.value, k)
      invariant r.Err? ==> r == KeyLines(accounts, routes, records, users)
      decreases |users| - i, r.Ok?
    {
      assert users[..i + 1][..i] == users[..i];
      var lines := RenderUser(accounts, routes, users[i], byUser[users[i]]);
      if lines.Err? {
        r := lines;
        ErrorStays(accounts, routes, records, users, i + 1);
      } else {
        var all;
        all, emitted := AppendLines(r.value, emitted, lines.value);
        r := Ok(all);
        i := i + 1;
      }
    }
    assert users[..|users|] == users;
  }

  lemma NothingEmitted()
    ensures forall k :: !Emitted([], k)
  {
  }

  lemma {:induction false} ErrorStays(accounts: map<Id, Account>, routes: map<User, Id>, records: seq<KeyRow>, users: seq<User>, n: nat)
    requires n <= |users| && KeyLines(accounts, routes, records, users[..n]).Err?
    ensures KeyLines(accounts, routes, records, users) == KeyLines(accounts, routes, records, users[..n])
    decreases |users|
  {
    hide LinesOf, Append, ItemsOf;
    if n < |users| {
      assert users[..|users| - 1][..n] == users[..n];
      ErrorStays(accounts, routes, records, users[..|users| - 1], n);
    } else {
      assert users[..n] == users;
    }
  }

  /** accounts.map, in account order: a label suffix and the account it selects. */
  function AccountMap(order: seq<Id>): seq<(string, Id)> {
    seq(|order|, i requires 0 <= i < |order| => (":" + order[i], order[i]))
  }

  function Container(id: Id): string {
    "cliproxy-" + id + ":8317"
  }

  function BackendMap(order: seq<Id>): seq<(Id, string)> {
    seq(|order|, i requires 0 <= i < |order| => (order[i], Container(order[i])))
  }

  method RenderMaps(order: seq<Id>) returns (suffixes: seq<(string, Id)>, backends: seq<(Id, string)>)
    ensures suffixes == AccountMap(order) && backends == BackendMap(order)
  {
    suffixes, backends := [], [];
    for i := 0 to |order|
      invariant suffixes == AccountMap(order)[..i] && backends == BackendMap(order)[..i]
    {
      suffixes := suffixes + [(":" + order[i], order[i])];
      backends := backends + [(order[i], Container(order[i]))];
    }
  }

  // ---------------------------------------------------------------- resolving

  function LabelOf(lines: seq<KeyLine>, secret: Secret): (r: Option<string>)
    ensures r.None? <==> !Emitted(lines, secret)
    ensures r.Some? ==> exists l :: 0 <= l < |lines| && lines[l] == KeyLine(secret, r.value)
  {
    if lines == [] then None
    else if lines[0].secret == secret then
      assert lines[0] == KeyLine(secret, lines[0].keyLabel);
      Some(lines[0].keyLabel)
    else
      assert forall i :: 1 <= i < |lines| ==> lines[i] == lines[1..][i - 1];
      LabelOf(lines[1..], secret)
  }

  predicate EndsWith(s: string, suffix: string) {
    |suffix| <= |s| && s[|s| - |suffix|..] == suffix
  }

  function AccountOf(suffixes: seq<(string, Id)>, keyLabel: string): Option<Id> {
    if suffixes == [] then None
    else if EndsWith(keyLabel, suffixes[0].0) then Some(suffixes[0].1)
    else AccountOf(suffixes[1..], keyLabel)
  }

  function BackendOf(backends: seq<(Id, string)>, id: Id): Option<string> {
    if backends == [] then None
    else if backends[0].0 == id then Some(backends[0].1)
    else BackendOf(backends[1..], id)
  }

  /** What the Gateway makes of a bearer secret. */
  function Resolve(lines: seq<KeyLine>, suffixes: seq<(string, Id)>, backends: seq<(Id, string)>, secret: Secret): Option<string> {
    var keyLabel := LabelOf(lines, secret);
    if keyLabel.None? then None
    else
      var id := AccountOf(suffixes, keyLabel.value);
      if id.None? then None else BackendOf(backends, id.value)
  }

  lemma NoColon(id: Id)
    requires ValidId(id)
    ensures ':' !in id
  {
  }

  /** IDs hold no colon, so a label ends in the suffix of its own account only. */
  lemma OnlyOwnSuffix(user: User, id: Id, other: Id)
    requires ValidId(id) && ValidId(other)
    ensures EndsWith(RowLabel(user, id), ":" + other) <==> other == id
  {
    NoColon(id);
    NoColon(other);
    hide ValidId;
    var s := RowLabel(user, id);
    assert s[|user|] == ':' && forall k :: |user| < k < |s| ==> s[k] == id[k - |user| - 1];
    if EndsWith(s, ":" + other) {
      var at := |s| - |other| - 1;
      assert s[at..][0] == s[at] && forall k :: at < k < |s| ==> s[k] == s[at..][k - at] == other[k - at - 1];
      assert at == |user|;
      assert s[at + 1..] == id && s[at..][1..] == s[at + 1..];
    }
    if other == id {
      assert s[|s| - |id| - 1..] == ":" + id;
    }
  }

  lemma {:induction false} AccountOfLabel(order: seq<Id>, user: User, id: Id)
    requires id in order && forall a :: a in order ==> ValidId(a)
    ensures AccountOf(AccountMap(order), RowLabel(user, id)) == Some(id)
  {
    OnlyOwnSuffix(user, id, order[0]);
    hide EndsWith, ValidId;
    if order[0] != id {
      assert AccountMap(order)[1..] == AccountMap(order[1..]);
      AccountOfLabel(order[1..], user, id);
    }
  }

  lemma {:induction false} BackendOfAccount(order: seq<Id>, id: Id)
    requires id in order
    ensures BackendOf(BackendMap(order), id) == Some(Container(id))
  {
    hide Container;
    if order[0] != id {
      assert BackendMap(order)[1..] == BackendMap(order[1..]);
      BackendOfAccount(order[1..], id);
    }
  }

  lemma ContainersDiffer(a: Id, b: Id)
    requires Container(a) == Container(b)
    ensures a == b
  {
    var prefix := "cliproxy-";
    assert Container(a)[|prefix|..|Container(a)| - 5] == a;
    assert Container(b)[|prefix|..|Container(b)| - 5] == b;
  }

  // ------------------------------------------------------------ what is shown

  /** The records read are the rows of the catalog, and users are stored normalized. */
  ghost predicate Reads(c: Catalog, records: seq<KeyRow>) {
    && (forall r :: r in records <==> r in c.rows.Values)
    && (forall s :: s in c.rows ==> NormalUser(c.rows[s].user) == c.rows[s].user)
  }

  lemma NeverMalformed(c: Catalog, records: seq<KeyRow>)
    requires Invariant(c) && Reads(c, records)
    ensures forall i :: 0 <= i < |records| ==> !Malformed(records[i])
    ensures Users(records) == ActiveUsers(c.rows)
  {
    hide NormalUser, ValidIds, UniqueColumns, UniquePositions, OneDefault, RoutesTargetEnabled, OneSecretEach, RowsEverywhere;
    forall i | 0 <= i < |records| ensures !Malformed(records[i]) {
      assert records[i] in records;
      var s :| s in c.rows && c.rows[s] == records[i];
    }
    forall u | u in Users(records) ensures u in ActiveUsers(c.rows) {
      var r :| r in records && Active(r) && NormalUser(r.user) == u;
      var s :| s in c.rows && c.rows[s] == r;
    }
    forall u | u in ActiveUsers(c.rows) ensures u in Users(records) {
      var s :| s in c.rows && Active(c.rows[s]) && c.rows[s].user == u;
      assert c.rows[s] in c.rows.Values;
    }
  }

  /** A user's records all carry the one secret, and there is one on every account. */
  lemma ItemsAreUnified(c: Catalog, records: seq<KeyRow>, user: User)
    requires Invariant(c) && Reads(c, records) && user in ActiveUsers(c.rows)
    ensures UserSecrets(c.rows, user) != {} && UserSecrets(c.rows, user) == {SecretOf(c.rows, user)}
    ensures Secrets(ItemsOf(records, user)) == {SecretOf(c.rows, user)}
    ensures forall r :: r in ItemsOf(records, user) ==> r.secret == SecretOf(c.rows, user)
    ensures forall a :: a in c.accounts ==> FirstOn(ItemsOf(records, user), a).Some?
  {
    hide NormalUser, ValidIds, UniqueColumns, UniquePositions, OneDefault, RoutesTargetEnabled, RowsComplete;
    var items := ItemsOf(records, user);
    var k0 :| k0 in c.rows && Active(c.rows[k0]) && c.rows[k0].user == user;
    assert c.rows[k0].secret in UserSecrets(c.rows, user);
    var secret := SecretOf(c.rows, user);
    forall r | r in items ensures r.secret == secret {
      var s :| s in c.rows && c.rows[s] == r;
      assert r.secret in UserSecrets(c.rows, user);
    }
    assert c.rows[k0] in c.rows.Values && c.rows[k0] in items;
    assert secret in Secrets(items);
    forall a | a in c.accounts ensures FirstOn(items, a).Some? {
      assert HasRow(c.rows, user, a);
      var s :| s in c.rows && Active(c.rows[s]) && c.rows[s].user == user && c.rows[s].account == a;
      assert c.rows[s] in c.rows.Values && c.rows[s] in items;
    }
  }

  lemma RouteIsEnabled(c: Catalog, user: User)
    requires Invariant(c)
    ensures if user in c.routes then c.routes[user] in c.accounts && c.accounts[c.routes[user]].enabled else "" !in c.accounts
  {
    hide UniqueColumns, UniquePositions, OneDefault, UnifiedKeys;
  }

  /** So a routed user contributes one line and an unrouted user none. */
  lemma LinesOfUnified(c: Catalog, records: seq<KeyRow>, user: User)
    requires Invariant(c) && Reads(c, records) && user in ActiveUsers(c.rows)
    ensures UserSecrets(c.rows, user) != {} && UserSecrets(c.rows, user) == {SecretOf(c.rows, user)}
    ensures LinesOf(c.accounts, c.routes, user, ItemsOf(records, user)) ==
      Ok(if user in c.routes then [KeyLine(SecretOf(c.rows, user), RowLabel(user, c.routes[user]))] else [])
  {
    hide Invariant, Reads, ItemsOf, Secrets, RowLabel, UserSecrets, ActiveUsers;
    ItemsAreUnified(c, records, user);
    RouteIsEnabled(c, user);
  }

  /** `user` is the first routed user, in sorted order, who holds the secret. */
  ghost predicate FirstHolder(c: Catalog, secret: Secret, user: User) {
    && user in c.routes && UserSecrets(c.rows, user) == {secret}
    && forall other :: other in c.routes && UserSecrets(c.rows, other) == {secret} ==> other == user || Before(user, other)
  }

  ghost predicate HeldWithin(c: Catalog, users: seq<User>, secret: Secret, i: nat)
    requires i < |users|
  {
    && users[i] in c.routes && UserSecrets(c.rows, users[i]) == {secret}
    && forall j :: 0 <= j < i && users[j] in c.routes ==> UserSecrets(c.rows, users[j]) != {secret}
  }

  predicate DistinctSecrets(lines: seq<KeyLine>) {
    forall i, j :: 0 <= i < j < |lines| ==> lines[i].secret != lines[j].secret
  }

  ghost predicate RoutedAreEmitted(c: Catalog, users: seq<User>, lines: seq<KeyLine>) {
    forall i :: 0 <= i < |users| && users[i] in c.routes ==> exists k :: UserSecrets(c.rows, users[i]) == {k} && Emitted(lines, k)
  }

  ghost predicate IsLineOf(c: Catalog, users: seq<User>, line: KeyLine, i: nat)
    requires i < |users|
  {
    HeldWithin(c, users, line.secret, i) && line.keyLabel == RowLabel(users[i], c.routes[users[i]])
  }

  ghost predicate IsHeld(c: Catalog, users: seq<User>, line: KeyLine) {
    exists i :: 0 <= i < |users| && IsLineOf(c, users, line, i)
  }

  ghost predicate LinesAreHeld(c: Catalog, users: seq<User>, lines: seq<KeyLine>) {
    forall l :: 0 <= l < |lines| ==> IsHeld(c, users, lines[l])
  }

  /** Each secret has one line, and it is that of the first of the users who holds it. */
  ghost predicate LinesAreHolders(c: Catalog, users: seq<User>, lines: seq<KeyLine>) {
    DistinctSecrets(lines) && RoutedAreEmitted(c, users, lines) && LinesAreHeld(c, users, lines)
  }

  /** The line a routed user adds, unless the secret is already there. */
  function Extended(c: Catalog, lines: seq<KeyLine>, user: User, secret: Secret): seq<KeyLine> {
    if user !in c.routes || Emitted(lines, secret) then lines
    else lines + [KeyLine(secret, RowLabel(user, c.routes[user]))]
  }

  lemma HoldersAfter(c: Catalog, users: seq<User>, lines: seq<KeyLine>, user: User, secret: Secret)
    requires LinesAreHolders(c, users, lines) && UserSecrets(c.rows, user) == {secret}
    ensures LinesAreHolders(c, users + [user], Extended(c, lines, user, secret))
  {
    hide UserSecrets, RowLabel, Emitted;
    var all, more := users + [user], Extended(c, lines, user, secret);
    EmittedAfter(lines, KeyLine(secret, if user in c.routes then RowLabel(user, c.routes[user]) else ""));
    forall i, j | 0 <= i < j < |more| ensures more[i].secret != more[j].secret {
      NotEmitted(lines, secret);
    }
    assert DistinctSecrets(more);
    forall i | 0 <= i < |all| && all[i] in c.routes
      ensures exists k :: UserSecrets(c.rows, all[i]) == {k} && Emitted(more, k)
    {
      if i < |users| {
        var k :| UserSecrets(c.rows, users[i]) == {k} && Emitted(lines, k);
      } else {
        assert Emitted(more, secret);
      }
    }
    assert RoutedAreEmitted(c, all, more);
    forall l | 0 <= l < |more| ensures IsHeld(c, all, more[l]) {
      if l < |lines| {
        var i :| 0 <= i < |users| && IsLineOf(c, users, lines[l], i);
        assert IsLineOf(c, all, more[l], i);
      } else {
        LastIsHolder(c, users, lines, user, secret);
        assert IsLineOf(c, all, more[l], |users|);
      }
    }
    assert LinesAreHeld(c, all, more);
  }

  lemma NotEmitted(lines: seq<KeyLine>, secret: Secret)
    ensures !Emitted(lines, secret) ==> forall i :: 0 <= i < |lines| ==> lines[i].secret != secret
  {
  }

  lemma LastIsHolder(c: Catalog, users: seq<User>, lines: seq<KeyLine>, user: User, secret: Secret)
    requires LinesAreHolders(c, users, lines) && UserSecrets(c.rows, user) == {secret}
    requires user in c.routes && !Emitted(lines, secret)
    ensures HeldWithin(c, users + [user], secret, |users|)
  {
    hide UserSecrets, RowLabel, Emitted;
    forall j | 0 <= j < |users| && users[j] in c.routes ensures UserSecrets(c.rows, users[j]) != {secret} {
      var k :| UserSecrets(c.rows, users[j]) == {k} && Emitted(lines, k);
      assert k in {k} && k != secret;
    }
  }

  /** Rendering never fails on a sound catalog, and emits each secret once, for its first holder. */
  lemma {:induction false} KeyLinesAreHolders(c: Catalog, records: seq<KeyRow>, users: seq<User>)
    requires Invariant(c) && Reads(c, records)
    requires forall i :: 0 <= i < |users| ==> users[i] in ActiveUsers(c.rows)
    ensures
      var lines := KeyLines(c.accounts, c.routes, records, users);
      lines.Ok? && LinesAreHolders(c, users, lines.value)
  {
    hide Invariant, Reads, ActiveUsers, UserSecrets, LinesOf, ItemsOf, RowLabel;
    if users != [] {
      var n := |users| - 1;
      KeyLinesAreHolders(c, records, users[..n]);
      LinesOfUnified(c, records, users[n]);
      var before := KeyLines(c.accounts, c.routes, records, users[..n]).value;
      var secret := SecretOf(c.rows, users[n]);
      HoldersAfter(c, users[..n], before, users[n], secret);
      assert users == users[..n] + [users[n]];
      hide LinesAreHolders, Emitted;
      AppendAtMostOne(c, before, users[n], secret);
    }
  }

  lemma AppendAtMostOne(c: Catalog, lines: seq<KeyLine>, user: User, secret: Secret)
    ensures Append(lines, if user in c.routes then [KeyLine(secret, RowLabel(user, c.routes[user]))] else [])
      == Extended(c, lines, user, secret)
  {
    hide Emitted, RowLabel;
    assert Append(lines, []) == lines;
  }

  /** Being first among the sorted users is being first of all. */
  lemma HeldWithinIsFirst(c: Catalog, users: seq<User>, secret: Secret, i: nat)
    requires Sorted(users, ActiveUsers(c.rows)) && RoutesTargetEnabled(c)
    requires i < |users| && HeldWithin(c, users, secret, i)
    ensures FirstHolder(c, secret, users[i])
  {
    hide Before, ActiveUsers, UserSecrets;
    forall other | other in c.routes && UserSecrets(c.rows, other) == {secret}
      ensures other == users[i] || Before(users[i], other)
    {
      assert other in users;
      var j :| 0 <= j < |users| && users[j] == other;
    }
  }

  /** The rendered maps of a catalog. */
  ghost predicate Rendered(c: Catalog, records: seq<KeyRow>, users: seq<User>, lines: seq<KeyLine>) {
    && Reads(c, records) && Sorted(users, Users(records))
    && KeyLines(c.accounts, c.routes, records, users) == Ok(lines)
  }

  lemma RenderedHolders(c: Catalog, records: seq<KeyRow>, users: seq<User>, lines: seq<KeyLine>)
    requires Invariant(c) && Rendered(c, records, users, lines)
    ensures Sorted(users, ActiveUsers(c.rows)) && LinesAreHolders(c, users, lines)
  {
    NeverMalformed(c, records);
    SortedMembers(users, ActiveUsers(c.rows));
    hide Invariant, Reads, Sorted, LinesAreHolders;
    KeyLinesAreHolders(c, records, users);
  }

  lemma HoldersFacts(c: Catalog, users: seq<User>, lines: seq<KeyLine>)
    requires LinesAreHolders(c, users, lines)
    ensures forall i, j :: 0 <= i < j < |lines| ==> lines[i].secret != lines[j].secret
    ensures RoutedAreEmitted(c, users, lines) && LinesAreHeld(c, users, lines)
  {
  }

  lemma ResolveSteps(lines: seq<KeyLine>, suffixes: seq<(string, Id)>, backends: seq<(Id, string)>, secret: Secret)
    requires LabelOf(lines, secret).Some? && AccountOf(suffixes, LabelOf(lines, secret).value).Some?
    ensures Resolve(lines, suffixes, backends, secret) == BackendOf(backends, AccountOf(suffixes, LabelOf(lines, secret).value).value)
  {
  }

  /** No secret is emitted twice, and exactly the secrets of routed users are. */
  lemma EmittedOnceIffRouted(c: Catalog, records: seq<KeyRow>, users: seq<User>, lines: seq<KeyLine>)
    requires Invariant(c) && Rendered(c, records, users, lines)
    ensures forall i, j :: 0 <= i < j < |lines| ==> lines[i].secret != lines[j].secret
    ensures forall k :: Emitted(lines, k) <==> exists u :: u in c.routes && UserSecrets(c.rows, u) == {k}
  {
    hide *;
    RenderedHolders(c, records, users, lines);
    RoutedAreListed(c, users);
    HoldersFacts(c, users, lines);
    forall u, k | u in c.routes && UserSecrets(c.rows, u) == {k} ensures Emitted(lines, k) {
      RoutedIsEmitted(c, users, lines, u, k);
    }
    forall k | Emitted(lines, k) ensures exists u :: u in c.routes && UserSecrets(c.rows, u) == {k} {
      var keyLabel, i := LineOf(c, users, lines, k);
      HeldByRouted(c, users, k, i);
    }
  }

  lemma RoutedAreListed(c: Catalog, users: seq<User>)
    requires Invariant(c) && Sorted(users, ActiveUsers(c.rows))
    ensures forall u :: u in c.routes ==> exists i :: 0 <= i < |users| && users[i] == u
  {
    hide ValidIds, UniqueColumns, UniquePositions, OneDefault, UnifiedKeys, ActiveUsers;
    forall u | u in c.routes ensures exists i :: 0 <= i < |users| && users[i] == u {
      assert u in users;
    }
  }

  lemma RoutedIsEmitted(c: Catalog, users: seq<User>, lines: seq<KeyLine>, user: User, secret: Secret)
    requires RoutedAreEmitted(c, users, lines) && user in c.routes && UserSecrets(c.rows, user) == {secret}
    requires exists i :: 0 <= i < |users| && users[i] == user
    ensures Emitted(lines, secret)
  {
    hide UserSecrets, Emitted;
    var i :| 0 <= i < |users| && users[i] == user;
    var own :| UserSecrets(c.rows, users[i]) == {own} && Emitted(lines, own);
    assert own in {secret};
  }

  /** The line found for a secret, and which of the users it belongs to. */
  lemma LineOf(c: Catalog, users: seq<User>, lines: seq<KeyLine>, secret: Secret) returns (keyLabel: string, i: nat)
    requires LinesAreHeld(c, users, lines) && Emitted(lines, secret)
    ensures LabelOf(lines, secret) == Some(keyLabel)
    ensures i < |users| && HeldWithin(c, users, secret, i) && users[i] in c.routes && keyLabel == RowLabel(users[i], c.routes[users[i]])
  {
    hide UserSecrets, RowLabel, Emitted;
    keyLabel := LabelOf(lines, secret).value;
    var l :| 0 <= l < |lines| && lines[l] == KeyLine(secret, keyLabel);
    i :| 0 <= i < |users| && IsLineOf(c, users, lines[l], i);
  }

  lemma HeldByRouted(c: Catalog, users: seq<User>, secret: Secret, i: nat)
    requires i < |users| && HeldWithin(c, users, secret, i)
    ensures users[i] in c.routes && UserSecrets(c.rows, users[i]) == {secret}
  {
  }

  /**
   * A routed user's secret resolves through the three maps to the container of
   * the account routed by the first user who holds that secret, and so to the
   * user's own account exactly when the two routes agree.
   */
  lemma ResolvesToFirstHolder(c: Catalog, order: seq<Id>, records: seq<KeyRow>, users: seq<User>, lines: seq<KeyLine>, user: User)
      returns (secret: Secret, holder: User)
    requires Invariant(c) && Rendered(c, records, users, lines) && (forall a :: a in order <==> a in c.accounts)
    requires user in c.routes
    ensures UserSecrets(c.rows, user) == {secret} && FirstHolder(c, secret, holder)
    ensures
      var reached := Resolve(lines, AccountMap(order), BackendMap(order), secret);
      && reached == Some(Container(c.routes[holder]))
      && (reached == Some(Container(c.routes[user])) <==> c.routes[holder] == c.routes[user])
  {
    hide *;
    RenderedHolders(c, records, users, lines);
    RoutedAreListed(c, users);
    RoutesAreEnabled(c);
    HoldersFacts(c, users, lines);
    secret := SecretOfRouted(c, users, lines, user);
    var keyLabel, i := LineOf(c, users, lines, secret);
    holder := users[i];
    HeldWithinIsFirst(c, users, secret, i);
    AccountOfLabel(order, holder, c.routes[holder]);
    BackendOfAccount(order, c.routes[holder]);
    ResolveSteps(lines, AccountMap(order), BackendMap(order), secret);
    if Container(c.routes[holder]) == Container(c.routes[user]) {
      ContainersDiffer(c.routes[holder], c.routes[user]);
    }
  }

  lemma SecretOfRouted(c: Catalog, users: seq<User>, lines: seq<KeyLine>, user: User) returns (secret: Secret)
    requires RoutedAreEmitted(c, users, lines) && user in c.routes
    requires exists i :: 0 <= i < |users| && users[i] == user
    ensures UserSecrets(c.rows, user) == {secret} && Emitted(lines, secret)
  {
    hide UserSecrets, Emitted;
    var i :| 0 <= i < |users| && users[i] == user;
    secret :| UserSecrets(c.rows, users[i]) == {secret} && Emitted(lines, secret);
  }

  lemma RoutesAreEnabled(c: Catalog)
    requires Invariant(c)
    ensures RoutesTargetEnabled(c) && forall a :: a in c.accounts ==> ValidId(a)
    ensures forall u :: u in c.routes ==> c.routes[u] in c.accounts
  {
    hide UniqueColumns, UniquePositions, OneDefault, UnifiedKeys, ValidId, ActiveUsers;
  }

  /** With a secret of their own, users reach exactly the container of their routed account. */
  lemma ReachesRoutedAccount(c: Catalog, order: seq<Id>, records: seq<KeyRow>, users: seq<User>, lines: seq<KeyLine>, user: User)
    requires Invariant(c) && Rendered(c, records, users, lines) && (forall a :: a in order <==> a in c.accounts)
    requires user in c.routes
    requires forall other :: other in c.routes && other != user ==> UserSecrets(c.rows, other) != UserSecrets(c.rows, user)
    ensures exists secret :: (
      && UserSecrets(c.rows, user) == {secret}
      && Resolve(lines, AccountMap(order), BackendMap(order), secret) == Some(Container(c.routes[user])))
  {
    hide *;
    var secret, holder := ResolvesToFirstHolder(c, order, records, users, lines, user);
    HolderHolds(c, secret, holder);
  }

  lemma HolderHolds(c: Catalog, secret: Secret, user: User)
    requires FirstHolder(c, secret, user)
    ensures user in c.routes && UserSecrets(c.rows, user) == {secret}
  {
  }

  /** So the key map of a sound catalog always renders. */
  lemma KeyMapRenders(c: Catalog, records: seq<KeyRow>, users: seq<User>)
    requires Invariant(c) && Reads(c, records) && Sorted(users, Users(records))
    ensures !(exists i :: 0 <= i < |records| && Malformed(records[i]))
    ensures KeyLines(c.accounts, c.routes, records, users).Ok?
  {
    hide *;
    NeverMalformed(c, records);
    SortedMembers(users, ActiveUsers(c.rows));
    KeyLinesAreHolders(c, records, users);
  }
}
