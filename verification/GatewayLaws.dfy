/**
 * What the key map holds for any tables, also those from before keys were
 * unified: where each line comes from, which secrets are there, and when the
 * rendering refuses.
 */
module GatewayLaws {
  import opened Wrappers
  import opened Catalog
  import opened Routes
  import opened GatewayMaps
  import CatalogLaws

  /** The records all carry one secret. */
  ghost predicate Unified(items: seq<KeyRow>) {
    forall r, q :: r in items && q in items ==> r.secret == q.secret
  }

  /** The user is routed to the account and it is enabled. */
  predicate RoutedTo(accounts: map<Id, Account>, routes: map<User, Id>, user: User, id: Id) {
    user in routes && routes[user] == id && id in accounts && accounts[id].enabled
  }

  /** The record has a line: every one of a user with several secrets, and of others those on the routed account. */
  ghost predicate Counts(accounts: map<Id, Account>, routes: map<User, Id>, user: User, items: seq<KeyRow>, r: KeyRow) {
    r in items && (Unified(items) ==> RoutedTo(accounts, routes, user, r.account))
  }

  ghost predicate HasOn(items: seq<KeyRow>, id: Id) {
    exists r :: r in items && r.account == id
  }

  /** A user with several secrets has a record of an unknown account, or one with a single secret has none where they are routed. */
  ghost predicate Refused(accounts: map<Id, Account>, routes: map<User, Id>, user: User, items: seq<KeyRow>) {
    if Unified(items) then exists id :: RoutedTo(accounts, routes, user, id) && !HasOn(items, id)
    else exists r :: r in items && r.account !in accounts
  }

  predicate IsLineOf(line: KeyLine, user: User, r: KeyRow) {
    line.secret == r.secret && line.keyLabel == user + ":" + r.account
  }

  /** The line is that of a record with a line. */
  ghost predicate Sourced(accounts: map<Id, Account>, routes: map<User, Id>, user: User, items: seq<KeyRow>, line: KeyLine) {
    exists r :: Counts(accounts, routes, user, items, r) && IsLineOf(line, user, r)
  }

  /** What one user contributes. */
  ghost predicate LinesAre(r: Result<seq<KeyLine>, MapError>, accounts: map<Id, Account>, routes: map<User, Id>, user: User,
                           items: seq<KeyRow>) {
    && (r.Err? <==> Refused(accounts, routes, user, items))
    && (r.Ok? ==>
          && (forall line :: line in r.value ==> Sourced(accounts, routes, user, items, line))
          && (forall q :: Counts(accounts, routes, user, items, q) ==> Emitted(r.value, q.secret)))
  }

  lemma OneSecretIff(items: seq<KeyRow>)
    requires items != []
    ensures |Secrets(items)| == 1 <==> Unified(items)
  {
    assert items[0].secret in Secrets(items);
    if Unified(items) {
      assert Secrets(items) == {items[0].secret};
    } else {
      var p, q :| p in items && q in items && p.secret != q.secret;
      CatalogLaws.SubsetIsSmaller({p.secret, q.secret}, Secrets(items));
    }
  }

  lemma {:induction false} LegacyAre(accounts: map<Id, Account>, user: User, items: seq<KeyRow>)
    ensures
      var r := LegacyLines(accounts, user, items);
      && (r.Err? <==> exists q :: q in items && q.account !in accounts)
      && (r.Ok? ==> |r.value| == |items| && forall i :: 0 <= i < |items| ==> IsLineOf(r.value[i], user, items[i]))
  {
    if items != [] {
      var n := |items| - 1;
      LegacyAre(accounts, user, items[..n]);
      assert items == items[..n] + [items[n]];
    }
  }

  lemma LegacyLinesAre(accounts: map<Id, Account>, routes: map<User, Id>, user: User, items: seq<KeyRow>)
    requires !Unified(items)
    ensures LinesAre(LegacyLines(accounts, user, items), accounts, routes, user, items)
  {
    LegacyAre(accounts, user, items);
    var r := LegacyLines(accounts, user, items);
    if r.Ok? {
      hide Unified, RoutedTo, LegacyLines;
      forall q | q in items ensures Emitted(r.value, q.secret) {
        var i :| 0 <= i < |items| && items[i] == q;
        assert r.value[i].secret == q.secret;
      }
      forall line | line in r.value ensures Sourced(accounts, routes, user, items, line) {
        var i :| 0 <= i < |r.value| && r.value[i] == line;
        assert Counts(accounts, routes, user, items, items[i]) && IsLineOf(line, user, items[i]);
      }
    }
  }

  lemma UnifiedLinesAre(accounts: map<Id, Account>, routes: map<User, Id>, user: User, items: seq<KeyRow>)
    requires "" !in accounts && Unified(items) && |Secrets(items)| == 1
    ensures LinesAre(LinesOf(accounts, routes, user, items), accounts, routes, user, items)
  {
    hide Secrets;
    var id, r := Current(routes, user), LinesOf(accounts, routes, user, items);
    if RoutedTo(accounts, routes, user, id) {
      var row := FirstOn(items, id);
      if row.Some? {
        assert Counts(accounts, routes, user, items, row.value) && IsLineOf(r.value[0], user, row.value);
      } else {
        assert !HasOn(items, id);
      }
    }
  }

  lemma UserLinesAre(accounts: map<Id, Account>, routes: map<User, Id>, user: User, items: seq<KeyRow>)
    requires "" !in accounts && items != []
    ensures LinesAre(LinesOf(accounts, routes, user, items), accounts, routes, user, items)
  {
    OneSecretIff(items);
    hide Secrets, LinesAre, LegacyLines;
    if Unified(items) {
      UnifiedLinesAre(accounts, routes, user, items);
    } else {
      LegacyLinesAre(accounts, routes, user, items);
    }
  }

  lemma {:induction false} AppendIs(lines: seq<KeyLine>, more: seq<KeyLine>)
    requires DistinctSecrets(lines)
    ensures DistinctSecrets(Append(lines, more))
    ensures forall line :: line in Append(lines, more) ==> line in lines || line in more
    ensures forall k :: Emitted(Append(lines, more), k) <==> Emitted(lines, k) || Emitted(more, k)
  {
    if more == [] {
      assert forall k :: !Emitted(more, k);
    } else {
      var n := |more| - 1;
      AppendIs(lines, more[..n]);
      var before := Append(lines, more[..n]);
      assert more == more[..n] + [more[n]];
      EmittedAfter(more[..n], more[n]);
      EmittedAfter(before, more[n]);
      if !Emitted(before, more[n].secret) {
        NotEmitted(before, more[n].secret);
      }
    }
  }

  /** Where every line of the whole map comes from, and which secrets it holds. */
  ghost predicate MapIs(lines: seq<KeyLine>, accounts: map<Id, Account>, routes: map<User, Id>, records: seq<KeyRow>, users: seq<User>) {
    && DistinctSecrets(lines)
    && (forall line :: line in lines ==> exists u :: u in users && Sourced(accounts, routes, u, ItemsOf(records, u), line))
    && (forall u, r :: u in users && Counts(accounts, routes, u, ItemsOf(records, u), r) ==> Emitted(lines, r.secret))
  }

  /**
   * The map is refused iff a user with several secrets has a record of an
   * unknown account, or a user with one secret has none on the routed account.
   * Otherwise no secret is in it twice, every line labels the secret of a
   * record with its user and account, and no secret of such a record is missing.
   */
  lemma {:induction false} KeyMapIs(accounts: map<Id, Account>, routes: map<User, Id>, records: seq<KeyRow>, users: seq<User>)
    requires "" !in accounts && forall u :: u in users ==> ItemsOf(records, u) != []
    ensures
      var r := KeyLines(accounts, routes, records, users);
      && (r.Err? <==> exists u :: u in users && Refused(accounts, routes, u, ItemsOf(records, u)))
      && (r.Ok? ==> MapIs(r.value, accounts, routes, records, users))
  {
    hide Refused, Counts, Sourced, LinesOf, Append, Emitted, ItemsOf, DistinctSecrets;
    if users == [] {
      NoLines();
    } else {
      var n := |users| - 1;
      var init, last := users[..n], users[n];
      assert users == init + [last];
      KeyMapIs(accounts, routes, records, init);
      UserLinesAre(accounts, routes, last, ItemsOf(records, last));
      var before, more := KeyLines(accounts, routes, records, init), LinesOf(accounts, routes, last, ItemsOf(records, last));
      if before.Ok? && more.Ok? {
        AppendIs(before.value, more.value);
      }
    }
  }

  lemma NoLines()
    ensures DistinctSecrets([])
  {
  }
}
