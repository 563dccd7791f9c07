/**
 * When a restoration refuses, stated over the tables alone, and what it writes
 * when it does not, also when rows outside the footprint have changed since.
 */
module RestoreLaws {
  import opened Wrappers
  import opened Catalog

  /** No account but those of `ids` has the account's email or port. */
  ghost predicate Fits(accounts: map<Id, Account>, account: Account, ids: set<Id>) {
    forall a :: a in accounts && a !in ids ==> accounts[a].email != account.email && accounts[a].port != account.port
  }

  /** The recorded flag where there is one. */
  function Flagged(account: Account, a: Id, flags: map<Id, bool>): Account {
    account.(isDefault := if a in flags then flags[a] else account.isDefault)
  }

  // ----------------------------------------------------------------- creation

  /**
   * A creation is taken back unless the account is gone or was changed, a user
   * is routed to it, or a created row is gone or was changed.
   */
  lemma CreationConflictIff(c: Catalog, creation: AccountCreation)
    ensures RestoreCreation(c, creation) == Err(Conflict) <==>
      || creation.id !in c.accounts
      || c.accounts[creation.id].(position := creation.account.position) != creation.account
      || (exists u :: u in c.routes && c.routes[u] == creation.id)
      || exists s :: s in creation.createdRows && (s !in c.rows || c.rows[s] != creation.createdRows[s])
    ensures RestoreCreation(c, creation).Err? ==> RestoreCreation(c, creation) == Err(Conflict)
  {
  }

  /** Then the account and the created rows go, and nothing else changes. */
  lemma RestoredCreationIs(c: Catalog, creation: AccountCreation)
    requires RestoreCreation(c, creation).Ok?
    ensures
      var next := RestoreCreation(c, creation).value;
      && next.routes == c.routes
      && next.accounts.Keys == c.accounts.Keys - {creation.id}
      && (forall a :: a in next.accounts ==> next.accounts[a] == c.accounts[a])
      && next.rows.Keys == c.rows.Keys - creation.createdRows.Keys
      && (forall s :: s in next.rows ==> next.rows[s] == c.rows[s])
  {
    hide CreationFootprint;
  }

  // ------------------------------------------------------------------- update

  /**
   * An update is taken back unless the account or one of its rows was changed,
   * the old ID is back, or a recorded user or flag is not where it was put.
   */
  lemma UpdateConflictIff(c: Catalog, update: AccountUpdate)
    ensures RestoreUpdate(c, update) == Err(Conflict) <==>
      || update.newId !in c.accounts || c.accounts[update.newId] != update.after
      || (update.id != update.newId && update.id in c.accounts)
      || (map s | s in c.rows && c.rows[s].account == update.newId :: c.rows[s]) != update.rowsAfter
      || (exists u :: u in update.routes && (u !in c.routes || c.routes[u] != update.routes[u].after))
      || exists a :: a in update.defaultsAfter && (a !in c.accounts || c.accounts[a].isDefault != update.defaultsAfter[a])
  {
    assert AccountRows(c.rows, update.newId) == map s | s in c.rows && c.rows[s].account == update.newId :: c.rows[s];
    hide AccountRows, UniqueColumns, Rename, WithDefaults, UndoneRoutes, WithoutRowsOf;
  }

  /** Without a conflict it fails only where the old email, port or a row number is in use by now. */
  lemma UpdateConstraintIff(c: Catalog, update: AccountUpdate)
    requires UniqueColumns(c.accounts) && RestoreUpdate(c, update) != Err(Conflict)
    ensures RestoreUpdate(c, update) == Err(Constraint) <==>
      || !Fits(c.accounts, update.before, {update.id, update.newId})
      || exists s :: s in update.rowsBefore && s in c.rows && c.rows[s].account != update.newId
    ensures RestoreUpdate(c, update).Err? ==> RestoreUpdate(c, update) == Err(Constraint)
  {
    hide UpdateFootprint, WithDefaults, UndoneRoutes;
    assert update.id == update.newId || update.id !in c.accounts by { UpdateConflictIff(c, update); }
    var kept := WithoutRowsOf(c.rows, update.newId);
    assert forall s :: s in kept <==> s in c.rows && c.rows[s].account != update.newId;
    RenamedFits(c.accounts, update.newId, update.id, update.before);
    hide Rename, UniqueColumns, Fits, WithoutRowsOf;
  }

  lemma RenamedFits(accounts: map<Id, Account>, newId: Id, id: Id, before: Account)
    requires UniqueColumns(accounts) && (id == newId || id !in accounts)
    ensures UniqueColumns(Rename(accounts, newId, id, before)) <==> Fits(accounts, before, {id, newId})
  {
    var renamed := Rename(accounts, newId, id, before);
    if UniqueColumns(renamed) {
      forall a | a in accounts && a !in {id, newId}
        ensures accounts[a].email != before.email && accounts[a].port != before.port
      {
        assert a in renamed && id in renamed && renamed[a] == accounts[a] && renamed[id] == before;
      }
    }
  }

  /** It puts back account, rows, users and flags as recorded; other rows and users stay as they are by now. */
  lemma RestoredUpdateIs(c: Catalog, update: AccountUpdate)
    requires RestoreUpdate(c, update).Ok?
    ensures
      var next := RestoreUpdate(c, update).value;
      && next.accounts.Keys == c.accounts.Keys - {update.newId} + {update.id}
      && (forall a :: a in next.accounts ==>
            next.accounts[a] == Flagged(if a == update.id then update.before else c.accounts[a], a, update.defaultsBefore))
      && (forall s :: s in update.rowsBefore ==> s in next.rows && next.rows[s] == update.rowsBefore[s])
      && (forall s :: s !in update.rowsBefore ==>
            && (s in next.rows <==> s in c.rows && c.rows[s].account != update.newId)
            && (s in next.rows ==> next.rows[s] == c.rows[s]))
      && next.routes.Keys == c.routes.Keys
      && (forall u :: u in c.routes ==>
            next.routes[u] == if u in update.routes then update.routes[u].before else c.routes[u])
  {
    hide AccountRows, UniqueColumns, FreeSequences;
  }

  // ----------------------------------------------------------------- deletion

  /** A deletion is taken back unless the ID is back, a row number is in use, or a moved user is not where they were put. */
  lemma DeletionConflictIff(c: Catalog, deletion: AccountDeletion)
    ensures RestoreDeletion(c, deletion) == Err(Conflict) <==>
      || deletion.id in c.accounts
      || (exists s :: s in deletion.rows && s in c.rows)
      || exists u :: u in deletion.routes && (u !in c.routes || c.routes[u] != deletion.routes[u].after)
  {
    hide UniqueColumns, WithDefaults, UndoneRoutes;
  }

  /** Without a conflict it fails only where the account's email or port is in use by now. */
  lemma DeletionConstraintIff(c: Catalog, deletion: AccountDeletion)
    requires UniqueColumns(c.accounts) && RestoreDeletion(c, deletion) != Err(Conflict)
    ensures RestoreDeletion(c, deletion) == Err(Constraint) <==> !Fits(c.accounts, deletion.account, {})
    ensures RestoreDeletion(c, deletion).Err? ==> RestoreDeletion(c, deletion) == Err(Constraint)
  {
    assert deletion.id !in c.accounts;
    var restored := c.accounts[deletion.id := deletion.account];
    if UniqueColumns(restored) {
      forall a | a in c.accounts
        ensures c.accounts[a].email != deletion.account.email && c.accounts[a].port != deletion.account.port
      {
        assert restored[a] == c.accounts[a] && restored[deletion.id] == deletion.account;
      }
    }
    hide WithDefaults, UndoneRoutes;
  }

  /** It puts back account, rows, users and flags as recorded; other rows and users stay as they are by now. */
  lemma RestoredDeletionIs(c: Catalog, deletion: AccountDeletion)
    requires RestoreDeletion(c, deletion).Ok?
    ensures
      var next := RestoreDeletion(c, deletion).value;
      && next.accounts.Keys == c.accounts.Keys + {deletion.id}
      && (forall a :: a in next.accounts ==>
            next.accounts[a] == Flagged(if a == deletion.id then deletion.account else c.accounts[a], a, deletion.defaults))
      && next.rows.Keys == c.rows.Keys + deletion.rows.Keys
      && (forall s :: s in next.rows ==> next.rows[s] == if s in deletion.rows then deletion.rows[s] else c.rows[s])
      && next.routes.Keys == c.routes.Keys
      && (forall u :: u in c.routes ==>
            next.routes[u] == if u in deletion.routes then deletion.routes[u].before else c.routes[u])
  {
    hide UniqueColumns;
  }
}
