/**
 * Taking an account out of service before its files or container change: its
 * users move to a fallback, the snapshot follows, and the requests already
 * admitted finish.
 */
module Maintenance {
  import opened Wrappers
  import opened Catalog
  import opened Journal
  import opened Routes
  import opened Files
  import opened Traffic
  import opened World
  import opened ControlPlane
  import opened RecoveryLaws
  import opened Steps

  // -------------------------------------------------------------------- plan

  /** Users must have somewhere to go and somebody to wait for their requests. */
  ghost predicate CanEvacuate(c: Catalog, id: Id, requested: Option<Id>, eligible: Option<set<Id>>, drainer: bool) {
    HasUsers(c.routes, id) ==> drainer && HasFallback(c.accounts, id, requested, eligible)
  }

  /** No users, no fallback; otherwise a fallback must be found. */
  method PlanRoutes(cp: ControlPlane, id: Id, requested: Option<Id>, eligible: Option<set<Id>>)
    returns (ok: bool, evacuated: map<User, Id>, fallback: Option<Id>)
    ensures fallback.Some? ==> fallback.value in EnabledOthers(cp.catalog.accounts, id)
    ensures fallback.Some? ==> Chosen(cp.catalog.accounts, id, requested, eligible, fallback.value)
    ensures fallback.Some? ==> exists u :: u in cp.catalog.routes && cp.catalog.routes[u] == id
    ensures ok ==> evacuated == if fallback.Some? then Evacuation(cp.catalog.routes, id, fallback.value) else map[]
    ensures ok && fallback.None? ==> forall u :: u in cp.catalog.routes ==> cp.catalog.routes[u] != id
    ensures ok <==> (HasUsers(cp.catalog.routes, id) ==> HasFallback(cp.catalog.accounts, id, requested, eligible))
  {
    ok, evacuated, fallback := true, map[], None;
    if exists u :: u in cp.catalog.routes && cp.catalog.routes[u] == id {
      fallback := SelectFallback(cp.catalog.accounts, id, requested, eligible);
      ok := fallback.Some?;
      if ok {
        var expected;
        evacuated, expected := PlanEvacuation(cp.catalog.routes, id, fallback.value);
      }
    }
  }

  /** Puts the evacuated users on `target`, unless one of them was moved by someone else. */
  method RestoreTo(cp: ControlPlane, evacuated: map<User, Id>, source: Id, target: Id) returns (o: Outcome)
    requires evacuated != map[] ==> target != ""
    modifies cp`catalog
    ensures cp.catalog == old(cp.catalog) || cp.catalog == old(cp.catalog).(routes := ReturnTo(old(cp.catalog).routes, evacuated, target))
    ensures o.Done? ==> cp.catalog == old(cp.catalog).(routes := ReturnTo(old(cp.catalog).routes, evacuated, target))
    ensures o.Failed? ==> cp.catalog == old(cp.catalog)
    ensures (exists u :: Foreign(old(cp.catalog).routes, evacuated, target, {source}, u)) ==> o.Failed?
    ensures cp.files.calm && (forall u :: !Foreign(old(cp.catalog).routes, evacuated, target, {source}, u)) ==> o.Done?
  {
    if evacuated == map[] {
      assert ReturnTo(cp.catalog.routes, evacuated, target) == cp.catalog.routes;
      return Done;
    }
    var ok, assignments, expected := PlanReturn(cp.catalog.routes, evacuated, target, {source});
    if !ok {
      o := Failed;
    } else if assignments == map[] {
      o := Done;
    } else {
      o := cp.ApplyRoutes(assignments, expected);
    }
  }

  // ------------------------------------------------------------------- facts

  /** The users an operation evacuates, as planned at its start. */
  ghost predicate EvacuatedFrom(start: Catalog, operation: Operation, fallback: Option<Id>) {
    && operation.kind in {UpdateAccount, ClearAccountAuth} && operation.account in start.accounts
    && (fallback.Some? ==> fallback.value in EnabledOthers(start.accounts, operation.account))
    && operation.evacuated == if fallback.Some? then Evacuation(start.routes, operation.account, fallback.value) else map[]
  }

  /** A catalog with the accounts of the start and each evacuated user on the account or on the fallback. */
  ghost predicate OnlyEvacuated(c: Catalog, start: Catalog, operation: Operation) {
    && c == start.(routes := c.routes)
    && c.routes + operation.evacuated == start.routes + operation.evacuated
    && forall u :: u in operation.evacuated ==>
         u in c.routes && (c.routes[u] == operation.account || c.routes[u] == operation.evacuated[u])
  }

  ghost predicate ClashesIn(accounts: map<Id, Account>, operation: Operation) {
    && operation.kind == UpdateAccount && operation.account != operation.newAccount
    && operation.account in accounts && operation.newAccount in accounts
  }

  lemma EvacuationIsInvariant(start: Catalog, operation: Operation, fallback: Option<Id>)
    requires Invariant(start) && EvacuatedFrom(start, operation, fallback)
    ensures Invariant(Settled(start, operation))
  {
    assert RoutesTargetEnabled(start);
    var routes := start.routes + operation.evacuated;
    hide Invariant, ActiveUsers;
    ReroutedKeepsInvariant(start, routes);
  }

  lemma EvacuationFacts(c: Catalog, start: Catalog, operation: Operation, fallback: Option<Id>)
    requires Invariant(start) && EvacuatedFrom(start, operation, fallback) && OnlyEvacuated(c, start, operation)
    requires !ClashesIn(start.accounts, operation)
    ensures CatalogPart(c, operation)
  {
    hide Invariant, EvacuatedFrom, RoutesTargetEnabled, ClashesIn, OnlyEvacuated, Settled, OneSide, OwnedIds, DesiredIsEnabled;
    RoutesAreEnabled(start);
    EvacuationIsInvariant(start, operation, fallback);
    OnlyEvacuatedSettles(c, start, operation);
    Evacuees(start, operation, fallback);
    OnlyEvacuatedRoutes(c, start, operation);
  }

  lemma OnlyEvacuatedRoutes(c: Catalog, start: Catalog, operation: Operation)
    requires OnlyEvacuated(c, start, operation)
    requires forall u :: u in operation.evacuated ==>
      operation.evacuated[u] !in OwnedIds(operation) && DesiredIsEnabled(start.accounts, operation)
    ensures EvacuatedRoutes(c, operation)
  {
    hide DesiredIsEnabled;
  }

  lemma RoutesAreEnabled(c: Catalog)
    requires Invariant(c)
    ensures RoutesTargetEnabled(c)
  {
    hide RoutesTargetEnabled;
  }

  lemma OnlyEvacuatedSettles(c: Catalog, start: Catalog, operation: Operation)
    requires OnlyEvacuated(c, start, operation)
    ensures Settled(c, operation) == Settled(start, operation) && c.accounts == start.accounts
  {
  }

  lemma Evacuees(start: Catalog, operation: Operation, fallback: Option<Id>)
    requires RoutesTargetEnabled(start) && EvacuatedFrom(start, operation, fallback) && !ClashesIn(start.accounts, operation)
    ensures OneSide(start.accounts, operation)
    ensures forall u :: u in operation.evacuated ==>
      operation.evacuated[u] !in OwnedIds(operation) && DesiredIsEnabled(start.accounts, operation)
  {
    hide ActiveUsers;
    forall u | u in operation.evacuated
      ensures operation.evacuated[u] !in OwnedIds(operation) && DesiredIsEnabled(start.accounts, operation)
    {
      assert start.routes[u] == operation.account && start.accounts[operation.account].enabled;
    }
  }

  lemma AccountIsDesired(start: Catalog, operation: Operation, fallback: Option<Id>)
    requires EvacuatedFrom(start, operation, fallback) && !ClashesIn(start.accounts, operation)
    ensures Desired(start.accounts, operation) == Some(operation.account)
  {
  }

  /** What a journal past acceptance may find when only users have moved. */
  lemma MovedIsSound(w: World, start: World, operation: Operation, fallback: Option<Id>, op: Operation)
    requires Synced(start) && EvacuatedFrom(start.catalog, operation, fallback)
    requires OnlyEvacuated(w.catalog, start.catalog, operation)
    requires w == start.(catalog := w.catalog, active := w.active)
    requires ValidOperation(operation) && op == operation.(phase := op.phase) && op.phase != Accepted
    ensures Sound(Some(op), w)
  {
    hide Synced, Sound, ValidOperation, EvacuatedFrom;
    SameValid(operation, op);
    assert w.catalog.accounts == start.catalog.accounts;
    hide OnlyEvacuated;
    if ClashesIn(start.catalog.accounts, operation) {
      ClashIsSound(w, start, op);
    } else {
      OnlyUsersMoved(w, start, operation, fallback, op);
      RoutedIsSound(w, op);
    }
    hide Clashes, OnlyRoutesMoved;
  }

  lemma RoutedIsSound(w: World, operation: Operation)
    requires OnlyRoutesMoved(w, operation) && ValidOperation(operation) && operation.phase != Accepted
    ensures Sound(Some(operation), w)
  {
    hide CatalogPart, SyncedAccounts, ValidId;
    MatchingIsInterrupted(w, operation);
    hide Interrupted;
  }

  lemma OnlyUsersMoved(w: World, start: World, operation: Operation, fallback: Option<Id>, op: Operation)
    requires Synced(start) && EvacuatedFrom(start.catalog, operation, fallback)
    requires OnlyEvacuated(w.catalog, start.catalog, operation) && !ClashesIn(start.catalog.accounts, operation)
    requires w == start.(catalog := w.catalog, active := w.active)
    requires op == operation.(phase := op.phase)
    ensures OnlyRoutesMoved(w, op)
  {
    hide CatalogPart, Invariant, SyncedAccounts;
    EvacuationFacts(w.catalog, start.catalog, operation, fallback);
    AccountIsDesired(start.catalog, operation, fallback);
    MovedKind(start.catalog, operation, fallback);
    PhaseOfCatalog(w.catalog, operation, op);
    assert w.catalog == start.catalog.(routes := w.catalog.routes);
    hide OnlyEvacuated, EvacuatedFrom, ClashesIn;
    RoutesLeaveAccounts(start, w.catalog.routes, w.active);
  }

  lemma MovedKind(start: Catalog, operation: Operation, fallback: Option<Id>)
    requires EvacuatedFrom(start, operation, fallback)
    ensures operation.kind in {UpdateAccount, ClearAccountAuth} && operation.account in start.accounts
  {
  }

  lemma SameValid(operation: Operation, other: Operation)
    requires other == operation.(phase := other.phase)
    ensures ValidOperation(operation) <==> ValidOperation(other)
  {
    hide ValidId;
  }

  lemma ClashIsSound(w: World, start: World, operation: Operation)
    requires Synced(start) && ClashesIn(start.catalog.accounts, operation) && ValidOperation(operation)
    requires w.catalog.accounts == start.catalog.accounts && w.tree.dirs == start.tree.dirs
    ensures Clashes(w, operation) && Sound(Some(operation), w)
  {
    hide Invariant, CanRender, ConfigsMatch, ContainersMatch, ValidId;
    assert HasDirs(start.tree.dirs, operation.account) && HasDirs(start.tree.dirs, operation.newAccount);
  }

  /** Before any user has moved. */
  lemma AcceptedIsSound(start: World, operation: Operation)
    requires Synced(start) && operation.kind in {UpdateAccount, ClearAccountAuth} && operation.account in start.catalog.accounts
    requires ValidOperation(operation) && operation.phase == Accepted && operation.evacuated == map[]
    ensures Sound(Some(operation), start)
  {
    hide ValidOperation;
    if ClashesIn(start.catalog.accounts, operation) {
      hide Synced;
      ClashIsSound(start, start, operation);
    }
    hide Synced, Clashes, Interrupted, OnlyRoutesMoved;
  }

  lemma UsersAreBack(c: Catalog, start: Catalog, operation: Operation, fallback: Option<Id>)
    requires EvacuatedFrom(start, operation, fallback) && OnlyEvacuated(c, start, operation)
    ensures c.(routes := ReturnTo(c.routes, operation.evacuated, operation.account)) == start
    ensures OnlyEvacuated(start, start, operation)
  {
    var back := ReturnTo(c.routes, operation.evacuated, operation.account);
    assert forall u :: u in c.routes && u !in operation.evacuated ==> (c.routes + operation.evacuated)[u] == c.routes[u];
    assert forall u :: u in start.routes && u !in operation.evacuated ==> (start.routes + operation.evacuated)[u] == start.routes[u];
    assert c.routes.Keys == (c.routes + operation.evacuated).Keys;
    assert start.routes.Keys == (start.routes + operation.evacuated).Keys;
    assert back == start.routes;
  }

  lemma UsersHaveMoved(start: Catalog, operation: Operation, fallback: Option<Id>)
    requires EvacuatedFrom(start, operation, fallback)
    ensures OnlyEvacuated(start.(routes := start.routes + operation.evacuated), start, operation)
    ensures operation.account !in (start.routes + operation.evacuated).Values || operation.evacuated == map[]
  {
    assert start.routes + operation.evacuated + operation.evacuated == start.routes + operation.evacuated;
  }

  lemma Named(operation: Operation)
    requires ValidOperation(operation)
    ensures operation.account != "" && ValidOperation(operation.(evacuated := map[]))
  {
    hide IdLetter;
  }

  /** The evacuated users are no part of the record's identity. */
  lemma SameRecord(accepted: Operation, operation: Operation)
    requires operation == accepted.(evacuated := operation.evacuated)
    ensures ValidOperation(accepted) <==> ValidOperation(operation)
    ensures forall t, content :: OAuthSafe(t, accepted, content) <==> OAuthSafe(t, operation, content)
  {
    hide ValidId, OAuthHeld;
  }

  lemma EvacueesOf(routes: map<User, Id>, id: Id, fallback: Option<Id>)
    ensures fallback.Some? && (exists u :: u in routes && routes[u] == id) ==> Evacuation(routes, id, fallback.value) != map[]
  {
    if u :| fallback.Some? && u in routes && routes[u] == id {
      assert u in Evacuation(routes, id, fallback.value);
    }
  }

  // ------------------------------------------------------------------ methods

  /** Brings the users back and, unless nothing was published, the snapshot too. */
  method ReturnUsers(cp: ControlPlane, operation: Operation, ghost start: World, ghost fallback: Option<Id>) returns (e: Ending)
    requires EvacuatedFrom(start.catalog, operation, fallback) && OnlyEvacuated(cp.catalog, start.catalog, operation)
    requires cp.W() == start.(catalog := cp.catalog, active := cp.active) && start.active == start.catalog.routes
    requires operation.account != "" && (operation.evacuated == map[] ==> cp.active == start.active)
    modifies cp`catalog, cp`active, cp`monitor
    ensures OnlyEvacuated(cp.catalog, start.catalog, operation) && e in {Undone, Stuck, CutOff}
    ensures cp.W() == start.(catalog := cp.catalog, active := cp.active)
    ensures e.Undone? ==> cp.W() == start
    ensures OnlyHits(old(cp.monitor), cp.monitor, {})
    ensures cp.files.calm ==> e.Undone?
  {
    hide Watch;
    UsersAreBack(cp.catalog, start.catalog, operation, fallback);
    hide EvacuatedFrom, OnlyEvacuated, ReturnTo;
    var o := RestoreTo(cp, operation.evacuated, operation.account, operation.account);
    if o.Done? && (operation.evacuated != map[] || operation.kind == UpdateAccount) {
      o := cp.Publish();
    }
    e := EndOf(o, false);
  }

  /** The snapshot without the account, then its drain. */
  method TakeOut(cp: ControlPlane, id: Id) returns (o: Outcome)
    requires id !in cp.catalog.routes.Values
    modifies cp`active, cp`monitor
    ensures cp.active in {old(cp.active), cp.catalog.routes}
    ensures o.Done? ==>
      && cp.active == cp.catalog.routes
      && id !in cp.monitor.busy && cp.monitor.busy <= old(cp.monitor.busy) + cp.catalog.routes.Values
    ensures OnlyHits(old(cp.monitor), cp.monitor, {})
    ensures cp.files.calm ==> o.Done?
  {
    hide Watch;
    o := cp.Publish();
    if o.Done? {
      o := cp.WaitDrained(id);
    }
  }

  /** Routes, snapshot and drain; None when the account is out of service. */
  method MoveUsers(cp: ControlPlane, operation: Operation, drainer: bool, ghost start: World, ghost fallback: Option<Id>)
    returns (e: Option<Ending>)
    requires EvacuatedFrom(start.catalog, operation, fallback) && cp.W() == start && start.active == start.catalog.routes
    requires operation.account != "" && operation.evacuated != map[]
    modifies cp`catalog, cp`active, cp`monitor
    ensures OnlyEvacuated(cp.catalog, start.catalog, operation)
    ensures cp.W() == start.(catalog := cp.catalog, active := cp.active)
    ensures e.Some? ==> e.value in {Undone, Stuck, CutOff} && (e.value.Undone? ==> cp.W() == start)
    ensures e.None? ==>
      && cp.catalog == Settled(start.catalog, operation) && cp.active == cp.catalog.routes
      && operation.account !in cp.monitor.busy && cp.monitor.busy <= old(cp.monitor.busy) + cp.catalog.routes.Values
    ensures OnlyHits(old(cp.monitor), cp.monitor, {})
    ensures cp.files.calm ==> e == if drainer then None else Some(Undone)
  {
    hide Watch;
    UsersAreBack(cp.catalog, start.catalog, operation, fallback);
    UsersHaveMoved(start.catalog, operation, fallback);
    hide EvacuatedFrom, OnlyEvacuated;
    e := Some(Undone);
    if drainer {
      var o := cp.ApplyRoutes(operation.evacuated, map u | u in operation.evacuated :: operation.account);
      if o.Done? {
        o := TakeOut(cp, operation.account);
        if o.Failed? {
          var end := ReturnUsers(cp, operation, start, fallback);
          e := Some(end);
        }
      }
      if o.Crashed? {
        e := Some(CutOff);
      } else if o.Done? {
        e := None;
      }
    }
  }

  /**
   * From the accepted journal to an account out of service, recorded in the
   * journal before and after the users move.  None means done.
   */
  method Evacuate(cp: ControlPlane, operation: Operation, drainer: bool, ghost fallback: Option<Id>) returns (e: Option<Ending>)
    requires Synced(cp.W()) && EvacuatedFrom(cp.catalog, operation, fallback) && ValidOperation(operation)
    requires operation.phase == Accepted && cp.journal == Some(operation.(evacuated := map[]))
    modifies cp`catalog, cp`active, cp`monitor, cp`journal
    ensures OnlyEvacuated(cp.catalog, old(cp.catalog), operation)
    ensures cp.W() == old(cp.W()).(catalog := cp.catalog, active := cp.active)
    ensures cp.journal.Some? && Sound(cp.journal, cp.W())
    ensures e.Some? ==> e.value in {Undone, Stuck, CutOff} && (e.value.Undone? ==> cp.W() == old(cp.W()))
    ensures e.None? ==>
      && cp.catalog == Settled(old(cp.catalog), operation) && cp.active == cp.catalog.routes
      && Holds(cp.journal, operation)
      && cp.monitor.busy <= old(cp.monitor.busy) + cp.catalog.routes.Values
      && (if operation.evacuated == map[] then cp.monitor == old(cp.monitor) else operation.account !in cp.monitor.busy)
    ensures OnlyHits(old(cp.monitor), cp.monitor, {})
    ensures cp.files.calm ==> e == if drainer || operation.evacuated == map[] then None else Some(Undone)
  {
    hide Watch, SyncedAccounts, Invariant, ValidOperation, Sound, Holds;
    ghost var start := cp.W();
    Named(operation);
    UsersAreBack(cp.catalog, start.catalog, operation, fallback);
    UsersHaveMoved(start.catalog, operation, fallback);
    MovedKind(start.catalog, operation, fallback);
    AcceptedIsSound(start, operation.(evacuated := map[]));
    hide EvacuatedFrom, OnlyEvacuated;
    var o := cp.WriteJournal(operation.(phase := RoutesPrepared));
    e := if o.Crashed? then Some(CutOff) else if o.Failed? then Some(Undone) else None;
    if cp.journal == Some(operation.(phase := RoutesPrepared)) {
      MovedIsSound(start, start, operation, fallback, cp.journal.value);
    }
    if e.None? {
      e := EvacuatePrepared(cp, operation, drainer, start, fallback);
    }
  }

  method EvacuatePrepared(cp: ControlPlane, operation: Operation, drainer: bool, ghost start: World, ghost fallback: Option<Id>)
    returns (e: Option<Ending>)
    requires Synced(start) && cp.W() == start && start.active == start.catalog.routes
    requires EvacuatedFrom(start.catalog, operation, fallback) && OnlyEvacuated(start.catalog, start.catalog, operation)
    requires ValidOperation(operation) && operation.account != "" && cp.journal == Some(operation.(phase := RoutesPrepared))
    modifies cp`catalog, cp`active, cp`monitor, cp`journal
    ensures OnlyEvacuated(cp.catalog, start.catalog, operation)
    ensures cp.W() == start.(catalog := cp.catalog, active := cp.active)
    ensures cp.journal.Some? && Sound(cp.journal, cp.W())
    ensures e.Some? ==> e.value in {Undone, Stuck, CutOff} && (e.value.Undone? ==> cp.W() == start)
    ensures e.None? ==>
      && cp.catalog == Settled(start.catalog, operation) && cp.active == cp.catalog.routes
      && Holds(cp.journal, operation)
      && cp.monitor.busy <= old(cp.monitor.busy) + cp.catalog.routes.Values
      && (if operation.evacuated == map[] then cp.monitor == old(cp.monitor) else operation.account !in cp.monitor.busy)
    ensures OnlyHits(old(cp.monitor), cp.monitor, {})
    ensures cp.files.calm ==> e == if drainer || operation.evacuated == map[] then None else Some(Undone)
  {
    hide Watch, Synced, EvacuatedFrom, OnlyEvacuated, ValidOperation, Sound;
    e := None;
    assert operation.evacuated == map[] ==> cp.catalog == Settled(start.catalog, operation);
    if operation.evacuated != map[] {
      e := MoveUsers(cp, operation, drainer, start, fallback);
    }
    hide Settled;
    if e.None? {
      var o := Advance(cp, operation, RoutesEvacuated);
      if o.Crashed? {
        e := Some(CutOff);
      } else if o.Failed? {
        var end := ReturnUsers(cp, operation, start, fallback);
        e := Some(end);
      }
    }
    assert cp.journal.Some? && cp.journal.value == operation.(phase := cp.journal.value.phase) && cp.journal.value.phase != Accepted;
    MovedIsSound(cp.W(), start, operation, fallback, cp.journal.value);
  }

  // ------------------------------------------------- while out of service

  lemma ReturnIsEvacuated(c: Catalog, start: Catalog, operation: Operation, fallback: Option<Id>, target: Id)
    requires EvacuatedFrom(start, operation, fallback) && OnlyEvacuated(c, start, operation)
    requires target == operation.account || fallback == Some(target)
    ensures OnlyEvacuated(c.(routes := ReturnTo(c.routes, operation.evacuated, target)), start, operation)
  {
    var routes := ReturnTo(c.routes, operation.evacuated, target);
    assert routes + operation.evacuated == c.routes + operation.evacuated;
  }

  lemma EvacuatedProgress(w: World, routes: map<User, Id>, start: Catalog, operation: Operation,
                          fallback: Option<Id>, content: Directory)
    requires InProgress(w, operation, content) && Invariant(start) && EvacuatedFrom(start, operation, fallback)
    requires w.catalog.accounts == start.accounts && !ClashesIn(start.accounts, operation)
    requires OnlyEvacuated(w.catalog.(routes := routes), start, operation)
    ensures InProgress(w.(catalog := w.catalog.(routes := routes)), operation, content)
  {
    hide InProgress, CatalogPart, Invariant, EvacuatedFrom, OnlyEvacuated, ClashesIn;
    EvacuationFacts(w.catalog.(routes := routes), start, operation, fallback);
    CatalogMoves(w, w.catalog.(routes := routes), operation, content);
  }

  /** Only a rename can clash, and a fallback has a name. */
  lemma NotClashing(start: Catalog, operation: Operation, fallback: Option<Id>)
    requires Invariant(start) && EvacuatedFrom(start, operation, fallback)
    ensures operation.kind == ClearAccountAuth ==> !ClashesIn(start.accounts, operation)
    ensures fallback.Some? ==> fallback.value != ""
    ensures fallback.None? ==> operation.evacuated == map[]
  {
    assert ValidIds(start.accounts) && !ValidId("");
    hide UniqueColumns, UniquePositions, OneDefault, RoutesTargetEnabled, UnifiedKeys, IdLetter;
  }

  lemma SameRows(c: Catalog, start: Catalog, operation: Operation)
    requires OnlyEvacuated(c, start, operation)
    ensures c.accounts == start.accounts && c.rows == start.rows
  {
  }

  /** Evacuated users are where the operation put them. */
  lemma NobodyIsForeign(c: Catalog, start: Catalog, operation: Operation, target: Id)
    requires OnlyEvacuated(c, start, operation)
    ensures forall u :: !Foreign(c.routes, operation.evacuated, target, {operation.account}, u)
  {
  }

  /** RestoreTo while the operation is under way. */
  method RestoreUsers(cp: ControlPlane, operation: Operation, target: Id, ghost start: Catalog,
                      ghost fallback: Option<Id>, ghost content: Directory)
    returns (o: Outcome)
    requires InProgress(cp.W(), operation, content) && Invariant(start) && EvacuatedFrom(start, operation, fallback)
    requires OnlyEvacuated(cp.catalog, start, operation) && !ClashesIn(start.accounts, operation)
    requires target == operation.account || fallback == Some(target)
    requires operation.account != "" && (operation.evacuated != map[] ==> target != "")
    modifies cp`catalog
    ensures InProgress(cp.W(), operation, content) && OnlyEvacuated(cp.catalog, start, operation)
    ensures o.Done? && target == operation.account ==> cp.catalog == start
    ensures cp.files.calm ==> o.Done?
  {
    hide InProgress, Invariant, EvacuatedFrom, OnlyEvacuated, ClashesIn, ReturnTo, Watch;
    ReturnIsEvacuated(cp.catalog, start, operation, fallback, target);
    UsersAreBack(cp.catalog, start, operation, fallback);
    SameRows(cp.catalog, start, operation);
    NobodyIsForeign(cp.catalog, start, operation, target);
    ghost var w := cp.W();
    o := RestoreTo(cp, operation.evacuated, operation.account, target);
    assert cp.catalog == w.catalog.(routes := cp.catalog.routes);
    assert OnlyEvacuated(cp.catalog, start, operation);
    EvacuatedProgress(w, cp.catalog.routes, start, operation, fallback, content);
  }
}
