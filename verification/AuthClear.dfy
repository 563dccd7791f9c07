/**
 * Clearing an account's OAuth files: its users wait on a fallback while the
 * backed-up directory is emptied and the container restarted.
 */
module AuthClear {
  import opened Wrappers
  import opened Catalog
  import opened Journal
  import opened Routes
  import opened Files
  import opened Traffic
  import opened World
  import opened ControlPlane
  import opened RecoveryLaws
  import opened Steps
  import opened Maintenance

  // ------------------------------------------------------------------- facts

  /** The files of the start, with the OAuth directory as given and backed up. */
  ghost predicate ClearedFrom(t: Tree, start: Tree, operation: Operation, auth: Directory) {
    && t.config == start.config && t.dirs == start.dirs[Path(Auth, operation.account) := auth]
    && Get(t.backups, OperationBackup(operation)) == Some(BackupOf(start, operation.account, false, true, false))
    && HasDirs(start.dirs, operation.account)
  }

  /** The container may have been stopped, and nothing else. */
  ghost predicate StoppedFrom(containers: map<Id, Container>, start: map<Id, Container>, id: Id) {
    && id in containers && id in start && containers[id].port == start[id].port && start[id].running
    && forall other :: other != id ==> SameAt(containers, start, other)
  }

  lemma StillStopped(containers: map<Id, Container>, before: map<Id, Container>, start: map<Id, Container>, id: Id)
    requires StoppedFrom(before, start, id)
    requires id in containers <==> id in before
    requires id in containers ==> containers[id].port == before[id].port
    requires forall other :: other != id ==> SameAt(containers, before, other)
    ensures StoppedFrom(containers, start, id)
  {
    forall other | other != id
      ensures SameAt(containers, start, other)
    {
      assert SameAt(containers, before, other) && SameAt(before, start, other);
    }
  }

  lemma RunningAgain(containers: map<Id, Container>, start: map<Id, Container>, id: Id)
    requires StoppedFrom(containers, start, id) && containers[id].running
    ensures containers == start
  {
    assert forall other :: other in containers || other in start ==> other == id || SameAt(containers, start, other);
    assert forall other :: other in containers ==> containers[other] == start[other];
  }

  lemma ClearRestores(t: Tree, start: Tree, operation: Operation)
    requires ClearedFrom(t, start, operation, map[])
    ensures
      var back := RolledBack(t, ClearFiles(operation.account, OperationBackup(operation)));
      back.dirs == start.dirs && back.config == start.config
  {
  }

  lemma ClearKeepsProgress(w: World, t: Tree, start: World, operation: Operation)
    requires InProgress(w, operation, OAuthAt(start.tree, operation.account)) && operation.kind == ClearAccountAuth
    requires Synced(start) && operation.account in start.catalog.accounts && w.tree == start.tree
    requires OnlyTouches(t, w.tree, {operation.account}) && SameAt(t.dirs, w.tree.dirs, Path(Logs, operation.account))
    requires Path(Auth, operation.account) in t.dirs
    requires t == w.tree || (OperationBackup(operation) !in w.tree.backups &&
      t.backups == w.tree.backups[OperationBackup(operation) := BackupOf(start.tree, operation.account, false, true, false)])
    ensures InProgress(w.(tree := t), operation, OAuthAt(start.tree, operation.account))
  {
    hide CatalogPart, ContainerPart, SecretPart, Invariant, SyncedAccounts;
    HasBoth(start, operation.account);
    TouchKeepsTree(t, w.tree, w.catalog.accounts, operation);
    hide TreePart, OnlyTouches;
  }

  lemma HasBoth(w: World, id: Id)
    requires Synced(w) && id in w.catalog.accounts
    ensures HasDirs(w.tree.dirs, id) && id in w.containers && w.containers[id].running
    ensures StoppedFrom(w.containers, w.containers, id)
  {
    hide Invariant, CanRender, ConfigsMatch;
  }

  /** Where an OAuth clear stands against its start. */
  ghost predicate ClearingFrom(w: World, start: World, operation: Operation, prepared: bool) {
    && w.secrets == start.secrets && OnlyEvacuated(w.catalog, start.catalog, operation)
    && (operation.evacuated == map[] ==> w.active == start.active)
    && (if prepared then
          ClearedFrom(w.tree, start.tree, operation, map[]) && StoppedFrom(w.containers, start.containers, operation.account)
        else
          w.tree.config == start.tree.config && w.tree.dirs == start.tree.dirs && w.containers == start.containers)
  }

  // ------------------------------------------------------------------ rollback

  /** The directory comes back and the container restarts; both must succeed for users to return. */
  method RollbackSource(cp: ControlPlane, operation: Operation, t: FileTransition, ghost start: World, ghost content: Directory)
    returns (o: Outcome)
    requires InProgress(cp.W(), operation, content) && operation.kind == ClearAccountAuth
    requires ActionOf(t.action, operation) && !t.rolledBack
    requires ClearedFrom(cp.files.tree, start.tree, operation, map[]) && StoppedFrom(cp.containers, start.containers, operation.account)
    modifies cp.files, t, cp`containers, cp`monitor
    ensures InProgress(cp.W(), operation, content)
    ensures o.Done? ==>
      cp.files.tree.dirs == start.tree.dirs && cp.files.tree.config == start.tree.config && cp.containers == start.containers
    ensures cp.monitor.busy == old(cp.monitor.busy)
    ensures OnlyHits(old(cp.monitor), cp.monitor, {operation.account} * cp.monitor.busy)
    ensures cp.files.calm ==> o.Done?
  {
    hide CatalogPart, TreePart, ContainerPart, SecretPart, OAuthSafe, Watch, OperationBackup, ClearedFrom, RolledBack;
    ClearRestores(cp.files.tree, start.tree, operation);
    BackupIsThere(cp.files.tree, start.tree, operation);
    o := RollbackFiles(cp, operation, t, content);
    hide OnlyTouches, ActionOf;
    if o.Done? {
      o := Restart(cp, operation, start, content);
    }
  }

  lemma BackupIsThere(t: Tree, start: Tree, operation: Operation)
    requires ClearedFrom(t, start, operation, map[])
    ensures OperationBackup(operation) in t.backups
  {
  }

  method Restart(cp: ControlPlane, operation: Operation, ghost start: World, ghost content: Directory) returns (o: Outcome)
    requires InProgress(cp.W(), operation, content) && operation.kind == ClearAccountAuth
    requires StoppedFrom(cp.containers, start.containers, operation.account)
    modifies cp`containers, cp`monitor
    ensures InProgress(cp.W(), operation, content) && StoppedFrom(cp.containers, start.containers, operation.account)
    ensures o.Done? ==> cp.containers == start.containers
    ensures cp.monitor.busy == old(cp.monitor.busy)
    ensures OnlyHits(old(cp.monitor), cp.monitor, {operation.account} * cp.monitor.busy)
    ensures cp.files.calm ==> o.Done?
  {
    hide CatalogPart, TreePart, ContainerPart, SecretPart, OAuthSafe, Watch, StoppedFrom;
    ghost var before := cp.containers;
    o := cp.RestartAccount(operation.account);
    StillStopped(cp.containers, before, start.containers, operation.account);
    OthersKeepContainers(cp.containers, before, cp.catalog.accounts, operation);
    if o.Done? {
      RunningAgain(cp.containers, start.containers, operation.account);
    }
  }

  /** Users go back to the source if it is proven usable, or else stay on the fallback. */
  method RollbackClear(cp: ControlPlane, operation: Operation, t: FileTransition?,
                       ghost start: World, fallback: Option<Id>, ghost content: Directory)
    returns (e: Ending)
    requires InProgress(cp.W(), operation, content) && operation.kind == ClearAccountAuth && operation.account != ""
    requires Synced(start) && EvacuatedFrom(start.catalog, operation, fallback)
    requires ClearingFrom(cp.W(), start, operation, t != null)
    requires t != null ==> ActionOf(t.action, operation) && !t.rolledBack
    modifies cp.files, t, cp`containers, cp`monitor, cp`catalog, cp`active
    ensures cp.catalog.rows == start.catalog.rows
    ensures InProgress(cp.W(), operation, content) && e in {Undone, Stuck, CutOff}
    ensures e.Undone? ==> Restored(cp.W(), start)
    ensures OnlyHits(old(cp.monitor), cp.monitor, {operation.account} * old(cp.monitor.busy))
    ensures cp.files.calm ==> e.Undone?
  {
    hide Interrupted, OAuthSafe, Invariant, EvacuatedFrom, OnlyEvacuated, ActionOf, ClearedFrom, StoppedFrom, SyncedAccounts, Watch;
    NotClashing(start.catalog, operation, fallback);
    var o := Done;
    if t != null {
      o := RollbackSource(cp, operation, t, start, content);
    }
    var failed := o.Failed?;
    if !o.Crashed? {
      var target := if failed && fallback.Some? then fallback.value else operation.account;
      o := RestoreUsers(cp, operation, target, start.catalog, fallback, content);
    }
    SameRows(cp.catalog, start.catalog, operation);
    if o.Done? && operation.evacuated != map[] {
      o := PublishInProgress(cp, operation, content);
    }
    e := EndOf(o, failed);
    if e.Undone? {
      BackupsAside(start, cp.files.tree);
      assert cp.W() == start.(tree := cp.files.tree);
    }
    hide Synced, Restored;
  }

  // ------------------------------------------------------------------- forward

  /** The directory is emptied under the idle container, which then restarts. */
  method ClearAndRestart(cp: ControlPlane, operation: Operation, ghost start: World) returns (o: Outcome, t: FileTransition?)
    requires InProgress(cp.W(), operation, OAuthAt(start.tree, operation.account)) && Holds(cp.journal, operation)
    requires operation.kind == ClearAccountAuth && Synced(start) && operation.account in start.catalog.accounts
    requires ClearingFrom(cp.W(), start, operation, false) && cp.files.tree == start.tree && FreshId(start.tree, operation.id)
    modifies cp.files, cp`containers, cp`monitor, cp`journal
    ensures InProgress(cp.W(), operation, OAuthAt(start.tree, operation.account)) && Holds(cp.journal, operation)
    ensures t != null ==> fresh(t) && ActionOf(t.action, operation) && !t.rolledBack && !t.committed
    ensures o.Failed? ==> ClearingFrom(cp.W(), start, operation, t != null)
    ensures o.Done? ==> t != null && ClearingFrom(cp.W(), start, operation, true) && cp.containers == start.containers
    ensures cp.monitor.busy == old(cp.monitor.busy)
    ensures OnlyHits(old(cp.monitor), cp.monitor, {operation.account} * cp.monitor.busy)
    ensures cp.files.calm ==> o.Done?
  {
    hide InProgress, ClearedFrom, OnlyEvacuated, StoppedFrom, Synced, Holds, ActionOf, FreshId, OAuthAt, Watch;
    HasBoth(start, operation.account);
    o, t := EmptyDirectory(cp, operation, start);
    if o.Done? {
      o := AdvanceInProgress(cp, operation, FilesPrepared, OAuthAt(start.tree, operation.account));
    }
    if o.Done? {
      o := Restart(cp, operation, start, OAuthAt(start.tree, operation.account));
    }
    if o.Done? {
      o := AdvanceInProgress(cp, operation, RuntimePrepared, OAuthAt(start.tree, operation.account));
    }
  }

  method EmptyDirectory(cp: ControlPlane, operation: Operation, ghost start: World) returns (o: Outcome, t: FileTransition?)
    requires InProgress(cp.W(), operation, OAuthAt(start.tree, operation.account))
    requires operation.kind == ClearAccountAuth && Synced(start) && operation.account in start.catalog.accounts
    requires cp.files.tree == start.tree && FreshId(start.tree, operation.id)
    modifies cp.files, cp`monitor
    ensures InProgress(cp.W(), operation, OAuthAt(start.tree, operation.account))
    ensures t != null ==> fresh(t) && ActionOf(t.action, operation) && !t.rolledBack && !t.committed
    ensures t != null <==> o.Done?
    ensures o.Failed? ==> cp.files.tree.dirs == start.tree.dirs && cp.files.tree.config == start.tree.config
    ensures o.Done? ==> ClearedFrom(cp.files.tree, start.tree, operation, map[])
    ensures cp.monitor.busy == old(cp.monitor.busy)
    ensures OnlyHits(old(cp.monitor), cp.monitor, {operation.account} * cp.monitor.busy)
    ensures cp.files.calm ==> o.Done?
  {
    hide Interrupted, OAuthSafe, OnlyTouches, Synced, Watch, BackupOf, OAuthAt;
    ghost var before := cp.W();
    HasBoth(start, operation.account);
    cp.Disturb(operation.account);
    o, t := cp.files.PrepareAuthClear(operation.id, operation.account);
    ClearKeepsProgress(before, cp.files.tree, start, operation);
    hide FreshId, StoppedFrom;
  }

  lemma ClearedIsSynced(w: World, start: World, operation: Operation)
    requires Synced(start) && ClearedFrom(w.tree, start.tree, operation, map[])
    requires w == start.(tree := w.tree)
    ensures Synced(w)
  {
    hide Invariant, CanRender, ConfigsMatch, ContainersMatch;
  }

  /** From the account out of service to its cleared directory. */
  method ClearEvacuated(cp: ControlPlane, operation: Operation, ghost start: World, fallback: Option<Id>) returns (e: Ending)
    requires InProgress(cp.W(), operation, OAuthAt(start.tree, operation.account)) && Holds(cp.journal, operation)
    requires operation.kind == ClearAccountAuth && operation.account != "" && Synced(start)
    requires EvacuatedFrom(start.catalog, operation, fallback) && operation.account in start.catalog.accounts
    requires ClearingFrom(cp.W(), start, operation, false) && cp.files.tree == start.tree && FreshId(start.tree, operation.id)
    modifies cp.files, cp`containers, cp`monitor, cp`catalog, cp`active, cp`journal
    ensures cp.catalog.rows == start.catalog.rows
    ensures InProgress(cp.W(), operation, OAuthAt(start.tree, operation.account)) && Holds(cp.journal, operation)
    ensures e in {Succeeded, Undone, Stuck, CutOff}
    ensures e.Undone? ==> Restored(cp.W(), start)
    ensures e.Succeeded? ==>
      && Synced(cp.W()) && cp.W() == start.(tree := cp.files.tree)
      && ClearedFrom(cp.files.tree, start.tree, operation, map[])
    ensures OnlyHits(old(cp.monitor), cp.monitor, {operation.account} * old(cp.monitor.busy))
    ensures cp.files.calm ==> e.Succeeded?
  {
    hide Interrupted, OAuthSafe, Invariant, EvacuatedFrom, OnlyEvacuated, ClearedFrom, StoppedFrom, SyncedAccounts, Holds, Watch;
    hide OAuthAt, FreshId, Restored, Synced, ActionOf, InProgress, Settled, RolledBack, OnlyHits;
    StartKeys(start);
    NotClashing(start.catalog, operation, fallback);
    ghost var content := OAuthAt(start.tree, operation.account);
    var o, t := ClearAndRestart(cp, operation, start);
    if o.Done? {
      o := RestoreUsers(cp, operation, operation.account, start.catalog, fallback, content);
    }
    SameRows(cp.catalog, start.catalog, operation);
    ghost var own, cleared := {operation.account} * old(cp.monitor.busy), cp.monitor;
    HitsNone(cleared);
    if o.Done? && operation.evacuated != map[] {
      o := PublishInProgress(cp, operation, content);
    }
    HitsTrans(old(cp.monitor), cleared, cp.monitor, own, {});
    e := CutOff;
    if o.Failed? {
      ghost var watched := cp.monitor;
      e := RollbackClear(cp, operation, t, start, fallback, content);
      HitsTrans(old(cp.monitor), watched, cp.monitor, own, own);
    } else if o.Done? {
      e := Succeeded;
      o := CommitClear(cp, operation, t, start, content);
      ClearedIsSynced(cp.W(), start, operation);
    }
  }

  /** The commit of a clear has nothing left to do. */
  method CommitClear(cp: ControlPlane, operation: Operation, t: FileTransition, ghost start: World,
                     ghost content: Directory)
    returns (o: Outcome)
    requires InProgress(cp.W(), operation, content) && operation.kind == ClearAccountAuth
    requires ActionOf(t.action, operation) && !t.rolledBack && !t.committed
    requires ClearedFrom(cp.files.tree, start.tree, operation, map[])
    modifies cp.files, t
    ensures o.Done? && cp.files.tree == old(cp.files.tree) && InProgress(cp.W(), operation, content)
  {
    hide InProgress, OnlyTouches, Watch, ClearedFrom;
    BackupIsThere(cp.files.tree, start.tree, operation);
    o := CommitFiles(cp, operation, t, content);
    hide OperationBackup;
  }

  // ---------------------------------------------------------------- operation

  lemma EvacuatedStart(w: World, start: World, operation: Operation, fallback: Option<Id>)
    requires Synced(start) && EvacuatedFrom(start.catalog, operation, fallback) && operation.kind == ClearAccountAuth
    requires FreshId(start.tree, operation.id)
    requires w == start.(catalog := Settled(start.catalog, operation), active := w.active)
    requires w.active == w.catalog.routes
    ensures InProgress(w, operation, OAuthAt(start.tree, operation.account))
    ensures ClearingFrom(w, start, operation, false)
  {
    hide Invariant, SyncedAccounts, EvacuatedFrom, OnlyEvacuated, CatalogPart, ClashesIn;
    MovedKind(start.catalog, operation, fallback);
    UsersHaveMoved(start.catalog, operation, fallback);
    NotClashing(start.catalog, operation, fallback);
    EvacuationFacts(w.catalog, start.catalog, operation, fallback);
    RoutesLeaveAccounts(start, w.catalog.routes, w.active);
    assert w == start.(catalog := start.catalog.(routes := w.catalog.routes), active := w.active);
    MatchingIsInterrupted(w, operation);
    hide Interrupted;
    StartIsSafe(start, operation);
    assert operation.evacuated == map[] ==> start.catalog.routes + operation.evacuated == start.catalog.routes;
    hide OAuthSafe, OAuthAt;
  }

  lemma StartIsSafe(start: World, operation: Operation)
    requires Synced(start) && operation.account in start.catalog.accounts && operation.kind == ClearAccountAuth
    requires FreshId(start.tree, operation.id)
    ensures OAuthSafe(start.tree, operation, OAuthAt(start.tree, operation.account))
  {
    hide Synced, StoppedFrom;
    HasBoth(start, operation.account);
  }

  lemma SameClear(t: Tree, start: Tree, accepted: Operation, operation: Operation)
    requires operation == accepted.(evacuated := operation.evacuated)
    ensures ClearedFrom(t, start, accepted, map[]) <==> ClearedFrom(t, start, operation, map[])
  {
  }

  /** From the accepted journal on; the journal is left for Finalize to clear. */
  method ClearAccepted(cp: ControlPlane, accepted: Operation, eligible: Option<set<Id>>, drainer: bool) returns (e: Ending)
    requires Synced(cp.W()) && cp.journal == Some(accepted) && ValidOperation(accepted) && accepted.kind == ClearAccountAuth
    requires accepted.phase == Accepted && accepted.evacuated == map[] && accepted.account in cp.catalog.accounts
    requires FreshId(cp.files.tree, accepted.id)
    modifies cp.files, cp`containers, cp`monitor, cp`catalog, cp`active, cp`journal
    ensures cp.catalog.rows == old(cp.catalog.rows)
    ensures cp.journal.Some? && Sound(cp.journal, cp.W()) && e in {Succeeded, Undone, Stuck, CutOff}
    ensures e.Undone? ==> Restored(cp.W(), old(cp.W()))
    ensures e.Succeeded? ==>
      && Synced(cp.W()) && cp.W() == old(cp.W()).(tree := cp.files.tree)
      && ClearedFrom(cp.files.tree, old(cp.files.tree), accepted, map[])
    ensures OnlyHits(old(cp.monitor), cp.monitor,
                     if HasUsers(old(cp.catalog).routes, accepted.account) then {} else {accepted.account} * old(cp.monitor.busy))
    ensures OAuthSafe(cp.files.tree, accepted, OAuthAt(old(cp.files.tree), accepted.account))
    ensures cp.files.calm ==> e == if CanEvacuate(old(cp.catalog), accepted.account, None, eligible, drainer) then Succeeded else Undone
  {
    hide Synced, Restored, OAuthSafe, OAuthAt, ClearedFrom, Sound, FreshId, Watch, ValidOperation;
    hide Evacuation, EnabledOthers, ClearingFrom, InProgress, Holds, Settled, Interrupted, OnlyEvacuated;
    ghost var start := cp.W();
    StartIsSafe(start, accepted);
    AcceptedIsSound(start, accepted);
    Named(accepted);
    BackupsAside(start, start.tree);
    var ok, evacuated, fallback := PlanRoutes(cp, accepted.account, None, eligible);
    e := Undone;
    if ok {
      var operation := accepted.(evacuated := evacuated);
      SameRecord(accepted, operation);
      EvacueesOf(start.catalog.routes, operation.account, fallback);
      assert EvacuatedFrom(start.catalog, operation, fallback);
      hide EvacuatedFrom;
      var end := Evacuate(cp, operation, drainer, fallback);
      SameRows(cp.catalog, start.catalog, operation);
      if end.Some? {
        e := end.value;
      } else {
        EvacuatedStart(cp.W(), start, operation, fallback);
        e := ClearEvacuated(cp, operation, start, fallback);
        ProgressIs(cp.W(), operation, OAuthAt(start.tree, operation.account));
        HeldIsSound(cp.journal, cp.W(), operation);
        SameClear(cp.files.tree, start.tree, accepted, operation);
      }
    }
  }

  method ClearAuth(cp: ControlPlane, id: Id, operationId: string, eligible: Option<set<Id>>, drainer: bool) returns (e: Ending)
    requires Sound(cp.journal, cp.W()) && FreshId(cp.files.tree, operationId)
    modifies cp, cp.files
    ensures cp.catalog.rows == old(cp.catalog.rows)
    ensures Sound(cp.journal, cp.W())
    ensures old(cp.journal).Some? ==> e.Refused?
    ensures e.Refused? ==> cp.journal == old(cp.journal) && cp.W() == old(cp.W())
    ensures e.Stuck? ==> cp.journal.Some?
    ensures e.Undone? ==> cp.journal.None? && Restored(cp.W(), old(cp.W()))
    ensures e.Succeeded? ==>
      && cp.journal.None? && cp.W() == old(cp.W()).(tree := cp.files.tree)
      && ClearedFrom(cp.files.tree, old(cp.files.tree), Operation(operationId, ClearAccountAuth, Accepted, id, "", map[]), map[])
    ensures OnlyHits(old(cp.monitor), cp.monitor, if HasUsers(old(cp.catalog).routes, id) then {} else {id} * old(cp.monitor.busy))
    ensures !e.Refused? ==>
      OAuthHeld(cp.files.tree, id, id, BackupKey(operationId, id, OauthClear), OAuthAt(old(cp.files.tree), id))
    ensures cp.files.calm && old(cp.journal).None? ==>
      e == if !ValidId(id) || id !in old(cp.catalog).accounts then Refused
           else if CanEvacuate(old(cp.catalog), id, None, eligible, drainer) then Succeeded else Undone
  {
    hide Synced, Watch, ValidId, Recoverable, FreshId, OAuthAt, ClearedFrom;
    e := Refused;
    if ValidId(id) && id in cp.catalog.accounts {
      ghost var start := cp.W();
      var o, operation := Begin(cp, ClearAccountAuth, id, "", operationId);
      if cp.journal != old(cp.journal) {
        AcceptedIsSound(start, operation);
        StartIsSafe(start, operation);
      }
      if o.Crashed? {
        e := CutOff;
        StartIsSafe(start, operation);
      } else if o.Done? {
        e := ClearAccepted(cp, operation, eligible, drainer);
        e := Finalize(cp, e);
      }
    }
  }
}
