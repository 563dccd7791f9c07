/**
 * The steps that every account operation is made of.  Once an operation is
 * past its first phases, each of them keeps the state recoverable and the
 * account's OAuth content held, whatever its outcome.
 */
module Steps {
  import opened Wrappers
  import opened Catalog
  import opened Journal
  import opened Files
  import opened Traffic
  import opened World
  import opened ControlPlane
  import opened RecoveryLaws

  /**
   * How an operation ends for its caller.  Only Succeeded and Undone clear the
   * journal; CutOff is a crash.
   */
  datatype Ending = Refused | Succeeded | Undone | Stuck | CutOff

  ghost predicate InProgress(w: World, operation: Operation, content: Directory) {
    Interrupted(w, operation) && OAuthSafe(w.tree, operation, content)
  }

  lemma FreshKey(t: Tree, key: BackupKey)
    requires FreshId(t, key.operation)
    ensures key !in t.backups
  {
  }

  /** The OAuth directory of an account. */
  function OAuthAt(t: Tree, id: Id): Directory {
    OrEmpty(Get(t.dirs, Path(Auth, id)))
  }

  /** Operation IDs are freshly drawn, so no backup carries one before its operation. */
  ghost predicate FreshId(t: Tree, operation: string) {
    forall k :: k in t.backups ==> k.operation != operation
  }

  /** The same users hold the same keys. */
  ghost predicate SameUsers(rows: map<nat, KeyRow>, before: map<nat, KeyRow>) {
    && ActiveUsers(rows) == ActiveUsers(before)
    && forall u :: UserSecrets(rows, u) == UserSecrets(before, u)
  }

  lemma UsersStay(rows: map<nat, KeyRow>)
    ensures SameUsers(rows, rows)
  {
  }

  /** The journal holds the operation at a phase past the first two. */
  ghost predicate Holds(journal: Option<Operation>, operation: Operation) {
    && journal.Some?
    && journal.value.(phase := Accepted) == operation.(phase := Accepted)
    && journal.value.phase != Accepted && journal.value.phase != RoutesPrepared
  }

  lemma PhaseOfCatalog(c: Catalog, operation: Operation, other: Operation)
    requires other.(phase := Accepted) == operation.(phase := Accepted)
    ensures CatalogPart(c, operation) <==> CatalogPart(c, other)
    ensures OwnedIds(operation) == OwnedIds(other) && OperationBackup(operation) == OperationBackup(other)
  {
    hide Invariant;
  }

  lemma PhaseOfTree(t: Tree, accounts: map<Id, Account>, operation: Operation, other: Operation)
    requires other.(phase := Accepted) == operation.(phase := Accepted)
    requires OwnedIds(operation) == OwnedIds(other) && OperationBackup(operation) == OperationBackup(other)
    ensures TreePart(t, accounts, operation) <==> TreePart(t, accounts, other)
    ensures forall content :: OAuthSafe(t, operation, content) <==> OAuthSafe(t, other, content)
  {
    hide OwnedIds, OperationBackup, NotBoth, HasDirs, OAuthHeld;
  }

  lemma PhaseIsIrrelevant(w: World, operation: Operation, other: Operation)
    requires other.(phase := Accepted) == operation.(phase := Accepted)
    ensures Interrupted(w, operation) <==> Interrupted(w, other)
    ensures forall content :: OAuthSafe(w.tree, operation, content) <==> OAuthSafe(w.tree, other, content)
  {
    PhaseOfCatalog(w.catalog, operation, other);
    hide OwnedIds, OperationBackup, CatalogPart;
    PhaseOfTree(w.tree, w.catalog.accounts, operation, other);
    hide TreePart, OAuthSafe;
  }

  lemma ProgressIs(w: World, operation: Operation, content: Directory)
    requires InProgress(w, operation, content)
    ensures Interrupted(w, operation) && OAuthSafe(w.tree, operation, content)
  {
  }

  lemma HeldIsSound(journal: Option<Operation>, w: World, operation: Operation)
    requires Holds(journal, operation) && Interrupted(w, operation)
    requires ValidOperation(operation) && operation.kind != ChangePolicy
    ensures journal.Some? && Sound(journal, w)
  {
    PhaseIsIrrelevant(w, operation, journal.value);
    hide Interrupted, ValidId;
  }

  // ----------------------------------------------------------------- journal

  lemma NamedIsValid(operation: Operation)
    requires ValidId(operation.account) && operation.kind != UpdateAccount && operation.newAccount == ""
    ensures ValidOperation(operation)
  {
    hide ValidId;
  }

  method Begin(cp: ControlPlane, kind: OperationKind, account: Id, newAccount: Id, id: string)
    returns (o: Outcome, operation: Operation)
    modifies cp`journal
    ensures operation == Operation(id, kind, Accepted, account, newAccount, map[])
    ensures o.Done? ==> old(cp.journal).None? && cp.journal == Some(operation) && ValidOperation(operation)
    ensures o.Failed? ==> cp.journal == old(cp.journal)
    ensures cp.journal == old(cp.journal) || (old(cp.journal).None? && cp.journal == Some(operation) && ValidOperation(operation))
    ensures old(cp.journal).Some? ==> o.Failed?
    ensures cp.files.calm && old(cp.journal).None? && ValidOperation(operation) ==> o.Done?
  {
    operation := Operation(id, kind, Accepted, account, newAccount, map[]);
    if cp.journal.Some? || !ValidOperation(operation) {
      o := Failed;
    } else {
      o := cp.WriteJournal(operation);
    }
  }

  method Advance(cp: ControlPlane, operation: Operation, phase: Phase) returns (o: Outcome)
    requires phase != Accepted && phase != RoutesPrepared
    modifies cp`journal
    ensures o.Done? ==> Holds(cp.journal, operation) && cp.journal == Some(operation.(phase := phase))
    ensures o.Failed? ==> cp.journal == old(cp.journal)
    ensures cp.journal == old(cp.journal) || Holds(cp.journal, operation)
    ensures cp.files.calm ==> o.Done?
  {
    o := cp.WriteJournal(operation.(phase := phase));
  }

  /** Clears the journal unless a compensation failed. */
  method Finalize(cp: ControlPlane, ending: Ending) returns (e: Ending)
    modifies cp`journal
    ensures cp.journal == old(cp.journal) || (ending in {Succeeded, Undone} && cp.journal == None)
    ensures ending !in {Succeeded, Undone} ==> e == ending
    ensures ending in {Succeeded, Undone} ==> e in {ending, Stuck, CutOff}
    ensures e in {Succeeded, Undone} ==> cp.journal == None
    ensures ending in {Succeeded, Undone} && e == Stuck ==> cp.journal == old(cp.journal)
    ensures cp.files.calm ==> e == ending
  {
    e := ending;
    if ending.Succeeded? || ending.Undone? {
      var o := cp.DeleteJournal();
      if o.Failed? {
        e := Stuck;
      } else if o.Crashed? {
        e := CutOff;
      }
    }
  }

  // ----------------------------------------------------------------- secrets

  function AllWritten(secrets: map<Id, string>, values: map<Id, Option<string>>): map<Id, string> {
    map id | id in secrets.Keys + values.Keys && (id in values ==> values[id].Some?) ::
      if id in values then values[id].value else secrets[id]
  }

  /** The proxy secrets an operation writes, with what it found there. */
  class SecretPlan {
    const desired: map<Id, Option<string>>
    var before: map<Id, Option<string>>
    var ready: bool

    constructor (desired: map<Id, Option<string>>)
      ensures this.desired == desired && !ready && before == map[]
    {
      this.desired := desired;
      before, ready := map[], false;
    }

    method Capture(cp: ControlPlane) returns (o: Outcome)
      modifies this
      ensures !o.Crashed? && (o.Done? ==> ready)
      ensures o.Failed? ==> ready == old(ready)
      ensures before.Keys <= old(before).Keys + desired.Keys
      ensures o.Done? && old(before) == map[] ==>
        before == map id | id in desired :: Get(cp.secrets, id)
      ensures cp.files.calm ==> o.Done?
    {
      hide Overlaid;
      ghost var found := map id | id in desired :: Get(cp.secrets, id);
      assert found.Keys == desired.Keys;
      OverlaidEnds(before, found);
      o := Done;
      var todo := desired.Keys;
      while todo != {} && o.Done?
        invariant todo <= desired.Keys && !o.Crashed?
        invariant before == Overlaid(old(before), found, todo)
        invariant before.Keys <= old(before).Keys + desired.Keys
        invariant ready == old(ready)
        invariant cp.files.calm ==> o.Done?
        decreases |todo|, o.Done?
      {
        var id :| id in todo;
        var read := cp.files.Chance();
        if read.Done? {
          OverlaidNext(old(before), found, todo, id);
          before := before[id := Get(cp.secrets, id)];
          todo := todo - {id};
        } else {
          o := Failed;
        }
      }
      if o.Done? {
        ready := true;
      }
    }

    method Apply(cp: ControlPlane) returns (o: Outcome)
      modifies cp`secrets
      ensures forall id :: id !in desired ==> SameAt(cp.secrets, old(cp.secrets), id)
      ensures o.Done? ==> cp.secrets == AllWritten(old(cp.secrets), desired)
      ensures cp.files.calm && ready ==> o.Done?
    {
      o := Failed;
      if ready {
        var failed;
        o, failed := WriteAll(cp, desired, false);
      }
    }

    /** Writes back what was captured, going on past individual failures. */
    method Rollback(cp: ControlPlane) returns (o: Outcome)
      modifies cp`secrets
      ensures forall id :: id !in before ==> SameAt(cp.secrets, old(cp.secrets), id)
      ensures forall id :: id in before ==> SameAt(cp.secrets, old(cp.secrets), id) || Get(cp.secrets, id) == before[id]
      ensures !ready ==> o.Done? && cp.secrets == old(cp.secrets)
      ensures ready && o.Done? ==> cp.secrets == AllWritten(old(cp.secrets), before)
      ensures cp.files.calm ==> o.Done?
    {
      o := Done;
      if ready {
        var failed;
        o, failed := WriteAll(cp, before, true);
        if o.Done? && failed {
          o := Failed;
        }
      }
    }
  }

  /** Writes or deletes each named secret, one at a time and in any order. */
  method WriteAll(cp: ControlPlane, values: map<Id, Option<string>>, goOn: bool) returns (o: Outcome, failed: bool)
    modifies cp`secrets
    ensures forall id :: id !in values ==> SameAt(cp.secrets, old(cp.secrets), id)
    ensures forall id :: id in values ==> SameAt(cp.secrets, old(cp.secrets), id) || Get(cp.secrets, id) == values[id]
    ensures o.Done? && !failed ==> cp.secrets == AllWritten(old(cp.secrets), values)
    ensures o.Done? && failed ==> goOn
    ensures cp.files.calm ==> o.Done? && !failed
  {
    o, failed := Done, false;
    var todo := values.Keys;
    while todo != {} && o.Done?
      invariant todo <= values.Keys
      invariant forall id :: id !in values ==> SameAt(cp.secrets, old(cp.secrets), id)
      invariant forall id :: id in values ==> SameAt(cp.secrets, old(cp.secrets), id) || Get(cp.secrets, id) == values[id]
      invariant o.Done? && !failed ==> forall id :: id in values && id !in todo ==> Get(cp.secrets, id) == values[id]
      invariant failed && o.Done? ==> goOn
      invariant cp.files.calm ==> o.Done? && !failed
      decreases |todo|, o.Done?
    {
      var id :| id in todo;
      o := cp.WriteSecret(id, values[id]);
      if o.Failed? && goOn {
        o, failed := Done, true;
      }
      if o.Done? {
        todo := todo - {id};
      }
    }
    if o.Done? && !failed {
      Written(cp.secrets, old(cp.secrets), values);
    }
  }

  lemma Written(secrets: map<Id, string>, before: map<Id, string>, values: map<Id, Option<string>>)
    requires forall id :: id !in values ==> SameAt(secrets, before, id)
    requires forall id :: id in values ==> Get(secrets, id) == values[id]
    ensures secrets == AllWritten(before, values)
  {
    var all := AllWritten(before, values);
    forall id
      ensures SameAt(secrets, all, id)
    {
      assert id !in values ==> SameAt(secrets, before, id);
    }
    assert forall id :: id in secrets ==> SameAt(secrets, all, id);
    assert forall id :: id in all ==> SameAt(secrets, all, id);
  }

  // ----------------------------------------- steps of an operation under way

  method RenderAll(cp: ControlPlane, operation: Operation, ghost content: Directory) returns (o: Outcome)
    requires InProgress(cp.W(), operation, content)
    modifies cp.files
    ensures InProgress(cp.W(), operation, content)
    ensures cp.files.tree == old(cp.files.tree).(config := cp.files.tree.config)
    ensures forall id :: id in cp.files.tree.config ==> id in old(cp.files.tree).config || id in cp.catalog.accounts
    ensures o.Done? ==> CanRender(cp.catalog, cp.secrets)
    ensures o.Done? ==> cp.files.tree.config == old(cp.files.tree).config + Rendered(cp.catalog, cp.secrets)
    ensures cp.files.calm && CanRender(cp.catalog, cp.secrets) ==> o.Done?
  {
    hide Watch, CatalogPart, ContainerPart, SecretPart, TreePart, Rendered, ConfigOf, CanRender, OAuthSafe;
    o := cp.Render();
    RenderKeepsTree(cp.files.tree, old(cp.files.tree), cp.catalog.accounts, operation);
    ConfigOnlyIsSafe(cp.files.tree, old(cp.files.tree), operation);
  }

  method ApplySecrets(cp: ControlPlane, operation: Operation, plan: SecretPlan, ghost content: Directory) returns (o: Outcome)
    requires InProgress(cp.W(), operation, content) && plan.desired.Keys <= OwnedIds(operation)
    modifies cp`secrets
    ensures InProgress(cp.W(), operation, content)
    ensures forall id :: id !in plan.desired ==> SameAt(cp.secrets, old(cp.secrets), id)
    ensures o.Done? ==> cp.secrets == AllWritten(old(cp.secrets), plan.desired)
    ensures cp.files.calm && plan.ready ==> o.Done?
  {
    hide Watch, CatalogPart, ContainerPart, SecretPart, TreePart, OAuthSafe, AllWritten, OwnedIds;
    o := plan.Apply(cp);
    OthersKeepSecrets(cp.secrets, old(cp.secrets), cp.catalog.accounts, operation);
  }

  method RollbackSecrets(cp: ControlPlane, operation: Operation, plan: SecretPlan, ghost content: Directory) returns (o: Outcome)
    requires InProgress(cp.W(), operation, content) && plan.before.Keys <= OwnedIds(operation)
    modifies cp`secrets
    ensures InProgress(cp.W(), operation, content)
    ensures !plan.ready ==> o.Done? && cp.secrets == old(cp.secrets)
    ensures plan.ready && o.Done? ==> cp.secrets == AllWritten(old(cp.secrets), plan.before)
    ensures cp.files.calm ==> o.Done?
  {
    hide Watch, CatalogPart, ContainerPart, SecretPart, TreePart, OAuthSafe, AllWritten, OwnedIds;
    o := plan.Rollback(cp);
    OthersKeepSecrets(cp.secrets, old(cp.secrets), cp.catalog.accounts, operation);
  }

  /** Writing back what was found restores every secret. */
  lemma SecretsRestored(secrets: map<Id, string>, start: map<Id, string>, before: map<Id, Option<string>>)
    requires forall id :: id !in before ==> SameAt(secrets, start, id)
    requires forall id :: id in before ==> before[id] == Get(start, id)
    ensures AllWritten(secrets, before) == start
  {
    Written(start, secrets, before);
  }

  /** The container change, if one was prepared, belongs to the operation. */
  ghost predicate RuntimeOf(t: Option<RuntimeTransition>, operation: Operation) {
    t.Some? ==> t.value.beforeId in OwnedIds(operation) && t.value.afterId in OwnedIds(operation)
  }

  method RollbackContainers(cp: ControlPlane, operation: Operation, t: Option<RuntimeTransition>, ghost content: Directory)
    returns (o: Outcome)
    requires InProgress(cp.W(), operation, content) && RuntimeOf(t, operation)
    modifies cp`containers, cp`monitor
    ensures InProgress(cp.W(), operation, content)
    ensures t.None? ==> o.Done? && cp.containers == old(cp.containers) && cp.monitor == old(cp.monitor)
    ensures o.Done? && t.Some? ==> cp.containers == RolledBackContainers(old(cp.containers), t.value)
    ensures cp.monitor.busy == old(cp.monitor.busy)
    ensures t.Some? && t.value.kind.RetiredContainer? ==> cp.monitor == old(cp.monitor)
    ensures t.Some? ==> OnlyHits(old(cp.monitor), cp.monitor, {t.value.afterId} * cp.monitor.busy)
    ensures t.Some? && !t.value.kind.RetiredContainer? && t.value.afterId in old(cp.containers) && t.value.afterId in cp.monitor.busy ==>
      Reports(old(cp.monitor), cp.monitor, t.value.afterId)
    ensures cp.files.calm ==> o.Done?
  {
    hide Watch, CatalogPart, ContainerPart, SecretPart, TreePart, OAuthSafe, OwnedIds, RolledBackContainers;
    o := Done;
    if t.Some? {
      o := cp.RollbackRuntime(t.value);
      OthersKeepContainers(cp.containers, old(cp.containers), cp.catalog.accounts, operation);
    }
  }

  method CommitContainers(cp: ControlPlane, operation: Operation, t: RuntimeTransition, ghost content: Directory) returns (o: Outcome)
    requires InProgress(cp.W(), operation, content) && RuntimeOf(Some(t), operation)
    modifies cp`containers, cp`monitor
    ensures InProgress(cp.W(), operation, content)
    ensures forall other :: other != t.beforeId ==> SameAt(cp.containers, old(cp.containers), other)
    ensures !t.kind.RetiredContainer? ==> o.Done? && cp.containers == old(cp.containers) && cp.monitor == old(cp.monitor)
    ensures o.Done? && t.kind.RetiredContainer? ==> cp.containers == old(cp.containers) - {t.beforeId}
    ensures cp.monitor.busy == old(cp.monitor.busy)
    ensures OnlyHits(old(cp.monitor), cp.monitor, {t.beforeId} * cp.monitor.busy)
    ensures cp.files.calm ==> o.Done?
  {
    hide Watch, CatalogPart, ContainerPart, SecretPart, TreePart, OAuthSafe, OwnedIds;
    o := cp.CommitRuntime(t);
    OthersKeepContainers(cp.containers, old(cp.containers), cp.catalog.accounts, operation);
  }

  /** The file transition of the operation, as its Prepare method builds it. */
  ghost predicate ActionOf(action: FileAction, operation: Operation) {
    match operation.kind
    case CreateAccount => action == CreateFiles(operation.account)
    case UpdateAccount =>
      || (action == KeepFiles && operation.account == operation.newAccount)
      || (action.RenameFiles? && action.oldId == operation.account && action.newId == operation.newAccount
          && action.oldId != action.newId && MovesBetween(action.moved, action.oldId, action.newId) && MovesOAuth(action.moved))
    case DeleteAccount => action == DeleteFiles(operation.account, OperationBackup(operation))
    case ClearAccountAuth => action == ClearFiles(operation.account, OperationBackup(operation))
    case ChangePolicy => false
  }

  /** Only a rename has moves to undo. */
  lemma NothingToUndo(action: FileAction, operation: Operation, dirs: map<Path, Directory>)
    requires ActionOf(action, operation) && operation.kind != UpdateAccount
    ensures CanUndo(dirs, action)
  {
  }

  lemma ActionIsOwned(action: FileAction, operation: Operation)
    requires ActionOf(action, operation)
    ensures ActionIds(action) <= OwnedIds(operation) && WellFormedAction(action)
    ensures action.RenameFiles? ==> MovesOAuth(action.moved)
  {
  }

  method RollbackFiles(cp: ControlPlane, operation: Operation, t: FileTransition, ghost content: Directory) returns (o: Outcome)
    requires InProgress(cp.W(), operation, content) && ActionOf(t.action, operation) && !t.rolledBack
    requires operation.kind == ClearAccountAuth ==> OperationBackup(operation) in cp.files.tree.backups
    modifies cp.files, t`rolledBack
    ensures InProgress(cp.W(), operation, content)
    ensures cp.files.tree.backups == old(cp.files.tree).backups
    ensures t.action.CreateFiles? ==> cp.files.tree.config.Keys <= old(cp.files.tree).config.Keys
    ensures o.Done? ==> cp.files.tree == RolledBack(old(cp.files.tree), t.action)
    ensures OnlyTouches(cp.files.tree, old(cp.files.tree), OwnedIds(operation))
    ensures operation.kind == DeleteAccount ==>
      PartlyRestored(cp.files.tree, old(cp.files.tree), operation.account, BackupAt(old(cp.files.tree), OperationBackup(operation)))
    ensures cp.files.calm && CanUndo(old(cp.files.tree.dirs), t.action) ==> o.Done?
  {
    hide Watch, CatalogPart, ContainerPart, SecretPart, RolledBack, MovesOAuth, MovesBetween, PartlyRestored;
    ghost var before := cp.files.tree;
    ActionIsOwned(t.action, operation);
    o := cp.files.Rollback(t, OperationBackup(operation));
    assert OnlyTouches(cp.files.tree, before, OwnedIds(operation));
    FilesKeepProgress(cp.files.tree, before, cp.catalog.accounts, operation, t.action, content);
    hide OnlyTouches, TreePart, OAuthSafe, OperationBackup, ActionOf;
  }

  lemma FilesKeepProgress(t: Tree, before: Tree, accounts: map<Id, Account>, operation: Operation,
                          action: FileAction, content: Directory)
    requires TreePart(before, accounts, operation) && OAuthSafe(before, operation, content)
    requires ActionOf(action, operation) && OnlyTouches(t, before, OwnedIds(operation)) && t.backups == before.backups
    requires action.RenameFiles? ==> RenameFrame(t, before, action.oldId, action.newId, OperationBackup(operation))
    requires action.ClearFiles? ==>
      SameAt(t.dirs, before.dirs, Path(Logs, action.account)) && OperationBackup(operation) in t.backups
    requires action.KeepFiles? ==> t == before
    ensures TreePart(t, accounts, operation) && OAuthSafe(t, operation, content)
  {
    hide MovesOAuth, MovesBetween, HasDirs;
    TouchKeepsTree(t, before, accounts, operation);
    TouchKeepsSafe(t, before, operation);
    hide TreePart, OnlyTouches, OAuthSafe;
  }

  method CommitFiles(cp: ControlPlane, operation: Operation, t: FileTransition, ghost content: Directory) returns (o: Outcome)
    requires InProgress(cp.W(), operation, content) && ActionOf(t.action, operation) && !t.rolledBack && !t.committed
    requires operation.kind == ClearAccountAuth ==> OperationBackup(operation) in cp.files.tree.backups
    modifies cp.files, t`committed
    ensures InProgress(cp.W(), operation, content)
    ensures OnlyTouches(cp.files.tree, old(cp.files.tree), OwnedIds(operation))
    ensures cp.files.tree.backups == old(cp.files.tree).backups
    ensures cp.files.tree.config.Keys <= old(cp.files.tree).config.Keys
    ensures !t.action.DeleteFiles? ==> cp.files.tree.dirs == old(cp.files.tree).dirs
    ensures t.action.ClearFiles? || t.action.CreateFiles? ==> o.Done?
    ensures o.Done? ==> cp.files.tree == Committed(old(cp.files.tree), t.action)
    ensures cp.files.calm ==> o.Done?
  {
    hide Watch, CatalogPart, ContainerPart, SecretPart, Committed, MovesOAuth, MovesBetween, KeepsOAuth;
    ghost var before := cp.files.tree;
    ActionIsOwned(t.action, operation);
    o := cp.files.Commit(t);
    assert OnlyTouches(cp.files.tree, before, OwnedIds(operation));
    assert t.action.KeepFiles? ==> cp.files.tree == before;
    if t.action.RenameFiles? {
      SameDirsFrame(cp.files.tree, before, t.action.oldId, t.action.newId, OperationBackup(operation));
    }
    hide OnlyTouches, RenameFrame;
    FilesKeepProgress(cp.files.tree, before, cp.catalog.accounts, operation, t.action, content);
    hide TreePart, OAuthSafe, OperationBackup, ActionOf;
  }

  lemma SameDirsFrame(t: Tree, before: Tree, a: Id, b: Id, key: BackupKey)
    requires t.dirs == before.dirs && t.backups == before.backups && OnlyTouches(t, before, {a, b})
    ensures RenameFrame(t, before, a, b, key)
  {
  }

  // ------------------------------------------------------------ compensation

  /** Files, container and secrets of an operation, in that order, going on past failures. */
  method RollbackResources(cp: ControlPlane, operation: Operation, t: FileTransition?, runtime: Option<RuntimeTransition>,
                           plan: SecretPlan?, ghost content: Directory)
    returns (o: Outcome)
    requires InProgress(cp.W(), operation, content) && RuntimeOf(runtime, operation)
    requires t != null ==> ActionOf(t.action, operation) && !t.rolledBack
    requires t != null && operation.kind == ClearAccountAuth ==> OperationBackup(operation) in cp.files.tree.backups
    requires plan != null ==> plan.before.Keys <= OwnedIds(operation)
    modifies cp.files, cp`containers, cp`monitor, cp`secrets, t
    ensures InProgress(cp.W(), operation, content)
    ensures OnlyTouches(cp.files.tree, old(cp.files.tree), OwnedIds(operation))
    ensures o.Done? ==>
      && cp.files.tree == (if t == null then old(cp.files.tree) else RolledBack(old(cp.files.tree), t.action))
      && cp.containers == (if runtime.None? then old(cp.containers) else RolledBackContainers(old(cp.containers), runtime.value))
      && cp.secrets == (if plan == null || !plan.ready then old(cp.secrets) else AllWritten(old(cp.secrets), plan.before))
    ensures cp.monitor.busy == old(cp.monitor.busy)
    ensures runtime.None? || runtime.value.kind.RetiredContainer? ==> cp.monitor == old(cp.monitor)
    ensures runtime.Some? ==> OnlyHits(old(cp.monitor), cp.monitor, {runtime.value.afterId} * cp.monitor.busy)
    ensures !o.Crashed? && runtime.Some? && !runtime.value.kind.RetiredContainer? ==>
      runtime.value.afterId in old(cp.containers) && runtime.value.afterId in cp.monitor.busy ==>
      Reports(old(cp.monitor), cp.monitor, runtime.value.afterId)
    ensures cp.files.calm && (t != null ==> CanUndo(old(cp.files.tree.dirs), t.action)) ==> o.Done?
  {
    hide InProgress, ActionOf, RuntimeOf, RolledBack, RolledBackContainers, AllWritten, OwnedIds, OperationBackup, Watch;
    o := Done;
    assert OnlyTouches(cp.files.tree, cp.files.tree, OwnedIds(operation));
    hide OnlyTouches;
    if t != null {
      o := RollbackFiles(cp, operation, t, content);
    }
    var failed := o.Failed?;
    if !o.Crashed? {
      o := RollbackContainers(cp, operation, runtime, content);
      failed := failed || o.Failed?;
    }
    if !o.Crashed? && plan != null {
      o := RollbackSecrets(cp, operation, plan, content);
      failed := failed || o.Failed?;
    }
    if o.Done? && failed {
      o := Failed;
    }
  }

  /** Configs and snapshot from the control plane's rows. */
  method RestorePublished(cp: ControlPlane, operation: Operation, ghost content: Directory) returns (o: Outcome)
    requires InProgress(cp.W(), operation, content)
    modifies cp.files, cp`active, cp`monitor
    ensures InProgress(cp.W(), operation, content)
    ensures cp.files.tree == old(cp.files.tree).(config := cp.files.tree.config)
    ensures o.Done? ==> CanRender(cp.catalog, cp.secrets) && cp.active == cp.catalog.routes
    ensures o.Done? ==> cp.files.tree.config == old(cp.files.tree).config + Rendered(cp.catalog, cp.secrets)
    ensures OnlyHits(old(cp.monitor), cp.monitor, {})
    ensures cp.files.calm && CanRender(cp.catalog, cp.secrets) ==> o.Done?
  {
    hide CatalogPart, TreePart, ContainerPart, SecretPart, OAuthSafe, Rendered, CanRender, Watch;
    o := RenderAll(cp, operation, content);
    if o.Done? {
      o := cp.Publish();
    }
  }

  /** Once everything but configs and backups is as at the start, rendering brings the rest in step. */
  lemma RestoredIsSynced(w: World, start: World, config: map<Id, Config>)
    requires Synced(start)
    requires w.catalog == start.catalog && w.secrets == start.secrets && w.containers == start.containers
    requires w.tree.dirs == start.tree.dirs && config.Keys <= w.catalog.accounts.Keys
    requires w.tree.config == config + Rendered(w.catalog, w.secrets) && w.active == w.catalog.routes
    ensures Restored(w, start)
  {
    hide ConfigOf, Invariant, CanRender, DirsMatch, ContainersMatch;
    assert w.tree.config.Keys == w.catalog.accounts.Keys;
  }

  // ------------------------------------------------------- forward, in common

  /** The account keeps its place and port outside the operation's own IDs. */
  ghost predicate OthersKept(next: map<Id, Account>, accounts: map<Id, Account>, ids: set<Id>) {
    forall id :: id !in ids ==>
      && (id in next <==> id in accounts)
      && (id in next ==> next[id].port == accounts[id].port)
  }

  lemma CatalogMoves(w: World, next: Catalog, operation: Operation, content: Directory)
    requires InProgress(w, operation, content) && CatalogPart(next, operation)
    requires OthersKept(next.accounts, w.catalog.accounts, OwnedIds(operation))
    ensures InProgress(w.(catalog := next), operation, content)
  {
    hide CatalogPart, OAuthSafe, OwnedIds, NotBoth, HasDirs;
    assert TreePart(w.tree, next.accounts, operation);
    assert ContainerPart(w.containers, next.accounts, operation);
    assert SecretPart(w.secrets, next.accounts, operation);
    hide TreePart, ContainerPart, SecretPart;
  }

  /** Proxy secrets and configs of the new rows. */
  method Project(cp: ControlPlane, operation: Operation, plan: SecretPlan, ghost content: Directory) returns (o: Outcome)
    requires InProgress(cp.W(), operation, content) && Holds(cp.journal, operation)
    requires plan.desired.Keys <= OwnedIds(operation)
    modifies cp.files, cp`secrets, cp`journal
    ensures InProgress(cp.W(), operation, content) && Holds(cp.journal, operation)
    ensures cp.files.tree == old(cp.files.tree).(config := cp.files.tree.config)
    ensures forall id :: id in cp.files.tree.config ==> id in old(cp.files.tree).config || id in cp.catalog.accounts
    ensures forall id :: id !in plan.desired ==> SameAt(cp.secrets, old(cp.secrets), id)
    ensures o.Done? ==>
      && cp.secrets == AllWritten(old(cp.secrets), plan.desired)
      && CanRender(cp.catalog, cp.secrets)
      && cp.files.tree.config == old(cp.files.tree).config + Rendered(cp.catalog, cp.secrets)
    ensures cp.files.calm && plan.ready && CanRender(cp.catalog, AllWritten(old(cp.secrets), plan.desired)) ==> o.Done?
  {
    hide CatalogPart, TreePart, ContainerPart, SecretPart, OAuthSafe, Holds, Rendered, CanRender, AllWritten, Watch, OwnedIds;
    o := ApplySecrets(cp, operation, plan, content);
    if o.Done? {
      o := Advance(cp, operation, ControlApplied);
    }
    if o.Done? {
      o := RenderAll(cp, operation, content);
    }
    if o.Done? {
      o := Advance(cp, operation, ProjectionRendered);
    }
  }

  // -------------------------------------------------------------- all or nothing

  /** As at the start, up to backups and to configs that say the same. */
  ghost predicate Restored(w: World, start: World) {
    && w == start.(tree := start.tree.(config := w.tree.config, backups := w.tree.backups))
    && Synced(w)
  }

  /** Nothing outside the operation's accounts has moved. */
  ghost predicate DirsFrom(dirs: map<Path, Directory>, start: map<Path, Directory>, ids: set<Id>) {
    forall p :: p in dirs || p in start ==> p.id in ids || SameAt(dirs, start, p)
  }

  /** What the operation captured, or will, is what the secrets were at the start. */
  ghost predicate PlanFrom(ready: bool, before: map<Id, Option<string>>, secrets: map<Id, string>, start: map<Id, string>) {
    if ready then
      && (forall id :: id !in before ==> SameAt(secrets, start, id))
      && (forall id :: id in before ==> before[id] == Get(start, id))
    else secrets == start
  }

  /** Undoing the container change, if any, gives the containers of the start. */
  ghost predicate RuntimeFrom(t: Option<RuntimeTransition>, containers: map<Id, Container>, start: map<Id, Container>) {
    (if t.None? then containers else RolledBackContainers(containers, t.value)) == start
  }

  function EndOf(o: Outcome, failed: bool): Ending {
    if o.Crashed? then CutOff else if failed || o.Failed? then Stuck else Undone
  }

  /** Backups are no part of what is in step. */
  lemma BackupsAside(start: World, t: Tree)
    requires Synced(start) && t.dirs == start.tree.dirs && t.config == start.tree.config
    ensures Restored(start.(tree := t), start)
  {
    hide Invariant, CanRender, ConfigsMatch, DirsMatch, ContainersMatch;
  }

  lemma NoEvacuation(c: Catalog, operation: Operation)
    requires operation.evacuated == map[] && operation.kind in {CreateAccount, DeleteAccount}
    ensures CatalogPart(c, operation) <==> Invariant(c)
  {
    assert c.routes + operation.evacuated == c.routes;
    hide Invariant;
  }

  /** The prepared container is recorded, then the snapshot switches over. */
  method Activate(cp: ControlPlane, operation: Operation, ghost content: Directory) returns (o: Outcome)
    requires InProgress(cp.W(), operation, content) && Holds(cp.journal, operation)
    modifies cp`active, cp`monitor, cp`journal
    ensures InProgress(cp.W(), operation, content) && Holds(cp.journal, operation)
    ensures OnlyHits(old(cp.monitor), cp.monitor, {}) && cp.monitor.busy <= old(cp.monitor.busy) + cp.catalog.routes.Values
    ensures o.Done? ==> cp.active == cp.catalog.routes && cp.monitor == Observe(old(cp.monitor), Routed(cp.catalog.routes.Values))
    ensures cp.files.calm ==> o.Done?
  {
    hide CatalogPart, TreePart, ContainerPart, SecretPart, OAuthSafe, Holds, Watch;
    o := Advance(cp, operation, RuntimePrepared);
    if o.Done? {
      o := cp.Publish();
    }
    if o.Done? {
      o := Advance(cp, operation, SnapshotActivated);
    }
  }

  method PublishInProgress(cp: ControlPlane, operation: Operation, ghost content: Directory) returns (o: Outcome)
    requires InProgress(cp.W(), operation, content)
    modifies cp`active, cp`monitor
    ensures InProgress(cp.W(), operation, content)
    ensures o.Done? ==> cp.active == cp.catalog.routes && cp.monitor == Observe(old(cp.monitor), Routed(cp.catalog.routes.Values))
    ensures o.Failed? ==> cp.active == old(cp.active) && cp.monitor == old(cp.monitor)
    ensures OnlyHits(old(cp.monitor), cp.monitor, {})
    ensures cp.files.calm ==> o.Done?
  {
    hide CatalogPart, TreePart, ContainerPart, SecretPart, OAuthSafe, Watch;
    o := cp.Publish();
  }

  method AdvanceInProgress(cp: ControlPlane, operation: Operation, phase: Phase, ghost content: Directory) returns (o: Outcome)
    requires InProgress(cp.W(), operation, content) && Holds(cp.journal, operation)
    requires phase != Accepted && phase != RoutesPrepared
    modifies cp`journal
    ensures InProgress(cp.W(), operation, content) && Holds(cp.journal, operation)
    ensures o.Done? ==> cp.journal == Some(operation.(phase := phase))
    ensures o.Failed? ==> cp.journal == old(cp.journal)
    ensures cp.files.calm ==> o.Done?
  {
    hide CatalogPart, TreePart, ContainerPart, SecretPart, OAuthSafe, Watch, Holds;
    o := Advance(cp, operation, phase);
  }

  /** What is in step at the start, by name. */
  lemma StartKeys(w: World)
    requires Synced(w)
    ensures w.tree.config.Keys == w.catalog.accounts.Keys && w.containers.Keys == w.catalog.accounts.Keys
    ensures w.secrets.Keys <= w.catalog.accounts.Keys && w.active == w.catalog.routes
    ensures Invariant(w.catalog) && CanRender(w.catalog, w.secrets)
  {
    hide Invariant, CanRender, DirsMatch;
  }

  /** Nothing of an ID without a row is anywhere. */
  lemma NothingOf(w: World, id: Id)
    requires Synced(w) && id !in w.catalog.accounts
    ensures id !in w.secrets && id !in w.tree.config && id !in w.containers && HasNoDirs(w.tree.dirs, id)
  {
    hide Invariant, CanRender, ConfigOf;
  }

  lemma NoRuntime(operation: Operation, containers: map<Id, Container>)
    ensures RuntimeOf(None, operation) && RuntimeFrom(None, containers, containers)
  {
  }

  /** Project with a plan that is captured only now. */
  method CaptureAndProject(cp: ControlPlane, operation: Operation, plan: SecretPlan,
                           ghost start: map<Id, string>, ghost content: Directory)
    returns (o: Outcome)
    requires InProgress(cp.W(), operation, content) && Holds(cp.journal, operation)
    requires plan.desired.Keys <= OwnedIds(operation) && !plan.ready && plan.before == map[] && cp.secrets == start
    modifies plan, cp.files, cp`secrets, cp`journal
    ensures InProgress(cp.W(), operation, content) && Holds(cp.journal, operation)
    ensures cp.files.tree == old(cp.files.tree).(config := cp.files.tree.config)
    ensures forall id :: id in cp.files.tree.config ==> id in old(cp.files.tree).config || id in cp.catalog.accounts
    ensures plan.before.Keys <= plan.desired.Keys && PlanFrom(plan.ready, plan.before, cp.secrets, start)
    ensures forall id :: id !in plan.desired ==> SameAt(cp.secrets, start, id)
    ensures o.Done? ==>
      && cp.secrets == AllWritten(start, plan.desired)
      && CanRender(cp.catalog, cp.secrets)
      && cp.files.tree.config == old(cp.files.tree).config + Rendered(cp.catalog, cp.secrets)
    ensures cp.files.calm && CanRender(cp.catalog, AllWritten(start, plan.desired)) ==> o.Done?
  {
    hide InProgress, Holds, Rendered, CanRender, AllWritten, Watch, OwnedIds;
    o := plan.Capture(cp);
    if o.Done? {
      o := Project(cp, operation, plan, content);
    }
  }
}
