/**
 * Prepare, Commit and Rollback of the account files as one story: rolling back
 * a prepared change gives the directories of the start, whether or not it was
 * committed in between.
 */
module FilesLaws {
  import opened Wrappers
  import opened Catalog
  import opened Files
  import opened Journal

  /** The tree that a successful preparation leaves. */
  ghost predicate PreparedFrom(t: Tree, start: Tree, action: FileAction) {
    match action
    case CreateFiles(id) =>
      && t.config == start.config && id !in start.config && HasNoDirs(start.dirs, id)
      && t.dirs == start.dirs[Path(Auth, id) := map[]][Path(Logs, id) := map[]]
    case KeepFiles => t == start
    case RenameFiles(oldId, newId, moved) =>
      && oldId != newId && newId !in start.config && HasNoDirs(start.dirs, newId)
      && t.config == start.config && t.dirs == MoveDirs(start.dirs, KINDS, oldId, newId)
      && moved == MovesOf(start.dirs, KINDS, oldId, newId)
    case DeleteFiles(id, key) =>
      && HasDirs(start.dirs, id) && t.config == start.config && t.dirs == start.dirs
      && Get(t.backups, key) == Some(BackupOf(start, id, true, true, true))
    case ClearFiles(id, key) =>
      && HasDirs(start.dirs, id) && t.config == start.config && t.dirs == start.dirs[Path(Auth, id) := map[]]
      && Get(t.backups, key) == Some(BackupOf(start, id, false, true, false))
  }

  function Between(t: Tree, action: FileAction, committed: bool): Tree {
    if committed then Committed(t, action) else t
  }

  lemma DeletedAndRestored(t: Tree, start: Tree, id: Id, key: BackupKey, committed: bool)
    requires PreparedFrom(t, start, DeleteFiles(id, key))
    ensures
      var back := RolledBack(Between(t, DeleteFiles(id, key), committed), DeleteFiles(id, key));
      back.dirs == start.dirs && back.config == start.config
  {
  }

  lemma RenamedAndBack(t: Tree, start: Tree, oldId: Id, newId: Id, moved: seq<Move>, committed: bool)
    requires PreparedFrom(t, start, RenameFiles(oldId, newId, moved))
    ensures
      var back := RolledBack(Between(t, RenameFiles(oldId, newId, moved), committed), RenameFiles(oldId, newId, moved));
      back.dirs == start.dirs && back.config == if committed then start.config - {oldId} else start.config
  {
    hide MoveDirs, UndoMoves, HasNoDirs;
    assert KINDS[0] != KINDS[1];
    assert forall k :: k in KINDS ==> Path(k, newId) !in start.dirs by { NoneOf(start.dirs, newId); }
    UndoMovesUndoes(start.dirs, KINDS, oldId, newId);
    hide MovesOf;
    assert start.config - {newId} == start.config;
    assert start.config - {oldId} - {newId} == start.config - {oldId};
  }

  lemma NoneOf(dirs: map<Path, Directory>, id: Id)
    requires HasNoDirs(dirs, id)
    ensures forall k :: k in KINDS ==> Path(k, id) !in dirs
  {
  }

  /**
   * Every directory has its content of the start; the config differs only after
   * the commit of a rename, which gives up the old one for good.
   */
  lemma RollbackRestores(t: Tree, start: Tree, action: FileAction, committed: bool)
    requires PreparedFrom(t, start, action)
    ensures
      var back := RolledBack(Between(t, action, committed), action);
      && back.dirs == start.dirs
      && (back.config == start.config <==> !(committed && action.RenameFiles? && action.oldId in start.config))
  {
    match action {
      case CreateFiles(id) =>
        assert t.dirs - DirsOf(id) == start.dirs && t.config - {id} == start.config;
      case KeepFiles =>
      case RenameFiles(oldId, newId, moved) =>
        RenamedAndBack(t, start, oldId, newId, moved, committed);
        assert oldId !in start.config ==> start.config - {oldId} == start.config;
      case DeleteFiles(id, key) =>
        DeletedAndRestored(t, start, id, key, committed);
      case ClearFiles(id, key) =>
    }
  }

  /** A commit that stopped half-way is rolled back all the same. */
  lemma PartlyCommitted(u: Tree, t: Tree, start: Tree, action: FileAction)
    requires PreparedFrom(t, start, action) && OnlyTouches(u, t, ActionIds(action)) && u.backups == t.backups
    requires !action.DeleteFiles? ==> u.dirs == t.dirs
    ensures RolledBack(u, action).dirs == start.dirs
  {
    RollbackRestores(t, start, action, false);
    hide MoveDirs, UndoMoves;
    match action {
      case DeleteFiles(id, key) =>
        var back := RolledBack(u, action).dirs;
        forall p | p in back || p in start.dirs
          ensures SameAt(back, start.dirs, p)
        {
          if p.id == id {
            match p.kind {
              case Auth =>
              case Logs =>
            }
          } else {
            assert SameAt(u.dirs, t.dirs, p);
          }
        }
        assert back == start.dirs;
      case _ =>
    }
  }

  datatype Change = Rename(oldId: Id, newId: Id) | Remove(id: Id) | ClearOAuth(id: Id)

  function Changed(change: Change): Id {
    match change
    case Rename(oldId, _) => oldId
    case Remove(id) => id
    case ClearOAuth(id) => id
  }

  method Prepare(files: FileManager, change: Change, operation: string) returns (o: Outcome, t: FileTransition?)
    requires HasDirs(files.tree.dirs, Changed(change))
    modifies files
    ensures t != null <==> o.Done?
    ensures t != null ==>
      && fresh(t) && !t.committed && !t.rolledBack && WellFormedAction(t.action)
      && (t.action.RenameFiles? ==> MovesOAuth(t.action.moved))
      && PreparedFrom(files.tree, old(files.tree), t.action)
  {
    hide MoveDirs, OnlyTouches, RenameFrame, MovesOAuth;
    match change {
      case Rename(oldId, newId) =>
        OAuthIsMoved(files.tree.dirs, oldId, newId);
        o, t := files.PrepareUpdate(operation, oldId, newId);
      case Remove(id) =>
        o, t := files.PrepareDelete(operation, id);
      case ClearOAuth(id) =>
        o, t := files.PrepareAuthClear(operation, id);
    }
  }

  /**
   * Prepare and roll back, with a commit in between or not, and whether or not
   * that commit got to its end: every directory has its content back.
   */
  method PrepareAndRollback(files: FileManager, change: Change, operation: string, commit: bool) returns (o: Outcome)
    requires HasDirs(files.tree.dirs, Changed(change))
    modifies files
    ensures o.Done? ==> files.tree.dirs == old(files.tree).dirs
  {
    hide MoveDirs, RenameFrame, MovesOAuth, PreparedFrom, RolledBack, Committed, WellFormedAction;
    ghost var start := files.tree;
    var t;
    o, t := Prepare(files, change, operation);
    if t != null {
      ghost var prepared := files.tree;
      if commit {
        o := files.Commit(t);
      }
      if !o.Crashed? {
        PartlyCommitted(files.tree, prepared, start, t.action);
        ghost var key: BackupKey := *;
        o := files.Rollback(t, key);
      }
    }
  }

  /** A transition rolled back twice and then committed: only the first roll-back acts. */
  method ActsOnce(files: FileManager, t: FileTransition, ghost key: BackupKey) returns (first: Outcome, second: Outcome, late: Outcome)
    requires WellFormedAction(t.action) && !t.rolledBack && !t.committed
    requires t.action.RenameFiles? ==> MovesOAuth(t.action.moved)
    modifies files, t
    ensures first.Done? && second.Done? ==>
      files.tree == RolledBack(old(files.tree), t.action) && t.rolledBack && late.Failed?
  {
    hide OnlyTouches, RenameFrame, MovesOAuth;
    first := files.Rollback(t, key);
    second := files.Rollback(t, key);
    late := files.Commit(t);
  }

  // ------------------------------------------------------------------ recovery

  /** What is in place, or else what is there instead. */
  function OrElse(d: Option<Directory>, other: Directory): Directory {
    if d.Some? then d.value else other
  }

  function OfKind(b: Option<Backup>, kind: Kind): Option<Directory> {
    if b.None? then None else if kind == Auth then b.value.auth else b.value.logs
  }

  lemma MovedOverHas(dirs: map<Path, Directory>, kind: Kind, from: Id, to: Id, backup: Option<Directory>)
    requires from != to && !(Path(kind, from) in dirs && Path(kind, to) in dirs)
    ensures
      var next := MovedOver(dirs, Path(kind, from), Path(kind, to), backup);
      && Get(next, Path(kind, to)) ==
           Some(OrElse(Get(dirs, Path(kind, to)), OrElse(Get(dirs, Path(kind, from)), OrElse(backup, map[]))))
      && Path(kind, from) !in next && forall p: Path :: p.kind != kind ==> SameAt(next, dirs, p)
  {
  }

  /**
   * A completed recovery of a rename leaves each directory at the wanted ID
   * alone, with what is there, or else at the other ID, or else in the backup;
   * only the config of the other ID goes.
   */
  lemma RecoveredUpdate(t: Tree, operation: Operation, home: Id, other: Id, kind: Kind)
    requires operation.kind == UpdateAccount && home != other && {home, other} == {operation.account, operation.newAccount}
    requires NotBoth(t.dirs, home, other)
    ensures
      var r := RecoveredTree(t, operation, Some(home));
      && Get(r.dirs, Path(kind, home)) ==
           Some(OrElse(Get(t.dirs, Path(kind, home)), OrElse(Get(t.dirs, Path(kind, other)),
                       OrElse(OfKind(Get(t.backups, OperationBackup(operation)), kind), map[]))))
      && Path(kind, other) !in r.dirs && r.config == t.config - {other} && r.backups == t.backups
  {
    hide OperationBackup, MovedOver;
    assert (home == operation.account && other == operation.newAccount) || (home == operation.newAccount && other == operation.account);
    var b := BackupAt(t, OperationBackup(operation));
    var auth := MovedOver(t.dirs, Path(Auth, other), Path(Auth, home), b.auth);
    MovedOverHas(t.dirs, Auth, other, home, b.auth);
    assert SameAt(auth, t.dirs, Path(Logs, home)) && SameAt(auth, t.dirs, Path(Logs, other));
    MovedOverHas(auth, Logs, other, home, b.logs);
    assert RecoveredTree(t, operation, Some(home)) == RecoveredRename(t, other, home, b);
    assert kind == Auth || kind == Logs;
  }

  /** Of an account that stays, a directory in place is kept; a missing one comes from a deletion's backup, or is empty. */
  lemma RecoveredKept(t: Tree, operation: Operation, kind: Kind)
    requires operation.kind in {CreateAccount, DeleteAccount} || (operation.kind == UpdateAccount && operation.newAccount == operation.account)
    ensures
      var id := operation.account;
      var r := RecoveredTree(t, operation, Some(id));
      var backup := if operation.kind == DeleteAccount then Get(t.backups, OperationBackup(operation)) else None;
      && Get(r.dirs, Path(kind, id)) == Some(OrElse(Get(t.dirs, Path(kind, id)), OrElse(OfKind(backup, kind), map[])))
      && (forall other :: other != id ==> SameAt(r.config, t.config, other))
      && (id in t.config ==> SameAt(r.config, t.config, id))
      && (id !in t.config ==> Get(r.config, id) == match backup case Some(b) => b.config case None => None)
  {
    hide OperationBackup;
    assert kind == Auth || kind == Logs;
  }

  /** Of an account that goes, nothing is left. */
  lemma RecoveredGone(t: Tree, operation: Operation, kind: Kind)
    requires operation.kind in {CreateAccount, DeleteAccount}
    ensures
      var r := RecoveredTree(t, operation, None);
      Path(kind, operation.account) !in r.dirs && r.config == t.config - {operation.account}
  {
    assert kind == Auth || kind == Logs;
  }

  /** An OAuth clear that was backed up empties the OAuth directory, and nothing else changes. */
  lemma RecoveredClear(t: Tree, operation: Operation)
    requires operation.kind == ClearAccountAuth
    ensures RecoveredTree(t, operation, None) == t
    ensures
      RecoveredTree(t, operation, Some(operation.account)) ==
        if OperationBackup(operation) in t.backups then t.(dirs := t.dirs[Path(Auth, operation.account) := map[]]) else t
  {
  }
}
