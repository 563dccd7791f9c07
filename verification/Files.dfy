/**
 * The account directories under the control root and the file half of every
 * account operation: prepare, commit, roll back, and recover after a crash.
 * Each file-system action is one atomic step that may succeed, fail without
 * effect, or be cut off by a crash before or after its effect.
 */
module Files {
  import opened Wrappers
  import opened Catalog
  import opened Journal

  datatype Outcome = Done | Failed | Crashed

  /** What the renderer puts into one account's configuration file. */
  datatype Config = Config(id: Id, email: string, mode: ProxyMode, enabled: bool, proxy: Option<string>, users: set<User>)

  type Directory = map<string, string>

  datatype Kind = Auth | Logs

  datatype Path = Path(kind: Kind, id: Id)

  datatype Reason = RenamedTo(newId: Id) | DeletedAccount | OauthClear

  /** A backup directory is named after its operation, account and reason. */
  datatype BackupKey = BackupKey(operation: string, account: Id, reason: Reason)

  datatype Backup = Backup(config: Option<Config>, auth: Option<Directory>, logs: Option<Directory>)

  datatype Tree = Tree(config: map<Id, Config>, dirs: map<Path, Directory>, backups: map<BackupKey, Backup>)

  const KINDS: seq<Kind> := [Auth, Logs]

  datatype Move = Move(source: Path, destination: Path, created: bool)

  /** The action a prepared transition commits or rolls back. */
  datatype FileAction =
    | CreateFiles(id: Id)
    | KeepFiles
    | RenameFiles(oldId: Id, newId: Id, moved: seq<Move>)
    | DeleteFiles(account: Id, backup: BackupKey)
    | ClearFiles(account: Id, backup: BackupKey)

  // ------------------------------------------------------------------ values

  function Get<K, V>(m: map<K, V>, k: K): Option<V> {
    if k in m then Some(m[k]) else None
  }

  function BackupOf(t: Tree, id: Id, withConfig: bool, withAuth: bool, withLogs: bool): Backup {
    Backup(if withConfig then Get(t.config, id) else None,
           if withAuth then Get(t.dirs, Path(Auth, id)) else None,
           if withLogs then Get(t.dirs, Path(Logs, id)) else None)
  }

  /** Rename the directory, or create an empty one when there is none to rename. */
  function MoveDir(dirs: map<Path, Directory>, source: Path, destination: Path): map<Path, Directory> {
    if source in dirs then (dirs - {source})[destination := dirs[source]]
    else if destination in dirs then dirs
    else dirs[destination := map[]]
  }

  function MoveDirs(dirs: map<Path, Directory>, kinds: seq<Kind>, oldId: Id, newId: Id): map<Path, Directory> {
    if kinds == [] then dirs
    else
      var last := kinds[|kinds| - 1];
      MoveDir(MoveDirs(dirs, kinds[..|kinds| - 1], oldId, newId), Path(last, oldId), Path(last, newId))
  }

  /** The undo list that the moves leave behind. */
  function MovesOf(dirs: map<Path, Directory>, kinds: seq<Kind>, oldId: Id, newId: Id): (moves: seq<Move>)
    ensures |moves| == |kinds|
    ensures forall i :: 0 <= i < |kinds| ==>
      moves[i] == Move(Path(kinds[i], oldId), Path(kinds[i], newId), Path(kinds[i], oldId) !in dirs)
  {
    seq(|kinds|, i requires 0 <= i < |kinds| =>
      Move(Path(kinds[i], oldId), Path(kinds[i], newId), Path(kinds[i], oldId) !in dirs))
  }

  function UndoMove(dirs: map<Path, Directory>, move: Move): map<Path, Directory> {
    if move.created then dirs - {move.destination}
    else if move.destination !in dirs then dirs
    else (dirs - {move.destination})[move.source := dirs[move.destination]]
  }

  /** Undo from the last move to the first. */
  function UndoMoves(dirs: map<Path, Directory>, moves: seq<Move>): map<Path, Directory>
    decreases |moves|
  {
    if moves == [] then dirs
    else UndoMoves(UndoMove(dirs, moves[|moves| - 1]), moves[..|moves| - 1])
  }

  // -------------------------------------------------------------- predicates

  ghost predicate SameAt<K, V>(m: map<K, V>, n: map<K, V>, k: K) {
    (k in m <==> k in n) && (k in m ==> m[k] == n[k])
  }

  /** Nothing but the directories and configs of `ids` differs, and no backup is lost. */
  ghost predicate OnlyTouches(t: Tree, before: Tree, ids: set<Id>) {
    && (forall p :: p in t.dirs || p in before.dirs ==> p.id in ids || SameAt(t.dirs, before.dirs, p))
    && (forall id :: id in t.config || id in before.config ==> id in ids || SameAt(t.config, before.config, id))
    && (forall k :: k in before.backups ==> k in t.backups && t.backups[k] == before.backups[k])
  }

  /** Something of `id` may have been added; nothing that was there is gone or replaced. */
  ghost predicate OnlyAdds(t: Tree, before: Tree, id: Id) {
    && OnlyTouches(t, before, {id}) && t.backups == before.backups
    && (forall p :: p in before.dirs ==> p in t.dirs && t.dirs[p] == before.dirs[p])
    && (id in before.config ==> id in t.config && t.config[id] == before.config[id])
  }

  /** At most one of the two accounts has a directory of each kind. */
  ghost predicate NotBoth(dirs: map<Path, Directory>, a: Id, b: Id) {
    && !(Path(Auth, a) in dirs && Path(Auth, b) in dirs)
    && !(Path(Logs, a) in dirs && Path(Logs, b) in dirs)
  }

  ghost predicate HasDirs(dirs: map<Path, Directory>, id: Id) {
    Path(Auth, id) in dirs && Path(Logs, id) in dirs
  }

  ghost predicate HasNoDirs(dirs: map<Path, Directory>, id: Id) {
    Path(Auth, id) !in dirs && Path(Logs, id) !in dirs
  }

  /** Nothing is at the account's paths. */
  ghost predicate Vacant(t: Tree, id: Id) {
    id !in t.config && HasNoDirs(t.dirs, id)
  }

  /** The OAuth content is in one of the two places or in the operation's backup. */
  ghost predicate OAuthHeld(t: Tree, a: Id, b: Id, key: BackupKey, content: Directory) {
    || Get(t.dirs, Path(Auth, a)) == Some(content)
    || Get(t.dirs, Path(Auth, b)) == Some(content)
    || (key in t.backups && t.backups[key].auth == Some(content))
  }

  // ------------------------------------------------------------------ lemmas

  lemma OnlyTouchesTrans(t2: Tree, t1: Tree, t0: Tree, ids: set<Id>)
    requires OnlyTouches(t2, t1, ids) && OnlyTouches(t1, t0, ids)
    ensures OnlyTouches(t2, t0, ids)
  {
  }

  lemma UndoMoveUndoes(dirs: map<Path, Directory>, source: Path, destination: Path)
    requires source != destination && destination !in dirs
    ensures UndoMove(MoveDir(dirs, source, destination), Move(source, destination, source !in dirs)) == dirs
  {
  }

  lemma MoveDirsElsewhere(dirs: map<Path, Directory>, kinds: seq<Kind>, oldId: Id, newId: Id, p: Path)
    requires (p.id != oldId && p.id != newId) || p.kind !in kinds
    ensures SameAt(MoveDirs(dirs, kinds, oldId, newId), dirs, p)
  {
  }

  ghost predicate NoneCreated(moves: seq<Move>) {
    forall m :: m in moves ==> !m.created && m.source.kind == m.destination.kind
  }

  lemma AtHome(dirs: map<Path, Directory>, a: Id, b: Id)
    requires HasDirs(dirs, a) && HasNoDirs(dirs, b)
    ensures Scattered(dirs, dirs, a, b)
  {
    forall kind
      ensures Path(kind, a) in dirs && Path(kind, b) !in dirs
    {
      assert kind == Auth || kind == Logs;
    }
  }

  /** Undoing the moves of a rename brings every directory back. */
  lemma UndoMovesUndoes(dirs: map<Path, Directory>, kinds: seq<Kind>, oldId: Id, newId: Id)
    requires oldId != newId
    requires forall i, j :: 0 <= i < j < |kinds| ==> kinds[i] != kinds[j]
    requires forall k :: k in kinds ==> Path(k, newId) !in dirs
    ensures UndoMoves(MoveDirs(dirs, kinds, oldId, newId), MovesOf(dirs, kinds, oldId, newId)) == dirs
  {
    if kinds != [] {
      var n := |kinds| - 1;
      var last, rest := kinds[n], kinds[..n];
      var before := MoveDirs(dirs, rest, oldId, newId);
      MoveDirsElsewhere(dirs, rest, oldId, newId, Path(last, oldId));
      MoveDirsElsewhere(dirs, rest, oldId, newId, Path(last, newId));
      UndoMoveUndoes(before, Path(last, oldId), Path(last, newId));
      assert MovesOf(dirs, kinds, oldId, newId)[..n] == MovesOf(dirs, rest, oldId, newId);
      UndoMovesUndoes(dirs, rest, oldId, newId);
    }
  }

  lemma MoveDirsBoth(dirs: map<Path, Directory>, oldId: Id, newId: Id)
    requires oldId != newId && HasNoDirs(dirs, newId)
    ensures
      var next := MoveDirs(dirs, KINDS, oldId, newId);
      && HasDirs(next, newId) && HasNoDirs(next, oldId)
      && (Path(Auth, oldId) in dirs ==> Get(next, Path(Auth, newId)) == Get(dirs, Path(Auth, oldId)))
      && (Path(Logs, oldId) in dirs ==> Get(next, Path(Logs, newId)) == Get(dirs, Path(Logs, oldId)))
      && (forall p :: p in next || p in dirs ==> p.id in {oldId, newId} || SameAt(next, dirs, p))
  {
    assert KINDS[..1] == [Auth];
    assert [Auth][..0] == [];
    var first := MoveDir(dirs, Path(Auth, oldId), Path(Auth, newId));
    assert MoveDirs(dirs, [Auth], oldId, newId) == first;
    assert MoveDirs(dirs, KINDS, oldId, newId) == MoveDir(first, Path(Logs, oldId), Path(Logs, newId));
  }

  function DirsOf(id: Id): set<Path> {
    {Path(Auth, id), Path(Logs, id)}
  }

  function BackupReason(operation: Operation): Reason {
    match operation.kind
    case UpdateAccount => RenamedTo(operation.newAccount)
    case DeleteAccount => DeletedAccount
    case _ => OauthClear
  }

  function OperationBackup(operation: Operation): BackupKey {
    BackupKey(operation.id, operation.account, BackupReason(operation))
  }

  function Removed(t: Tree, id: Id): Tree {
    t.(config := t.config - {id}, dirs := t.dirs - DirsOf(id))
  }

  /** The backed-up directory, or an empty one. */
  function OrEmpty(d: Option<Directory>): Directory {
    if d.Some? then d.value else map[]
  }

  function BackupAt(t: Tree, key: BackupKey): Backup {
    if key in t.backups then t.backups[key] else Backup(None, None, None)
  }

  /** What a completed rollback leaves. */
  function RolledBack(t: Tree, action: FileAction): Tree {
    match action
    case CreateFiles(id) => Removed(t, id)
    case KeepFiles => t
    case RenameFiles(_, newId, moved) => t.(config := t.config - {newId}, dirs := UndoMoves(t.dirs, moved))
    case DeleteFiles(id, key) =>
      var b := BackupAt(t, key);
      t.(config := if b.config.Some? then t.config[id := b.config.value] else t.config,
         dirs := t.dirs[Path(Auth, id) := OrEmpty(b.auth)][Path(Logs, id) := OrEmpty(b.logs)])
    case ClearFiles(id, key) =>
      t.(dirs := t.dirs[Path(Auth, id) := OrEmpty(BackupAt(t, key).auth)])
  }

  /** What a completed commit leaves. */
  function Committed(t: Tree, action: FileAction): Tree {
    match action
    case RenameFiles(oldId, _, _) => t.(config := t.config - {oldId})
    case DeleteFiles(id, _) => Removed(t, id)
    case _ => t
  }

  /** Nothing that is there is replaced; what is missing comes from the backup. */
  function Refilled(t: Tree, id: Id, b: Backup): Tree {
    t.(config := if id !in t.config && b.config.Some? then t.config[id := b.config.value] else t.config,
       dirs := Filled(Filled(t.dirs, Path(Auth, id), b.auth), Path(Logs, id), b.logs))
  }

  function Filled(dirs: map<Path, Directory>, p: Path, content: Option<Directory>): map<Path, Directory> {
    if p in dirs then dirs else dirs[p := OrEmpty(content)]
  }

  /** What is at neither place comes from the backup. */
  function MovedOver(dirs: map<Path, Directory>, source: Path, destination: Path, backup: Option<Directory>): map<Path, Directory> {
    if destination in dirs then dirs
    else if source in dirs then (dirs - {source})[destination := dirs[source]]
    else dirs[destination := OrEmpty(backup)]
  }

  function RecoveredRename(t: Tree, from: Id, to: Id, b: Backup): Tree {
    var auth := MovedOver(t.dirs, Path(Auth, from), Path(Auth, to), b.auth);
    t.(dirs := MovedOver(auth, Path(Logs, from), Path(Logs, to), b.logs), config := t.config - {from})
  }

  /** What a completed recovery leaves, given the account the control plane holds. */
  function RecoveredTree(t: Tree, operation: Operation, desired: Option<Id>): Tree {
    var a, n := operation.account, operation.newAccount;
    var b := BackupAt(t, OperationBackup(operation));
    match operation.kind
    case CreateAccount =>
      if desired.None? then Removed(t, a) else Refilled(t, a, Backup(None, None, None))
    case UpdateAccount =>
      if a == n then Refilled(t, a, Backup(None, None, None))
      else if desired == Some(n) then RecoveredRename(t, a, n, b)
      else RecoveredRename(t, n, a, b)
    case DeleteAccount =>
      if desired.None? then Removed(t, a) else Refilled(t, a, b)
    case _ =>
      if desired.None? || OperationBackup(operation) !in t.backups then t
      else t.(dirs := t.dirs[Path(Auth, a) := map[]])
  }

  function ActionIds(action: FileAction): set<Id> {
    match action
    case CreateFiles(id) => {id}
    case KeepFiles => {}
    case RenameFiles(oldId, newId, _) => {oldId, newId}
    case DeleteFiles(id, _) => {id}
    case ClearFiles(id, _) => {id}
  }

  ghost predicate MovesBetween(moved: seq<Move>, oldId: Id, newId: Id) {
    forall m :: m in moved ==> m.source.id == oldId && m.destination.id == newId && m.source.kind == m.destination.kind
  }

  /** The undo list renames the OAuth directory back rather than dropping it. */
  ghost predicate MovesOAuth(moved: seq<Move>) {
    forall m :: m in moved && m.destination.kind == Auth ==> !m.created
  }

  ghost predicate NoOAuth(dirs: map<Path, Directory>, a: Id, b: Id) {
    Path(Auth, a) !in dirs && Path(Auth, b) !in dirs
  }

  /** Whatever OAuth content was held before is still held. */
  ghost predicate KeepsOAuth(t: Tree, before: Tree, a: Id, b: Id, key: BackupKey) {
    forall content :: OAuthHeld(before, a, b, key, content) ==> OAuthHeld(t, a, b, key, content)
  }

  /** What every step of a rename from `a` to `b` keeps, relative to the tree it started from. */
  ghost predicate RenameFrame(t: Tree, base: Tree, a: Id, b: Id, key: BackupKey) {
    && OnlyTouches(t, base, {a, b})
    && (NotBoth(base.dirs, a, b) ==> NotBoth(t.dirs, a, b))
    && KeepsOAuth(t, base, a, b, key)
  }

  /** Each directory of account `a` is at `a` or at `b`, with the content it had. */
  ghost predicate Scattered(dirs: map<Path, Directory>, home: map<Path, Directory>, a: Id, b: Id) {
    forall kind :: Path(kind, a) in home &&
      if Path(kind, b) in dirs then Path(kind, a) !in dirs && dirs[Path(kind, b)] == home[Path(kind, a)]
      else SameAt(dirs, home, Path(kind, a))
  }

  /** The account's directories are as before or missing, or already those of the backup; so is its config. */
  ghost predicate PartlyRestored(t: Tree, before: Tree, id: Id, b: Backup) {
    && (t.config == before.config || (b.config.Some? && t.config == before.config[id := b.config.value]))
    && (forall p :: p in t.dirs ==>
          || SameAt(t.dirs, before.dirs, p)
          || (p == Path(Auth, id) && t.dirs[p] == OrEmpty(b.auth))
          || (p == Path(Logs, id) && t.dirs[p] == OrEmpty(b.logs)))
  }

  /** Every directory of the undo list still has room at its old place. */
  ghost predicate Undoable(dirs: map<Path, Directory>, moves: seq<Move>) {
    && (forall m :: m in moves ==> m.created || m.source !in dirs)
    && (forall i, j :: 0 <= i < j < |moves| ==> moves[i].source != moves[j].source)
  }

  ghost predicate CanUndo(dirs: map<Path, Directory>, action: FileAction) {
    action.RenameFiles? ==> Undoable(dirs, action.moved)
  }

  /** For an update: the account is there and no directory is at both places. */
  ghost predicate Reconcilable(dirs: map<Path, Directory>, operation: Operation, desired: Option<Id>) {
    operation.kind == UpdateAccount ==>
      && desired.Some? && desired.value in {operation.account, operation.newAccount}
      && (operation.account != operation.newAccount ==> NotBoth(dirs, operation.account, operation.newAccount))
  }

  /** Actions as the Prepare methods build them. */
  ghost predicate WellFormedAction(action: FileAction) {
    action.RenameFiles? ==> action.oldId != action.newId && MovesBetween(action.moved, action.oldId, action.newId)
  }

  /** A prepared change; each of Commit and Rollback acts at most once. */
  class FileTransition {
    const action: FileAction
    var committed: bool
    var rolledBack: bool

    constructor (action: FileAction)
      ensures this.action == action && !committed && !rolledBack
    {
      this.action := action;
      committed, rolledBack := false, false;
    }
  }

  class FileManager {
    /** Nothing outside the process fails, and the process is not cut off. */
    const calm: bool
    var tree: Tree

    constructor (tree: Tree, calm: bool)
      ensures this.tree == tree && this.calm == calm
    {
      this.tree, this.calm := tree, calm;
    }

    /** How the next atomic action ends. */
    method Chance() returns (o: Outcome)
      ensures calm ==> o.Done?
    {
      if calm {
        o := Done;
      } else {
        o := *;
      }
    }

    /** One atomic file-system action towards `next`. */
    method Step(next: Tree) returns (o: Outcome)
      modifies this
      ensures o.Done? ==> tree == next
      ensures o.Failed? ==> tree == old(tree)
      ensures o.Crashed? ==> tree == old(tree) || tree == next
      ensures calm ==> o.Done?
    {
      o := Chance();
      var reached: bool := *;
      if o.Done? || (o.Crashed? && reached) {
        tree := next;
      }
    }

    method RemoveDir(p: Path) returns (o: Outcome)
      modifies this
      ensures tree == old(tree) || tree == old(tree).(dirs := old(tree).dirs - {p})
      ensures o.Done? ==> tree == old(tree).(dirs := old(tree).dirs - {p})
      ensures o.Failed? ==> tree == old(tree)
      ensures calm ==> o.Done?
    {
      o := Step(tree.(dirs := tree.dirs - {p}));
    }

    method EnsureDir(p: Path) returns (o: Outcome)
      modifies this
      ensures tree == old(tree) || (p !in old(tree).dirs && tree == old(tree).(dirs := old(tree).dirs[p := map[]]))
      ensures o.Done? ==> p in tree.dirs
      ensures o.Failed? ==> tree == old(tree)
      ensures calm ==> o.Done?
    {
      o := Step(if p in tree.dirs then tree else tree.(dirs := tree.dirs[p := map[]]));
    }

    method RemoveConfig(id: Id) returns (o: Outcome)
      modifies this
      ensures tree == old(tree) || tree == old(tree).(config := old(tree).config - {id})
      ensures o.Done? ==> tree == old(tree).(config := old(tree).config - {id})
      ensures o.Failed? ==> tree == old(tree)
      ensures calm ==> o.Done?
    {
      o := Step(tree.(config := tree.config - {id}));
    }

    /** Removes the config and both directories, going on past individual failures. */
    method RemoveAccountPaths(id: Id) returns (o: Outcome)
      modifies this
      ensures OnlyTouches(tree, old(tree), {id})
      ensures tree.dirs.Keys <= old(tree).dirs.Keys && tree.config.Keys <= old(tree).config.Keys
      ensures tree.backups == old(tree).backups
      ensures o.Done? ==> tree == Removed(old(tree), id)
      ensures calm ==> o.Done?
    {
      o := RemoveConfig(id);
      if o.Crashed? { return; }
      var failed := o.Failed?;
      o := RemoveDir(Path(Auth, id));
      if o.Crashed? { return; }
      failed := failed || o.Failed?;
      o := RemoveDir(Path(Logs, id));
      if o.Crashed? { return; }
      o := if failed || o.Failed? then Failed else Done;
      assert o.Done? ==> tree.dirs == old(tree).dirs - DirsOf(id);
    }

    method CreateBackup(key: BackupKey, id: Id, withConfig: bool, withAuth: bool, withLogs: bool) returns (o: Outcome)
      modifies this
      ensures tree == old(tree) ||
        (key !in old(tree).backups &&
         tree == old(tree).(backups := old(tree).backups[key := BackupOf(old(tree), id, withConfig, withAuth, withLogs)]))
      ensures o.Done? ==>
        key !in old(tree).backups && Get(tree.backups, key) == Some(BackupOf(old(tree), id, withConfig, withAuth, withLogs))
      ensures o.Failed? ==> tree == old(tree)
      ensures calm && key !in old(tree).backups ==> o.Done?
    {
      if key in tree.backups {
        o := Failed;
      } else {
        o := Step(tree.(backups := tree.backups[key := BackupOf(tree, id, withConfig, withAuth, withLogs)]));
      }
    }

    method RenameDir(source: Path, destination: Path) returns (o: Outcome)
      requires source in tree.dirs && destination !in tree.dirs
      modifies this
      ensures tree == old(tree) || tree == old(tree).(dirs := MoveDir(old(tree).dirs, source, destination))
      ensures o.Done? ==> tree == old(tree).(dirs := MoveDir(old(tree).dirs, source, destination))
      ensures o.Failed? ==> tree == old(tree)
      ensures calm ==> o.Done?
    {
      o := Step(tree.(dirs := MoveDir(tree.dirs, source, destination)));
    }

    method UndoOne(move: Move, ghost a: Id, ghost b: Id, ghost base: Tree, ghost key: BackupKey) returns (o: Outcome)
      requires a != b && MovesBetween([move], a, b)
      requires MovesOAuth([move]) || NoOAuth(base.dirs, a, b)
      requires RenameFrame(tree, base, a, b, key)
      modifies this
      ensures RenameFrame(tree, base, a, b, key)
      ensures tree.config == old(tree).config && tree.backups == old(tree).backups
      ensures o.Done? ==> tree.dirs == UndoMove(old(tree).dirs, move)
      ensures !move.created && move.source.kind == move.destination.kind && Scattered(old(tree).dirs, base.dirs, a, b) ==>
        Scattered(tree.dirs, base.dirs, a, b)
      ensures calm && (move.created || move.source !in old(tree).dirs) ==> o.Done?
    {
      assert move in [move];
      if move.created {
        o := RemoveDir(move.destination);
      } else if move.destination !in tree.dirs {
        o := Done;
      } else if move.source in tree.dirs {
        o := Failed;
      } else {
        o := RenameDir(move.destination, move.source);
      }
    }

    /** Undoes the moves in reverse, going on past individual failures. */
    method RollbackMoves(moves: seq<Move>, ghost a: Id, ghost b: Id, ghost base: Tree, ghost key: BackupKey)
      returns (o: Outcome)
      requires a != b && MovesBetween(moves, a, b)
      requires MovesOAuth(moves) || NoOAuth(base.dirs, a, b)
      requires RenameFrame(tree, base, a, b, key)
      modifies this
      ensures RenameFrame(tree, base, a, b, key)
      ensures tree.config == old(tree).config && tree.backups == old(tree).backups
      ensures o.Done? ==> tree.dirs == UndoMoves(old(tree).dirs, moves)
      ensures NoneCreated(moves) && Scattered(old(tree).dirs, base.dirs, a, b) ==> Scattered(tree.dirs, base.dirs, a, b)
      ensures calm && Undoable(old(tree).dirs, moves) ==> o.Done?
    {
      hide RenameFrame, UndoMove, Scattered;
      var failed := false;
      var index := |moves|;
      assert moves[..index] == moves;
      while index > 0
        invariant 0 <= index <= |moves|
        invariant RenameFrame(tree, base, a, b, key)
        invariant tree.config == old(tree).config && tree.backups == old(tree).backups
        invariant NoneCreated(moves) && Scattered(old(tree).dirs, base.dirs, a, b) ==> Scattered(tree.dirs, base.dirs, a, b)
        invariant !failed ==> UndoMoves(tree.dirs, moves[..index]) == UndoMoves(old(tree).dirs, moves)
        invariant calm && Undoable(old(tree).dirs, moves) ==> !failed && Undoable(tree.dirs, moves[..index])
      {
        index := index - 1;
        assert moves[..index + 1][..index] == moves[..index];
        assert moves[index] in moves;
        if calm && Undoable(old(tree).dirs, moves) { UndoableNext(tree.dirs, moves[..index + 1]); }
        o := UndoOne(moves[index], a, b, base, key);
        if o.Crashed? { return; }
        failed := failed || o.Failed?;
      }
      o := if failed then Failed else Done;
    }

    method PrepareCreate(id: Id) returns (o: Outcome, t: FileTransition?)
      modifies this
      ensures OnlyTouches(tree, old(tree), {id})
      ensures tree.config == old(tree).config && tree.backups == old(tree).backups
      ensures t != null <==> o.Done?
      ensures Path(Auth, id) in old(tree).dirs ==> o.Failed? && tree == old(tree)
      ensures o.Done? ==>
        && fresh(t) && t.action == CreateFiles(id) && !t.committed && !t.rolledBack
        && id !in tree.config && HasNoDirs(old(tree).dirs, id) && HasDirs(tree.dirs, id)
      ensures calm && Vacant(old(tree), id) ==> o.Done?
    {
      o, t := Failed, null;
      if id !in tree.config && Path(Auth, id) !in tree.dirs && Path(Logs, id) !in tree.dirs {
        o := MakeDirs(id);
        if o.Done? {
          t := new FileTransition(CreateFiles(id));
        }
      }
    }

    /** Creates both directories; a failure removes them again and ignores removal errors. */
    method MakeDirs(id: Id) returns (o: Outcome)
      modifies this
      ensures OnlyTouches(tree, old(tree), {id})
      ensures tree.config == old(tree).config && tree.backups == old(tree).backups
      ensures o.Done? ==> HasDirs(tree.dirs, id)
      ensures calm ==> o.Done?
    {
      o := EnsureDir(Path(Auth, id));
      if o.Done? {
        o := EnsureDir(Path(Logs, id));
      }
      if o.Failed? {
        o := RemoveDir(Path(Auth, id));
        if !o.Crashed? {
          o := RemoveDir(Path(Logs, id));
        }
        o := if o.Crashed? then Crashed else Failed;
      }
    }

    method PrepareUpdate(operation: string, oldId: Id, newId: Id) returns (o: Outcome, t: FileTransition?)
      modifies this
      ensures RenameFrame(tree, old(tree), oldId, newId, BackupKey(operation, oldId, RenamedTo(newId)))
      ensures tree.config == old(tree).config
      ensures t != null <==> o.Done?
      ensures oldId != newId && Path(Auth, newId) in old(tree).dirs ==> o.Failed? && tree == old(tree)
      ensures o.Done? ==> fresh(t) && !t.committed && !t.rolledBack && WellFormedAction(t.action)
      ensures o.Done? && oldId == newId ==> t.action == KeepFiles && tree == old(tree)
      ensures o.Done? && oldId != newId ==>
        && t.action == RenameFiles(oldId, newId, MovesOf(old(tree).dirs, KINDS, oldId, newId))
        && newId !in old(tree).config && HasNoDirs(old(tree).dirs, newId)
        && tree.dirs == MoveDirs(old(tree).dirs, KINDS, oldId, newId)
        && Get(tree.backups, BackupKey(operation, oldId, RenamedTo(newId))) == Some(BackupOf(old(tree), oldId, true, true, true))
      ensures oldId == newId ==> tree == old(tree)
      ensures oldId != newId && HasDirs(old(tree).dirs, oldId) && HasNoDirs(old(tree).dirs, newId) ==>
        Scattered(tree.dirs, old(tree).dirs, oldId, newId)
      ensures calm && oldId == newId ==> o.Done?
      ensures calm && Vacant(old(tree), newId) && BackupKey(operation, oldId, RenamedTo(newId)) !in old(tree).backups ==> o.Done?
    {
      hide MoveDirs, MovesOf, Scattered;
      if HasDirs(tree.dirs, oldId) && HasNoDirs(tree.dirs, newId) { AtHome(tree.dirs, oldId, newId); }
      if oldId == newId {
        t := new FileTransition(KeepFiles);
        return Done, t;
      }
      if newId in tree.config || Path(Auth, newId) in tree.dirs || Path(Logs, newId) in tree.dirs {
        return Failed, null;
      }
      var key := BackupKey(operation, oldId, RenamedTo(newId));
      o := CreateBackup(key, oldId, true, true, true);
      t := null;
      if o.Done? {
        o, t := MoveAll(oldId, newId, key);
      }
    }

    /** Moves every directory of a rename; a failure undoes the moves made so far and ignores undo errors. */
    method MoveAll(oldId: Id, newId: Id, ghost key: BackupKey) returns (o: Outcome, t: FileTransition?)
      requires oldId != newId && HasNoDirs(tree.dirs, newId)
      modifies this
      ensures RenameFrame(tree, old(tree), oldId, newId, key)
      ensures tree.config == old(tree).config && tree.backups == old(tree).backups
      ensures t != null <==> o.Done?
      ensures o.Done? ==>
        && fresh(t) && !t.committed && !t.rolledBack && WellFormedAction(t.action)
        && t.action == RenameFiles(oldId, newId, MovesOf(old(tree).dirs, KINDS, oldId, newId))
        && tree.dirs == MoveDirs(old(tree).dirs, KINDS, oldId, newId)
      ensures HasDirs(old(tree).dirs, oldId) ==> Scattered(tree.dirs, old(tree).dirs, oldId, newId)
      ensures calm ==> o.Done?
    {
      hide RenameFrame, MoveDir, UndoMoves, WellFormedAction, Scattered;
      FrameRefl(tree, key);
      ghost var whole := HasDirs(tree.dirs, oldId);
      if whole { AtHome(tree.dirs, oldId, newId); }
      var moved: seq<Move> := [];
      var i := 0;
      o, t := Done, null;
      while i < |KINDS| && o.Done?
        invariant 0 <= i <= |KINDS|
        invariant RenameFrame(tree, old(tree), oldId, newId, key)
        invariant tree.config == old(tree).config && tree.backups == old(tree).backups
        invariant !o.Crashed? ==> tree.dirs == MoveDirs(old(tree).dirs, KINDS[..i], oldId, newId)
        invariant moved == MovesOf(old(tree).dirs, KINDS[..i], oldId, newId)
        invariant whole ==> NoneCreated(moved) && Scattered(tree.dirs, old(tree).dirs, oldId, newId)
        invariant calm ==> o.Done?
        decreases |KINDS| - i, o.Done?
      {
        var kind := KINDS[i];
        assert KINDS[..i + 1][..i] == KINDS[..i] && kind !in KINDS[..i];
        MoveDirsElsewhere(old(tree).dirs, KINDS[..i], oldId, newId, Path(kind, oldId));
        MoveDirsElsewhere(old(tree).dirs, KINDS[..i], oldId, newId, Path(kind, newId));
        var created: bool;
        o, created := MoveOne(kind, oldId, newId, old(tree), key);
        if o.Done? {
          moved := moved + [Move(Path(kind, oldId), Path(kind, newId), created)];
          i := i + 1;
        }
      }
      if o.Failed? {
        o := RollbackMoves(moved, oldId, newId, old(tree), key);
        o := if o.Crashed? then Crashed else Failed;
      } else if o.Done? {
        assert KINDS[..|KINDS|] == KINDS;
        MovesAreWellFormed(old(tree).dirs, oldId, newId);
        t := new FileTransition(RenameFiles(oldId, newId, moved));
      }
    }

    method MoveOne(kind: Kind, oldId: Id, newId: Id, ghost base: Tree, ghost key: BackupKey)
      returns (o: Outcome, created: bool)
      requires oldId != newId && Path(kind, newId) !in tree.dirs
      requires RenameFrame(tree, base, oldId, newId, key)
      modifies this
      ensures RenameFrame(tree, base, oldId, newId, key)
      ensures tree.config == old(tree).config && tree.backups == old(tree).backups
      ensures o.Done? ==> tree.dirs == MoveDir(old(tree).dirs, Path(kind, oldId), Path(kind, newId))
      ensures o.Done? ==> (created <==> Path(kind, oldId) !in old(tree).dirs)
      ensures Scattered(old(tree).dirs, base.dirs, oldId, newId) ==> Scattered(tree.dirs, base.dirs, oldId, newId)
      ensures o.Failed? ==> tree == old(tree)
      ensures calm ==> o.Done?
    {
      hide RenameFrame;
      var source, destination := Path(kind, oldId), Path(kind, newId);
      created := source !in tree.dirs;
      if created {
        FrameMakes(tree, base, oldId, newId, key, kind, map[]);
        o := EnsureDir(destination);
      } else {
        FrameMoves(tree, base, oldId, newId, key, kind);
        o := RenameDir(source, destination);
      }
    }

    method PrepareDelete(operation: string, id: Id) returns (o: Outcome, t: FileTransition?)
      modifies this
      ensures OnlyTouches(tree, old(tree), {id})
      ensures tree == old(tree) ||
        (BackupKey(operation, id, DeletedAccount) !in old(tree).backups &&
         tree == old(tree).(backups := old(tree).backups[BackupKey(operation, id, DeletedAccount) := BackupOf(old(tree), id, true, true, true)]))
      ensures t != null <==> o.Done?
      ensures o.Done? ==>
        && fresh(t) && !t.committed && !t.rolledBack
        && t.action == DeleteFiles(id, BackupKey(operation, id, DeletedAccount))
        && Get(tree.backups, BackupKey(operation, id, DeletedAccount)) == Some(BackupOf(old(tree), id, true, true, true))
      ensures calm && BackupKey(operation, id, DeletedAccount) !in old(tree).backups ==> o.Done?
    {
      var key := BackupKey(operation, id, DeletedAccount);
      o := CreateBackup(key, id, true, true, true);
      t := null;
      if o.Done? {
        t := new FileTransition(DeleteFiles(id, key));
      }
    }

    method PrepareAuthClear(operation: string, id: Id) returns (o: Outcome, t: FileTransition?)
      modifies this
      ensures OnlyTouches(tree, old(tree), {id})
      ensures tree.config == old(tree).config
      ensures SameAt(tree.dirs, old(tree).dirs, Path(Logs, id))
      ensures Path(Auth, id) in old(tree).dirs ==> Path(Auth, id) in tree.dirs
      ensures t != null <==> o.Done?
      ensures o.Failed? ==> tree.dirs == old(tree).dirs
      ensures tree == old(tree) ||
        (BackupKey(operation, id, OauthClear) !in old(tree).backups &&
         tree.backups == old(tree).backups[BackupKey(operation, id, OauthClear) := BackupOf(old(tree), id, false, true, false)])
      ensures o.Done? ==>
        && fresh(t) && !t.committed && !t.rolledBack
        && t.action == ClearFiles(id, BackupKey(operation, id, OauthClear))
        && tree.dirs == old(tree).dirs[Path(Auth, id) := map[]]
        && Get(tree.backups, BackupKey(operation, id, OauthClear)) == Some(BackupOf(old(tree), id, false, true, false))
      ensures calm && BackupKey(operation, id, OauthClear) !in old(tree).backups ==> o.Done?
    {
      var key := BackupKey(operation, id, OauthClear);
      t := null;
      o := CreateBackup(key, id, false, true, false);
      if !o.Done? { return; }
      o := Step(tree.(dirs := tree.dirs[Path(Auth, id) := map[]]));
      if o.Done? {
        t := new FileTransition(ClearFiles(id, key));
      }
    }

    /** Replaces one directory by its backed-up content, or by an empty one. */
    method RestoreDir(p: Path, content: Option<Directory>) returns (o: Outcome)
      modifies this
      ensures tree in {
        old(tree),
        old(tree).(dirs := old(tree).dirs - {p}),
        old(tree).(dirs := old(tree).dirs[p := OrEmpty(content)])}
      ensures o.Done? ==> tree == old(tree).(dirs := old(tree).dirs[p := OrEmpty(content)])
      ensures calm ==> o.Done?
    {
      o := RemoveDir(p);
      if o.Done? {
        assert tree.dirs[p := OrEmpty(content)] == old(tree).dirs[p := OrEmpty(content)];
        o := Step(tree.(dirs := tree.dirs[p := OrEmpty(content)]));
      }
    }

    method RestoreConfig(id: Id, config: Option<Config>) returns (o: Outcome)
      modifies this
      ensures tree == old(tree) || (config.Some? && tree == old(tree).(config := old(tree).config[id := config.value]))
      ensures o.Done? && config.Some? ==> tree == old(tree).(config := old(tree).config[id := config.value])
      ensures calm ==> o.Done?
    {
      if config.Some? {
        o := Step(tree.(config := tree.config[id := config.value]));
      } else {
        o := Done;
      }
    }

    /** The roll-back of a deletion: config, OAuth and logs from the backup. */
    method RestoreAll(id: Id, b: Backup) returns (o: Outcome)
      modifies this
      ensures OnlyTouches(tree, old(tree), {id}) && tree.backups == old(tree).backups
      ensures o.Done? ==> tree == old(tree).(
        config := if b.config.Some? then old(tree).config[id := b.config.value] else old(tree).config,
        dirs := old(tree).dirs[Path(Auth, id) := OrEmpty(b.auth)][Path(Logs, id) := OrEmpty(b.logs)])
      ensures PartlyRestored(tree, old(tree), id, b)
      ensures calm ==> o.Done?
    {
      o := RestoreConfig(id, b.config);
      if o.Crashed? { return; }
      var failed := o.Failed?;
      o := RestoreDir(Path(Auth, id), b.auth);
      if o.Crashed? { return; }
      failed := failed || o.Failed?;
      o := RestoreDir(Path(Logs, id), b.logs);
      if o.Crashed? { return; }
      o := if failed || o.Failed? then Failed else Done;
    }

    method RollbackRename(oldId: Id, newId: Id, moved: seq<Move>, ghost key: BackupKey) returns (o: Outcome)
      requires oldId != newId && MovesBetween(moved, oldId, newId) && MovesOAuth(moved)
      modifies this
      ensures RenameFrame(tree, old(tree), oldId, newId, key) && tree.backups == old(tree).backups
      ensures o.Done? ==> tree == RolledBack(old(tree), RenameFiles(oldId, newId, moved))
      ensures calm && Undoable(old(tree).dirs, moved) ==> o.Done?
    {
      o := RemoveConfig(newId);
      if o.Crashed? { return; }
      var failed := o.Failed?;
      o := RollbackMoves(moved, oldId, newId, old(tree), key);
      if o.Done? && failed {
        o := Failed;
      }
    }

    method Rollback(t: FileTransition, ghost key: BackupKey) returns (o: Outcome)
      requires WellFormedAction(t.action)
      requires t.action.RenameFiles? ==> MovesOAuth(t.action.moved)
      modifies this, t`rolledBack
      ensures OnlyTouches(tree, old(tree), ActionIds(t.action)) && tree.backups == old(tree).backups
      ensures t.action.CreateFiles? ==> tree.config.Keys <= old(tree).config.Keys
      ensures t.rolledBack == (old(t.rolledBack) || o.Done?)
      ensures old(t.rolledBack) ==> o.Done? && tree == old(tree)
      ensures o.Done? && !old(t.rolledBack) ==> tree == RolledBack(old(tree), t.action)
      ensures t.action.RenameFiles? ==> RenameFrame(tree, old(tree), t.action.oldId, t.action.newId, key)
      ensures t.action.ClearFiles? ==> SameAt(tree.dirs, old(tree).dirs, Path(Logs, t.action.account))
      ensures t.action.DeleteFiles? ==> PartlyRestored(tree, old(tree), t.action.account, BackupAt(old(tree), t.action.backup))
      ensures calm && CanUndo(old(tree).dirs, t.action) ==> o.Done?
    {
      hide RenameFrame;
      if t.rolledBack {
        assert t.action.RenameFiles? ==> RenameFrame(tree, tree, t.action.oldId, t.action.newId, key) by { FrameRefl(tree, key); }
        return Done;
      }
      match t.action {
        case CreateFiles(id) =>
          o := RemoveAccountPaths(id);
        case KeepFiles =>
          o := Done;
        case RenameFiles(oldId, newId, moved) =>
          o := RollbackRename(oldId, newId, moved, key);
          FrameTouches(tree, old(tree), oldId, newId, key);
        case DeleteFiles(id, backup) =>
          o := RestoreAll(id, BackupAt(tree, backup));
        case ClearFiles(id, backup) =>
          o := RestoreDir(Path(Auth, id), BackupAt(tree, backup).auth);
      }
      if o.Done? {
        t.rolledBack := true;
      }
    }

    method Commit(t: FileTransition) returns (o: Outcome)
      modifies this, t`committed
      ensures OnlyTouches(tree, old(tree), ActionIds(t.action)) && tree.backups == old(tree).backups
      ensures tree.dirs.Keys <= old(tree).dirs.Keys && tree.config.Keys <= old(tree).config.Keys
      ensures !t.action.DeleteFiles? ==> tree.dirs == old(tree).dirs
      ensures !t.action.DeleteFiles? && !t.action.RenameFiles? && !old(t.rolledBack) ==> o.Done?
      ensures t.committed == (old(t.committed) || o.Done?)
      ensures old(t.committed) ==> o.Done? && tree == old(tree)
      ensures !old(t.committed) && old(t.rolledBack) ==> o.Failed? && tree == old(tree)
      ensures o.Done? && !old(t.committed) ==> tree == Committed(old(tree), t.action)
      ensures calm && !old(t.rolledBack) ==> o.Done?
    {
      if t.committed {
        return Done;
      }
      if t.rolledBack {
        return Failed;
      }
      o := Done;
      match t.action {
        case RenameFiles(oldId, _, _) =>
          o := RemoveConfig(oldId);
        case DeleteFiles(id, _) =>
          o := RemoveAccountPaths(id);
        case _ =>
      }
      if o.Done? {
        t.committed := true;
      }
    }

    // ------------------------------------------------------------- recovery

    /** Brings one moved directory to `destination`; two copies are an error. */
    method RecoverMoved(kind: Kind, source: Id, destination: Id, backup: Option<Directory>, ghost base: Tree, ghost key: BackupKey)
      returns (o: Outcome)
      requires source != destination && RenameFrame(tree, base, source, destination, key)
      modifies this
      ensures RenameFrame(tree, base, source, destination, key)
      ensures tree.config == old(tree).config && tree.backups == old(tree).backups
      ensures forall p: Path :: p.kind != kind ==> SameAt(tree.dirs, old(tree).dirs, p)
      ensures Path(kind, source) in old(tree).dirs && Path(kind, destination) in old(tree).dirs ==> o.Failed? && tree == old(tree)
      ensures o.Done? ==> tree == old(tree).(dirs := MovedOver(old(tree).dirs, Path(kind, source), Path(kind, destination), backup))
      ensures o.Done? ==> Path(kind, destination) in tree.dirs && Path(kind, source) !in tree.dirs
      ensures calm && !(Path(kind, source) in old(tree).dirs && Path(kind, destination) in old(tree).dirs) ==> o.Done?
    {
      hide RenameFrame;
      var from, to := Path(kind, source), Path(kind, destination);
      if from in tree.dirs && to in tree.dirs {
        o := Failed;
      } else if to in tree.dirs {
        o := Done;
      } else if from in tree.dirs {
        FrameMoves(tree, base, source, destination, key, kind);
        o := RenameDir(from, to);
      } else {
        FrameMakes(tree, base, source, destination, key, kind, OrEmpty(backup));
        o := Step(tree.(dirs := tree.dirs[to := OrEmpty(backup)]));
      }
    }

    method RecoverRename(from: Id, to: Id, b: Backup, ghost key: BackupKey) returns (o: Outcome)
      requires from != to
      modifies this
      ensures RenameFrame(tree, old(tree), from, to, key) && tree.backups == old(tree).backups
      ensures o.Done? ==> tree == RecoveredRename(old(tree), from, to, b)
      ensures o.Done? ==> HasDirs(tree.dirs, to) && HasNoDirs(tree.dirs, from) && from !in tree.config
      ensures Path(Auth, from) in old(tree).dirs && Path(Auth, to) in old(tree).dirs ==> o.Failed? && tree == old(tree)
      ensures calm && NotBoth(old(tree).dirs, from, to) ==> o.Done?
    {
      assert RenameFrame(tree, tree, from, to, key);
      o := RecoverMoved(Auth, from, to, b.auth, old(tree), key);
      if !o.Done? { return; }
      o := RecoverMoved(Logs, from, to, b.logs, old(tree), key);
      if !o.Done? { return; }
      assert HasDirs(tree.dirs, to) && HasNoDirs(tree.dirs, from);
      o := RemoveConfig(from);
    }

    method EnsureBoth(id: Id) returns (o: Outcome)
      modifies this
      ensures OnlyTouches(tree, old(tree), {id}) && tree.backups == old(tree).backups
      ensures old(tree).dirs.Keys <= tree.dirs.Keys
      ensures forall p :: p in old(tree).dirs ==> tree.dirs[p] == old(tree).dirs[p]
      ensures o.Done? ==> tree == old(tree).(dirs := Filled(Filled(old(tree).dirs, Path(Auth, id), None), Path(Logs, id), None))
      ensures calm ==> o.Done?
    {
      o := EnsureDir(Path(Auth, id));
      if o.Crashed? { return; }
      var failed := o.Failed?;
      o := EnsureDir(Path(Logs, id));
      if o.Done? && failed {
        o := Failed;
      }
    }

    method FillDir(p: Path, content: Option<Directory>) returns (o: Outcome)
      modifies this
      ensures tree == old(tree) || (p !in old(tree).dirs && tree == old(tree).(dirs := old(tree).dirs[p := OrEmpty(content)]))
      ensures o.Done? ==> p in tree.dirs
      ensures calm ==> o.Done?
    {
      if p in tree.dirs {
        o := Done;
      } else {
        o := Step(tree.(dirs := tree.dirs[p := OrEmpty(content)]));
      }
    }

    /** Restores what an interrupted deletion has already removed. */
    method RestoreMissing(id: Id, b: Backup) returns (o: Outcome)
      modifies this
      ensures OnlyAdds(tree, old(tree), id)
      ensures o.Done? ==> tree == Refilled(old(tree), id, b)
      ensures calm ==> o.Done?
    {
      hide OnlyAdds;
      AddsNothing(tree, id);
      o := Done;
      if id !in tree.config {
        AddsConfig(tree, id, b.config);
        o := RestoreConfig(id, b.config);
      }
      var failed := o.Failed?;
      if !o.Crashed? {
        AddsDir(tree, old(tree), Path(Auth, id), OrEmpty(b.auth));
        o := FillDir(Path(Auth, id), b.auth);
        failed := failed || o.Failed?;
      }
      if !o.Crashed? {
        AddsDir(tree, old(tree), Path(Logs, id), OrEmpty(b.logs));
        o := FillDir(Path(Logs, id), b.logs);
      }
      if o.Done? && failed {
        o := Failed;
      }
    }

    /**
     * Reconciles the paths of an interrupted operation; `desired` is the
     * account the control plane holds for it, if any.
     */
    method Recover(operation: Operation, desired: Option<Id>) returns (o: Outcome)
      requires ValidOperation(operation) && operation.kind != ChangePolicy
      requires operation.kind != UpdateAccount && desired.Some? ==> desired.value == operation.account
      modifies this
      ensures OnlyTouches(tree, old(tree), OwnedIds(operation)) && tree.backups == old(tree).backups
      ensures operation.kind == CreateAccount && desired.None? ==> tree.config.Keys <= old(tree).config.Keys
      ensures operation.kind == UpdateAccount ==>
        KeepsOAuth(tree, old(tree), operation.account, operation.newAccount, OperationBackup(operation))
      ensures operation.kind == UpdateAccount && operation.account != operation.newAccount ==>
        && (NotBoth(old(tree).dirs, operation.account, operation.newAccount) ==>
              NotBoth(tree.dirs, operation.account, operation.newAccount))
        && (Path(Auth, operation.account) in old(tree).dirs && Path(Auth, operation.newAccount) in old(tree).dirs ==>
              o.Failed? && tree == old(tree))
      ensures operation.kind == ClearAccountAuth ==>
        && SameAt(tree.dirs, old(tree).dirs, Path(Logs, operation.account))
        && (Path(Auth, operation.account) in old(tree).dirs ==> Path(Auth, operation.account) in tree.dirs)
        && (tree == old(tree) || OperationBackup(operation) in tree.backups)
      ensures o.Done? ==> tree == RecoveredTree(old(tree), operation, desired)
      ensures o.Done? ==> Recovered(tree, old(tree), operation, desired)
      ensures calm && Reconcilable(old(tree).dirs, operation, desired) ==> o.Done?
    {
      hide MovesOAuth;
      var a, n := operation.account, operation.newAccount;
      var b := BackupAt(tree, OperationBackup(operation));
      match operation.kind {
        case CreateAccount =>
          if desired.None? {
            o := RemoveAccountPaths(a);
          } else {
            o := EnsureBoth(a);
          }
        case UpdateAccount =>
          if desired.None? || (desired.value != a && desired.value != n) {
            o := Failed;
          } else if a == n {
            o := EnsureBoth(a);
          } else {
            var from := if desired.value == n then a else n;
            o := RecoverRename(from, desired.value, b, OperationBackup(operation));
            FrameSymmetric(tree, old(tree), a, n, OperationBackup(operation));
          }
        case DeleteAccount =>
          if desired.None? {
            o := RemoveAccountPaths(a);
          } else {
            o := RestoreMissing(a, b);
          }
        case ClearAccountAuth =>
          if desired.None? || OperationBackup(operation) !in tree.backups {
            o := Done;
          } else {
            o := Step(tree.(dirs := tree.dirs[Path(Auth, a) := map[]]));
          }
      }
    }
  }

  /** The directories after a recovery that reported success. */
  ghost predicate Recovered(t: Tree, before: Tree, operation: Operation, desired: Option<Id>) {
    var a, n := operation.account, operation.newAccount;
    match operation.kind
    case UpdateAccount =>
      && desired.Some? && desired.value in {a, n} && HasDirs(t.dirs, desired.value)
      && (a != n ==>
            var other := if desired.value == n then a else n;
            HasNoDirs(t.dirs, other) && other !in t.config)
    case ClearAccountAuth =>
      desired.Some? && OperationBackup(operation) in before.backups ==> Get(t.dirs, Path(Auth, a)) == Some(map[])
    case _ =>
      if desired.Some? then HasDirs(t.dirs, a) else HasNoDirs(t.dirs, a) && a !in t.config
  }

  lemma AddsNothing(t: Tree, id: Id)
    ensures OnlyAdds(t, t, id)
  {
  }

  lemma AddsConfig(t: Tree, id: Id, config: Option<Config>)
    ensures config.Some? && id !in t.config ==> OnlyAdds(t.(config := t.config[id := config.value]), t, id)
  {
  }

  lemma AddsDir(t: Tree, before: Tree, p: Path, content: Directory)
    requires OnlyAdds(t, before, p.id)
    ensures p !in t.dirs ==> OnlyAdds(t.(dirs := t.dirs[p := content]), before, p.id)
  {
  }

  /** The OAuth directory of an existing account is renamed, not made. */
  lemma OAuthIsMoved(dirs: map<Path, Directory>, a: Id, n: Id)
    requires HasDirs(dirs, a)
    ensures MovesOAuth(MovesOf(dirs, KINDS, a, n))
  {
    var moved := MovesOf(dirs, KINDS, a, n);
    forall m | m in moved && m.destination.kind == Auth
      ensures !m.created
    {
      var i :| 0 <= i < |moved| && moved[i] == m;
    }
  }

  lemma UndoableNext(dirs: map<Path, Directory>, moves: seq<Move>)
    requires moves != [] && Undoable(dirs, moves)
    ensures
      var last := moves[|moves| - 1];
      (last.created || last.source !in dirs) && Undoable(UndoMove(dirs, last), moves[..|moves| - 1])
  {
    var last := moves[|moves| - 1];
    assert last in moves;
    forall m | m in moves[..|moves| - 1] ensures m.created || m.source !in UndoMove(dirs, last) {
      var i :| 0 <= i < |moves| - 1 && moves[i] == m;
      assert m in moves && moves[i].source != last.source;
    }
  }

  lemma MovesAreWellFormed(dirs: map<Path, Directory>, oldId: Id, newId: Id)
    requires oldId != newId
    ensures WellFormedAction(RenameFiles(oldId, newId, MovesOf(dirs, KINDS, oldId, newId)))
  {
  }

  lemma FrameMoves(t: Tree, base: Tree, a: Id, b: Id, key: BackupKey, kind: Kind)
    requires RenameFrame(t, base, a, b, key) && a != b
    requires Path(kind, a) in t.dirs && Path(kind, b) !in t.dirs
    ensures RenameFrame(t.(dirs := MoveDir(t.dirs, Path(kind, a), Path(kind, b))), base, a, b, key)
  {
  }

  lemma FrameMakes(t: Tree, base: Tree, a: Id, b: Id, key: BackupKey, kind: Kind, content: Directory)
    requires RenameFrame(t, base, a, b, key) && a != b
    requires Path(kind, a) !in t.dirs && Path(kind, b) !in t.dirs
    ensures RenameFrame(t.(dirs := t.dirs[Path(kind, b) := content]), base, a, b, key)
  {
  }

  lemma FrameRefl(t: Tree, key: BackupKey)
    ensures forall a, b :: RenameFrame(t, t, a, b, key)
  {
  }

  lemma FrameTouches(t: Tree, base: Tree, a: Id, b: Id, key: BackupKey)
    requires RenameFrame(t, base, a, b, key)
    ensures OnlyTouches(t, base, {a, b})
  {
  }

  lemma FrameSymmetric(t: Tree, base: Tree, a: Id, b: Id, key: BackupKey)
    ensures RenameFrame(t, base, a, b, key) <==> RenameFrame(t, base, b, a, key)
  {
    assert {a, b} == {b, a};
    assert forall s: Tree, content :: OAuthHeld(s, a, b, key, content) <==> OAuthHeld(s, b, a, key, content);
  }
}
