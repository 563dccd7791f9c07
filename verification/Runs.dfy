/**
 * Whole runs: any sequence of operations and recoveries, each of which may
 * succeed, be compensated, get stuck or be cut off by a crash.
 */
module Runs {
  import opened Wrappers
  import opened Catalog
  import opened Journal
  import opened Routes
  import opened Files
  import opened Traffic
  import opened World
  import opened ControlPlane
  import opened Steps
  import R = Recovery
  import C = Creation
  import U = Update
  import D = Deletion
  import A = AuthClear
  import P = Policy

  /** What the Admin is asked to do; Serve is what users do in between. */
  datatype Command =
    | Create(creation: C.Request, reserved: Option<set<int>>, portStart: int, portEnd: int, now: int)
    | Update(update: U.Request)
    | Delete(deletion: D.Request)
    | ClearAuth(id: Id)
    | SetPolicy(policy: P.Request)
    | Recover
    | Serve(rows: map<nat, KeyRow>, routes: map<User, Id>)

  /** The states the failover controller reports, and whether a drainer is configured. */
  datatype Environment = Environment(states: Option<map<Id, AccountState>>, drainer: bool)

  /** Everything there is at one moment. */
  datatype Moment = Moment(journal: Option<Operation>, w: World, monitor: Monitor)

  ghost function Now(cp: ControlPlane): Moment
    reads cp, cp.files
  {
    Moment(cp.journal, cp.W(), cp.monitor)
  }

  /** A token no earlier operation has used. */
  method DrawOperationId(t: Tree) returns (id: string)
    ensures FreshId(t, id)
  {
    id := "";
    var todo := t.backups.Keys;
    while todo != {}
      invariant todo <= t.backups.Keys
      invariant forall k :: k in t.backups && k !in todo ==> |k.operation| < |id|
      decreases |todo|
    {
      var key :| key in todo;
      todo := todo - {key};
      while |id| <= |key.operation|
        invariant forall k :: k in t.backups && k !in todo && k != key ==> |k.operation| < |id|
        decreases |key.operation| + 1 - |id|
      {
        id := id + "x";
      }
    }
  }

  // ------------------------------------------------------------------- users

  /** Users have one key each with a row on every account, and are routed to enabled accounts. */
  predicate Served(c: Catalog) {
    && RoutesTargetEnabled(c) && RowsComplete(c) && RowsEverywhere(c)
    && forall s, t :: s in c.rows && t in c.rows && Active(c.rows[s]) && Active(c.rows[t]) && c.rows[s].user == c.rows[t].user ==>
         c.rows[s].secret == c.rows[t].secret
  }

  /** Users join, leave or move; configs and snapshot follow at once. */
  method ServeUsers(cp: ControlPlane, rows: map<nat, KeyRow>, routes: map<User, Id>)
    requires cp.journal.None? && Synced(cp.W())
    modifies cp.files, cp`catalog, cp`active, cp`monitor
    ensures Synced(cp.W())
    ensures
      var next := old(cp.catalog).(rows := rows, routes := routes);
      cp.W() == if !Served(next) then old(cp.W()) else
        old(cp.W()).(catalog := next, active := routes, tree := old(cp.files.tree).(config := Rendered(next, old(cp.secrets))))
    ensures OnlyHits(old(cp.monitor), cp.monitor, {})
  {
    hide Watch, Served;
    ghost var w := cp.W();
    var next := cp.catalog.(rows := rows, routes := routes);
    if Served(next) {
      ServedIsSynced(w, next);
      cp.catalog := next;
      cp.files.tree := cp.files.tree.(config := Rendered(next, cp.secrets));
      cp.active := routes;
      cp.monitor := Observe(cp.monitor, Routed(routes.Values));
    }
    hide Synced;
  }

  lemma ServedIsSynced(w: World, next: Catalog)
    requires Synced(w) && next.accounts == w.catalog.accounts && Served(next)
    ensures Synced(w.(catalog := next, active := next.routes, tree := w.tree.(config := Rendered(next, w.secrets))))
  {
    ServedIsInvariant(w.catalog, next);
    RenderedMatches(next, w.secrets);
    hide Served, Invariant, ConfigOf, ConfigsMatch, DirsMatch, ContainersMatch, Rendered;
  }

  lemma RenderedMatches(c: Catalog, secrets: map<Id, string>)
    ensures ConfigsMatch(Rendered(c, secrets), c, secrets)
  {
    hide ConfigOf;
  }

  lemma ServedIsInvariant(c: Catalog, next: Catalog)
    requires Invariant(c) && next.accounts == c.accounts && Served(next)
    ensures Invariant(next)
  {
    hide ValidIds, UniqueColumns, UniquePositions, OneDefault, RoutesTargetEnabled, RowsComplete, RowsEverywhere;
  }

  // ----------------------------------------------------------------- commands

  /** The accounts a command may disturb while requests are in flight there. */
  ghost function MayDisturb(command: Command, m: Moment, late: bool): set<Id> {
    var c, busy := m.w.catalog, m.monitor.busy;
    match command
    case Create(r, _, _, _, _) => if r.id in c.accounts then {} else {r.id} * busy
    case Update(r) =>
      var newId := if r.newId.Some? then r.newId.value else r.id;
      (if r.repair || !HasUsers(c.routes, r.id) then {r.id} * busy else {}) +
      (if newId == r.id || newId in c.accounts then {} else {newId} * busy) + (if late then {newId} else {})
    case Delete(r) => if HasUsers(c.routes, r.id) then {} else {r.id} * busy
    case ClearAuth(id) => if HasUsers(c.routes, id) then {} else {id} * busy
    case Recover => if m.journal.None? then {} else R.Disturbed(m.w, m.journal.value, busy)
    case _ => {}
  }

  /** What every command keeps, whichever way it ends. */
  ghost predicate Executed(command: Command, before: Moment, after: Moment, late: bool) {
    && OnlyHits(before.monitor, after.monitor, MayDisturb(command, before, late))
    && (late ==> command.Update? && exists targets :: Took(before.monitor, after.monitor, Routed(targets)))
    && (!command.Serve? ==> SameUsers(after.w.catalog.rows, before.w.catalog.rows))
    && (before.journal.Some? && !command.Recover? ==> after.journal == before.journal && after.w == before.w)
  }

  /** An operation that had users to move away, or a change that touches no container. */
  ghost predicate MovesUsers(command: Command, m: Moment) {
    var c, busy := m.w.catalog, m.monitor.busy;
    match command
    case Create(r, _, _, _, _) => r.id in c.accounts || r.id !in busy
    case Update(r) =>
      && !r.repair && HasUsers(c.routes, r.id)
      && (r.newId.Some? ==> r.newId.value == r.id || r.newId.value in c.accounts || r.newId.value !in busy)
    case Delete(r) => HasUsers(c.routes, r.id)
    case ClearAuth(id) => HasUsers(c.routes, id)
    case Recover =>
      m.journal.Some? ==> m.journal.value.kind == DeleteAccount && m.journal.value.account !in m.w.catalog.accounts
    case _ => true
  }

  /** Inside such a command no request on any account is hit, unless its last failure came late. */
  lemma NobodyIsHit(command: Command, before: Moment, after: Moment, run: seq<Event>, id: Id)
    requires Executed(command, before, after, false) && MovesUsers(command, before)
    requires ValidRun(run) && Actions(run) == after.monitor.trace
    ensures !Hits(run, |before.monitor.trace|, id)
  {
    hide Watch, ValidRun, Actions, Hits, OnlyHits;
    SparedIsSafe(before.monitor, after.monitor, MayDisturb(command, before, false), run, id);
  }

  lemma SoundIsSynced(journal: Option<Operation>, w: World)
    ensures journal.None? ==> (Sound(journal, w) <==> Synced(w))
  {
    hide Synced;
  }

  method Execute(cp: ControlPlane, command: Command, environment: Environment) returns (split: bool, ghost late: bool)
    requires Sound(cp.journal, cp.W())
    modifies cp, cp.files
    ensures split <==> !Sound(cp.journal, cp.W())
    ensures Executed(command, old(Now(cp)), Now(cp), late)
    ensures split ==> command.Create? || command.Update? || command.Delete?
    ensures cp.files.calm && old(cp.journal).None? ==> cp.journal.None? && !split && !late
  {
    hide Sound, Executed;
    split, late := false, false;
    var id := DrawOperationId(cp.files.tree);
    match command {
      case Create(_, _, _, _, _) => split := ExecuteCreate(cp, command, id);
      case Update(_) => split, late := ExecuteUpdate(cp, command, environment, id);
      case Delete(_) => split := ExecuteDelete(cp, command, environment, id);
      case _ => ExecuteOther(cp, command, environment, id);
    }
  }

  method ExecuteCreate(cp: ControlPlane, command: Command, id: string) returns (split: bool)
    requires Sound(cp.journal, cp.W()) && command.Create?
    modifies cp, cp.files
    ensures split <==> !Sound(cp.journal, cp.W())
    ensures Executed(command, old(Now(cp)), Now(cp), false)
    ensures cp.files.calm && old(cp.journal).None? ==> cp.journal.None? && !split
  {
    hide Sound, ApplyCreation, ListsActiveUsers, Restored, SameUsers, Watch, OnlyHits;
    var e;
    ghost var candidate, users;
    e, candidate, users, split :=
      C.Create(cp, command.creation, id, command.reserved, command.portStart, command.portEnd, command.now);
  }

  method ExecuteUpdate(cp: ControlPlane, command: Command, environment: Environment, id: string) returns (split: bool, ghost late: bool)
    requires Sound(cp.journal, cp.W()) && command.Update? && FreshId(cp.files.tree, id)
    modifies cp, cp.files
    ensures split <==> !Sound(cp.journal, cp.W())
    ensures Executed(command, old(Now(cp)), Now(cp), late)
    ensures cp.files.calm && old(cp.journal).None? ==> cp.journal.None? && !split && !late
  {
    hide Sound, ApplyUpdate, Lists, Restored, SameUsers, Watch, OnlyHits, Reports, Took, HasUsers;
    ghost var before := Now(cp);
    var e;
    ghost var change, order, proxy;
    e, change, order, proxy, split, late := U.Update(cp, command.update, id, environment.states, environment.drainer);
    UpdateDisturbs(before, cp.monitor, e, command.update, change, order, late);
    hide MayDisturb;
  }

  method ExecuteDelete(cp: ControlPlane, command: Command, environment: Environment, id: string) returns (split: bool)
    requires Sound(cp.journal, cp.W()) && command.Delete? && FreshId(cp.files.tree, id)
    modifies cp, cp.files
    ensures split <==> !Sound(cp.journal, cp.W())
    ensures Executed(command, old(Now(cp)), Now(cp), false)
    ensures cp.files.calm && old(cp.journal).None? ==> cp.journal.None? && !split
  {
    hide Sound, ApplyDeletion, Lists, Restored, SameUsers, Watch, OnlyHits, HasUsers;
    var e;
    ghost var fallback, order;
    e, fallback, order, split := D.Delete(cp, command.deletion, id, Eligible(environment.states), environment.drainer);
  }

  /** The commands that never leave anything behind unrecorded. */
  method ExecuteOther(cp: ControlPlane, command: Command, environment: Environment, id: string)
    requires Sound(cp.journal, cp.W()) && !command.Create? && !command.Update? && !command.Delete? && FreshId(cp.files.tree, id)
    modifies cp, cp.files
    ensures Sound(cp.journal, cp.W())
    ensures Executed(command, old(Now(cp)), Now(cp), false)
    ensures cp.files.calm && old(cp.journal).None? ==> cp.journal.None?
  {
    hide Sound, ApplyUpdate, Lists, Restored, SameUsers, Watch, OnlyHits, R.Disturbed, HasUsers;
    HitsNone(cp.monitor);
    UsersStay(cp.catalog.rows);
    match command {
      case ClearAuth(account) =>
        var e := A.ClearAuth(cp, account, id, Eligible(environment.states), environment.drainer);
        assert cp.catalog.rows == old(cp.catalog.rows);
      case SetPolicy(request) =>
        var e, change, order := P.UpdatePolicy(cp, request, id, Eligible(environment.states));
      case Recover =>
        var o := R.Recover(cp);
        assert cp.catalog.rows == old(cp.catalog.rows);
      case Serve(rows, routes) =>
        if cp.journal.None? {
          SoundIsSynced(cp.journal, cp.W());
          ServeUsers(cp, rows, routes);
          SoundIsSynced(cp.journal, cp.W());
        }
    }
  }

  lemma UpdateDisturbs(before: Moment, m: Monitor, e: Ending, request: U.Request, change: UpdateRequest, order: seq<Id>, late: bool)
    requires OnlyHits(before.monitor, m, if e.Refused? then {} else
               U.Disturbed(before.w.catalog, change, order, request.repair, before.monitor.busy, late))
    requires !e.Refused? ==>
      && request.id in before.w.catalog.accounts
      && change == U.Stated(before.w.catalog.accounts[request.id], request).(fallback := change.fallback)
    ensures OnlyHits(before.monitor, m, MayDisturb(Update(request), before, late))
  {
    hide ApplyUpdate, HasUsers, Watch;
  }

  // --------------------------------------------------------------------- runs

  /** One moment before and after each command of a run. */
  ghost predicate Chain(commands: seq<Command>, history: seq<Moment>, lates: seq<bool>) {
    && |history| == |lates| + 1 <= |commands| + 1
    && forall i :: 0 <= i < |lates| ==> Executed(commands[i], history[i], history[i + 1], lates[i])
  }

  /**
   * Safety over every run from any sound state, cut off after any command: the
   * state is sound unless an operation's own clean-up failed on the way, which
   * `split` reports exactly; and every command kept what `Executed` says.
   */
  method RunFrom(cp: ControlPlane, commands: seq<Command>, environments: seq<Environment>)
    returns (split: bool, ghost history: seq<Moment>, ghost lates: seq<bool>)
    requires Sound(cp.journal, cp.W()) && |environments| == |commands|
    modifies cp, cp.files
    ensures split <==> !Sound(cp.journal, cp.W())
    ensures Chain(commands, history, lates) && history[0] == old(Now(cp)) && history[|lates|] == Now(cp)
    ensures (forall c :: c in commands ==> !c.Create? && !c.Update? && !c.Delete?) ==> !split
    ensures cp.files.calm && old(cp.journal).None? ==> cp.journal.None? && Synced(cp.W())
  {
    hide Sound, Executed;
    split, history, lates := false, [Now(cp)], [];
    for i := 0 to |commands|
      invariant |lates| == i || split
      invariant split <==> !Sound(cp.journal, cp.W())
      invariant Chain(commands, history, lates) && history[0] == old(Now(cp)) && history[|lates|] == Now(cp)
      invariant cp.files.calm && old(cp.journal).None? ==> cp.journal.None? && !split
      invariant (forall c :: c in commands ==> !c.Create? && !c.Update? && !c.Delete?) ==> !split
    {
      if * {
        break;
      }
      if !split {
        ghost var late;
        split, late := Execute(cp, commands[i], environments[i]);
        history, lates := history + [Now(cp)], lates + [late];
      }
    }
    SoundIsSynced(cp.journal, cp.W());
  }

  /** Users who are not served anew are the same after any number of commands. */
  lemma {:induction false} UsersAreKept(commands: seq<Command>, history: seq<Moment>, lates: seq<bool>)
    requires Chain(commands, history, lates) && forall i :: 0 <= i < |lates| ==> !commands[i].Serve?
    ensures SameUsers(history[|lates|].w.catalog.rows, history[0].w.catalog.rows)
  {
    var n := |lates|;
    if n > 0 {
      UsersAreKept(commands, history[..n], lates[..n - 1]);
      assert Executed(commands[n - 1], history[n - 1], history[n], lates[n - 1]);
    }
  }

  /**
   * Over a whole run no interleaving of requests is hit on an account that none
   * of its commands may disturb at the moment it runs.
   */
  lemma NobodyElseIsHit(commands: seq<Command>, history: seq<Moment>, lates: seq<bool>, run: seq<Event>, id: Id)
    requires Chain(commands, history, lates)
    requires forall i :: 0 <= i < |lates| ==> id !in MayDisturb(commands[i], history[i], lates[i])
    requires ValidRun(run) && Actions(run) == history[|lates|].monitor.trace
    ensures !Hits(run, |history[0].monitor.trace|, id)
  {
    NobodyElseIsReported(commands, history, lates, id);
    UnreportedIsSafe(history[0].monitor, history[|lates|].monitor, run, id);
  }

  lemma {:induction false} NobodyElseIsReported(commands: seq<Command>, history: seq<Moment>, lates: seq<bool>, id: Id)
    requires Chain(commands, history, lates)
    requires forall i :: 0 <= i < |lates| ==> id !in MayDisturb(commands[i], history[i], lates[i])
    ensures
      var before, m := history[0].monitor, history[|lates|].monitor;
      before.trace <= m.trace && before.undrained <= m.undrained && !Reports(before, m, id)
  {
    hide Watch, MayDisturb;
    var n := |lates|;
    if n > 0 {
      NobodyElseIsReported(commands, history[..n], lates[..n - 1], id);
      assert Executed(commands[n - 1], history[n - 1], history[n], lates[n - 1]);
    }
  }

  /** The command is about the account, or is the recovery of an operation on it. */
  predicate Names(command: Command, journal: Option<Operation>, id: Id) {
    match command
    case Create(r, _, _, _, _) => id == r.id
    case Update(r) => id == r.id || r.newId == Some(id)
    case Delete(r) => id == r.id
    case ClearAuth(account) => id == account
    case Recover =>
      && journal.Some?
      && (id == journal.value.account || (journal.value.kind == UpdateAccount && id == journal.value.newAccount))
    case _ => false
  }

  /** On an account that no command is about, no interleaving of requests is ever hit. */
  lemma UnnamedAreSafe(commands: seq<Command>, history: seq<Moment>, lates: seq<bool>, run: seq<Event>, id: Id)
    requires Chain(commands, history, lates)
    requires forall i :: 0 <= i < |lates| ==> !Names(commands[i], history[i].journal, id)
    requires ValidRun(run) && Actions(run) == history[|lates|].monitor.trace
    ensures !Hits(run, |history[0].monitor.trace|, id)
  {
    hide Hits, ValidRun, Actions, R.EarlyPhase, HasUsers;
    forall i | 0 <= i < |lates|
      ensures id !in MayDisturb(commands[i], history[i], lates[i])
    {
      assert Executed(commands[i], history[i], history[i + 1], lates[i]);
      hide OnlyHits, SameUsers;
    }
    NobodyElseIsHit(commands, history, lates, run, id);
  }

  /** The same from an empty installation, where every user joins on the way. */
  method Run(validProxy: string -> bool, calm: bool, commands: seq<Command>, environments: seq<Environment>)
    returns (cp: ControlPlane, split: bool)
    requires |environments| == |commands|
    ensures fresh(cp) && fresh(cp.files)
    ensures split <==> !Sound(cp.journal, cp.W())
    ensures (forall c :: c in commands ==> !c.Create? && !c.Update? && !c.Delete?) ==> !split
    ensures calm ==> cp.journal.None? && Synced(cp.W())
  {
    cp := new ControlPlane(validProxy, calm);
    EmptyIsSynced();
    hide Synced;
    ghost var history, lates;
    split, history, lates := RunFrom(cp, commands, environments);
  }

  lemma EmptyIsSynced()
    ensures Synced(World(Catalog(map[], map[], map[]), map[], Tree(map[], map[], map[]), map[], map[]))
  {
  }
}
