/**
 * Requests in flight while accounts are taken out of service.  The lifecycle
 * publishes route tables, waits for accounts to drain and disrupts them; in
 * between, requests start on any routed account and finish in any order.
 */
module Traffic {
  import opened Catalog

  /** What the lifecycle does that matters to requests. */
  datatype Action = Routed(targets: set<Id>) | Drained(id: Id) | Disrupted(id: Id)

  /** A run interleaves those actions with requests. */
  datatype Event = Act(action: Action) | Start(id: Id) | Finish(id: Id)

  datatype Load = Load(routed: set<Id>, inFlight: map<Id, nat>) {
    function Count(id: Id): nat {
      if id in inFlight then inFlight[id] else 0
    }
  }

  // ------------------------------------------------------------------- runs

  /** No traffic yet: nothing is routed and nothing in flight. */
  const IDLE := Load({}, map[])

  /** Requests start only on routed accounts; a drain that returned saw none in flight. */
  ghost predicate Possible(t: Load, e: Event) {
    match e
    case Act(Drained(id)) => t.Count(id) == 0
    case Act(_) => true
    case Start(id) => id in t.routed
    case Finish(id) => t.Count(id) > 0
  }

  ghost function After(t: Load, e: Event): Load {
    match e
    case Act(Routed(targets)) => t.(routed := targets)
    case Act(_) => t
    case Start(id) => t.(inFlight := t.inFlight[id := t.Count(id) + 1])
    case Finish(id) => if t.Count(id) > 0 then t.(inFlight := t.inFlight[id := t.Count(id) - 1]) else t
  }

  ghost function RunState(run: seq<Event>): Load {
    if run == [] then IDLE
    else After(RunState(run[..|run| - 1]), run[|run| - 1])
  }

  ghost predicate ValidRun(run: seq<Event>) {
    run == [] ||
    (ValidRun(run[..|run| - 1]) && Possible(RunState(run[..|run| - 1]), run[|run| - 1]))
  }

  function Actions(run: seq<Event>): seq<Action> {
    if run == [] then []
    else
      var last := run[|run| - 1];
      Actions(run[..|run| - 1]) + if last.Act? then [last.action] else []
  }

  /** Some request is in flight on `id` when it is disrupted, after the first `from` actions. */
  ghost predicate Hits(run: seq<Event>, from: nat, id: Id) {
    run != [] &&
    var before := run[..|run| - 1];
    (Hits(before, from, id) ||
     (run[|run| - 1] == Act(Disrupted(id)) && from <= |Actions(before)| && RunState(before).Count(id) > 0))
  }

  // ---------------------------------------------------------------- monitor

  /** A disruption by its place in the trace. */
  datatype Disruption = Disruption(place: nat, id: Id)

  /** `busy` accounts have been routed since they last drained; `undrained` are the disruptions of busy accounts. */
  datatype RawMonitor = RawMonitor(trace: seq<Action>, routed: set<Id>, busy: set<Id>, undrained: set<Disruption>)

  const UNWATCHED := RawMonitor([], {}, {}, {})

  function Observed(m: RawMonitor, a: Action): RawMonitor {
    match a
    case Routed(targets) => RawMonitor(m.trace + [a], targets, m.busy + targets, m.undrained)
    case Drained(id) => RawMonitor(m.trace + [a], m.routed, if id in m.routed then m.busy else m.busy - {id}, m.undrained)
    case Disrupted(id) =>
      RawMonitor(m.trace + [a], m.routed, m.busy, if id in m.busy then m.undrained + {Disruption(|m.trace|, id)} else m.undrained)
  }

  function Watch(trace: seq<Action>): (m: RawMonitor)
    ensures m.trace == trace
  {
    if trace == [] then UNWATCHED
    else Observed(Watch(trace[..|trace| - 1]), trace[|trace| - 1])
  }

  /** A monitor is what watching its own trace gives. */
  type Monitor = m: RawMonitor | m == Watch(m.trace) witness UNWATCHED

  /** From `before` to `m` nothing but `ids` was disrupted while it was busy. */
  ghost predicate OnlyHits(before: Monitor, m: Monitor, ids: set<Id>) {
    && before.trace <= m.trace && before.undrained <= m.undrained
    && forall d :: d in m.undrained && d !in before.undrained ==> d.id in ids
  }

  /** From `before` to `m` the account was disrupted while it was busy. */
  ghost predicate Reports(before: Monitor, m: Monitor, id: Id) {
    exists d :: d in m.undrained && d !in before.undrained && d.id == id
  }

  /** From `before` to `m` the lifecycle took this action. */
  ghost predicate Took(before: Monitor, m: Monitor, a: Action) {
    exists k :: |before.trace| <= k < |m.trace| && m.trace[k] == a
  }

  function Observe(m: Monitor, a: Action): (next: Monitor)
    ensures next == Observed(m, a)
    ensures OnlyHits(m, next, if a.Disrupted? then {a.id} * m.busy else {})
    ensures Took(m, next, a)
  {
    assert (m.trace + [a])[..|m.trace|] == m.trace;
    assert (m.trace + [a])[|m.trace|] == a;
    Observed(m, a)
  }

  lemma HitsTrans(first: Monitor, mid: Monitor, m: Monitor, ids: set<Id>, more: set<Id>)
    requires OnlyHits(first, mid, ids) && OnlyHits(mid, m, more)
    ensures OnlyHits(first, m, ids + more)
    ensures forall all :: ids + more <= all ==> OnlyHits(first, m, all)
  {
  }

  lemma HitsNone(m: Monitor)
    ensures forall ids :: OnlyHits(m, m, ids)
  {
  }

  // ---------------------------------------------------------------- theorems

  lemma DrainedMeansNone(run: seq<Event>)
    requires ValidRun(run)
    ensures
      var t, m := RunState(run), Watch(Actions(run));
      t.routed == m.routed <= m.busy && forall id :: id !in m.busy ==> t.Count(id) == 0
  {
    if run != [] {
      var n := |run| - 1;
      DrainedMeansNone(run[..n]);
      ActionsNext(run);
    }
  }

  lemma ActionsNext(run: seq<Event>)
    requires run != []
    ensures
      var n := |run| - 1;
      Watch(Actions(run)) == if run[n].Act? then Observed(Watch(Actions(run[..n])), run[n].action) else Watch(Actions(run[..n]))
  {
    var n := |run| - 1;
    if run[n].Act? {
      assert Actions(run)[..|Actions(run)| - 1] == Actions(run[..n]);
    } else {
      assert Actions(run) == Actions(run[..n]);
    }
  }

  /** If the monitor reports nothing from some action on, no interleaving hits a request from there on. */
  lemma {:induction false} DrainedIsSafe(run: seq<Event>, from: nat, id: Id)
    requires ValidRun(run)
    requires forall d :: d in Watch(Actions(run)).undrained && d.id == id ==> d.place < from
    ensures !Hits(run, from, id)
  {
    if run != [] {
      var n := |run| - 1;
      DrainedMeansNone(run[..n]);
      ActionsNext(run);
      var m := Watch(Actions(run[..n]));
      assert run[n] == Act(Disrupted(id)) && id in m.busy ==> Disruption(|m.trace|, id) in Watch(Actions(run)).undrained;
      DrainedIsSafe(run[..n], from, id);
    }
  }

  lemma {:induction false} PlacesAreInside(trace: seq<Action>)
    ensures forall d :: d in Watch(trace).undrained ==> d.place < |trace|
  {
    if trace != [] {
      PlacesAreInside(trace[..|trace| - 1]);
    }
  }

  /** What was reported up to some action depends on no later one. */
  lemma {:induction false} ReportedBefore(before: seq<Action>, trace: seq<Action>)
    requires before <= trace
    ensures forall d :: d in Watch(trace).undrained && d.place < |before| ==> d in Watch(before).undrained
  {
    if before == trace {
    } else {
      assert before <= trace[..|trace| - 1];
      ReportedBefore(before, trace[..|trace| - 1]);
    }
  }

  /**
   * The drain property of one operation: no interleaving of requests with the
   * actions so far hits, inside the operation, an account it may not disturb.
   */
  lemma SparedIsSafe(before: Monitor, m: Monitor, ids: set<Id>, run: seq<Event>, id: Id)
    requires OnlyHits(before, m, ids) && id !in ids
    requires ValidRun(run) && Actions(run) == m.trace
    ensures !Hits(run, |before.trace|, id)
  {
    UnreportedIsSafe(before, m, run, id);
  }

  lemma UnreportedIsSafe(before: Monitor, m: Monitor, run: seq<Event>, id: Id)
    requires before.trace <= m.trace && !Reports(before, m, id)
    requires ValidRun(run) && Actions(run) == m.trace
    ensures !Hits(run, |before.trace|, id)
  {
    ReportedBefore(before.trace, m.trace);
    PlacesAreInside(before.trace);
    forall d | d in m.undrained && d.id == id
      ensures d.place < |before.trace|
    {
      assert d in before.undrained;
    }
    DrainedIsSafe(run, |before.trace|, id);
  }

  lemma Extend(run: seq<Event>, e: Event, from: nat)
    requires ValidRun(run) && Possible(RunState(run), e)
    ensures ValidRun(run + [e])
    ensures RunState(run + [e]) == After(RunState(run), e)
    ensures Actions(run + [e]) == Actions(run) + if e.Act? then [e.action] else []
    ensures forall id :: Hits(run + [e], from, id) <==>
      Hits(run, from, id) || (e == Act(Disrupted(id)) && from <= |Actions(run)| && RunState(run).Count(id) > 0)
  {
    assert (run + [e])[..|run|] == run;
  }

  /** At most one request anywhere, and it is on `id` whenever `id` is busy and about to be hit. */
  ghost predicate Busy(t: Load, m: RawMonitor, id: Id) {
    && (forall other :: other != id ==> t.Count(other) == 0)
    && t.Count(id) <= 1 && t.routed == m.routed <= m.busy
    && (id in m.busy <==> t.Count(id) == 1 || id in m.routed)
  }

  /** Places or finishes a request on `id` as the next action requires, and takes the action. */
  lemma BusyStep(run: seq<Event>, m: RawMonitor, a: Action, from: nat, id: Id) returns (next: seq<Event>)
    requires ValidRun(run) && Busy(RunState(run), m, id)
    ensures ValidRun(next) && Busy(RunState(next), Observed(m, a), id)
    ensures Actions(next) == Actions(run) + [a]
    ensures Hits(run, from, id) || (a == Disrupted(id) && id in m.busy && from <= |Actions(run)|) ==> Hits(next, from, id)
  {
    hide ValidRun, RunState, Hits, Actions;
    var t := RunState(run);
    assert a.Drained? && a.id != id ==> t.Count(a.id) == 0;
    next := run;
    if a == Drained(id) && t.Count(id) > 0 {
      Extend(run, Finish(id), from);
      next := run + [Finish(id)];
    } else if a != Drained(id) && t.Count(id) == 0 && id in t.routed {
      Extend(run, Start(id), from);
      next := run + [Start(id)];
    }
    var ready := RunState(next);
    assert forall other :: other != id ==> ready.Count(other) == t.Count(other);
    assert Actions(next) == Actions(run);
    Extend(next, Act(a), from);
    next := next + [Act(a)];
    assert RunState(next).inFlight == ready.inFlight;
    assert forall other :: RunState(next).Count(other) == ready.Count(other);
  }

  lemma BusyFromStart(id: Id)
    ensures ValidRun([]) && Actions([]) == [] && Busy(RunState([]), Watch([]), id) && Watch([]).undrained == {}
  {
  }

  /** A request kept on `id` for as long as the actions allow it. */
  lemma {:induction false} KeepBusy(trace: seq<Action>, from: nat, id: Id) returns (run: seq<Event>)
    ensures ValidRun(run) && Actions(run) == trace && Busy(RunState(run), Watch(trace), id)
    ensures (exists d :: d in Watch(trace).undrained && d.id == id && from <= d.place) ==> Hits(run, from, id)
  {
    hide Busy, ValidRun, RunState, Hits, Actions;
    if trace == [] {
      run := [];
      BusyFromStart(id);
    } else {
      var n := |trace| - 1;
      run := KeepBusy(trace[..n], from, id);
      run := BusyStep(run, Watch(trace[..n]), trace[n], from, id);
    }
  }

  /**
   * The monitor is exact: from some action on it reports an account iff some
   * interleaving of requests is hit there from that action on.
   */
  lemma MonitorIsExact(trace: seq<Action>, from: nat, id: Id)
    ensures
      (exists d :: d in Watch(trace).undrained && d.id == id && from <= d.place) <==>
      (exists run :: ValidRun(run) && Actions(run) == trace && Hits(run, from, id))
  {
    if d :| d in Watch(trace).undrained && d.id == id && from <= d.place {
      var run := KeepBusy(trace, from, id);
    }
    forall run | ValidRun(run) && Actions(run) == trace && Hits(run, from, id)
      ensures exists d :: d in Watch(trace).undrained && d.id == id && from <= d.place
    {
      if forall d :: d in Watch(trace).undrained && d.id == id ==> d.place < from {
        DrainedIsSafe(run, from, id);
      }
    }
  }

  /** And so is what one operation is reported for. */
  lemma ReportIsHit(before: Monitor, m: Monitor, id: Id) returns (run: seq<Event>)
    requires before.trace <= m.trace && Reports(before, m, id)
    ensures ValidRun(run) && Actions(run) == m.trace && Hits(run, |before.trace|, id)
  {
    ReportedBefore(before.trace, m.trace);
    var d :| d in m.undrained && d !in before.undrained && d.id == id;
    run := KeepBusy(m.trace, |before.trace|, id);
  }
}
