/**
 * Fenced writes of many processes.  A transaction or a fenced callback runs
 * under one cross-process lock; the callback may take any time and steps, and
 * the clock runs on, but the lock is kept from validation to its end.
 */
module Fence {
  import opened Wrappers
  import opened Lease
  import opened LeaseLaws

  type Process = nat

  datatype Phase = Entered | Validated(fence: seq<Lease>)

  /** `log` lists, in order, the fence of every write that took effect. */
  datatype Machine = Machine(records: Records, clock: int, holder: Option<Process>, phase: Phase, log: seq<seq<Lease>>)

  datatype Step =
    | Tick(now: int)
    | Enter(process: Process)
    | Transact(process: Process, event: Event)
    | Validate(process: Process, fence: seq<Lease>, now: int)
    | CallbackWrite(process: Process)
    | Leave(process: Process)

  // ------------------------------------------------------------------- steps

  predicate Enabled(m: Machine, s: Step) {
    match s
    case Tick(now) => now >= m.clock
    case Enter(_) => m.holder.None?
    case Transact(p, e) => m.holder == Some(p) && m.phase.Entered? && m.clock <= e.checked <= e.now
    case Validate(p, fence, now) => m.holder == Some(p) && m.phase.Entered? && now == m.clock && fence != []
    case CallbackWrite(p) => m.holder == Some(p) && m.phase.Validated?
    case Leave(p) => m.holder == Some(p)
  }

  /** A transaction and a rejected validation leave the lock; a crash is a Leave at any point. */
  function Do(m: Machine, s: Step): Machine {
    match s
    case Tick(now) => m.(clock := now)
    case Enter(p) => m.(holder := Some(p), phase := Entered)
    case Transact(_, e) =>
      m.(records := After(m.records, e), clock := e.now, holder := None, phase := Entered,
         log := if e.action.Write? && Commits(m.records, e) then m.log + [e.fence] else m.log)
    case Validate(_, fence, now) =>
      if FenceHolds(m.records, fence, now) then m.(phase := Validated(fence)) else m.(holder := None)
    case CallbackWrite(_) => if m.phase.Validated? then m.(log := m.log + [m.phase.fence]) else m
    case Leave(_) => m.(holder := None, phase := Entered)
  }

  ghost predicate ValidRun(m: Machine, steps: seq<Step>)
    decreases |steps|
  {
    steps == [] || (Enabled(m, steps[0]) && ValidRun(Do(m, steps[0]), steps[1..]))
  }

  function DoAll(m: Machine, steps: seq<Step>): Machine
    decreases |steps|
  {
    if steps == [] then m else DoAll(Do(m, steps[0]), steps[1..])
  }

  // -------------------------------------------------------------- invariants

  /** The records still carry the handle, expired or not. */
  predicate Stands(records: Records, handle: Lease) {
    handle.scope in records && SameHandle(records[handle.scope], handle) && handle.token != ""
  }

  /** The scope has moved on from the handle, or still carries it or its release. */
  predicate Passed(records: Records, handle: Lease) {
    && handle.scope in records && handle.generation <= records[handle.scope].generation && handle.token != ""
    && (handle.generation == records[handle.scope].generation ==>
          records[handle.scope].owner == handle.owner && records[handle.scope].token in {handle.token, ""})
  }

  ghost predicate Ordered(log: seq<seq<Lease>>) {
    forall i, j, first, second ::
      0 <= i < j < |log| && first in log[i] && second in log[j] && first.scope == second.scope ==>
        first.generation <= second.generation && (first.generation == second.generation ==> SameHandle(first, second))
  }

  ghost predicate Safe(m: Machine) {
    && (m.phase.Validated? ==> m.holder.Some? && forall handle :: handle in m.phase.fence ==> Stands(m.records, handle))
    && (forall i, handle :: 0 <= i < |m.log| && handle in m.log[i] ==> Passed(m.records, handle))
    && Ordered(m.log)
  }

  lemma PassedByStep(records: Records, e: Event, handle: Lease)
    requires Passed(records, handle)
    ensures Passed(After(records, e), handle)
  {
    StepFollows(records, e, handle.scope);
    hide After;
  }

  /** A write under standing handles comes after all earlier ones. */
  lemma AppendOrdered(m: Machine, fence: seq<Lease>)
    requires Safe(m) && forall handle :: handle in fence ==> Stands(m.records, handle)
    ensures Ordered(m.log + [fence])
    ensures forall handle :: handle in fence ==> Passed(m.records, handle)
  {
    var log := m.log + [fence];
    forall i, j, first: Lease, second: Lease | 0 <= i < j < |log| && first in log[i] && second in log[j] && first.scope == second.scope
      ensures first.generation <= second.generation && (first.generation == second.generation ==> SameHandle(first, second))
    {
      if j < |m.log| {
        assert log[i] == m.log[i] && log[j] == m.log[j];
      } else {
        assert log[i] == m.log[i];
        assert Passed(m.records, first) && Stands(m.records, second);
      }
    }
  }

  lemma HoldingStands(records: Records, fence: seq<Lease>, now: int)
    requires FenceHolds(records, fence, now)
    ensures forall handle :: handle in fence ==> Stands(records, handle)
  {
    forall handle | handle in fence
      ensures Stands(records, handle)
    {
      assert Matches(records, handle, now);
    }
  }

  lemma TransactIsSafe(m: Machine, s: Step)
    requires Safe(m) && s.Transact? && Enabled(m, s)
    ensures Safe(Do(m, s))
  {
    var e := s.event;
    var next := Do(m, s);
    if Commits(m.records, e) {
      HoldingStands(m.records, e.fence, e.checked);
      AppendOrdered(m, e.fence);
    }
    forall i, handle | 0 <= i < |next.log| && handle in next.log[i]
      ensures Passed(next.records, handle)
    {
      assert i < |m.log| ==> next.log[i] == m.log[i];
      PassedByStep(m.records, e, handle);
    }
    hide Passed, Stands, Ordered, After;
  }

  lemma StepIsSafe(m: Machine, s: Step)
    requires Safe(m) && Enabled(m, s)
    ensures Safe(Do(m, s))
  {
    hide Passed, Ordered, After, FenceHolds, Stands;
    match s {
      case Transact(_, _) => TransactIsSafe(m, s);
      case Validate(_, fence, now) =>
        if FenceHolds(m.records, fence, now) {
          HoldingStands(m.records, fence, now);
        }
      case CallbackWrite(_) =>
        AppendOrdered(m, m.phase.fence);
      case _ =>
    }
  }

  // ---------------------------------------------------------------- theorems

  lemma {:induction false} RunIsSafe(m: Machine, steps: seq<Step>)
    requires Safe(m) && ValidRun(m, steps)
    ensures Safe(DoAll(m, steps))
    decreases |steps|
  {
    hide Safe, Enabled, Do;
    if steps != [] {
      StepIsSafe(m, steps[0]);
      RunIsSafe(Do(m, steps[0]), steps[1..]);
    }
  }

  /**
   * Over every run the fenced writes of all processes, inside transactions and
   * inside callbacks, follow the generations of each scope, one lease per
   * generation.
   */
  lemma WritesFollowGenerations(steps: seq<Step>)
    requires ValidRun(Machine(map[], 1, None, Entered, []), steps)
    ensures Ordered(DoAll(Machine(map[], 1, None, Entered, []), steps).log)
  {
    RunIsSafe(Machine(map[], 1, None, Entered, []), steps);
    hide DoAll, ValidRun, Ordered;
  }

  /**
   * From its validation to its end a callback is alone: whatever the other
   * processes do, no record changes, even when the lease runs out meanwhile.
   * This is what the lock gives; what the fence gives is WritesFollowGenerations.
   */
  lemma {:induction false} CallbackIsAlone(m: Machine, steps: seq<Step>)
    requires m.phase.Validated? && m.holder.Some? && ValidRun(m, steps)
    requires forall s :: s in steps ==> !(s.Leave? && Some(s.process) == m.holder)
    ensures DoAll(m, steps).records == m.records && DoAll(m, steps).phase == m.phase && DoAll(m, steps).holder == m.holder
    decreases |steps|
  {
    if steps != [] {
      assert steps[0] in steps;
      var next := Do(m, steps[0]);
      assert next.records == m.records && next.phase == m.phase && next.holder == m.holder;
      assert forall s :: s in steps[1..] ==> s in steps;
      hide Do, Enabled, After, FenceHolds;
      CallbackIsAlone(next, steps[1..]);
    }
  }
}
