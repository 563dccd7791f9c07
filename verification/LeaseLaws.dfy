/**
 * What leases guarantee over whole runs of many processes, for a clock that
 * does not step back and tokens that are never drawn twice.
 */
module LeaseLaws {
  import opened Wrappers
  import opened Strings
  import opened Lease

  // -------------------------------------------------------------------- runs

  function Run(records: Records, events: seq<Event>): Records
    decreases |events|
  {
    if events == [] then records else Run(After(records, events[0]), events[1..])
  }

  /** Readings never step back, and the epoch has passed. */
  predicate Clocked(events: seq<Event>, t: int) {
    events == [] || (1 <= events[0].checked && t <= events[0].checked <= events[0].now && Clocked(events[1..], events[0].now))
  }

  /** The last reading of the run. */
  function LastNow(events: seq<Event>, t: int): int {
    if events == [] then t else events[|events| - 1].now
  }

  /** No transaction of the run draws the token. */
  predicate NeverDraws(events: seq<Event>, token: string) {
    forall e :: e in events && e.action.Take? ==> e.action.token != token
  }

  /** Every record is readable and was written by time t. */
  predicate Good(records: Records, t: int) {
    forall scope :: scope in records ==> Readable(records[scope], scope) && records[scope].renewedAt <= t
  }

  lemma RunAppends(records: Records, first: seq<Event>, second: seq<Event>)
    ensures Run(records, first + second) == Run(Run(records, first), second)
    decreases |first|
  {
    if first == [] {
      assert first + second == second;
    } else {
      assert (first + second)[1..] == first[1..] + second;
      RunAppends(After(records, first[0]), first[1..], second);
    }
  }

  // -------------------------------------------------------------- readability

  /**
   * A transaction on readable records writes a readable one exactly when its
   * clock is not behind the acquisition it extends.
   */
  lemma ReadableIff(records: Records, action: Action, now: int)
    requires forall scope :: scope in records ==> Readable(records[scope], scope)
    requires Written(records, action, now).Ok? && Written(records, action, now).value.Some?
    ensures
      var lease := Written(records, action, now).value.value;
      Readable(lease, lease.scope) <==> (if action.Take? then now >= 1 else now >= lease.acquiredAt)
  {
    hide ValidScope, Trim, Seconds;
  }

  lemma StepIsGood(records: Records, e: Event, t: int)
    requires Good(records, t) && t <= e.now && 1 <= e.now
    ensures Good(After(records, e), e.now)
  {
    var written := Written(records, e.action, e.now);
    if FenceHolds(records, e.fence, e.checked) && written.Ok? && written.value.Some? {
      ReadableIff(records, e.action, e.now);
      WrittenFrom(records, e.action, e.now);
    }
    hide Written, FenceHolds, Readable;
  }

  /** A written record is a first one, or extends, ends or follows the one before it. */
  lemma WrittenFrom(records: Records, action: Action, now: int)
    requires Written(records, action, now).Ok? && Written(records, action, now).value.Some?
    ensures
      var lease := Written(records, action, now).value.value;
      && lease.renewedAt == now
      && (action.Take? ==> lease.acquiredAt == now && lease.token == action.token)
      && (!action.Take? ==> lease.scope in records && lease.acquiredAt == records[lease.scope].acquiredAt)
      && (lease.scope in records ==>
            var before := records[lease.scope];
            if action.Take? then lease.generation == before.generation + 1 && before.expiresAt <= now
            else
              && lease.generation == before.generation && lease.owner == before.owner
              && (lease.token == before.token || lease.token == "")
              && (lease.token == "" || before.expiresAt > now))
      && (action.Release? ==> lease.token == "")
      && lease.expiresAt >= now
  {
    hide ValidScope, Trim, Seconds;
  }

  /** Every record of every run is accepted by the next reader. */
  lemma {:induction false} RunIsGood(records: Records, events: seq<Event>, t: int)
    requires Good(records, t) && Clocked(events, t)
    ensures Good(Run(records, events), LastNow(events, t))
    ensures forall scope :: Read(Run(records, events), scope).Ok?
    decreases |events|
  {
    hide After, Written, Readable, FenceHolds;
    if events != [] {
      StepIsGood(records, events[0], t);
      RunIsGood(After(records, events[0]), events[1..], events[0].now);
    }
  }

  /** A clock that steps back lets a release write a record that nobody can read or take again. */
  lemma BackwardClock(token: string)
    requires token != ""
    ensures
      var records := map["runtime" := Lease(VERSION, "runtime", "v2", 1, token, 100, 100, 160, None)];
      var e := Event([], 90, 90, Release(records["runtime"]));
      && Read(records, "runtime").Ok? && Commits(records, e)
      && Read(After(records, e), "runtime") == Err(StateInvalid("runtime"))
      && forall later :: !Written(After(records, e), Take("runtime", "v2", MIN_TTL, "next"), later).Ok?
  {
    assert Trimmed("runtime") && Trimmed("v2");
    TrimOfTrimmed("runtime");
    TrimOfTrimmed("v2");
    assert ValidScope("runtime") && ValidOwner("v2");
    hide Trim;
  }

  // -------------------------------------------------------------- generations

  /** Between two states of a scope: the generation grows, or the same lease is still there or was given up. */
  ghost predicate Follows(later: Records, earlier: Records, scope: string) {
    scope in earlier ==>
      && scope in later && later[scope].generation >= earlier[scope].generation
      && (later[scope].generation == earlier[scope].generation ==>
            && later[scope].owner == earlier[scope].owner
            && (later[scope].token == earlier[scope].token || later[scope].token == ""))
  }

  lemma StepFollows(records: Records, e: Event, scope: string)
    ensures Follows(After(records, e), records, scope)
  {
    var written := Written(records, e.action, e.now);
    if FenceHolds(records, e.fence, e.checked) && written.Ok? && written.value.Some? {
      WrittenFrom(records, e.action, e.now);
    }
    hide Written, FenceHolds;
  }

  lemma {:induction false} RunFollows(records: Records, events: seq<Event>, scope: string)
    ensures Follows(Run(records, events), records, scope)
    decreases |events|
  {
    hide After;
    if events != [] {
      StepFollows(records, events[0], scope);
      RunFollows(After(records, events[0]), events[1..], scope);
    }
  }

  /**
   * Of two fenced writes in a scope the later one has no lower generation, and
   * with the same generation it is under the same lease.
   */
  lemma CommittedGenerations(start: Records, events: seq<Event>, i: nat, j: nat, first: Lease, second: Lease)
    requires i < j < |events|
    requires Commits(Run(start, events[..i]), events[i]) && Commits(Run(start, events[..j]), events[j])
    requires first in events[i].fence && second in events[j].fence && first.scope == second.scope
    ensures first.generation <= second.generation
    ensures first.generation == second.generation ==> SameHandle(first, second)
  {
    hide Run, Written, Readable, After;
    var between := events[i..j];
    assert events[..i] + between == events[..j];
    RunAppends(start, events[..i], between);
    RunFollows(Run(start, events[..i]), between, first.scope);
  }

  // --------------------------------------------------------------- dead handles

  /** Renewing succeeds only with a handle that matches, as issued handles do. */
  lemma RenewMatches(records: Records, handle: Lease, ttl: int, now: int)
    requires Trimmed(handle.scope) && Trimmed(handle.owner)
    requires Written(records, Renew(handle, ttl), now).Ok?
    ensures Matches(records, handle, now)
  {
    TrimOfTrimmed(handle.scope);
    TrimOfTrimmed(handle.owner);
    hide ValidScope, ValidOwner, Trim, Readable;
  }

  /** One transaction does not bring a dead handle back, at its time or later. */
  lemma DeadStep(records: Records, e: Event, handle: Lease, t: int, later: int)
    requires !Matches(records, handle, t) && t <= e.now <= later
    requires e.action.Take? ==> e.action.token != handle.token
    ensures !Matches(After(records, e), handle, later)
  {
    var written := Written(records, e.action, e.now);
    if FenceHolds(records, e.fence, e.checked) && written.Ok? && written.value.Some? {
      WrittenFrom(records, e.action, e.now);
      if !e.action.Take? {
        ExtendedWasReadable(records, e.action, e.now);
      }
    }
    hide Written, FenceHolds, Readable;
  }

  lemma ExtendedWasReadable(records: Records, action: Action, now: int)
    requires Written(records, action, now).Ok? && Written(records, action, now).value.Some? && !action.Take?
    ensures
      var lease := Written(records, action, now).value.value;
      lease.scope in records && Readable(records[lease.scope], lease.scope)
  {
    hide ValidScope, Trim, Seconds;
  }

  /**
   * A handle that is expired, released or superseded at one time never matches
   * again, so no renewal and no fenced write under it commits.
   */
  lemma {:induction false} DeadStaysDead(records: Records, events: seq<Event>, handle: Lease, t: int, later: int)
    requires !Matches(records, handle, t) && Clocked(events, t) && LastNow(events, t) <= later
    requires NeverDraws(events, handle.token)
    ensures !Matches(Run(records, events), handle, later)
    decreases |events|
  {
    hide After, Matches;
    if events == [] {
      DeadLater(records, handle, t, later);
    } else {
      assert events[0] in events;
      DeadStep(records, events[0], handle, t, events[0].now);
      assert forall e :: e in events[1..] ==> e in events;
      DeadStaysDead(After(records, events[0]), events[1..], handle, events[0].now, later);
    }
  }

  lemma DeadLater(records: Records, handle: Lease, t: int, later: int)
    requires !Matches(records, handle, t) && t <= later
    ensures !Matches(records, handle, later)
  {
    hide Readable;
  }

  /** The consequence for whatever the process still tries. */
  lemma DeadHandleDoesNothing(records: Records, events: seq<Event>, handle: Lease, t: int, i: nat)
    requires !Matches(records, handle, t) && Clocked(events, t) && NeverDraws(events, handle.token)
    requires Trimmed(handle.scope) && Trimmed(handle.owner) && i < |events|
    ensures handle in events[i].fence ==> !Commits(Run(records, events[..i]), events[i])
    ensures events[i].action.Renew? && events[i].action.handle == handle ==> !Commits(Run(records, events[..i]), events[i])
  {
    hide Matches, Written, After, Run;
    ClockedPrefix(events, t, i);
    assert forall e :: e in events[..i] ==> e in events;
    DeadStaysDead(records, events[..i], handle, t, events[i].checked);
    DeadStaysDead(records, events[..i], handle, t, events[i].now);
    if events[i].action.Renew? && Written(Run(records, events[..i]), events[i].action, events[i].now).Ok? && events[i].action.handle == handle {
      RenewMatches(Run(records, events[..i]), handle, events[i].action.ttl, events[i].now);
    }
  }

  lemma ClockedPrefix(events: seq<Event>, t: int, i: nat)
    requires Clocked(events, t) && i < |events|
    ensures Clocked(events[..i], t) && LastNow(events[..i], t) <= events[i].checked <= events[i].now
    decreases |events|
  {
    if i > 0 {
      ClockedPrefix(events[1..], events[0].now, i - 1);
      assert events[..i][1..] == events[1..][..i - 1];
    }
  }

  /** A fenced process that releases one of its leases can commit nothing more, not even the other release. */
  lemma ReleaseEndsFence(records: Records, e: Event, next: Event)
    requires e.action.Release? && Commits(records, e) && e.now <= next.checked
    requires e.action.handle in next.fence && Trimmed(e.action.handle.scope)
    ensures !Commits(After(records, e), next)
  {
    TrimOfTrimmed(e.action.handle.scope);
    WrittenFrom(records, e.action, e.now);
    ReleasedScope(records, e.action, e.now);
    assert !Matches(After(records, e), e.action.handle, next.checked);
    hide Written, Matches;
  }

  lemma ReleasedScope(records: Records, action: Action, now: int)
    requires action.Release? && Written(records, action, now).Ok? && Trim(action.handle.scope) == action.handle.scope
    ensures Written(records, action, now).value.Some? && Written(records, action, now).value.value.scope == action.handle.scope
  {
    hide ValidScope, Trim;
  }

  // ------------------------------------------- what each transaction needs

  /** The record of the scope is readable, runs and has a token. */
  predicate Running(records: Records, scope: string, now: int) {
    && scope in records && Readable(records[scope], scope)
    && records[scope].expiresAt > now && records[scope].token != ""
  }

  /** The record of the handle's scope runs and is the handle's. */
  predicate RunsAs(records: Records, handle: Lease, now: int) {
    && Running(records, handle.scope, now)
    && records[handle.scope].owner == handle.owner
    && records[handle.scope].generation == handle.generation && records[handle.scope].token == handle.token
  }

  /** A lease is taken iff no readable record of its scope still runs; the next generation starts. */
  lemma TakeCommitsIff(records: Records, e: Event)
    requires e.action.Take?
    ensures
      var scope := Trim(e.action.scope);
      && (Commits(records, e) <==>
            && ValidInput(e.action.scope, e.action.owner, e.action.ttl) && FenceHolds(records, e.fence, e.checked)
            && (scope in records ==> Readable(records[scope], scope) && records[scope].expiresAt <= e.now))
      && (Commits(records, e) ==>
            After(records, e) == records[scope := Lease(
              1, scope, Trim(e.action.owner), if scope in records then records[scope].generation + 1 else 1, e.action.token,
              e.now, e.now, e.now + Seconds(e.action.ttl), None)])
  {
    hide ValidInput, Trim, Seconds, Readable, FenceHolds;
  }

  /** It is joined iff it runs and its owner is the caller; token and generation stay. */
  lemma JoinCommitsIff(records: Records, e: Event)
    requires e.action.Join?
    ensures
      var scope := Trim(e.action.scope);
      && (Commits(records, e) <==>
            && ValidInput(e.action.scope, e.action.owner, e.action.ttl) && FenceHolds(records, e.fence, e.checked)
            && Running(records, scope, e.now) && records[scope].owner == Trim(e.action.owner))
      && (Commits(records, e) ==>
            After(records, e) == records[scope :=
              records[scope].(renewedAt := e.now, expiresAt := e.now + Seconds(e.action.ttl), releasedAt := None)])
  {
    hide ValidInput, Trim, Seconds, FenceHolds;
  }

  /** It is renewed iff it runs and is the handle's, with the owner trimmed; token and generation stay. */
  lemma RenewCommitsIff(records: Records, e: Event)
    requires e.action.Renew?
    ensures
      var handle := e.action.handle;
      var scope := Trim(handle.scope);
      && (Commits(records, e) <==>
            && ValidInput(handle.scope, handle.owner, e.action.ttl) && handle.generation >= 1
            && FenceHolds(records, e.fence, e.checked) && Running(records, scope, e.now)
            && records[scope].owner == Trim(handle.owner)
            && records[scope].generation == handle.generation && records[scope].token == handle.token)
      && (Commits(records, e) ==>
            After(records, e) == records[scope :=
              records[scope].(renewedAt := e.now, expiresAt := e.now + Seconds(e.action.ttl), releasedAt := None)])
  {
    hide ValidInput, Trim, Seconds, FenceHolds;
  }

  /** It is released iff it is the handle's, whether it still runs or not; the generation stays and the token goes. */
  lemma ReleaseCommitsIff(records: Records, e: Event)
    requires e.action.Release?
    ensures
      var handle := e.action.handle;
      var scope := Trim(handle.scope);
      && (Commits(records, e) <==>
            && ValidInput(handle.scope, handle.owner, MIN_TTL) && handle.generation >= 1 && handle.token != ""
            && FenceHolds(records, e.fence, e.checked) && scope in records && Readable(records[scope], scope)
            && records[scope].owner == Trim(handle.owner)
            && records[scope].generation == handle.generation && records[scope].token == handle.token)
      && (Commits(records, e) ==>
            After(records, e) == records[scope :=
              records[scope].(token := "", renewedAt := e.now, expiresAt := e.now, releasedAt := Some(e.now))])
  {
    hide ValidInput, Trim, Seconds, FenceHolds;
  }

  /** A lease just taken is held until its time-to-live is over, and not at that moment. */
  lemma TakenIsHeldUntil(records: Records, e: Event, t: int)
    requires e.action.Take? && Commits(records, e) && e.now >= 1 && e.action.token != ""
    ensures
      var after, scope := After(records, e), Trim(e.action.scope);
      scope in after && (Matches(after, after[scope], t) <==> t < e.now + Seconds(e.action.ttl))
  {
    TakeCommitsIff(records, e);
    hide Commits, After, Trim, FenceHolds, ValidScope;
  }

  /** Whatever a transaction is refused for is really the case. */
  lemma LeaseRefusals(records: Records, action: Action, now: int)
    requires Written(records, action, now).Err?
    ensures
      var scope := Trim(match action case Take(s, _, _, _) => s case Join(s, _, _) => s
                                     case Renew(h, _) => h.scope case Release(h) => h.scope case Write => "");
      match Written(records, action, now).error
      case InvalidInput =>
        !(match action case Take(s, o, ttl, _) => ValidInput(s, o, ttl) case Join(s, o, ttl) => ValidInput(s, o, ttl)
                       case Renew(h, ttl) => ValidInput(h.scope, h.owner, ttl) case Release(h) => ValidInput(h.scope, h.owner, MIN_TTL)
                       case Write => true)
      case StateInvalid(s) => s == scope && scope in records && !Readable(records[scope], scope)
      case Held(s, owner, generation, until) =>
        && s == scope && scope in records && records[scope].expiresAt == until > now
        && records[scope].owner == owner && records[scope].generation == generation
        && (action.Join? ==> owner != Trim(action.owner))
      case Missing(s) => s == scope && action.Join? && !Running(records, scope, now)
      case Lost(_, generation) =>
        && (action.Renew? || action.Release?) && generation == action.handle.generation
        && (action.handle.token == "" || generation < 1 || scope !in records || records[scope].owner != Trim(action.handle.owner)
            || records[scope].generation != generation || records[scope].token != action.handle.token
            || (action.Renew? && records[scope].expiresAt <= now))
  {
    hide ValidInput, Trim, Seconds;
  }
}
