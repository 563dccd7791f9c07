/**
 * The lease operations of one process on the shared record table.  Each runs
 * as one transaction under the cross-process lock, its fence validated first.
 */
module LeaseStore {
  import opened Wrappers
  import opened Strings
  import opened Lease
  import opened LeaseLaws

  /** The runtime_state rows of all scopes. */
  class LeaseTable {
    var records: Records

    constructor ()
      ensures records == map[]
    {
      records := map[];
    }
  }

  class Store {
    const table: LeaseTable
    var fence: seq<Lease>

    constructor (table: LeaseTable)
      ensures this.table == table && fence == []
    {
      this.table := table;
      fence := [];
    }

    /** Only once, with two active leases of distinct scopes. */
    method InstallWriteFence(runtime: Lease, worker: Lease) returns (ok: bool)
      modifies this`fence
      ensures ok <==>
        && (forall lease :: lease in [runtime, worker] ==> lease.scope != "" && lease.owner != "" && lease.generation >= 1 && lease.token != "")
        && runtime.scope != worker.scope && old(fence) == []
      ensures fence == if ok then [runtime, worker] else old(fence)
    {
      var leases := [runtime, worker];
      ok := true;
      for i := 0 to |leases|
        invariant ok <==> forall j :: 0 <= j < i ==>
          leases[j].scope != "" && leases[j].owner != "" && leases[j].generation >= 1 && leases[j].token != ""
      {
        if leases[i].scope == "" || leases[i].owner == "" || leases[i].generation < 1 || leases[i].token == "" {
          ok := false;
        }
      }
      assert forall lease :: lease in leases ==> exists j :: 0 <= j < |leases| && leases[j] == lease;
      assert leases[0] == runtime && leases[1] == worker;
      ok := ok && runtime.scope != worker.scope && fence == [];
      if ok {
        fence := leases;
      }
    }

    ghost function ErrorOf(handle: Lease): LeaseError
      reads table
    {
      if handle.scope in table.records && !Readable(table.records[handle.scope], handle.scope) then StateInvalid(handle.scope)
      else Lost(handle.scope, handle.generation)
    }

    /** The error is that of the first handle of the fence that does not hold. */
    ghost predicate FirstLost(i: nat, now: int, error: LeaseError)
      reads this, table
      requires i < |fence|
    {
      && !RunsAs(table.records, fence[i], now) && error == ErrorOf(fence[i])
      && forall j :: 0 <= j < i ==> RunsAs(table.records, fence[j], now)
    }

    /** The error of the first handle of the fence that does not hold. */
    method ValidateWriteFence(now: int) returns (e: Option<LeaseError>)
      ensures e.None? <==> FenceHolds(table.records, fence, now)
      ensures e.None? <==> forall handle :: handle in fence ==> RunsAs(table.records, handle, now)
      ensures e.Some? ==> exists i :: 0 <= i < |fence| && FirstLost(i, now, e.value)
    {
      hide Readable;
      e := None;
      var i := 0;
      while i < |fence| && e.None?
        invariant 0 <= i <= |fence|
        invariant forall j :: 0 <= j < i ==> Matches(table.records, fence[j], now)
        invariant e.Some? ==> i < |fence| && !Matches(table.records, fence[i], now)
        invariant e.Some? ==> e.value == ErrorOf(fence[i])
        decreases |fence| - i, e.None?
      {
        var expected := fence[i];
        var read := Read(table.records, expected.scope);
        if read.Err? {
          e := Some(read.error);
        } else if read.value.None? || read.value.value.expiresAt <= now || read.value.value.token == "" || !SameHandle(read.value.value, expected) {
          e := Some(Lost(expected.scope, expected.generation));
        } else {
          i := i + 1;
        }
      }
      assert e.Some? ==> FirstLost(i, now, e.value);
    }

    /** Never joins an active lease, even of the same owner. */
    method TakeLease(rawScope: string, rawOwner: string, ttl: int, token: string, checked: int, now: int)
      returns (r: Result<Lease, LeaseError>)
      modifies table
      ensures table.records == After(old(table.records), Event(fence, checked, now, Take(rawScope, rawOwner, ttl, token)))
      ensures r.Ok? <==> Commits(old(table.records), Event(fence, checked, now, Take(rawScope, rawOwner, ttl, token)))
      ensures r.Ok? ==> r.value.scope in table.records && table.records[r.value.scope] == r.value && r.value.token == token
      ensures r.Ok? <==>
        var records, scope := old(table.records), Trim(rawScope);
        && ValidInput(rawScope, rawOwner, ttl) && FenceHolds(records, fence, checked)
        && (scope in records ==> Readable(records[scope], scope) && records[scope].expiresAt <= now)
      ensures r.Ok? ==> r.value.scope == Trim(rawScope) && r.value.owner == Trim(rawOwner) && r.value.expiresAt == now + Seconds(ttl)
    {
      hide FenceHolds, ValidScope, ValidOwner, Trim;
      TakeCommitsIff(table.records, Event(fence, checked, now, Take(rawScope, rawOwner, ttl, token)));
      if !ValidInput(rawScope, rawOwner, ttl) {
        return Err(InvalidInput);
      }
      var scope, owner, seconds := Trim(rawScope), Trim(rawOwner), Seconds(ttl);
      hide ValidInput;
      var e := ValidateWriteFence(checked);
      var read := Read(table.records, scope);
      if e.Some? {
        r := Err(e.value);
      } else if read.Err? {
        r := Err(read.error);
      } else if read.value.Some? && read.value.value.expiresAt > now {
        r := Err(HeldBy(read.value.value));
      } else {
        var generation := 1;
        if read.value.Some? {
          generation := read.value.value.generation + 1;
        }
        var lease := Lease(VERSION, scope, owner, generation, token, now, now, now + seconds, None);
        table.records := table.records[scope := lease];
        r := Ok(lease);
      }
    }

    /** Renews an active lease of the same owner and adopts its token. */
    method JoinLease(rawScope: string, rawOwner: string, ttl: int, checked: int, now: int) returns (r: Result<Lease, LeaseError>)
      modifies table
      ensures table.records == After(old(table.records), Event(fence, checked, now, Join(rawScope, rawOwner, ttl)))
      ensures r.Ok? <==> Commits(old(table.records), Event(fence, checked, now, Join(rawScope, rawOwner, ttl)))
      ensures r.Ok? ==> r.value.scope in table.records && table.records[r.value.scope] == r.value
      ensures r.Ok? <==>
        var records, scope := old(table.records), Trim(rawScope);
        && ValidInput(rawScope, rawOwner, ttl) && FenceHolds(records, fence, checked)
        && Running(records, scope, now) && records[scope].owner == Trim(rawOwner)
      ensures r.Ok? ==>
        var before := old(table.records)[Trim(rawScope)];
        r.value == before.(renewedAt := now, expiresAt := now + Seconds(ttl), releasedAt := None)
    {
      hide FenceHolds, ValidScope, ValidOwner, Trim;
      JoinCommitsIff(table.records, Event(fence, checked, now, Join(rawScope, rawOwner, ttl)));
      if !ValidInput(rawScope, rawOwner, ttl) {
        return Err(InvalidInput);
      }
      var scope, owner := Trim(rawScope), Trim(rawOwner);
      hide ValidInput;
      var e := ValidateWriteFence(checked);
      var read := Read(table.records, scope);
      if e.Some? {
        r := Err(e.value);
      } else if read.Err? {
        r := Err(read.error);
      } else if read.value.None? || read.value.value.expiresAt <= now || read.value.value.token == "" {
        r := Err(Missing(scope));
      } else if read.value.value.owner != owner {
        r := Err(HeldBy(read.value.value));
      } else {
        r := Extend(scope, now, ttl);
      }
    }

    /** Overwrites the times of the record in place. */
    method Extend(scope: string, now: int, ttl: int) returns (r: Result<Lease, LeaseError>)
      requires scope in table.records && table.records[scope].scope == scope && MIN_TTL <= ttl <= MAX_TTL
      modifies table
      ensures r == Ok(Extended(old(table.records)[scope], now, ttl))
      ensures table.records == old(table.records)[scope := r.value]
    {
      var current := table.records[scope];
      current := current.(renewedAt := now);
      current := current.(expiresAt := now + Seconds(ttl));
      current := current.(releasedAt := None);
      table.records := table.records[scope := current];
      r := Ok(current);
    }

    method RenewLease(handle: Lease, ttl: int, checked: int, now: int) returns (r: Result<Lease, LeaseError>)
      modifies table
      ensures table.records == After(old(table.records), Event(fence, checked, now, Renew(handle, ttl)))
      ensures r.Ok? <==> Commits(old(table.records), Event(fence, checked, now, Renew(handle, ttl)))
      ensures r.Ok? ==> r.value.scope in table.records && table.records[r.value.scope] == r.value && r.value.token == handle.token
      ensures r.Ok? <==>
        var records, scope := old(table.records), Trim(handle.scope);
        && ValidInput(handle.scope, handle.owner, ttl) && handle.generation >= 1 && FenceHolds(records, fence, checked)
        && Running(records, scope, now) && records[scope].owner == Trim(handle.owner)
        && records[scope].generation == handle.generation && records[scope].token == handle.token
      ensures r.Ok? ==> r.value.scope == Trim(handle.scope) && r.value.expiresAt == now + Seconds(ttl)
    {
      hide FenceHolds, ValidScope, ValidOwner, Trim;
      RenewCommitsIff(table.records, Event(fence, checked, now, Renew(handle, ttl)));
      if !ValidInput(handle.scope, handle.owner, ttl) {
        return Err(InvalidInput);
      }
      if handle.token == "" || handle.generation < 1 {
        return Err(Lost(handle.scope, handle.generation));
      }
      var scope, owner := Trim(handle.scope), Trim(handle.owner);
      hide ValidInput;
      var e := ValidateWriteFence(checked);
      var read := Read(table.records, scope);
      if e.Some? {
        r := Err(e.value);
      } else if read.Err? {
        r := Err(read.error);
      } else if read.value.None? || read.value.value.expiresAt <= now || read.value.value.token != handle.token ||
        read.value.value.generation != handle.generation || read.value.value.owner != owner {
        r := Err(Lost(scope, handle.generation));
      } else {
        r := Extend(scope, now, ttl);
      }
    }

    /** Clears the token; the generation stays for the next owner to pass. */
    method ReleaseLease(handle: Lease, checked: int, now: int) returns (e: Option<LeaseError>)
      modifies table
      ensures table.records == After(old(table.records), Event(fence, checked, now, Release(handle)))
      ensures e.None? <==> Commits(old(table.records), Event(fence, checked, now, Release(handle)))
      ensures e.None? <==>
        var records, scope := old(table.records), Trim(handle.scope);
        && ValidInput(handle.scope, handle.owner, MIN_TTL) && handle.generation >= 1 && handle.token != ""
        && FenceHolds(records, fence, checked) && scope in records && Readable(records[scope], scope)
        && records[scope].owner == Trim(handle.owner)
        && records[scope].generation == handle.generation && records[scope].token == handle.token
    {
      hide FenceHolds, ValidScope, ValidOwner, Trim;
      ReleaseCommitsIff(table.records, Event(fence, checked, now, Release(handle)));
      if !ValidInput(handle.scope, handle.owner, MIN_TTL) {
        return Some(InvalidInput);
      }
      if handle.token == "" || handle.generation < 1 {
        return Some(Lost(handle.scope, handle.generation));
      }
      var scope, owner := Trim(handle.scope), Trim(handle.owner);
      hide ValidInput;
      e := ValidateWriteFence(checked);
      var read := Read(table.records, scope);
      if e.None? {
        if read.Err? {
          e := Some(read.error);
        } else if read.value.None? || read.value.value.token != handle.token ||
          read.value.value.generation != handle.generation || read.value.value.owner != owner {
          e := Some(Lost(scope, handle.generation));
        } else {
          var current := read.value.value.(token := "", renewedAt := now, expiresAt := now, releasedAt := Some(now));
          table.records := table.records[scope := current];
        }
      }
    }
  }
}
