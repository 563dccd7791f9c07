/**
 * Ownership leases and the write fence: one record per scope, taken, joined,
 * renewed and released by many processes, each transaction under one lock.
 */
module Lease {
  import opened Wrappers
  import opened Strings

  datatype Lease = Lease(
    version: int,
    scope: string,
    owner: string,
    generation: int,
    token: string,
    acquiredAt: int,
    renewedAt: int,
    expiresAt: int,
    releasedAt: Option<int>)

  datatype LeaseError =
    | InvalidInput
    | StateInvalid(scope: string)
    | Held(scope: string, owner: string, generation: int, expiresAt: int)
    | Missing(scope: string)
    | Lost(scope: string, generation: int)

  type Records = map<string, Lease>

  const VERSION := 1
  const SECOND := 1_000_000_000
  const MIN_TTL := 5 * SECOND
  const MAX_TTL := 300 * SECOND

  // ------------------------------------------------------------------- input

  predicate ScopeStart(c: char) {
    'a' <= c <= 'z' || '0' <= c <= '9'
  }

  predicate ValidScope(scope: string) {
    && 1 <= |scope| <= 64 && ScopeStart(scope[0])
    && forall c :: c in scope ==> ScopeStart(c) || c in "._-"
  }

  predicate Control(c: char) {
    c < ' ' || '\U{7F}' <= c <= '\U{9F}'
  }

  predicate ValidOwner(owner: string) {
    1 <= |owner| <= 128 && forall c :: c in owner ==> !Control(c)
  }

  predicate ValidInput(scope: string, owner: string, ttl: int) {
    ValidScope(Trim(scope)) && ValidOwner(Trim(owner)) && MIN_TTL <= ttl <= MAX_TTL
  }

  /** Whole seconds, rounded up. */
  function Seconds(ttl: int): (s: int)
    requires MIN_TTL <= ttl <= MAX_TTL
    ensures 5 <= s <= 300 && (s - 1) * SECOND < ttl <= s * SECOND
  {
    (ttl + SECOND - 1) / SECOND
  }

  // ----------------------------------------------------------------- reading

  predicate Readable(lease: Lease, scope: string) {
    && lease.version == VERSION && lease.scope == scope && lease.owner != ""
    && lease.generation >= 1 && lease.acquiredAt >= 1
    && lease.acquiredAt <= lease.renewedAt <= lease.expiresAt
  }

  function Read(records: Records, scope: string): Result<Option<Lease>, LeaseError> {
    if scope !in records then Ok(None)
    else if Readable(records[scope], scope) then Ok(Some(records[scope]))
    else Err(StateInvalid(scope))
  }

  /** The record is active and is the handle's. */
  predicate Matches(records: Records, handle: Lease, now: int) {
    && handle.scope in records && Readable(records[handle.scope], handle.scope)
    && records[handle.scope].expiresAt > now && records[handle.scope].token != ""
    && SameHandle(records[handle.scope], handle)
  }

  predicate SameHandle(lease: Lease, handle: Lease) {
    lease.owner == handle.owner && lease.generation == handle.generation && lease.token == handle.token
  }

  predicate FenceHolds(records: Records, fence: seq<Lease>, now: int) {
    forall handle :: handle in fence ==> Matches(records, handle, now)
  }

  // ------------------------------------------------------------ transactions

  datatype Action =
    | Take(scope: string, owner: string, ttl: int, token: string)
    | Join(scope: string, owner: string, ttl: int)
    | Renew(handle: Lease, ttl: int)
    | Release(handle: Lease)
    | Write

  /** A transaction of one process: its fence is checked first, under the same lock. */
  datatype Event = Event(fence: seq<Lease>, checked: int, now: int, action: Action)

  function Extended(lease: Lease, now: int, ttl: int): Lease
    requires MIN_TTL <= ttl <= MAX_TTL
  {
    lease.(renewedAt := now, expiresAt := now + Seconds(ttl), releasedAt := None)
  }

  /** The record a transaction writes, or why it writes none; Write changes other tables only. */
  function Written(records: Records, action: Action, now: int): Result<Option<Lease>, LeaseError> {
    match action
    case Take(rawScope, rawOwner, ttl, token) =>
      if !ValidInput(rawScope, rawOwner, ttl) then Err(InvalidInput)
      else
        var scope, owner := Trim(rawScope), Trim(rawOwner);
        var read := Read(records, scope);
        if read.Err? then Err(read.error)
        else if read.value.Some? && read.value.value.expiresAt > now then Err(HeldBy(read.value.value))
        else
          var generation := if read.value.Some? then read.value.value.generation + 1 else 1;
          Ok(Some(Lease(VERSION, scope, owner, generation, token, now, now, now + Seconds(ttl), None)))
    case Join(rawScope, rawOwner, ttl) =>
      if !ValidInput(rawScope, rawOwner, ttl) then Err(InvalidInput)
      else
        var scope, owner := Trim(rawScope), Trim(rawOwner);
        var read := Read(records, scope);
        if read.Err? then Err(read.error)
        else if read.value.None? || read.value.value.expiresAt <= now || read.value.value.token == "" then Err(Missing(scope))
        else if read.value.value.owner != owner then Err(HeldBy(read.value.value))
        else Ok(Some(Extended(read.value.value, now, ttl)))
    case Renew(handle, ttl) =>
      if !ValidInput(handle.scope, handle.owner, ttl) then Err(InvalidInput)
      else if handle.token == "" || handle.generation < 1 then Err(Lost(handle.scope, handle.generation))
      else
        var scope := Trim(handle.scope);
        var read := Read(records, scope);
        if read.Err? then Err(read.error)
        else if read.value.None? || read.value.value.expiresAt <= now || !SameHandle(read.value.value, handle.(owner := Trim(handle.owner)))
        then Err(Lost(scope, handle.generation))
        else Ok(Some(Extended(read.value.value, now, ttl)))
    case Release(handle) =>
      if !ValidInput(handle.scope, handle.owner, MIN_TTL) then Err(InvalidInput)
      else if handle.token == "" || handle.generation < 1 then Err(Lost(handle.scope, handle.generation))
      else
        var scope := Trim(handle.scope);
        var read := Read(records, scope);
        if read.Err? then Err(read.error)
        else if read.value.None? || !SameHandle(read.value.value, handle.(owner := Trim(handle.owner)))
        then Err(Lost(scope, handle.generation))
        else Ok(Some(read.value.value.(token := "", renewedAt := now, expiresAt := now, releasedAt := Some(now))))
    case Write => Ok(None)
  }

  function HeldBy(lease: Lease): LeaseError {
    Held(lease.scope, lease.owner, lease.generation, lease.expiresAt)
  }

  predicate Commits(records: Records, e: Event) {
    FenceHolds(records, e.fence, e.checked) && Written(records, e.action, e.now).Ok?
  }

  function After(records: Records, e: Event): Records {
    if !FenceHolds(records, e.fence, e.checked) then records
    else
      match Written(records, e.action, e.now)
      case Ok(Some(lease)) => records[lease.scope := lease]
      case _ => records
  }
}
