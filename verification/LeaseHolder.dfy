/** The worker side of a backend lease (src/backend-work.ts).

    `Holder` is the value of all the fields of a `BackendWork`. There is one function for
    each run-to-completion segment of the original: the code between two awaits. */
module LeaseHolder {

  const LEASE_MS := 30_000
  const DEADLINE_MS := 60_000
  const RENEW_MS := 10_000
  const RETRY_MAX_MS := 150

  /** A time that may still be infinite, as `until` and `deadline` are before the first `enter`. */
  datatype Instant = Never | At(ms: int)

  predicate Reached(now: int, limit: Instant)
  {
    limit.At? && now >= limit.ms
  }

  /** The promise in `pending` and the point at which it is suspended. */
  datatype Pending =
    | Idle                  // undefined
    | Acquiring(attempt: nat) // awaiting the acknowledgement of this attempt
    | BackingOff            // waiting to retry after a lost acknowledgement
    | Entered               // resolved
    | Refused               // rejected

  datatype Holder = Holder(
    pending: Pending,
    until: Instant,
    deadline: Instant,
    closed: bool,
    aborted: bool,
    renewing: Instant,      // start of the renewal RPC in flight
    renewalTimer: Instant,
    expiryTimer: Instant,
    retryTimer: Instant)

  datatype Operation = Acquire(attempt: nat) | Renew(started: int) | Release

  /** What the segment leaves behind: the fields, and the RPCs it sent. */
  datatype Outcome = Outcome(holder: Holder, sent: set<Operation>)

  const FRESH := Holder(Idle, Never, Never, false, false, Never, Never, Never, Never)

  function Stop(h: Holder): Holder
  {
    h.(aborted := true, renewalTimer := Never, expiryTimer := Never)
  }

  function Check(h: Holder, now: int): Holder
  {
    if Reached(now, h.until) || Reached(now, h.deadline) then Stop(h) else h
  }

  /** The caller holds authority: `enter` has resolved and `check` would pass. */
  predicate Authorized(h: Holder, now: int)
  {
    h.pending == Entered && !Check(h, now).aborted
  }

  function Earlier(a: int, b: Instant): int
  {
    if b.At? && b.ms < a then b.ms else a
  }

  function SetExpiry(h: Holder, until: int): Holder
  {
    var limit := Earlier(until, h.deadline);
    h.(until := At(limit), expiryTimer := At(limit))
  }

  /** `enter` up to its await: the first call starts the acquisition. */
  function Enter(h: Holder, now: int): Outcome
  {
    var checked := Check(h, now);
    if checked.aborted || checked.pending != Idle then Outcome(checked, {})
    else
      var started := SetExpiry(checked.(deadline := At(now + DEADLINE_MS)), now + LEASE_MS);
      Outcome(started.(pending := Acquiring(1)), {Acquire(1)})
  }

  /** The finally block of `acquire`: an acquisition that outlived its request releases. */
  function Settle(h: Holder, pending: Pending): Outcome
  {
    Outcome(h.(pending := pending), if h.closed then {Release} else {})
  }

  function Acknowledged(h: Holder, granted: bool, now: int): Outcome
  {
    var checked := Check(if granted then h else Stop(h), now);
    if checked.aborted then Settle(checked, Refused)
    else Settle(checked.(renewalTimer := At(now + RENEW_MS)), Entered)
  }

  /** An acquire RPC that failed. A typed error, or a second failure, is final. */
  function Failed(h: Holder, typed: bool, now: int, pause: nat): Outcome
    requires h.pending.Acquiring?
  {
    if typed || h.pending.attempt == 2 then Settle(Stop(h), Refused)
    else
      var checked := Check(h, now);
      if checked.aborted then Settle(checked, Refused)
      else Outcome(checked.(pending := BackingOff, retryTimer := At(now + pause)), {})
  }

  /** The retry timer fired, or the abort signal did: send the same permit id again. */
  function Retry(h: Holder, now: int): Outcome
  {
    var checked := Check(h, now).(retryTimer := Never);
    if checked.aborted then Settle(checked, Refused)
    else Outcome(checked.(pending := Acquiring(2)), {Acquire(2)})
  }

  function RenewalDue(h: Holder, now: int): Outcome
  {
    var checked := Check(h.(renewalTimer := Never), now);
    if checked.aborted then Outcome(Stop(checked), {})
    else Outcome(checked.(renewing := At(now)), {Renew(now)})
  }

  /** Authority is extended from the start of the RPC, never from its answer. */
  function RenewalAnswered(h: Holder, renewed: bool, now: int): Holder
    requires h.renewing.At?
  {
    var checked := Check(if renewed then h else Stop(h), now).(renewing := Never);
    if checked.aborted then Stop(checked)
    else SetExpiry(checked, h.renewing.ms + LEASE_MS).(renewalTimer := At(now + RENEW_MS))
  }

  function RenewalFailed(h: Holder): Holder
  {
    Stop(h).(renewing := Never)
  }

  /** The finally block of `run`. */
  function Close(h: Holder): Outcome
  {
    Outcome(Stop(h).(closed := true), if h.pending == Idle then {} else {Release})
  }
}
