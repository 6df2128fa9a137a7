/** The value of the policy coordinator's fields (src/policy-coordinator.ts), and one function
    for each segment of `fetch` between awaits. The gate of `blockConcurrencyWhile` is the
    continuation that runs inside it. */
module PolicySegments {
  import opened Basics

  const SNAPSHOT_MAX_AGE_MS := 60_000

  datatype Policy = Policy(revision: nat, updatedAt: int, rules: string)

  datatype Snapshot = Snapshot(policy: Policy, loadedAt: int)

  /** A request past the parsing of its body. `fits` says whether the new policy is within the
      size limit. */
  datatype Job = Get(id: nat) | Put(id: nat, expected: nat, rules: string, fits: bool)

  datatype Write = Write(id: nat, expected: nat, updatedAt: int, rules: string)

  datatype Gate = Open | Reading(job: Job, loadedAt: int) | Writing(write: Write, since: int)

  datatype Reply =
    | Served(id: nat, policy: Policy, loadedAt: int, gated: bool)
    | Replaced(id: nat, policy: Policy, loadedAt: int)
    | Conflict(id: nat)
    | Invalid(id: nat)
    | Unavailable(id: nat)

  datatype Coordinator = Coordinator(snapshot: Option<Snapshot>, gate: Gate)

  datatype Outcome = Outcome(next: Coordinator, reply: Option<Reply>, sent: Option<Write>)

  const RESTARTED := Coordinator(None, Open)

  function Fresh(snapshot: Option<Snapshot>, now: int): Option<Snapshot>
  {
    if snapshot.Some? && 0 <= now - snapshot.value.loadedAt < SNAPSHOT_MAX_AGE_MS then snapshot else None
  }

  /** A request with the gate open: answer a read from a fresh snapshot, or enter the gate. */
  function Fetch(c: Coordinator, job: Job, now: int): Outcome
  {
    var recent := Fresh(c.snapshot, now);
    if job.Get? && recent.Some? then
      Outcome(c, Some(Served(job.id, recent.value.policy, recent.value.loadedAt, false)), None)
    else if recent.None? then Outcome(Coordinator(None, Reading(job, now)), None, None)
    else Replace(c, job, recent.value, now)
  }

  function Replace(c: Coordinator, job: Job, snapshot: Snapshot, now: int): Outcome
  {
    if job.Get? then
      Outcome(Coordinator(Some(snapshot), Open), Some(Served(job.id, snapshot.policy, snapshot.loadedAt, true)), None)
    else if snapshot.policy.revision != job.expected then
      Outcome(Coordinator(Some(snapshot), Open), Some(Conflict(job.id)), None)
    else if !job.fits then
      Outcome(Coordinator(Some(snapshot), Open), Some(Invalid(job.id)), None)
    else
      var write := Write(job.id, job.expected, now, job.rules);
      Outcome(Coordinator(None, Writing(write, now)), None, Some(write))
  }

  /** The primary answered the refresh. Its age counts from before the read. */
  function Refreshed(c: Coordinator, row: Policy, now: int): Outcome
    requires c.gate.Reading?
  {
    Replace(c, c.gate.job, Snapshot(row, c.gate.loadedAt), now)
  }

  function RefreshFailed(c: Coordinator): Outcome
    requires c.gate.Reading?
  {
    Outcome(RESTARTED, Some(Unavailable(c.gate.job.id)), None)
  }

  /** The primary answered the compare-and-swap, with no row if the revision had moved. */
  function Written(c: Coordinator, committed: bool): Outcome
    requires c.gate.Writing?
  {
    var w := c.gate.write;
    if !committed then Outcome(RESTARTED, Some(Conflict(w.id)), None)
    else
      var policy := Policy(w.expected + 1, w.updatedAt, w.rules);
      Outcome(Coordinator(Some(Snapshot(policy, c.gate.since)), Open), Some(Replaced(w.id, policy, c.gate.since)), None)
  }

  /** No acknowledgement, or one that cannot be installed: the write may still commit. */
  function WriteLost(c: Coordinator): Outcome
    requires c.gate.Writing?
  {
    Outcome(RESTARTED, Some(Unavailable(c.gate.write.id)), None)
  }
}
