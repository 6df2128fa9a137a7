/** What a caller of the policy coordinator gets when nothing is lost (src/policy-coordinator.ts:48-145). */
module PolicyUse {
  import opened Basics
  import opened PolicySegments

  lemma WrittenIsKept(c: Coordinator, now: int)
    requires c.gate.Writing? && c.gate.since <= now < c.gate.since + SNAPSHOT_MAX_AGE_MS
    ensures var out := Written(c, true);
            && out.reply == Some(Replaced(c.gate.write.id, Policy(c.gate.write.expected + 1, c.gate.write.updatedAt, c.gate.write.rules), c.gate.since))
            && out.next.gate == Open
            && out.next.snapshot == Some(Snapshot(Policy(c.gate.write.expected + 1, c.gate.write.updatedAt, c.gate.write.rules), c.gate.since))
            && Fresh(out.next.snapshot, now) == out.next.snapshot
  {
  }

  /** An accepted PUT is what reads are answered with from then on, until its age is up; a PUT from the
      revision that a fresh snapshot holds is sent on, and from any other revision refused. */
  lemma AcceptedPutIsServed(c: Coordinator, job: Job, now: int, get: nat, later: int)
    requires c.gate == Open && job.Put? && job.fits && Fresh(c.snapshot, now).Some?
    requires now <= later < now + SNAPSHOT_MAX_AGE_MS
    ensures var held := c.snapshot.value.policy;
            var out := Fetch(c, job, now);
            if held.revision != job.expected then out == Outcome(c, Some(Conflict(job.id)), None)
            else
              && out.sent == Some(Write(job.id, job.expected, now, job.rules)) && out.next.gate.Writing?
              && var written := Written(out.next, true);
              && written.reply == Some(Replaced(job.id, Policy(job.expected + 1, now, job.rules), now))
              && Fetch(written.next, Get(get), later).reply == Some(Served(get, Policy(job.expected + 1, now, job.rules), now, false))
  {
    hide Written;
    var out := Fetch(c, job, now);
    if c.snapshot.value.policy.revision == job.expected {
      WrittenIsKept(out.next, later);
    }
  }

  /** The same without a fresh snapshot: the request refreshes first, is compared with the row that was
      read, and its policy is aged from the instant at which it was sent on. */
  lemma AcceptedPutIsServedAfterRefresh(c: Coordinator, job: Job, now: int, row: Policy, read: int, get: nat, later: int)
    requires c.gate == Open && job.Put? && job.fits && Fresh(c.snapshot, now) == None
    requires now <= read <= later < read + SNAPSHOT_MAX_AGE_MS
    ensures var entered := Fetch(c, job, now);
            && entered.reply == None && entered.sent == None && entered.next.gate.Reading?
            && var out := Refreshed(entered.next, row, read);
            if row.revision != job.expected then out == Outcome(Coordinator(Some(Snapshot(row, now)), Open), Some(Conflict(job.id)), None)
            else
              && out.reply == None && out.sent == Some(Write(job.id, job.expected, read, job.rules)) && out.next.gate.Writing?
              && var written := Written(out.next, true);
              && written.reply == Some(Replaced(job.id, Policy(job.expected + 1, read, job.rules), read))
              && Fetch(written.next, Get(get), later).reply == Some(Served(get, Policy(job.expected + 1, read, job.rules), read, false))
  {
    hide Written;
    var out := Refreshed(Fetch(c, job, now).next, row, read);
    if row.revision == job.expected {
      WrittenIsKept(out.next, later);
    }
  }

  /** A read is answered from a snapshot that is less than a minute old, and otherwise with the row it reads,
      which is kept for those after it. */
  lemma ReadsAreServed(c: Coordinator, id: nat, now: int, row: Policy, read: int)
    requires c.gate == Open
    ensures if c.snapshot.Some? && 0 <= now - c.snapshot.value.loadedAt < 60_000 then
              Fetch(c, Get(id), now) == Outcome(c, Some(Served(id, c.snapshot.value.policy, c.snapshot.value.loadedAt, false)), None)
            else
              var entered := Fetch(c, Get(id), now);
              && entered.reply == None && entered.sent == None && entered.next.gate.Reading? && entered.next.snapshot == None
              && Refreshed(entered.next, row, read) == Outcome(Coordinator(Some(Snapshot(row, now)), Open), Some(Served(id, row, now, true)), None)
  {
  }

  /** A policy that would be too large is refused once its revision is right, and what was loaded is kept. */
  lemma OversizedIsInvalid(c: Coordinator, job: Job, now: int, row: Policy, read: int)
    requires c.gate == Open && job.Put? && !job.fits
    ensures if c.snapshot.Some? && 0 <= now - c.snapshot.value.loadedAt < 60_000 then
              Fetch(c, job, now)
              == Outcome(c, Some(if c.snapshot.value.policy.revision == job.expected then Invalid(job.id) else Conflict(job.id)), None)
            else
              var entered := Fetch(c, job, now);
              && entered.reply == None && entered.sent == None && entered.next.gate.Reading?
              && Refreshed(entered.next, row, read)
                 == Outcome(Coordinator(Some(Snapshot(row, now)), Open), Some(if row.revision == job.expected then Invalid(job.id) else Conflict(job.id)), None)
  {
  }

  /** After a write that found another revision, or an answer that was lost, nothing is kept: a conflict is
      told as such, and a loss as unavailable, whoever was waiting. */
  lemma LossesKeepNothing(c: Coordinator)
    ensures c.gate.Writing? ==> Written(c, false) == Outcome(Coordinator(None, Open), Some(Conflict(c.gate.write.id)), None)
    ensures c.gate.Writing? ==> WriteLost(c) == Outcome(Coordinator(None, Open), Some(Unavailable(c.gate.write.id)), None)
    ensures c.gate.Reading? ==> RefreshFailed(c) == Outcome(Coordinator(None, Open), Some(Unavailable(c.gate.job.id)), None)
  {
  }
}
