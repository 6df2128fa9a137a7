/** The policy coordinator itself (src/policy-coordinator.ts:45-145). */
module PolicyCoordinator {
  import opened Basics
  import opened PolicySegments

  class PolicyCoordinator {
    var snapshot: Option<Snapshot>
    var gate: Gate

    function State(): Coordinator
      reads this
    {
      Coordinator(snapshot, gate)
    }

    constructor ()
      ensures State() == RESTARTED
    {
      snapshot, gate := None, Open;
    }

    function FreshSnapshot(now: int): (recent: Option<Snapshot>)
      reads this
      ensures recent.Some? ==> recent == snapshot && now - snapshot.value.loadedAt < SNAPSHOT_MAX_AGE_MS
    {
      if snapshot.None? then None
      else
        var age := now - snapshot.value.loadedAt;
        if age >= 0 && age < SNAPSHOT_MAX_AGE_MS then snapshot else None
    }

    method Fetch(job: Job, now: int) returns (reply: Option<Reply>, sent: Option<Write>)
      requires gate == Open
      modifies this
      ensures Outcome(State(), reply, sent) == PolicySegments.Fetch(old(State()), job, now)
    {
      var current := FreshSnapshot(now);
      if job.Get? && current.Some? {
        return Some(Served(job.id, current.value.policy, current.value.loadedAt, false)), None;
      }
      if current.None? {
        snapshot, gate := None, Reading(job, now);
        return None, None;
      }
      reply, sent := Replace(job, now);
    }

    method Replace(job: Job, now: int) returns (reply: Option<Reply>, sent: Option<Write>)
      requires snapshot.Some?
      modifies this
      ensures Outcome(State(), reply, sent) == PolicySegments.Replace(old(State()), job, old(snapshot).value, now)
    {
      gate, reply, sent := Open, None, None;
      if job.Get? {
        reply := Some(Served(job.id, snapshot.value.policy, snapshot.value.loadedAt, true));
      } else if snapshot.value.policy.revision != job.expected {
        reply := Some(Conflict(job.id));
      } else if !job.fits {
        reply := Some(Invalid(job.id));
      } else {
        var write := Write(job.id, job.expected, now, job.rules);
        snapshot, gate, sent := None, Writing(write, now), Some(write);
      }
    }

    method Refreshed(row: Policy, now: int) returns (reply: Option<Reply>, sent: Option<Write>)
      requires gate.Reading?
      modifies this
      ensures Outcome(State(), reply, sent) == PolicySegments.Refreshed(old(State()), row, now)
    {
      snapshot := Some(Snapshot(row, gate.loadedAt));
      reply, sent := Replace(gate.job, now);
    }

    method RefreshFailed() returns (reply: Reply)
      requires gate.Reading?
      modifies this
      ensures Outcome(State(), Some(reply), None) == PolicySegments.RefreshFailed(old(State()))
    {
      reply := Unavailable(gate.job.id);
      snapshot, gate := None, Open;
    }

    method Written(committed: bool) returns (reply: Reply)
      requires gate.Writing?
      modifies this
      ensures Outcome(State(), Some(reply), None) == PolicySegments.Written(old(State()), committed)
    {
      var w, since := gate.write, gate.since;
      snapshot, gate := None, Open;
      if !committed { return Conflict(w.id); }
      var policy := Policy(w.expected + 1, w.updatedAt, w.rules);
      snapshot := Some(Snapshot(policy, since));
      return Replaced(w.id, policy, since);
    }

    method WriteLost() returns (reply: Reply)
      requires gate.Writing?
      modifies this
      ensures Outcome(State(), Some(reply), None) == PolicySegments.WriteLost(old(State()))
    {
      reply := Unavailable(gate.write.id);
      snapshot, gate := None, Open;
    }
  }
}
