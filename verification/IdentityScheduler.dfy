/** The identity tables updated in place (src/pool-coordinator.ts:281-390). */
module IdentityScheduler {
  import opened Basics
  import opened T = IdentityTables

  class IdentityScheduler {
    var leases: map<string, Lease>
    var rates: map<(string, string), Rate>
    var cooldowns: map<(string, string), int>

    function State(): Tables
      reads this
    {
      Tables(leases, rates, cooldowns)
    }

    constructor ()
      ensures State() == Tables(map[], map[], map[])
    {
      leases, rates, cooldowns := map[], map[], map[];
    }

    /** The deletions of expired rows before a selection; which are dropped is the database's choice. */
    method Drain(now: int, oldLeases: set<string>, oldCooldowns: set<(string, string)>)
      modifies this
      ensures Drained(old(State()), State(), now)
    {
      leases := map r | r in leases && !(r in oldLeases && leases[r].expires <= now) :: leases[r];
      cooldowns := map k | k in cooldowns && !(k in oldCooldowns && cooldowns[k] <= now) :: cooldowns[k];
    }

    method SelectIdentity(q: Request, now: int) returns (r: Result)
      modifies this
      ensures Selects(old(State()), q, now, r, State())
    {
      ghost var t := State();
      if q.route in leases {
        var lease := leases[q.route];
        if lease.expires > now && IsCandidate(q, lease.identity) && !CoolingDown(State(), lease.identity, q, now)
           && !Exhausted(State(), lease.identity, q.resource, now) {
          return Sticky(lease.identity, Seconds(lease.expires - now));
        }
      }
      assert !LeaseUsable(t, q, now);
      var best := BestCandidate(State(), q, now);
      if best == None { return Unavailable; }
      leases := leases[q.route := Lease(q.candidates[best.value].id, now + LEASE_MS)];
      return Highest(q.candidates[best.value].id);
    }

    method RecordResult(o: Observation, now: int)
      modifies this
      ensures State() == Recorded(old(State()), o, now)
    {
      if TellsRate(o) {
        var key, reset := (o.identity, o.resource), o.resetSeconds.value * 1000;
        var limit := if o.limit.Some? then o.limit.value else FULL_QUOTA;
        if key !in rates || reset > rates[key].reset {
          rates := rates[key := Rate(limit, o.remaining.value, reset)];
        } else if reset == rates[key].reset {
          var least := if o.remaining.value < rates[key].remaining then o.remaining.value else rates[key].remaining;
          rates := rates[key := Rate(rates[key].limit, least, reset)];
        }
      }
      if AsksPause(o) {
        var c := Classified(o, now);
        Pause(o.identity, c.key, now + c.ttl);
      }
    }

    method RecordCredentialFailure(id: string, now: int)
      modifies this
      ensures State() == CredentialFailed(old(State()), id, now)
    {
      Pause(id, "*", now + COOLDOWN_MS);
    }

    method Pause(id: string, key: string, expires: int)
      modifies this`cooldowns
      ensures State() == WithCooldown(old(State()), id, key, expires)
    {
      if (id, key) !in cooldowns || expires > cooldowns[(id, key)] {
        cooldowns := cooldowns[(id, key) := expires];
      }
    }
  }

  /** The loop over the candidates. */
  method BestCandidate(t: Tables, q: Request, now: int) returns (best: Option<nat>)
    ensures if best.Some? then Best(t, q, now, best.value) else NoneEligible(t, q, now)
  {
    var bestScore := 0;
    best := None;
    for n := 0 to |q.candidates|
      invariant best.None? ==> forall j :: 0 <= j < n ==> !Eligible(t, q.candidates[j].id, q, now)
      invariant best.Some? ==>
                  && best.value < n && Eligible(t, q.candidates[best.value].id, q, now)
                  && bestScore == Score(t, q.candidates[best.value], q.resource, now)
                  && forall j :: 0 <= j < n && Eligible(t, q.candidates[j].id, q, now) ==>
                       Score(t, q.candidates[j], q.resource, now) <= bestScore
                       && (j < best.value ==> Score(t, q.candidates[j], q.resource, now) < bestScore)
    {
      var candidate := q.candidates[n];
      if CoolingDown(t, candidate.id, q, now) { continue; }
      if Exhausted(t, candidate.id, q.resource, now) { continue; }
      var score := Score(t, candidate, q.resource, now);
      if best.None? || score > bestScore {
        best, bestScore := Some(n), score;
      }
    }
  }
}
