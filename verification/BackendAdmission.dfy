/** The durable permit table of one pool (src/backend-admission.ts) with the
    statements of sql/queries/admission.sql. */
module BackendAdmission {
  import opened Basics

  const LEASE_MS := 30_000
  const DEADLINE_MS := 60_000
  const DRAIN_LIMIT := 64

  datatype Permit = Permit(clientKey: string, expiresAt: int, deadline: int)

  type PermitTable = map<string, Permit>

  function Expired(permits: PermitTable, now: int): set<string>
  {
    set id | id in permits && permits[id].expiresAt <= now
  }

  /** The rows that `CountBackendPermits` counts. */
  function Live(permits: PermitTable, clientKey: string, now: int): set<string>
  {
    set id | id in permits && permits[id].clientKey == clientKey && permits[id].expiresAt > now
  }

  /** `DrainBackendPermits` removes the 64 earliest expired rows. Rows that expire at
      the same time may be taken in any order. */
  ghost predicate Drains(permits: PermitTable, now: int, gone: set<string>)
  {
    && gone <= Expired(permits, now)
    && |gone| == Min(DRAIN_LIMIT, |Expired(permits, now)|)
    && forall a, b :: a in gone && b in Expired(permits, now) - gone ==> permits[a].expiresAt <= permits[b].expiresAt
  }

  /** The table after an acquisition that found `permits` once it had drained. */
  function Granted(permits: PermitTable, id: string, clientKey: string, limit: int, now: int): (after: PermitTable)
  {
    if id in permits || |Live(permits, clientKey, now)| >= limit then permits
    else permits[id := Permit(clientKey, now + LEASE_MS, now + DEADLINE_MS)]
  }

  /** An acquisition answers yes exactly when the id then owns an unexpired row of this client. */
  predicate Grants(permits: PermitTable, id: string, clientKey: string, limit: int, now: int)
  {
    if id in permits then permits[id].clientKey == clientKey && permits[id].expiresAt > now
    else |Live(permits, clientKey, now)| < limit
  }

  /** `RenewBackendPermit`: only an unexpired row inside its deadline is touched. */
  predicate Renewable(permits: PermitTable, id: string, now: int)
  {
    id in permits && permits[id].expiresAt > now && permits[id].deadline > now
  }

  function Renewed(permits: PermitTable, id: string, now: int): (after: PermitTable)
  {
    if Renewable(permits, id, now) then
      var row := permits[id];
      permits[id := row.(expiresAt := Min(row.deadline, Max(row.expiresAt, now + LEASE_MS)))]
    else permits
  }

  function Released(permits: PermitTable, id: string): (after: PermitTable)
  {
    permits - {id}
  }

  lemma DrainKeepsLive(permits: PermitTable, gone: set<string>, clientKey: string, now: int)
    requires gone <= Expired(permits, now)
    ensures Live(permits - gone, clientKey, now) == Live(permits, clientKey, now)
  {
  }

  class BackendAdmission {
    var permits: PermitTable

    constructor ()
      ensures permits == map[]
    {
      permits := map[];
    }

    method Drain(now: int) returns (ghost gone: set<string>)
      modifies this
      ensures Drains(old(permits), now, gone)
      ensures permits == old(permits) - gone
    {
      gone := {};
      var rest := Expired(permits, now);
      var doomed := {};
      while |doomed| < DRAIN_LIMIT && rest != {}
        invariant permits == old(permits)
        invariant doomed + rest == Expired(permits, now) && doomed !! rest
        invariant |doomed| <= DRAIN_LIMIT
        invariant forall a, b :: a in doomed && b in rest ==> permits[a].expiresAt <= permits[b].expiresAt
        decreases rest
      {
        var id := Earliest(permits, rest);
        doomed, rest := doomed + {id}, rest - {id};
      }
      gone := doomed;
      assert Expired(permits, now) - doomed == rest;
      assert |Expired(permits, now)| == |doomed| + |rest|;
      permits := permits - doomed;
    }

    /** No value stands for the exception thrown on an invalid limit. */
    method Acquire(id: string, clientKey: string, limit: int, now: int) returns (granted: Result, ghost gone: set<string>)
      modifies this
      ensures limit < 1 ==> granted == Thrown && permits == old(permits)
      ensures limit >= 1 ==>
                && Drains(old(permits), now, gone)
                && granted == Answer(Grants(old(permits) - gone, id, clientKey, limit, now))
                && permits == Granted(old(permits) - gone, id, clientKey, limit, now)
      ensures limit >= 1 ==> (granted == Answer(true) <==> id in permits && permits[id].clientKey == clientKey && permits[id].expiresAt > now)
      ensures limit >= 1 && id !in old(permits) ==>
                && granted == Answer(|set p | p in old(permits) && old(permits)[p].clientKey == clientKey && old(permits)[p].expiresAt > now| < limit)
                && (if granted.yes then id in permits && permits[id] == Permit(clientKey, now + 30_000, now + 60_000) else id !in permits)
      ensures forall p :: p != id && p in old(permits) && old(permits)[p].expiresAt > now ==> p in permits && permits[p] == old(permits)[p]
      ensures forall p :: p != id && p in permits ==> p in old(permits) && permits[p] == old(permits)[p]
    {
      gone := {};
      if limit < 1 { return Thrown, gone; }
      gone := Drain(now);
      DrainKeepsLive(old(permits), gone, clientKey, now);
      if id in permits {
        return Answer(permits[id].clientKey == clientKey && permits[id].expiresAt > now), gone;
      }
      var count := |Live(permits, clientKey, now)|;
      if count >= limit { return Answer(false), gone; }
      permits := permits[id := Permit(clientKey, now + LEASE_MS, now + DEADLINE_MS)];
      return Answer(true), gone;
    }

    method Renew(id: string, now: int) returns (renewed: bool)
      modifies this
      ensures renewed == Renewable(old(permits), id, now)
      ensures permits == Renewed(old(permits), id, now)
    {
      renewed := false;
      if id in permits && permits[id].expiresAt > now && permits[id].deadline > now {
        var row := permits[id];
        permits := permits[id := row.(expiresAt := Min(row.deadline, Max(row.expiresAt, now + LEASE_MS)))];
        renewed := true;
      }
    }

    method Release(id: string)
      modifies this
      ensures permits == Released(old(permits), id)
      ensures id !in permits
      ensures forall p :: p != id ==> (p in permits <==> p in old(permits)) && (p in permits ==> permits[p] == old(permits)[p])
    {
      permits := permits - {id};
    }
  }

  datatype Result = Answer(yes: bool) | Thrown

  method Earliest(permits: PermitTable, rows: set<string>) returns (id: string)
    requires rows != {} && rows <= permits.Keys
    ensures id in rows && forall other :: other in rows ==> permits[id].expiresAt <= permits[other].expiresAt
  {
    id :| id in rows;
    var rest := rows - {id};
    while rest != {}
      invariant id in rows && rest <= rows
      invariant forall other :: other in rows - rest ==> permits[id].expiresAt <= permits[other].expiresAt
      decreases rest
    {
      var other :| other in rest;
      if permits[other].expiresAt < permits[id].expiresAt { id := other; }
      rest := rest - {other};
    }
  }

  /** Every table the object can hold: no row outlives its own hard deadline. */
  ghost predicate Sound(permits: PermitTable)
  {
    forall id :: id in permits ==> permits[id].expiresAt <= permits[id].deadline
  }

  /** Time alone never adds a live row. */
  lemma LiveShrinks(permits: PermitTable, clientKey: string, earlier: int, later: int)
    requires earlier <= later
    ensures |Live(permits, clientKey, later)| <= |Live(permits, clientKey, earlier)|
  {
    SubsetSize(Live(permits, clientKey, later), Live(permits, clientKey, earlier));
  }

  lemma InsertLive(permits: PermitTable, id: string, row: Permit, now: int, client: string)
    requires id !in permits && row.expiresAt > now
    ensures |Live(permits[id := row], client, now)| == |Live(permits, client, now)| + if row.clientKey == client then 1 else 0
  {
    if row.clientKey == client {
      assert Live(permits[id := row], client, now) == Live(permits, client, now) + {id};
    } else {
      assert Live(permits[id := row], client, now) == Live(permits, client, now);
    }
  }

  /** The table after a release has every other row and no other. */
  lemma ReleasedRows(permits: PermitTable, id: string)
    ensures var after := Released(permits, id);
            && id !in after
            && forall p :: p != id ==> (p in after <==> p in permits) && (p in after ==> after[p] == permits[p])
  {
  }

  /** What the protocol's acquisition does for an id that has no row, on the rows themselves: it is granted
      exactly while the client has fewer live rows than the limit, and only then inserted. */
  lemma AcquiredRows(permits: PermitTable, gone: set<string>, id: string, clientKey: string, limit: int, now: int)
    requires gone <= Expired(permits, now) && id !in permits - gone
    ensures var live := set p | p in permits && permits[p].clientKey == clientKey && permits[p].expiresAt > now;
            var after := Granted(permits - gone, id, clientKey, limit, now);
            && (Grants(permits - gone, id, clientKey, limit, now) <==> |live| < limit)
            && (forall p :: p != id ==> (p in after <==> p in permits && p !in gone) && (p in after ==> after[p] == permits[p]))
            && if |live| < limit then id in after && after[id] == Permit(clientKey, now + 30_000, now + 60_000) else id !in after
  {
    DrainKeepsLive(permits, gone, clientKey, now);
    assert Live(permits, clientKey, now) == set p | p in permits && permits[p].clientKey == clientKey && permits[p].expiresAt > now;
  }

  /** A client at its limit gets one more id in once one of its live permits is released, and not before. */
  lemma ReleaseMakesRoom(permits: PermitTable, held: string, gone: set<string>, id: string, clientKey: string, limit: int, now: int)
    requires held in permits && permits[held].clientKey == clientKey && permits[held].expiresAt > now
    requires id !in permits && |set p | p in permits && permits[p].clientKey == clientKey && permits[p].expiresAt > now| == limit
    requires gone <= Expired(permits, now)
    ensures !Grants(permits - gone, id, clientKey, limit, now)
    ensures Grants(Released(permits, held) - gone, id, clientKey, limit, now)
    ensures !Grants(Granted(Released(permits, held) - gone, id, clientKey, limit, now), held, clientKey, limit, now)
  {
    var full, released := Live(permits, clientKey, now), Released(permits, held);
    DrainKeepsLive(permits, gone, clientKey, now);
    assert full == set p | p in permits && permits[p].clientKey == clientKey && permits[p].expiresAt > now;
    assert Live(released - gone, clientKey, now) == full - {held};
    InsertLive(released - gone, id, Permit(clientKey, now + LEASE_MS, now + DEADLINE_MS), now, clientKey);
  }

  /** Capacity: whatever the drain removed, an acquisition with a limit within `cap`
      never takes any client past its cap. */
  lemma AcquireKeepsCapacity(permits: PermitTable, gone: set<string>, id: string, clientKey: string, limit: int,
                             now: int, client: string, cap: nat)
    requires gone <= Expired(permits, now)
    requires |Live(permits, client, now)| <= cap
    requires clientKey == client ==> limit <= cap
    ensures |Live(Granted(permits - gone, id, clientKey, limit, now), client, now)| <= cap
  {
    var kept := permits - gone;
    assert Live(kept, client, now) == Live(permits, client, now);
    if id !in kept && |Live(kept, clientKey, now)| < limit {
      InsertLive(kept, id, Permit(clientKey, now + LEASE_MS, now + DEADLINE_MS), now, client);
    }
  }

  /** Renewal never revives a row: the set of live rows is the same before and after. */
  lemma RenewKeepsLive(permits: PermitTable, id: string, now: int, client: string)
    requires Sound(permits)
    ensures Live(Renewed(permits, id, now), client, now) == Live(permits, client, now)
    ensures Sound(Renewed(permits, id, now))
  {
  }

  lemma ReleaseShrinksLive(permits: PermitTable, id: string, now: int, client: string)
    ensures |Live(Released(permits, id), client, now)| <= |Live(permits, client, now)|
  {
    SubsetSize(Live(Released(permits, id), client, now), Live(permits, client, now));
  }
}
