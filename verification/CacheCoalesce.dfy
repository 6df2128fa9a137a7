/** The loop over a cache miss itself, and the acquisition of an owner (src/cache-coalesce.ts:15-85,
    src/cache-fill.ts:40-70). */
module CacheCoalesce {
  import opened Basics
  import opened WaiterMemory
  import opened R = CoalesceRounds

  datatype Acquisition = Mine(owner: nat) | Others(reply: Reply) | Threw

  method AcquireOwnedCacheFill(round: Round) returns (a: Acquisition, ledger: seq<Event>)
    ensures a == match Answer(round)
                 case Lost(_) => Threw
                 case Granted(owner) => if round.activeAfter then Mine(owner) else Threw
                 case reply => if round.activeAfter then Others(reply) else Threw
    ensures ledger == Orphans(round) +
                      match Answer(round)
                      case Granted(owner) =>
                        if round.activeAfter then [Acquired(owner)] else [Acquired(owner), Settled(owner, Failed)]
                      case _ => []
  {
    ledger := [];
    if !round.admitted { return Threw, []; }
    var acquisition := round.first;
    if acquisition.Lost? {
      ledger := Orphan(acquisition);
      if !round.activeBetween { return Threw, ledger; }
      acquisition := round.second;
      if acquisition.Lost? { return Threw, ledger + Orphan(acquisition); }
    }
    if !acquisition.Granted? {
      if !round.activeAfter { return Threw, ledger; }
      return Others(acquisition), ledger;
    }
    if !round.activeAfter {
      return Threw, ledger + [Acquired(acquisition.owner), Settled(acquisition.owner, Failed)];
    }
    return Mine(acquisition.owner), ledger + [Acquired(acquisition.owner)];
  }

  /** One turn of the loop: what ends it, if anything does, and what the turn adds to the ledger. */
  method PlayRound(round: Round, zeroAge: bool) returns (end: Option<R.Result>, events: seq<Event>)
    ensures end == Played(round, zeroAge).0 && events == Orphans(round) + Played(round, zeroAge).1
  {
    var acquisition, taken := AcquireOwnedCacheFill(round);
    if acquisition.Threw? { return Some(Error), taken; }
    if acquisition.Mine? {
      var owner := acquisition.owner;
      if zeroAge { return Some(Held(owner)), taken; }
      if round.shared.Broken? || (round.shared.Found? && round.verdict.Throws?) {
        return Some(Error), taken + [Report(round, owner, Failed)];
      }
      if round.shared.Found? && round.verdict.yes {
        return Some(Cached(round.shared.body)),
               taken + [Report(round, owner, if round.shared.body.shared then Shared else EdgeOnly)];
      }
      return Some(Held(owner)), taken;
    }
    if zeroAge { return None, taken; }
    var cached := Nothing;
    if acquisition.reply == Finished(Shared) {
      cached := round.shared;
    } else if acquisition.reply == Finished(EdgeOnly) {
      cached := round.edge;
    }
    if cached.Broken? || (cached.Found? && round.verdict.Throws?) { return Some(Error), taken; }
    if cached.Found? && round.verdict.yes { return Some(Cached(cached.body)), taken; }
    return None, taken;
  }

  method CoalesceGitHubCacheMiss(rounds: seq<Round>, zeroAge: bool) returns (result: R.Result, ledger: seq<Event>)
    ensures (result, ledger) == Coalesced(rounds, zeroAge)
    ensures Accounted(result, ledger)
  {
    hide Played, Orphans, Accounted;
    OwnershipIsSettledOrReturned(rounds, zeroAge);
    ledger := [];
    assert rounds[0..] == rounds && ledger + Coalesced(rounds, zeroAge).1 == Coalesced(rounds, zeroAge).1;
    for n := 0 to |rounds|
      invariant Coalesced(rounds, zeroAge) == (Coalesced(rounds[n..], zeroAge).0, ledger + Coalesced(rounds[n..], zeroAge).1)
    {
      assert rounds[n..][0] == rounds[n] && rounds[n..][1..] == rounds[n + 1..];
      ghost var later := Coalesced(rounds[n + 1..], zeroAge).1;
      var end, events := PlayRound(rounds[n], zeroAge);
      assert ledger + (events + later) == ledger + events + later;
      ledger := ledger + events;
      if end.Some? { return end.value, ledger; }
    }
    assert rounds[|rounds|..] == [] && ledger + [] == ledger;
    return StillWaiting, ledger;
  }
}
