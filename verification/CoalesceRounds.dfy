/** The owner-or-follower loop over a cache miss (src/cache-coalesce.ts:44-84, src/cache-fill.ts:37-70).

    Everything the loop awaits is answered by a script with one entry a round. An ownership is a
    number, and the ledger lists each one that the coordinator granted and what became of it. */
module CoalesceRounds {
  import opened Basics
  import opened WaiterMemory

  /** A call that rejects may have been granted an ownership that nobody learns of. */
  datatype Reply = Lost(grant: Option<nat>) | Granted(owner: nat) | Finished(outcome: Outcome) | Again

  datatype Body = Body(text: string, shared: bool)

  datatype Read = Broken | Nothing | Found(body: Body)

  datatype Verdict = Throws | Says(yes: bool)

  /** The answers of one round: whether the request may still work at each point where that is
      checked, the replies to the acquisition and to its second attempt, what the caches hold, and
      whether the owner is still active when it reports. */
  datatype Round = Round(
    admitted: bool, first: Reply, activeBetween: bool, second: Reply, activeAfter: bool,
    shared: Read, edge: Read, verdict: Verdict, alive: bool)

  /** An ownership is granted; its completion is sent; or it is left to run out. */
  datatype Event = Acquired(owner: nat) | Settled(owner: nat, outcome: Outcome) | Left(owner: nat)

  datatype Result = Held(owner: nat) | Cached(body: Body) | Error | StillWaiting

  /** The reply that `acquireOwnedCacheFill` goes by: that of the second attempt if the first was lost. */
  function Answer(round: Round): Reply
  {
    if !round.admitted then Lost(None)
    else if !round.first.Lost? then round.first
    else if round.activeBetween then round.second else Lost(None)
  }

  function Orphan(reply: Reply): seq<Event>
  {
    if reply.Lost? && reply.grant.Some? then [Acquired(reply.grant.value), Left(reply.grant.value)] else []
  }

  /** The ownerships of a round that were granted in a reply that was lost. */
  function Orphans(round: Round): seq<Event>
  {
    if !round.admitted then []
    else if round.first.Lost? && round.activeBetween then Orphan(round.first) + Orphan(round.second)
    else Orphan(round.first)
  }

  /** `complete` of an owner whose renewal may have been refused meanwhile. */
  function Report(round: Round, owner: nat, outcome: Outcome): Event
  {
    if round.alive then Settled(owner, outcome) else Left(owner)
  }

  /** What one round comes to, and what it does to the ownership it was granted. */
  function Played(round: Round, zeroAge: bool): (Option<Result>, seq<Event>)
  {
    var reply := Answer(round);
    if reply.Lost? then (Some(Error), [])
    else if reply.Granted? then
      var (result, events) := Owned(round, reply.owner, zeroAge);
      (Some(result), [Acquired(reply.owner)] + events)
    else if !round.activeAfter then (Some(Error), [])
    else if zeroAge then (None, [])
    else (Followed(round, reply), [])
  }

  function Owned(round: Round, owner: nat, zeroAge: bool): (Result, seq<Event>)
  {
    if !round.activeAfter then (Error, [Settled(owner, Failed)])
    else if zeroAge then (Held(owner), [])
    else Rechecked(round, owner)
  }

  function Rechecked(round: Round, owner: nat): (Result, seq<Event>)
  {
    match round.shared
    case Broken => (Error, [Report(round, owner, Failed)])
    case Nothing => (Held(owner), [])
    case Found(body) =>
      match round.verdict
      case Throws => (Error, [Report(round, owner, Failed)])
      case Says(yes) =>
        if yes then (Cached(body), [Report(round, owner, if body.shared then Shared else EdgeOnly)]) else (Held(owner), [])
  }

  /** A follower reads the cache that the owner's outcome names. */
  function Followed(round: Round, reply: Reply): Option<Result>
  {
    var read := if reply == Finished(Shared) then round.shared else if reply == Finished(EdgeOnly) then round.edge else Nothing;
    match read
    case Broken => Some(Error)
    case Nothing => None
    case Found(body) =>
      match round.verdict
      case Throws => Some(Error)
      case Says(yes) => if yes then Some(Cached(body)) else None
  }

  /** The loop: the first round that is the last one. */
  function Coalesced(rounds: seq<Round>, zeroAge: bool): (Result, seq<Event>)
  {
    if rounds == [] then (StillWaiting, [])
    else
      var (end, events) := Played(rounds[0], zeroAge);
      match end
      case Some(result) => (result, Orphans(rounds[0]) + events)
      case None =>
        var (result, later) := Coalesced(rounds[1..], zeroAge);
        (result, Orphans(rounds[0]) + events + later)
  }

  // ------------------------------------------------- what becomes of every ownership

  /** Each ownership has one end, next to its grant. */
  predicate Closed(ledger: seq<Event>)
  {
    ledger == [] ||
    (|ledger| >= 2 && ledger[0].Acquired? && !ledger[1].Acquired? && ledger[1].owner == ledger[0].owner && Closed(ledger[2..]))
  }

  lemma {:induction false} ClosedAdds(left: seq<Event>, right: seq<Event>)
    requires Closed(left) && Closed(right)
    ensures Closed(left + right)
  {
    if left == [] {
      assert left + right == right;
    } else {
      ClosedAdds(left[2..], right);
      assert (left + right)[2..] == left[2..] + right;
    }
  }

  lemma OrphansAreClosed(round: Round)
    ensures Closed(Orphans(round))
  {
    ClosedAdds(Orphan(round.first), Orphan(round.second));
  }

  /** Every ownership in the ledger has its end, except the one that is returned, which is the last. */
  predicate Accounted(result: Result, ledger: seq<Event>)
  {
    if result.Held?
    then |ledger| > 0 && Closed(ledger[..|ledger| - 1]) && ledger[|ledger| - 1] == Acquired(result.owner)
    else Closed(ledger)
  }

  lemma ClosedThenAccounted(earlier: seq<Event>, result: Result, ledger: seq<Event>)
    requires Closed(earlier) && Accounted(result, ledger)
    ensures Accounted(result, earlier + ledger)
  {
    hide Closed;
    if result.Held? {
      ClosedAdds(earlier, ledger[..|ledger| - 1]);
      assert (earlier + ledger)[..|earlier + ledger| - 1] == earlier + ledger[..|ledger| - 1];
    } else {
      ClosedAdds(earlier, ledger);
    }
  }

  lemma PlayedIsAccounted(round: Round, zeroAge: bool)
    ensures var (end, events) := Played(round, zeroAge); if end.Some? then Accounted(end.value, events) else events == []
  {
  }

  lemma NothingIsAccounted()
    ensures Accounted(StillWaiting, [])
  {
  }

  /** Every ownership that was granted is settled or left, exactly once, except the one that is returned,
      which is neither; and a result is never both an owner and a body. */
  lemma {:induction false} OwnershipIsSettledOrReturned(rounds: seq<Round>, zeroAge: bool)
    ensures Accounted(Coalesced(rounds, zeroAge).0, Coalesced(rounds, zeroAge).1)
  {
    hide Closed, Accounted, Played, Orphans;
    if rounds == [] {
      NothingIsAccounted();
    } else {
      var (end, events) := Played(rounds[0], zeroAge);
      var orphans := Orphans(rounds[0]);
      OrphansAreClosed(rounds[0]);
      PlayedIsAccounted(rounds[0], zeroAge);
      if end.Some? {
        ClosedThenAccounted(orphans, end.value, events);
      } else {
        OwnershipIsSettledOrReturned(rounds[1..], zeroAge);
        var (result, later) := Coalesced(rounds[1..], zeroAge);
        ClosedThenAccounted(orphans, result, later);
        assert orphans + events + later == orphans + later;
      }
    }
  }

  /** The rounds that are played: up to the first that is the last one. */
  function Rounds(rounds: seq<Round>, zeroAge: bool): (n: nat)
    ensures n <= |rounds|
  {
    if rounds == [] then 0 else if Played(rounds[0], zeroAge).0.Some? then 1 else 1 + Rounds(rounds[1..], zeroAge)
  }

  /** The coordinator granted this ownership to this round. */
  predicate GrantedIn(round: Round, owner: nat)
  {
    Answer(round) == Granted(owner) || GrantLostIn(round, owner)
  }

  predicate GrantLostIn(round: Round, owner: nat)
  {
    && round.admitted && round.first.Lost?
    && (round.first.grant == Some(owner) || (round.activeBetween && round.second == Lost(Some(owner))))
  }

  /** The owner has nothing to return and reports, but its renewal was refused. */
  predicate GaveUpIn(round: Round, owner: nat, zeroAge: bool)
  {
    && Answer(round) == Granted(owner) && round.activeAfter && !round.alive && !zeroAge
    && (round.shared.Broken? || (round.shared.Found? && round.verdict != Says(false)))
  }

  lemma RoundAccounts(round: Round, zeroAge: bool, o: nat)
    ensures var ledger := Orphans(round) + Played(round, zeroAge).1;
            && (Acquired(o) in ledger <==> GrantedIn(round, o))
            && (Left(o) in ledger <==> GrantLostIn(round, o) || GaveUpIn(round, o, zeroAge))
  {
    var orphans, events := Orphans(round), Played(round, zeroAge).1;
    assert (Acquired(o) in orphans <==> GrantLostIn(round, o)) && (Left(o) in orphans <==> GrantLostIn(round, o));
    assert Acquired(o) in events <==> Answer(round) == Granted(o);
    assert Left(o) in events <==> GaveUpIn(round, o, zeroAge);
  }

  /** The ledger misses no ownership, and lists none that was not granted; and one is left to run out
      exactly if the reply that granted it was lost or its owner had lost it before it could report. */
  lemma {:induction false} LeftExactlyWhenLost(rounds: seq<Round>, zeroAge: bool, o: nat)
    ensures var (ledger, n) := (Coalesced(rounds, zeroAge).1, Rounds(rounds, zeroAge));
            && (Acquired(o) in ledger <==> exists k :: 0 <= k < n && GrantedIn(rounds[k], o))
            && (Left(o) in ledger <==> exists k :: 0 <= k < n && (GrantLostIn(rounds[k], o) || GaveUpIn(rounds[k], o, zeroAge)))
  {
    if rounds == [] {
    } else {
      RoundAccounts(rounds[0], zeroAge, o);
      var (end, events) := Played(rounds[0], zeroAge);
      var n := Rounds(rounds, zeroAge);
      if end.None? {
        var rest := rounds[1..];
        LeftExactlyWhenLost(rest, zeroAge, o);
        assert forall k :: 0 <= k < n - 1 ==> rest[k] == rounds[k + 1];
        assert forall k :: 0 < k < n ==> rounds[k] == rest[k - 1];
      }
    }
  }

  // ------------------------------------------------- what is returned and reported

  predicate Offered(round: Round, body: Body)
  {
    (round.shared == Found(body) || round.edge == Found(body)) && round.verdict == Says(true)
  }

  /** A body that is returned was read and accepted in the last round of a request that may reuse one;
      a request for a fresh one ends with an ownership or an error. */
  lemma {:induction false} BodiesAreAccepted(rounds: seq<Round>, zeroAge: bool)
    ensures Coalesced(rounds, zeroAge).0.Cached? ==>
              !zeroAge && exists n :: 0 <= n < |rounds| && Offered(rounds[n], Coalesced(rounds, zeroAge).0.body)
  {
    if rounds == [] {
    } else if Played(rounds[0], zeroAge).0.None? {
      BodiesAreAccepted(rounds[1..], zeroAge);
      var result := Coalesced(rounds, zeroAge).0;
      if result.Cached? {
        var n :| 0 <= n < |rounds[1..]| && Offered(rounds[1..][n], result.body);
        assert rounds[n + 1] == rounds[1..][n];
      }
    } else if Coalesced(rounds, zeroAge).0.Cached? {
      assert Offered(rounds[0], Coalesced(rounds, zeroAge).0.body);
    }
  }

  /** An outcome other than failure is reported only with the body that was reused, and names where it was. */
  lemma {:induction false} SettlementsAreTruthful(rounds: seq<Round>, zeroAge: bool, n: nat)
    requires n < |Coalesced(rounds, zeroAge).1| && Coalesced(rounds, zeroAge).1[n].Settled?
    ensures var (result, ledger) := Coalesced(rounds, zeroAge);
            if ledger[n].outcome == Failed then result == Error
            else result.Cached? && ledger[n].outcome == if result.body.shared then Shared else EdgeOnly
  {
    var (end, events) := Played(rounds[0], zeroAge);
    var orphans := Orphans(rounds[0]);
    if end.None? {
      SettlementsAreTruthful(rounds[1..], zeroAge, n - |orphans|);
    }
  }
}
