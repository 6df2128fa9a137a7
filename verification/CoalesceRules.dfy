/** What ends the loop over a cache miss, and how, on the answers themselves
    (src/cache-coalesce.ts:44-84, src/cache-fill.ts:40-70). */
module CoalesceRules {
  import opened Basics
  import opened WaiterMemory
  import opened R = CoalesceRounds

  /** The acquisition answered, at once or when it was tried again. */
  predicate Heard(round: Round, reply: Reply)
  {
    && round.admitted && !reply.Lost?
    && (reply == round.first || (round.first.Lost? && round.activeBetween && reply == round.second))
  }

  /** It did not, or the request may no longer work. */
  predicate Silenced(round: Round)
  {
    || !round.admitted
    || (round.first.Lost? && (!round.activeBetween || round.second.Lost?))
    || !round.activeAfter
  }

  /** The cache that the answer tells to read: its owner looks at the shared one, a follower at the one that
      the owner's outcome names. */
  ghost predicate Reads(round: Round, read: Read)
  {
    || ((Heard(round, Finished(Shared)) || exists o :: Heard(round, Granted(o))) && read == round.shared)
    || (Heard(round, Finished(EdgeOnly)) && read == round.edge)
  }

  ghost predicate Owns(round: Round, owner: nat, zeroAge: bool)
  {
    && Heard(round, Granted(owner)) && round.activeAfter
    && (zeroAge || round.shared.Nothing? || (round.shared.Found? && round.verdict == Says(false)))
  }

  ghost predicate Reuses(round: Round, body: Body, zeroAge: bool)
  {
    && !zeroAge && !Silenced(round) && round.verdict == Says(true)
    && exists read :: Reads(round, read) && read == Found(body)
  }

  ghost predicate Fails(round: Round, zeroAge: bool)
  {
    || Silenced(round)
    || (!zeroAge && exists read :: Reads(round, read) && (read.Broken? || (read.Found? && round.verdict.Throws?)))
  }

  /** How a round ends the request, if it does. */
  ghost predicate EndsWith(round: Round, zeroAge: bool, result: R.Result)
  {
    match result
    case Held(owner) => Owns(round, owner, zeroAge)
    case Cached(body) => Reuses(round, body, zeroAge)
    case Error => Fails(round, zeroAge)
    case StillWaiting => false
  }

  lemma RoundMeans(round: Round, zeroAge: bool, result: R.Result)
    ensures Played(round, zeroAge).0 == Some(result) <==> EndsWith(round, zeroAge, result)
  {
    var reply := Answer(round);
    assert !reply.Lost? ==> Heard(round, reply);
    assert forall other :: Heard(round, other) ==> other == reply;
    assert Reads(round, round.shared) <== reply.Granted? || reply == Finished(Shared);
    assert Reads(round, round.edge) <== reply == Finished(EdgeOnly);
  }

  /** Every round before it left the request to the next. */
  ghost predicate Comes(rounds: seq<Round>, zeroAge: bool, n: nat)
  {
    n <= |rounds| && forall k, result :: 0 <= k < n ==> !EndsWith(rounds[k], zeroAge, result)
  }

  lemma {:induction false} FirstEnd(rounds: seq<Round>, zeroAge: bool) returns (n: nat)
    ensures Comes(rounds, zeroAge, n)
    ensures var result := Coalesced(rounds, zeroAge).0;
            if n < |rounds| then EndsWith(rounds[n], zeroAge, result) else result == StillWaiting
  {
    hide EndsWith, Played, Orphans;
    if rounds == [] {
      n := 0;
    } else {
      var end := Played(rounds[0], zeroAge).0;
      forall result ensures end == Some(result) <==> EndsWith(rounds[0], zeroAge, result) { RoundMeans(rounds[0], zeroAge, result); }
      if end.Some? {
        n := 0;
      } else {
        var m := FirstEnd(rounds[1..], zeroAge);
        n := m + 1;
        forall k, result | 0 <= k < n ensures !EndsWith(rounds[k], zeroAge, result) {
          if k > 0 { assert rounds[k] == rounds[1..][k - 1]; }
        }
      }
    }
  }

  lemma OneEnd(round: Round, zeroAge: bool, a: R.Result, b: R.Result)
    requires EndsWith(round, zeroAge, a) && EndsWith(round, zeroAge, b)
    ensures a == b
  {
    hide EndsWith;
    RoundMeans(round, zeroAge, a);
    RoundMeans(round, zeroAge, b);
  }

  lemma NeverWaits()
    ensures forall round, zeroAge :: !EndsWith(round, zeroAge, StillWaiting)
  {
  }

  /** The loop comes to a result exactly when the first round that ends the request ends it so; it is still
      waiting exactly when none does. */
  lemma ResultExactly(rounds: seq<Round>, zeroAge: bool, result: R.Result)
    ensures Coalesced(rounds, zeroAge).0 == result
            <==> if result.StillWaiting? then Comes(rounds, zeroAge, |rounds|)
                 else exists n: nat :: n < |rounds| && Comes(rounds, zeroAge, n) && EndsWith(rounds[n], zeroAge, result)
  {
    hide EndsWith, Coalesced;
    var end := Coalesced(rounds, zeroAge).0;
    var m := FirstEnd(rounds, zeroAge);
    assert m < |rounds| ==> !end.StillWaiting? by { NeverWaits(); }
    if n: nat :| n < |rounds| && Comes(rounds, zeroAge, n) && EndsWith(rounds[n], zeroAge, result) {
      assert n == m;
      OneEnd(rounds[n], zeroAge, result, end);
    }
  }
}
