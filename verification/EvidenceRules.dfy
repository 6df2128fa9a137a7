/** Which answers end the guard's loop, and how, on the proofs themselves: their times, their ids and what
    they say (src/public-repos.ts:57-138,429-470,524-560). */
module EvidenceRules {
  import opened Basics
  import opened ProofTable
  import opened PublicRepoGuard

  /** The id is no lower than any under which the request has itself observed. */
  predicate NoLower(id: nat, seen: seq<Observation>)
  {
    forall o :: o in seen ==> id >= o.id
  }

  /** A live proof, not older than what it has to cover but for five seconds, and public. */
  predicate Vouches(p: Proof, at: int, now: int)
  {
    p.isPublic && p.expiresAt > now && p.checkedAt >= at - 5_000
  }

  /** The read gives this proof as evidence for `at`. */
  predicate Gives(read: Read, p: Proof, at: int, minimum: nat, seen: seq<Observation>)
  {
    && read.Read? && read.found == Some(p) && p.wellFormed
    && Vouches(p, at, read.now) && p.id >= minimum && NoLower(p.id, seen)
  }

  /** The read gives a live proof that the repository is not public. */
  predicate Denies(read: Read, minimum: nat, seen: seq<Observation>)
  {
    && read.Read? && read.found.Some? && read.found.value.wellFormed && !read.found.value.isPublic
    && read.found.value.expiresAt > read.now && read.found.value.id >= minimum && NoLower(read.found.value.id, seen)
  }

  /** The read says nothing for `at` either way. */
  predicate Silent(read: Read, at: int, minimum: nat, seen: seq<Observation>)
  {
    && read.Read? && !Denies(read, minimum, seen)
    && (read.found.Some? ==> !Gives(read, read.found.value, at, minimum, seen))
  }

  /** The row that covers a cached body; its query selects public rows only. */
  predicate GivesRow(read: Read, p: Proof, at: int, seen: seq<Observation>)
  {
    read.Read? && read.found == Some(p) && Vouches(p, at, read.now) && NoLower(p.id, seen)
  }

  /** The request holds the ownership `id` and has to probe for itself. */
  predicate Probes(round: Round, q: Request, seen: seq<Observation>, id: nat)
  {
    round.acquisition == Granted(id) && (q.cacheCreatedAt.Some? ==> Silent(round.reusable, q.cacheCreatedAt.value, 0, seen))
  }

  predicate Unpublished(round: Round)
  {
    round.rejected || !round.accepted || round.expired
  }

  /** After an inconclusive probe, the edge cache is asked first and then the table. */
  predicate Covered(round: Round, at: int, seen: seq<Observation>, p: Proof)
  {
    Gives(round.edge, p, at, 0, seen) || (EdgeSilent(round.edge, at, seen) && GivesRow(round.covering, p, at, seen))
  }

  /** The edge cache could be read and offers no such proof. */
  predicate EdgeSilent(read: Read, at: int, seen: seq<Observation>)
  {
    read.Read? && (read.found.Some? ==> !Gives(read, read.found.value, at, 0, seen))
  }

  ghost predicate SucceedsBy(round: Round, q: Request, seen: seq<Observation>, p: Proof)
  {
    || (round.acquisition.Shared? && Gives(round.followed, p, q.startedAt, round.acquisition.publicationId, seen))
    || (round.acquisition.Granted? && q.cacheCreatedAt.Some? && Gives(round.reusable, p, q.cacheCreatedAt.value, 0, seen))
    || (round.acquisition.Granted? && Probes(round, q, seen, round.acquisition.id)
        && if round.probe.Seen? then Unpublished(round) && Gives(round.recheck, p, q.startedAt, round.acquisition.id, seen)
           else round.probe.Inconclusive? && q.cacheCreatedAt.Some? && Covered(round, q.cacheCreatedAt.value, seen, p))
  }

  ghost predicate IsDenied(round: Round, q: Request, seen: seq<Observation>)
  {
    || (round.acquisition.Shared? && Denies(round.followed, round.acquisition.publicationId, seen))
    || (round.acquisition.Granted? && q.cacheCreatedAt.Some? && Denies(round.reusable, 0, seen))
    || (round.acquisition.Granted? && Probes(round, q, seen, round.acquisition.id) && round.probe.Seen?
        && if Unpublished(round) then Denies(round.recheck, round.acquisition.id, seen) else !round.probe.isPublic)
  }

  ghost predicate Breaks(round: Round, q: Request, seen: seq<Observation>)
  {
    || round.acquisition.Lost?
    || (round.acquisition.Shared? && round.followed.Broken?)
    || (round.acquisition.Granted? && q.cacheCreatedAt.Some? && round.reusable.Broken?)
    || (round.acquisition.Granted? && Probes(round, q, seen, round.acquisition.id)
        && match round.probe
           case Fails => true
           case Inconclusive => q.cacheCreatedAt.Some? ==> forall p :: !Covered(round, q.cacheCreatedAt.value, seen, p)
           case Seen(_) => Unpublished(round) && round.recheck.Broken?)
  }

  /** How a round ends the request, if it does. */
  ghost predicate EndsWith(round: Round, q: Request, seen: seq<Observation>, result: Result)
  {
    match result
    case Success(ByProof(p)) => SucceedsBy(round, q, seen, p)
    case Success(ByProbe(id)) => Probes(round, q, seen, id) && round.probe == Seen(true) && !Unpublished(round)
    case NotPublic => IsDenied(round, q, seen)
    case Error => Breaks(round, q, seen)
    case StillWaiting => false
  }

  lemma FloorMeans(id: nat, seen: seq<Observation>)
    ensures id >= Floor(seen) <==> NoLower(id, seen)
  {
    if Floor(seen) > 0 {
      var i :| 0 <= i < |seen| && seen[i].id == Floor(seen);
      assert seen[i] in seen;
    }
  }

  lemma AuthoritativeMeans(read: Read, at: int, minimum: nat, seen: seq<Observation>)
    ensures var v := Authoritative(read, at, Max(Floor(seen), minimum));
            && (v.Failed? <==> read.Broken?)
            && (v.Private? <==> Denies(read, minimum, seen))
            && (v.Unusable? <==> Silent(read, at, minimum, seen))
            && forall p :: v == Usable(p) <==> Gives(read, p, at, minimum, seen)
  {
    if read.Read? && read.found.Some? { FloorMeans(read.found.value.id, seen); }
  }

  lemma CoveringMeans(round: Round, at: int, seen: seq<Observation>)
    ensures var v := Covering(round, at, Floor(seen));
            && !v.Private?
            && forall p :: v == Usable(p) <==> Covered(round, at, seen, p)
  {
    if round.edge.Read? && round.edge.found.Some? { FloorMeans(round.edge.found.value.id, seen); }
    if round.covering.Read? && round.covering.found.Some? { FloorMeans(round.covering.found.value.id, seen); }
  }

  /** One round does exactly that, and the request observes under its own id exactly when it probes and sees. */
  lemma RoundMeans(round: Round, q: Request, seen: seq<Observation>)
    ensures var (step, more) := One(round, q, Floor(seen));
            && (forall result :: step == Ends(result) <==> EndsWith(round, q, seen, result))
            && (if round.acquisition.Granted? && Probes(round, q, seen, round.acquisition.id) && round.probe.Seen?
                then more == [Observation(round.acquisition.id, round.probe.isPublic)] else more == [])
  {
    hide Gives, Denies, Silent, Covered, Floor, NoLower, Authoritative, Covering, EdgeSilent, GivesRow;
    var minimum := Floor(seen);
    assert Max(minimum, 0) == minimum;
    match round.acquisition
    case Lost =>
    case Again =>
    case Shared(id) => AuthoritativeMeans(round.followed, q.startedAt, id, seen);
    case Granted(id) =>
      if q.cacheCreatedAt.Some? {
        AuthoritativeMeans(round.reusable, q.cacheCreatedAt.value, 0, seen);
        CoveringMeans(round, q.cacheCreatedAt.value, seen);
      }
      AuthoritativeMeans(round.recheck, q.startedAt, id, seen);
  }

  /** The request comes to round `n`: nothing before has ended it. */
  predicate Comes(rounds: seq<Round>, q: Request, n: nat)
  {
    n < |rounds| && Guarded(rounds[..n], q, []).0 == StillWaiting
  }

  lemma {:induction false} GuardedSplits(rounds: seq<Round>, q: Request, seen: seq<Observation>, n: nat)
    requires n <= |rounds|
    ensures var (result, more) := Guarded(rounds[..n], q, seen);
            Guarded(rounds, q, seen) == if result == StillWaiting then Guarded(rounds[n..], q, more) else (result, more)
    decreases n
  {
    hide One, Floor;
    if n == 0 {
      assert rounds[..0] == [] && rounds[0..] == rounds;
    } else {
      var (step, more) := One(rounds[0], q, Floor(seen));
      assert rounds[..n][1..] == rounds[1..][..n - 1] && rounds[1..][n - 1..] == rounds[n..];
      assert rounds[..n][0] == rounds[0];
      RoundMeans(rounds[0], q, seen);
      if step.Goes? { GuardedSplits(rounds[1..], q, seen + more, n - 1); }
    }
  }

  lemma {:induction false} EndFound(rounds: seq<Round>, q: Request, seen: seq<Observation>) returns (n: nat)
    requires Guarded(rounds, q, seen).0 != StillWaiting
    ensures n < |rounds| && Guarded(rounds[..n], q, seen).0 == StillWaiting
    ensures EndsWith(rounds[n], q, Guarded(rounds[..n], q, seen).1, Guarded(rounds, q, seen).0)
  {
    hide One, Floor, EndsWith;
    var (step, more) := One(rounds[0], q, Floor(seen));
    RoundMeans(rounds[0], q, seen);
    if step.Ends? {
      n := 0;
      assert rounds[..0] == [];
    } else {
      var m := EndFound(rounds[1..], q, seen + more);
      n := m + 1;
      assert rounds[..n][1..] == rounds[1..][..m] && rounds[..n][0] == rounds[0];
    }
  }

  lemma EndsAtHead(rounds: seq<Round>, q: Request, seen: seq<Observation>, result: Result)
    requires rounds != [] && EndsWith(rounds[0], q, seen, result)
    ensures Guarded(rounds, q, seen).0 == result
  {
    hide EndsWith, One, Floor;
    RoundMeans(rounds[0], q, seen);
  }

  /** The loop comes to a result exactly when it comes to a round that ends so. */
  lemma ResultExactly(rounds: seq<Round>, q: Request, result: Result)
    requires result != StillWaiting
    ensures Guarded(rounds, q, []).0 == result
            <==> exists n: nat :: Comes(rounds, q, n) && EndsWith(rounds[n], q, Guarded(rounds[..n], q, []).1, result)
  {
    hide EndsWith, One, Floor, Guarded;
    if Guarded(rounds, q, []).0 == result {
      var n := EndFound(rounds, q, []);
      assert Comes(rounds, q, n);
    }
    if n: nat :| Comes(rounds, q, n) && EndsWith(rounds[n], q, Guarded(rounds[..n], q, []).1, result) {
      GuardedSplits(rounds, q, [], n);
      EndsAtHead(rounds[n..], q, Guarded(rounds[..n], q, []).1, result);
    }
  }

  /** The read gave this proof, public and live at that instant, and checked no more than five seconds
      before `at`. */
  predicate GaveCurrent(read: Read, p: Proof, at: int)
  {
    read.Read? && read.found == Some(p) && p.isPublic && p.expiresAt > read.now && p.checkedAt >= at - 5_000
  }

  /** Where the proof was read, and what it has to cover: the start of the request for one that was told of
      or read again, the cached body for one that is reused. */
  predicate ReadInRound(round: Round, q: Request, p: Proof)
  {
    || (round.acquisition.Shared? && GaveCurrent(round.followed, p, q.startedAt))
    || (round.acquisition.Granted? && GaveCurrent(round.recheck, p, q.startedAt))
    || (round.acquisition.Granted? && q.cacheCreatedAt.Some?
        && (GaveCurrent(round.reusable, p, q.cacheCreatedAt.value) || GaveCurrent(round.edge, p, q.cacheCreatedAt.value)
            || GaveCurrent(round.covering, p, q.cacheCreatedAt.value)))
  }

  /** A proof that the loop succeeds by was read in its last round, and was current for what it vouches for. */
  lemma EvidenceIsCurrent(rounds: seq<Round>, q: Request, p: Proof)
    requires Guarded(rounds, q, []).0 == Success(ByProof(p))
    ensures exists n: nat :: Comes(rounds, q, n) && ReadInRound(rounds[n], q, p)
  {
    hide Guarded;
    ResultExactly(rounds, q, Success(ByProof(p)));
    var n: nat :| Comes(rounds, q, n) && EndsWith(rounds[n], q, Guarded(rounds[..n], q, []).1, Success(ByProof(p)));
    assert ReadInRound(rounds[n], q, p);
  }

  /** And a follower that reads such a proof, under no lower id than it was told of or has seen, succeeds by it. */
  lemma CurrentEvidenceSuffices(rounds: seq<Round>, q: Request, n: nat, p: Proof)
    requires Comes(rounds, q, n) && rounds[n].acquisition.Shared? && GaveCurrent(rounds[n].followed, p, q.startedAt)
    requires p.wellFormed && p.id >= rounds[n].acquisition.publicationId
    requires forall o :: o in Guarded(rounds[..n], q, []).1 ==> p.id >= o.id
    ensures Guarded(rounds, q, []).0 == Success(ByProof(p))
  {
    hide Guarded;
    ResultExactly(rounds, q, Success(ByProof(p)));
    assert EndsWith(rounds[n], q, Guarded(rounds[..n], q, []).1, Success(ByProof(p)));
  }
}
