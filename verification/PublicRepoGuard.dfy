/** The retry loop of the public repository guard (src/public-repos.ts:54-138,429-470), with one
    script entry for the answers it gets in each round. */
module PublicRepoGuard {
  import opened Basics
  import opened ProofTable

  const GRACE_MS := 5_000

  /** What a read of a cache or of the table gives, and when. */
  datatype Read = Broken | Read(found: Option<Proof>, now: int)

  datatype Acquisition = Lost | Granted(id: nat) | Shared(publicationId: nat) | Again

  datatype Probe = Fails | Inconclusive | Seen(isPublic: bool)

  datatype Round = Round(
    acquisition: Acquisition,
    followed: Read,      // a follower's read of the table
    reusable: Read,      // an owner's read before its probe
    probe: Probe,
    edge: Read,          // the caches, after an inconclusive probe
    covering: Read,
    accepted: bool,      // stored or not, the completion was accepted
    rejected: bool,      // the storage was rejected
    expired: bool,       // the observation expired meanwhile
    recheck: Read)

  datatype Request = Request(cacheCreatedAt: Option<int>, startedAt: int)

  datatype Evidence = ByProof(proof: Proof) | ByProbe(id: nat)

  datatype Result = Success(evidence: Evidence) | NotPublic | Error | StillWaiting

  datatype Verdict = Usable(proof: Proof) | Private | Unusable | Failed

  predicate Fresh(p: Proof, now: int)
  {
    p.wellFormed && p.expiresAt > now
  }

  predicate Covers(p: Proof, at: int, now: int)
  {
    p.checkedAt >= at - GRACE_MS && p.expiresAt > now
  }

  /** `readAuthoritativeProof` */
  function Authoritative(read: Read, at: int, minimum: nat): (v: Verdict)
    ensures v.Usable? ==> read.Read? && read.found == Some(v.proof) && v.proof.isPublic && v.proof.id >= minimum
  {
    if read.Broken? then Failed
    else if read.found.None? || !Fresh(read.found.value, read.now) || read.found.value.id < minimum then Unusable
    else if !read.found.value.isPublic then Private
    else if Covers(read.found.value, at, read.now) then Usable(read.found.value) else Unusable
  }

  /** `coveringPublicRepoProofSource`; its query selects public rows only. */
  function Covering(round: Round, at: int, minimum: nat): (v: Verdict)
    ensures v.Usable? ==> v.proof.isPublic && v.proof.id >= minimum
    ensures v.Usable? ==> (round.edge.Read? && round.edge.found == Some(v.proof)) || (round.covering.Read? && round.covering.found == Some(v.proof))
  {
    if round.edge.Broken? then Failed
    else if round.edge.found.Some? && Fresh(round.edge.found.value, round.edge.now) && round.edge.found.value.isPublic
         && round.edge.found.value.id >= minimum && Covers(round.edge.found.value, at, round.edge.now)
    then Usable(round.edge.found.value)
    else if round.covering.Broken? then Failed
    else if round.covering.found.Some? && round.covering.found.value.isPublic && round.covering.found.value.id >= minimum
         && Covers(round.covering.found.value, at, round.covering.now)
    then Usable(round.covering.found.value)
    else Unusable
  }

  /** A round ends the request, or leaves it to the next one with what it has itself observed. */
  datatype Step = Ends(result: Result) | Goes

  /** What this request saw under a publication id of its own. */
  datatype Observation = Observation(id: nat, isPublic: bool)

  function FromVerdict(v: Verdict, otherwise: Step): Step
  {
    match v
    case Usable(p) => Ends(Success(ByProof(p)))
    case Private => Ends(NotPublic)
    case Failed => Ends(Error)
    case Unusable => otherwise
  }

  /** After the probe. */
  function Published(round: Round, q: Request, id: nat, isPublic: bool, minimum: nat): Step
  {
    if round.rejected || !round.accepted || round.expired
    then FromVerdict(Authoritative(round.recheck, q.startedAt, minimum), Goes)
    else Ends(if isPublic then Success(ByProbe(id)) else NotPublic)
  }

  function Probed(round: Round, q: Request, id: nat, minimum: nat): (Step, seq<Observation>)
  {
    match round.probe
    case Fails => (Ends(Error), [])
    case Inconclusive =>
      if q.cacheCreatedAt.None? then (Ends(Error), [])
      else (FromVerdict(Covering(round, q.cacheCreatedAt.value, minimum), Ends(Error)), [])
    case Seen(isPublic) =>
      (Published(round, q, id, isPublic, Max(minimum, id)), [Observation(id, isPublic)])
  }

  function Owned(round: Round, q: Request, id: nat, minimum: nat): (Step, seq<Observation>)
  {
    var reused := if q.cacheCreatedAt.None? then Unusable else Authoritative(round.reusable, q.cacheCreatedAt.value, minimum);
    if reused.Unusable? then Probed(round, q, id, minimum) else (FromVerdict(reused, Goes), [])
  }

  function One(round: Round, q: Request, minimum: nat): (Step, seq<Observation>)
  {
    match round.acquisition
    case Lost => (Ends(Error), [])
    case Again => (Goes, [])
    case Shared(id) => (FromVerdict(Authoritative(round.followed, q.startedAt, Max(minimum, id)), Goes), [])
    case Granted(id) => Owned(round, q, id, minimum)
  }

  /** The evidence floor after some observations. */
  function Floor(observations: seq<Observation>): (floor: nat)
    ensures forall o :: o in observations ==> o.id <= floor
    ensures floor == 0 || exists i :: 0 <= i < |observations| && observations[i].id == floor
  {
    if observations == [] then 0
    else
      var last := |observations| - 1;
      assert observations == observations[..last] + [observations[last]];
      Max(Floor(observations[..last]), observations[last].id)
  }

  /** The loop, from some observations on: its result and all it has observed. */
  function Guarded(rounds: seq<Round>, q: Request, seen: seq<Observation>): (Result, seq<Observation>)
  {
    if rounds == [] then (StillWaiting, seen)
    else
      var (step, more) := One(rounds[0], q, Floor(seen));
      if step.Ends? then (step.result, seen + more) else Guarded(rounds[1..], q, seen + more)
  }

  lemma FloorAdds(seen: seq<Observation>, o: Observation)
    ensures Floor(seen + [o]) == Max(Floor(seen), o.id)
  {
    assert (seen + [o])[..|seen|] == seen;
  }

  method EnsurePublicGitHubRepo(rounds: seq<Round>, q: Request) returns (result: Result, ghost observations: seq<Observation>)
    ensures result == Guarded(rounds, q, []).0
    ensures observations == Guarded(rounds, q, []).1
  {
    observations := [];
    var minimumPublicationId: nat := 0;
    for n := 0 to |rounds|
      invariant minimumPublicationId == Floor(observations)
      invariant Guarded(rounds, q, []) == Guarded(rounds[n..], q, observations)
    {
      var round := rounds[n];
      assert rounds[n..][0] == round && rounds[n..][1..] == rounds[n + 1..];
      assert observations + [] == observations;
      if round.acquisition.Lost? { return Error, observations; }
      if !round.acquisition.Granted? {
        if round.acquisition.Shared? {
          var proof := Authoritative(round.followed, q.startedAt, Max(minimumPublicationId, round.acquisition.publicationId));
          if proof.Usable? { return Success(ByProof(proof.proof)), observations; }
          if proof.Private? { return NotPublic, observations; }
          if proof.Failed? { return Error, observations; }
        }
      } else {
        var id := round.acquisition.id;
        var reused := if q.cacheCreatedAt.None? then Unusable
                      else Authoritative(round.reusable, q.cacheCreatedAt.value, minimumPublicationId);
        if reused.Usable? { return Success(ByProof(reused.proof)), observations; }
        if reused.Private? { return NotPublic, observations; }
        if reused.Failed? { return Error, observations; }
        if round.probe.Fails? { return Error, observations; }
        if round.probe.Inconclusive? {
          if q.cacheCreatedAt.None? { return Error, observations; }
          var source := Covering(round, q.cacheCreatedAt.value, minimumPublicationId);
          if source.Usable? { return Success(ByProof(source.proof)), observations; }
          if source.Private? { return NotPublic, observations; }
          return Error, observations;
        }
        var observation := round.probe.isPublic;
        FloorAdds(observations, Observation(id, observation));
        observations := observations + [Observation(id, observation)];
        minimumPublicationId := Max(minimumPublicationId, id);
        if round.rejected || !round.accepted || round.expired {
          var proof := Authoritative(round.recheck, q.startedAt, minimumPublicationId);
          if proof.Usable? { return Success(ByProof(proof.proof)), observations; }
          if proof.Private? { return NotPublic, observations; }
          if proof.Failed? { return Error, observations; }
        } else {
          if !observation { return NotPublic, observations; }
          return Success(ByProbe(id)), observations;
        }
      }
    }
    return StillWaiting, observations;
  }

  // ------------------------------------------------- what the table guarantees

  /** A proof under an id of this request tells what the request itself observed. */
  predicate Agrees(read: Read, seen: seq<Observation>)
  {
    read.Read? && read.found.Some? ==>
      forall i :: 0 <= i < |seen| && seen[i].id == read.found.value.id ==> seen[i].isPublic == read.found.value.isPublic
  }

  /** The answers are those of the coordinator and the table: ids that are granted grow, and every
      proof that is read agrees with what was observed before it was. */
  predicate Honest(rounds: seq<Round>, q: Request, seen: seq<Observation>)
  {
    rounds == [] ||
    (var round := rounds[0];
     var more := One(round, q, Floor(seen)).1;
     && Agrees(round.followed, seen) && Agrees(round.reusable, seen) && Agrees(round.edge, seen)
     && Agrees(round.covering, seen) && Agrees(round.recheck, seen + more)
     && (round.acquisition.Granted? ==> forall o :: o in seen ==> o.id < round.acquisition.id)
     && Honest(rounds[1..], q, seen + more))
  }

  function EvidenceId(e: Evidence): nat
  {
    match e case ByProof(p) => p.id case ByProbe(id) => id
  }

  ghost predicate AboveAll(e: Evidence, seen: seq<Observation>)
  {
    forall o :: o in seen && !o.isPublic ==> EvidenceId(e) > o.id
  }

  lemma ProofAboveAll(p: Proof, read: Read, seen: seq<Observation>)
    requires read.Read? && read.found == Some(p) && p.isPublic && p.id >= Floor(seen) && Agrees(read, seen)
    ensures AboveAll(ByProof(p), seen)
  {
    forall o | o in seen && !o.isPublic ensures p.id > o.id {
      var i :| 0 <= i < |seen| && seen[i] == o;
    }
  }

  lemma ProbeAboveAll(id: nat, seen: seq<Observation>)
    requires forall o :: o in seen ==> o.id < id
    ensures AboveAll(ByProbe(id), seen + [Observation(id, true)])
  {
  }

  lemma EndsAboveAll(round: Round, q: Request, seen: seq<Observation>)
    requires Honest([round], q, seen)
    ensures var (step, more) := One(round, q, Floor(seen));
            step.Ends? && step.result.Success? ==> AboveAll(step.result.evidence, seen + more)
  {
    hide AboveAll, Agrees, Floor, Fresh, Covers;
    var (step, more) := One(round, q, Floor(seen));
    if step.Ends? && step.result.Success? {
      assert seen + [] == seen;
      match step.result.evidence
      case ByProbe(id) => ProbeAboveAll(id, seen);
      case ByProof(p) =>
        if more != [] {
          FloorAdds(seen, more[0]);
          assert more == [more[0]];
          ProofAboveAll(p, round.recheck, seen + more);
        } else if round.acquisition.Shared? {
          ProofAboveAll(p, round.followed, seen);
        } else if q.cacheCreatedAt.Some? && Authoritative(round.reusable, q.cacheCreatedAt.value, Floor(seen)).Usable? {
          ProofAboveAll(p, round.reusable, seen);
        } else {
          ProofAboveAll(p, if round.edge.Read? && round.edge.found == Some(p) then round.edge else round.covering, seen);
        }
    }
  }

  lemma {:induction false} FloorHolds(rounds: seq<Round>, q: Request, seen: seq<Observation>)
    requires Honest(rounds, q, seen)
    ensures var (result, observations) := Guarded(rounds, q, seen);
            result.Success? ==> AboveAll(result.evidence, observations)
  {
    if rounds == [] {
    } else {
      assert Honest([rounds[0]], q, seen) by { assert [rounds[0]][1..] == []; }
      EndsAboveAll(rounds[0], q, seen);
      var (step, more) := One(rounds[0], q, Floor(seen));
      if step.Goes? { FloorHolds(rounds[1..], q, seen + more); }
    }
  }

  lemma {:induction false} SuccessIsPublic(rounds: seq<Round>, q: Request, seen: seq<Observation>)
    ensures var result := Guarded(rounds, q, seen).0;
            result.Success? && result.evidence.ByProof? ==> result.evidence.proof.isPublic
  {
    if rounds == [] {
    } else {
      var (step, more) := One(rounds[0], q, Floor(seen));
      if step.Goes? { SuccessIsPublic(rounds[1..], q, seen + more); }
    }
  }

  /** With answers that are honest in this sense, a request that has itself seen the repository not
      public succeeds only on evidence under a later publication id. */
  lemma FloorOfHonestAnswers(rounds: seq<Round>, q: Request, o: Observation)
    requires Honest(rounds, q, [])
    requires Guarded(rounds, q, []).0.Success? && o in Guarded(rounds, q, []).1 && !o.isPublic
    ensures EvidenceId(Guarded(rounds, q, []).0.evidence) > o.id
    ensures Guarded(rounds, q, []).0.evidence.ByProof? ==> Guarded(rounds, q, []).0.evidence.proof.isPublic
  {
    FloorHolds(rounds, q, []);
    SuccessIsPublic(rounds, q, []);
  }

  /** The test for the floor is not strict; that ids are not shared is what makes it so. A table that
      let another writer use the request's own id would be believed. */
  lemma FloorNeedsUniqueIds() returns (rounds: seq<Round>, q: Request)
    ensures !Honest(rounds, q, [])
    ensures var (result, observations) := Guarded(rounds, q, []);
            result.Success? && exists o :: o in observations && !o.isPublic && EvidenceId(result.evidence) == o.id
  {
    var p := Proof(7, true, true, 100, 200);
    var read := Read(Some(p), 150);
    var round := Round(Granted(7), Broken, Broken, Seen(false), Broken, Broken, false, true, false, read);
    rounds, q := [round], Request(None, 100);
    assert Floor([]) == 0;
    var o := Observation(7, false);
    assert One(round, q, 0) == (Ends(Success(ByProof(p))), [o]);
    assert [] + [o] == [o];
    assert Guarded(rounds, q, []) == (Success(ByProof(p)), [o]);
    assert [o][0] == o && !Agrees(read, [o]);
  }
}
