/** The guard's loop inside the table's own runs: its grants, its observations and its reads are steps of
    the table, and whatever others do happens in between (src/public-repos.ts:54-138). */
module EvidenceRuns {
  import opened Basics
  import opened ProofTable
  import opened PublicRepoGuard

  /** A read of the table or the edge cache, which may fail. */
  datatype Glance = Throws | At(now: int)

  datatype Attempt = Rejected | Grants | Follows(publicationId: nat) | Retries

  /** One round: what others do before each point of it, and what its own calls come to. A request that
      asks for a grant gets it when nobody holds one; otherwise it goes round again. */
  datatype Script = Script(
    acquiring: seq<Action>, attempt: Attempt,
    reading: seq<Action>, first: Glance,
    probing: seq<Action>, probe: Probe,
    looking: seq<Action>, edge: Glance,
    searching: seq<Action>, covering: Glance,
    publishing: seq<Action>, accepted: bool, rejected: bool, expired: bool, recheck: Glance)

  /** Others observe under their own ids only. */
  predicate Foreign(a: Action, mine: set<nat>)
  {
    a.Observe? ==> a.id !in mine
  }

  function Others(t: Table, actions: seq<Action>, mine: set<nat>): Table
    decreases |actions|
  {
    if actions == [] then t
    else Others(if Foreign(actions[0], mine) then Try(t, actions[0]) else t, actions[1..], mine)
  }

  function Look(found: Option<Proof>, g: Glance): Read
  {
    match g case Throws => Broken case At(now) => Read(found, now)
  }

  /** The tables at the points of a round. */
  datatype Points = Points(acquired: Table, read: Table, probed: Table, looked: Table, searched: Table, published: Table)

  predicate IsGranted(t: Table, mine: set<nat>, s: Script)
  {
    s.attempt.Grants? && Others(t, s.acquiring, mine).holder.None?
  }

  function Mine(t: Table, mine: set<nat>, s: Script): set<nat>
  {
    if IsGranted(t, mine, s) then mine + {Others(t, s.acquiring, mine).lastId + 1} else mine
  }

  function PointsOf(t: Table, mine: set<nat>, s: Script): Points
  {
    var asked := Others(t, s.acquiring, mine);
    var granted := IsGranted(t, mine, s);
    var acquired := if granted then Try(asked, Grant) else asked;
    var own := Mine(t, mine, s);
    var read := Others(acquired, s.reading, own);
    var ready := Others(read, s.probing, own);
    var probed := if granted && s.probe.Seen? then Try(ready, Observe(acquired.lastId, s.probe.isPublic)) else ready;
    var looked := Others(probed, s.looking, own);
    var searched := Others(looked, s.searching, own);
    Points(acquired, read, probed, looked, searched, Others(searched, s.publishing, own))
  }

  /** The answers that the loop gets in that round. */
  function RoundOf(t: Table, mine: set<nat>, s: Script): Round
  {
    var p := PointsOf(t, mine, s);
    var acquisition := match s.attempt
                       case Rejected => Lost
                       case Grants => if IsGranted(t, mine, s) then Granted(p.acquired.lastId) else Again
                       case Follows(id) => Shared(id)
                       case Retries => Again;
    Round(acquisition, Look(p.read.row, s.first), Look(p.read.row, s.first), s.probe, Look(p.looked.edge, s.edge),
          Look(p.searched.row, s.covering), s.accepted, s.rejected, s.expired, Look(p.published.row, s.recheck))
  }

  function RoundsOf(t: Table, mine: set<nat>, scripts: seq<Script>): seq<Round>
    decreases |scripts|
  {
    if scripts == [] then []
    else [RoundOf(t, mine, scripts[0])] + RoundsOf(PointsOf(t, mine, scripts[0]).published, Mine(t, mine, scripts[0]), scripts[1..])
  }

  /** What others do keeps the invariant and every observation, and adds none under the request's ids. */
  lemma {:induction false} OthersKeep(t: Table, actions: seq<Action>, mine: set<nat>)
    requires Inv(t)
    ensures var end := Others(t, actions, mine);
            && Inv(end) && end.lastId >= t.lastId
            && (forall id :: id in t.observed ==> id in end.observed && end.observed[id] == t.observed[id])
            && (forall id :: id in mine && id in end.observed ==> id in t.observed)
    decreases |actions|
  {
    if actions == [] {
    } else {
      TryKeeps(t, actions[0]);
      OthersKeep(if Foreign(actions[0], mine) then Try(t, actions[0]) else t, actions[1..], mine);
    }
  }

  /** The table knows what the request has seen. */
  predicate Knows(t: Table, seen: seq<Observation>)
  {
    forall i :: 0 <= i < |seen| ==> seen[i].id in t.observed && t.observed[seen[i].id] == seen[i].isPublic
  }

  /** From one point of a run to a later one. */
  ghost predicate Leads(t: Table, end: Table)
  {
    && Inv(t) && Inv(end) && end.lastId >= t.lastId
    && (forall id :: id in t.observed ==> id in end.observed && end.observed[id] == t.observed[id])
  }

  lemma OwnObservation(t: Table, id: nat, isPublic: bool)
    requires 1 <= id <= t.lastId && id !in t.observed
    ensures var end := Try(t, Observe(id, isPublic)); id in end.observed && end.observed[id] == isPublic
  {
  }

  /** Nothing has been observed under an id that is granted now. */
  lemma FreshId(t: Table)
    requires Inv(t) && t.holder.None?
    ensures Try(t, Grant).lastId == t.lastId + 1 && t.lastId + 1 !in Try(t, Grant).observed
  {
  }

  lemma PointsLead(t: Table, mine: set<nat>, s: Script)
    requires Inv(t)
    ensures var p := PointsOf(t, mine, s);
            && Leads(t, p.acquired) && Leads(t, p.read) && Leads(t, p.probed) && Leads(t, p.looked) && Leads(t, p.searched) && Leads(t, p.published)
            && Leads(p.probed, p.looked) && Leads(p.probed, p.searched) && Leads(p.probed, p.published)
    ensures var p := PointsOf(t, mine, s);
            IsGranted(t, mine, s) ==>
              && p.acquired.lastId > t.lastId
              && (s.probe.Seen? ==> p.acquired.lastId in p.probed.observed && p.probed.observed[p.acquired.lastId] == s.probe.isPublic)
  {
    hide Inv, Others, Try;
    var p, own := PointsOf(t, mine, s), Mine(t, mine, s);
    var asked := Others(t, s.acquiring, mine);
    OthersKeep(t, s.acquiring, mine);
    TryKeeps(asked, Grant);
    if asked.holder.None? { FreshId(asked); }
    OthersKeep(p.acquired, s.reading, own);
    OthersKeep(p.read, s.probing, own);
    var ready := Others(p.read, s.probing, own);
    if s.probe.Seen? {
      TryKeeps(ready, Observe(p.acquired.lastId, s.probe.isPublic));
      if IsGranted(t, mine, s) { OwnObservation(ready, p.acquired.lastId, s.probe.isPublic); }
    }
    OthersKeep(p.probed, s.looking, own);
    OthersKeep(p.looked, s.searching, own);
    OthersKeep(p.searched, s.publishing, own);
  }

  /** A proof read at a later point agrees with whatever the request had seen before it. */
  lemma LookAgrees(t: Table, found: Option<Proof>, g: Glance, seen: seq<Observation>)
    requires Inv(t) && Knows(t, seen) && (found == t.row || found == t.edge)
    ensures Agrees(Look(found, g), seen)
  {
  }

  lemma KnowsLater(t: Table, end: Table, seen: seq<Observation>)
    requires Leads(t, end) && Knows(t, seen)
    ensures Knows(end, seen)
  {
  }

  lemma SeenIdsAreOld(t: Table, seen: seq<Observation>)
    requires Inv(t) && Knows(t, seen)
    ensures forall o :: o in seen ==> o.id <= t.lastId
  {
    forall o | o in seen ensures o.id <= t.lastId {
      var i :| 0 <= i < |seen| && seen[i] == o;
      assert seen[i].id in t.observed;
    }
  }

  lemma RoundIsHonest(t: Table, mine: set<nat>, s: Script, q: Request, seen: seq<Observation>)
    requires Inv(t) && Knows(t, seen)
    ensures var (round, p) := (RoundOf(t, mine, s), PointsOf(t, mine, s));
            var more := One(round, q, Floor(seen)).1;
            && Agrees(round.followed, seen) && Agrees(round.reusable, seen) && Agrees(round.edge, seen)
            && Agrees(round.covering, seen) && Agrees(round.recheck, seen + more)
            && (round.acquisition.Granted? ==> forall o :: o in seen ==> o.id < round.acquisition.id)
            && Knows(p.published, seen + more)
  {
    hide Inv, Agrees, PointsOf, Others, Floor, Authoritative, Covering;
    var (round, p) := (RoundOf(t, mine, s), PointsOf(t, mine, s));
    var more := One(round, q, Floor(seen)).1;
    PointsLead(t, mine, s);
    KnowsLater(t, p.read, seen);
    KnowsLater(t, p.looked, seen);
    KnowsLater(t, p.searched, seen);
    LookAgrees(p.read, p.read.row, s.first, seen);
    LookAgrees(p.looked, p.looked.edge, s.edge, seen);
    LookAgrees(p.searched, p.searched.row, s.covering, seen);
    KnowsLater(t, p.probed, seen);
    assert Knows(p.probed, seen + more);
    KnowsLater(p.probed, p.published, seen + more);
    LookAgrees(p.published, p.published.row, s.recheck, seen + more);
    SeenIdsAreOld(t, seen);
  }

  lemma {:induction false} RunsAreHonest(t: Table, mine: set<nat>, scripts: seq<Script>, q: Request, seen: seq<Observation>)
    requires Inv(t) && Knows(t, seen)
    ensures Honest(RoundsOf(t, mine, scripts), q, seen)
    decreases |scripts|
  {
    if scripts == [] {
    } else {
      hide Inv, Agrees, PointsOf, RoundOf, Knows, One;
      var s := scripts[0];
      var p := PointsOf(t, mine, s);
      var rounds := RoundsOf(t, mine, scripts);
      var rest := RoundsOf(p.published, Mine(t, mine, s), scripts[1..]);
      PointsLead(t, mine, s);
      RoundIsHonest(t, mine, s, q, seen);
      RunsAreHonest(p.published, Mine(t, mine, s), scripts[1..], q, seen + One(rounds[0], q, Floor(seen)).1);
      assert rounds[1..] == rest;
    }
  }

  /** In every run of the loop, at any point of any run of the table and with anything that others do in
      between: once the request has itself seen the repository not public under an id, it succeeds only on
      a public proof or on a probe of its own under a greater id, whichever way it leaves the loop. */
  lemma EvidenceFloor(before: seq<Action>, scripts: seq<Script>, q: Request, o: Observation)
    requires var (result, observations) := Guarded(RoundsOf(Run(START, before), {}, scripts), q, []);
             result.Success? && o in observations && !o.isPublic
    ensures var result := Guarded(RoundsOf(Run(START, before), {}, scripts), q, []).0;
            EvidenceId(result.evidence) > o.id && (result.evidence.ByProof? ==> result.evidence.proof.isPublic)
  {
    ProofsAreTruthful(START, before);
    RunsAreHonest(Run(START, before), {}, scripts, q, []);
    FloorOfHonestAnswers(RoundsOf(Run(START, before), {}, scripts), q, o);
  }

  const SCRIPT := Script(
    [], Grants, [], At(0), [], Seen(false), [], At(0), [], At(0),
    [Lapse, Grant, Observe(2, true), Store(2, 5, 1_000, 10)], true, true, false, At(20))

  lemma OnlyRound(t: Table, mine: set<nat>, s: Script)
    ensures RoundsOf(t, mine, [s]) == [RoundOf(t, mine, s)]
  {
    hide RoundOf, PointsOf, Mine;
    var rest := [s][1..];
    assert RoundsOf(PointsOf(t, mine, s).published, Mine(t, mine, s), rest) == [];
  }

  lemma OthersMeanwhile(seen: Table)
    requires seen == Table(1, Some(1), map[1 := false], None, None, {})
    ensures Others(seen, [Lapse, Grant, Observe(2, true), Store(2, 5, 1_000, 10)], {1}).row == Some(Proof(2, true, true, 5, 1_000))
  {
    var a := seen.(holder := None);
    var b := Table(2, Some(2), map[1 := false], None, None, {});
    var c := b.(observed := map[1 := false, 2 := true]);
    var actions := [Lapse, Grant, Observe(2, true), Store(2, 5, 1_000, 10)];
    assert Try(seen, Lapse) == a && Try(a, Grant) == b && Try(b, Observe(2, true)) == c;
    assert actions[1..] == [Grant, Observe(2, true), Store(2, 5, 1_000, 10)];
    assert actions[1..][1..] == [Observe(2, true), Store(2, 5, 1_000, 10)];
    assert actions[1..][1..][1..] == [Store(2, 5, 1_000, 10)] && actions[1..][1..][1..][1..] == [];
    assert Others(c, [Store(2, 5, 1_000, 10)], {1}) == Try(c, Store(2, 5, 1_000, 10));
  }

  lemma OneRound()
    ensures var round := RoundOf(START, {}, SCRIPT);
            && round.acquisition == Granted(1) && round.probe == Seen(false) && round.rejected
            && round.recheck == Read(Some(Proof(2, true, true, 5, 1_000)), 20)
  {
    var seen := Table(1, Some(1), map[1 := false], None, None, {});
    var p := PointsOf(START, {}, SCRIPT);
    assert Others(START, [], {}) == START && p.acquired == Table(1, Some(1), map[], None, None, {});
    assert p.searched == seen;
    OthersMeanwhile(seen);
  }

  /** Such runs there are: the request sees the repository private under its id, its storing is rejected, and
      meanwhile a later holder sees it public and stores that, which the request then succeeds by. */
  lemma LaterEvidenceIsBelieved()
    ensures var (result, observations) := Guarded(RoundsOf(START, {}, [SCRIPT]), Request(None, 100), []);
            && result == Success(ByProof(Proof(2, true, true, 5, 1_000)))
            && observations == [Observation(1, false)]
  {
    OneRound();
    OnlyRound(START, {}, SCRIPT);
    hide RoundOf, RoundsOf;
    var round := RoundOf(START, {}, SCRIPT);
    assert Floor([]) == 0;
    assert One(round, Request(None, 100), 0) == (Ends(Success(ByProof(Proof(2, true, true, 5, 1_000)))), [Observation(1, false)]);
    assert [] + [Observation(1, false)] == [Observation(1, false)];
  }
}
