/** What holds of every run of the publication protocol. */
module PublicationTheorems {
  import opened Basics
  import opened WaiterMemory
  import opened PublicationProtocol
  import opened PublicationInvariants

  /** In every run, every group ever created is mapped with a running timer or a queued callback that
      is its current one, or has been resolved exactly once: no wake-up is lost and none is doubled. */
  lemma NoWakeUpIsLost(actions: seq<Action>, g: nat)
    requires g < |Run(actions).memory.groups|
    ensures var m := Run(actions).memory;
            if IsMapped(m, g) then Attended(m, g) else |m.groups[g].results| == 1
  {
    Reachable(actions);
    assert Settled(Run(actions).memory, g);
  }

  /** A renewal of the owner took effect unacknowledged, after the timer that is due then was armed and
      less than a lease ago. */
  predicate Outlives(s: System, o: Owner, due: nat)
  {
    exists k :: 0 <= k < |s.unacknowledged| && s.unacknowledged[k].owner == o
                && due <= s.unacknowledged[k].at + LEASE_MS && s.now < s.unacknowledged[k].at + LEASE_MS
  }

  /** When the timer of a group is due. */
  function DueOf(m: Memory, g: nat): nat
    requires g < |m.groups|
  {
    match m.groups[g].timer
    case None => 0
    case Some(t) => if t < |m.alarms| then m.alarms[t].due else 0
  }

  lemma UnacknowledgedLast(s: System, a: Action)
    requires Inv(s) && Enabled(s, a)
    ensures UnacknowledgedOk(Next(s, a))
  {
    UnacknowledgedKept(s, a);
  }

  lemma MappedWhileWaiting(s: System, g: nat)
    requires Inv(s) && g < |s.memory.groups| && s.memory.groups[g].results == []
    ensures Current(s.memory, s.memory.groups[g].owner.resource) == Some(g)
    ensures Covered(s, s.memory.groups[g].owner.resource)
  {
    assert Settled(s.memory, g);
  }

  lemma ExpiryHasTheTimer(s: System, t: nat, g: nat)
    requires Inv(s) && Enabled(s, Expire(t)) && g < |s.memory.groups| <= |Expired(s.memory, t).groups|
    requires s.memory.groups[g].results == [] && Expired(s.memory, t).groups[g].results == [Retry]
    ensures s.memory.groups[g].timer == Some(t)
  {
    hide Covered, PendingValid;
    assert Settled(s.memory, g);
    assert s.memory.alarms[t].phase == Queued;
  }

  lemma RenewalResolvesNobody(m: Memory, o: Owner, now: nat)
    ensures |Renewed(m, o, now).groups| == |m.groups|
    ensures forall g: nat :: g < |m.groups| ==>
              Renewed(m, o, now).groups[g].results == m.groups[g].results && Renewed(m, o, now).groups[g].owner == m.groups[g].owner
  {
  }

  lemma AcquiringTellsNobodyLive(s: System, r: string, g: nat)
    requires Inv(s) && Enabled(s, EndAcquire(r)) && Current(s.memory, r) == Some(g) && s.memory.groups[g].owner.resource == r
    requires Live(AcquireEnded(s, r), s.memory.groups[g].owner) && g < |AcquireEnded(s, r).memory.groups|
    ensures AcquireEnded(s, r).memory.groups[g].results == s.memory.groups[g].results
  {
    hide Sound;
    assert PendingValid(s, r);
  }

  lemma CompletionTellsNobodyLive(s: System, r: string, g: nat)
    requires Inv(s) && Enabled(s, EndComplete(r)) && Current(s.memory, r) == Some(g) && s.memory.groups[g].owner.resource == r
    requires Live(Next(s, EndComplete(r)), s.memory.groups[g].owner) && g < |Next(s, EndComplete(r)).memory.groups|
    ensures Next(s, EndComplete(r)).memory.groups[g].results == s.memory.groups[g].results
  {
    hide Sound;
    assert PendingValid(s, r);
  }

  lemma ElsewhereResolvesNobody(s: System, a: Action, g: nat)
    requires Inv(s) && Enabled(s, a) && g < |s.memory.groups| <= |Next(s, a).memory.groups|
    requires !About(s, a, s.memory.groups[g].owner.resource)
    ensures Next(s, a).memory.groups[g].results == s.memory.groups[g].results
  {
    hide Woken, Joined, Renewed, Finished, Expired, PendingValid, Covered;
    if a.Expire? {
      StepIsLocal(s, a, s.memory.alarms[a.timer].resource);
    } else if a.EndAcquire? || a.EndRenew? || a.EndComplete? {
      StepIsLocal(s, a, a.resource);
    }
  }

  /** While the owner's row is live, only an expiry tells its followers to retry. */
  lemma RetriesByTimerOnly(s: System, a: Action, g: nat)
    requires Inv(s) && Enabled(s, a) && g < |s.memory.groups| <= |Next(s, a).memory.groups|
    requires s.memory.groups[g].results == [] && Next(s, a).memory.groups[g].results == [Retry]
    requires Live(Next(s, a), s.memory.groups[g].owner)
    ensures a.Expire? && s.memory.alarms[a.timer].resource == s.memory.groups[g].owner.resource
    ensures s.memory.groups[g].timer == Some(a.timer)
  {
    hide Sound, Woken, Joined, Renewed, Finished, Expired;
    var r := s.memory.groups[g].owner.resource;
    MappedWhileWaiting(s, g);
    if About(s, a, r) {
      if a.Expire? { ExpiryHasTheTimer(s, a.timer, g); }
      if a.EndAcquire? { AcquiringTellsNobodyLive(s, r, g); }
      if a.EndRenew? { RenewalResolvesNobody(s.memory, s.pending[r].owner, s.now); }
      if a.EndComplete? { CompletionTellsNobodyLive(s, r, g); }
    } else {
      ElsewhereResolvesNobody(s, a, g);
    }
  }

  lemma RetryMeansOutlived(s: System, a: Action, g: nat)
    requires Inv(s) && Enabled(s, a) && g < |s.memory.groups| <= |Next(s, a).memory.groups|
    requires s.memory.groups[g].results == [] && Next(s, a).memory.groups[g].results == [Retry]
    requires Live(Next(s, a), s.memory.groups[g].owner)
    ensures Outlives(Next(s, a), s.memory.groups[g].owner, DueOf(s.memory, g))
  {
    var owner := s.memory.groups[g].owner;
    var r := owner.resource;
    assert Settled(s.memory, g);
    assert r in s.memory.mapped && Covered(s, r);
    RetriesByTimerOnly(s, a, g);
    var t := a.timer;
    assert Useful(s.memory, t) && s.memory.groups[g].timer == Some(t);
    assert s.memory.alarms[t].due <= s.now < s.rows[r].lease;
    var k :| 0 <= k < |s.unacknowledged| && s.unacknowledged[k].owner == owner && s.unacknowledged[k].at + LEASE_MS >= s.rows[r].lease;
    assert Next(s, a).unacknowledged[k] == s.unacknowledged[k];
  }

  /** A follower is told to retry while its owner still holds a live lease exactly when the owner still
      has its row and a renewal took effect unacknowledged, less than a lease ago, since the follower's
      timer was last armed. */
  lemma RetryPrecedesTheLeaseExactly(actions: seq<Action>, a: Action, g: nat)
    requires Enabled(Run(actions), a) && g < |Run(actions).memory.groups| <= |Next(Run(actions), a).memory.groups|
    requires Run(actions).memory.groups[g].results == [] && Next(Run(actions), a).memory.groups[g].results == [Retry]
    ensures var (s, next) := (Run(actions), Next(Run(actions), a));
            var owner := s.memory.groups[g].owner;
            Live(next, owner) <==> OwnRow(next, owner) && Outlives(next, owner, DueOf(s.memory, g))
  {
    hide Run, Inv;
    Reachable(actions);
    var s := Run(actions);
    var owner := s.memory.groups[g].owner;
    if Live(Next(s, a), owner) { RetryMeansOutlived(s, a, g); }
    if OwnRow(Next(s, a), owner) && Outlives(Next(s, a), owner, DueOf(s.memory, g)) {
      UnacknowledgedLast(s, a);
      var u := Next(s, a).unacknowledged;
      var k :| 0 <= k < |u| && u[k].owner == owner && Next(s, a).now < u[k].at + LEASE_MS;
    }
  }

  /** As long as every renewal of the owner that took effect was acknowledged, a follower is told to
      retry only when the owner no longer holds a live lease. */
  lemma RetryOnlyAfterTheLease(actions: seq<Action>, a: Action, g: nat)
    requires Enabled(Run(actions), a) && g < |Run(actions).memory.groups| <= |Next(Run(actions), a).memory.groups|
    requires Run(actions).memory.groups[g].results == [] && Next(Run(actions), a).memory.groups[g].results == [Retry]
    requires forall u :: u in Next(Run(actions), a).unacknowledged ==> u.owner != Run(actions).memory.groups[g].owner
    ensures !Live(Next(Run(actions), a), Run(actions).memory.groups[g].owner)
  {
    RetryPrecedesTheLeaseExactly(actions, a, g);
  }

  const HOLDER := Owner(1, "r", "holder")

  lemma {:induction false} PlayAdds(s: System, left: seq<Action>, right: seq<Action>)
    ensures Play(s, left + right) == Play(Play(s, left), right)
    decreases |left|
  {
    hide Next, Enabled;
    if left == [] {
      assert left + right == right;
    } else {
      assert (left + right)[1..] == left[1..] + right;
      PlayAdds(if Enabled(s, left[0]) then Next(s, left[0]) else s, left[1..], right);
    }
  }

  lemma {:induction false} RunIsPlay(actions: seq<Action>)
    ensures Run(actions) == Play(START, actions)
  {
    hide Next, Enabled;
    if actions == [] {
    } else {
      var before, a := actions[..|actions| - 1], actions[|actions| - 1];
      RunIsPlay(before);
      assert actions == before + [a] && [a][1..] == [];
      PlayAdds(START, before, [a]);
    }
  }

  lemma Joins()
    ensures Play(START, [InsertOwner("r", "holder", true), EndAcquire("r"), InsertOwner("r", "other", true), ReadOwner("r"), EndAcquire("r")])
            == JOINED
  {
    var held := START.(rows := map["r" := Row(HOLDER, 8_000)], lastId := 1);
    assert Next(START, InsertOwner("r", "holder", true)) == held.(pending := map["r" := Granted(HOLDER)]);
    assert Next(held.(pending := map["r" := Granted(HOLDER)]), EndAcquire("r")) == held;
    assert Next(held, InsertOwner("r", "other", true)) == held.(pending := map["r" := Denied]);
    assert Next(held.(pending := map["r" := Denied]), ReadOwner("r")) == held.(pending := map["r" := Found(Some(HOLDER))]);
    assert Next(held.(pending := map["r" := Found(Some(HOLDER))]), EndAcquire("r")) == JOINED;
  }

  lemma PlayFirst(s: System, a: Action, rest: seq<Action>)
    requires Enabled(s, a)
    ensures Play(s, [a] + rest) == Play(Next(s, a), rest)
  {
    assert ([a] + rest)[1..] == rest;
  }

  lemma TimesOut(lost: System)
    requires lost == JOINED.(now := 4_000, rows := map["r" := Row(HOLDER, 12_000)], unacknowledged := [Unacknowledged(HOLDER, 4_000)])
    ensures var s := Play(lost, [Tick(4_000), Fire(0), Expire(0)]);
            |s.memory.groups| == 1 && s.memory.groups[0].owner == HOLDER && s.memory.groups[0].results == [Retry] && Live(s, HOLDER)
  {
    var due := lost.(now := 8_000);
    var fired := due.(memory := Memory(due.memory.groups, due.memory.mapped, [Alarm(0, "r", 8_000, Queued)]));
    assert Next(due, Fire(0)).memory.alarms == fired.memory.alarms;
    assert Next(due, Fire(0)) == fired;
    assert Current(fired.memory, "r") == Some(0) && fired.memory.alarms[0] == Alarm(0, "r", 8_000, Queued);
    assert fired.memory.groups[0] == Group(HOLDER, Some(0), []);
    var rest := fired.memory.(alarms := [Alarm(0, "r", 8_000, Over)]);
    assert fired.memory.(alarms := fired.memory.alarms[0 := Alarm(0, "r", 8_000, Over)]) == rest;
    assert Next(fired, Expire(0)).memory == Woken(rest, "r", Retry);
    assert Woken(rest, "r", Retry).groups == [Group(HOLDER, Some(0), [] + [Retry])];
    assert Play(due, [Fire(0), Expire(0)]) == Play(fired, [Expire(0)]);
  }

  lemma Loses()
    ensures var s := Play(JOINED, [Tick(4_000), RenewRow(HOLDER), Reject("r"), Tick(4_000), Fire(0), Expire(0)]);
            |s.memory.groups| == 1 && s.memory.groups[0].owner == HOLDER && s.memory.groups[0].results == [Retry] && Live(s, HOLDER)
  {
    hide Play;
    var later := JOINED.(now := 4_000);
    assert Live(later, HOLDER);
    var renewed := later.(rows := map["r" := Row(HOLDER, 12_000)], pending := map["r" := Extended(HOLDER, true, 4_000)]);
    assert Next(later, RenewRow(HOLDER)).rows == renewed.rows;
    assert Next(later, RenewRow(HOLDER)) == renewed;
    var lost := renewed.(pending := map[], unacknowledged := [Unacknowledged(HOLDER, 4_000)]);
    assert Next(renewed, Reject("r")) == lost;
    var rest := [Tick(4_000), Fire(0), Expire(0)];
    PlayFirst(renewed, Reject("r"), rest);
    PlayFirst(later, RenewRow(HOLDER), [Reject("r")] + rest);
    PlayFirst(JOINED, Tick(4_000), [RenewRow(HOLDER)] + ([Reject("r")] + rest));
    TimesOut(lost);
    assert [Tick(4_000)] + ([RenewRow(HOLDER)] + ([Reject("r")] + rest))
        == [Tick(4_000), RenewRow(HOLDER), Reject("r"), Tick(4_000), Fire(0), Expire(0)];
  }

  /** Such a retry: the renewal commits and its call rejects, so that the timer is not armed again. */
  lemma RetryMayPrecedeTheLease() returns (actions: seq<Action>)
    ensures var s := Run(actions);
            |s.memory.groups| == 1 && s.memory.groups[0].owner == HOLDER && s.memory.groups[0].results == [Retry] && Live(s, HOLDER)
  {
    var joining := [InsertOwner("r", "holder", true), EndAcquire("r"), InsertOwner("r", "other", true), ReadOwner("r"), EndAcquire("r")];
    var losing := [Tick(4_000), RenewRow(HOLDER), Reject("r"), Tick(4_000), Fire(0), Expire(0)];
    actions := joining + losing;
    RunIsPlay(actions);
    PlayAdds(START, joining, losing);
    Joins();
    Loses();
  }

  /** The same run, from its first action on. */
  function Play(s: System, actions: seq<Action>): System
    decreases |actions|
  {
    if actions == [] then s else Play(if Enabled(s, actions[0]) then Next(s, actions[0]) else s, actions[1..])
  }

  const JOINED := System(
    0, map["r" := Row(HOLDER, 8_000)], 1, Memory([Group(HOLDER, Some(0), [])], map["r" := 0], [Alarm(0, "r", 8_000, Armed)]), map[], {}, [])

  /** At some point of the run the owner's row was live, and the owner's own completion removed it. */
  ghost predicate CompletedAt(actions: seq<Action>, i: nat, o: Owner, outcome: Outcome, id: Option<nat>)
  {
    && i < |actions| && actions[i] == DeleteRow(o, outcome, id)
    && Enabled(Run(actions[..i]), actions[i]) && Live(Run(actions[..i]), o)
  }

  ghost predicate WasCompleted(actions: seq<Action>, o: Owner, outcome: Outcome, id: Option<nat>)
  {
    exists i: nat :: CompletedAt(actions, i, o, outcome, id)
  }

  ghost predicate Justified(actions: seq<Action>, s: System)
  {
    && (forall r :: r in s.pending && s.pending[r].Removed? && s.pending[r].live == Some(true) ==>
          WasCompleted(actions, s.pending[r].owner, s.pending[r].outcome, s.pending[r].publicationId))
    && (forall g: nat, outcome, id :: g < |s.memory.groups| && Completed(outcome, id) in s.memory.groups[g].results ==>
          WasCompleted(actions, s.memory.groups[g].owner, outcome, id))
  }

  lemma StillCompleted(before: seq<Action>, a: Action, o: Owner, outcome: Outcome, id: Option<nat>)
    requires WasCompleted(before, o, outcome, id)
    ensures WasCompleted(before + [a], o, outcome, id)
  {
    var i: nat :| CompletedAt(before, i, o, outcome, id);
    assert (before + [a])[..i] == before[..i];
    assert CompletedAt(before + [a], i, o, outcome, id);
  }

  lemma WokenWithRetry(m: Memory, r: string)
    ensures NoOutcomeAdded(m, Woken(m, r, Retry))
  {
  }

  lemma JoiningAddsNoOutcome(m: Memory, r: string, current: Owner, now: nat)
    ensures NoOutcomeAdded(m, Joined(m, r, current, now))
  {
    hide Woken;
    WokenWithRetry(m, r);
  }

  lemma ExpiryAddsNoOutcome(m: Memory, t: nat)
    requires t < |m.alarms|
    ensures NoOutcomeAdded(m, Expired(m, t))
  {
    hide Woken;
    WokenWithRetry(m.(alarms := m.alarms[t := m.alarms[t].(phase := Over)]), m.alarms[t].resource);
  }

  lemma CompletionAdds(s: System, q: string, g: nat, outcome: Outcome, id: Option<nat>)
    requires Inv(s) && Enabled(s, EndComplete(q)) && g < |Next(s, EndComplete(q)).memory.groups|
    requires Completed(outcome, id) in Next(s, EndComplete(q)).memory.groups[g].results
    ensures (g < |s.memory.groups| && Completed(outcome, id) in s.memory.groups[g].results
             && Next(s, EndComplete(q)).memory.groups[g].owner == s.memory.groups[g].owner)
            || s.pending[q] == Removed(Next(s, EndComplete(q)).memory.groups[g].owner, Some(true), outcome, id)
  {
    assert PendingValid(s, q);
  }

  /** The results that a step adds, and the group's owner is never changed. */
  lemma ResultsAdded(s: System, a: Action, g: nat, outcome: Outcome, id: Option<nat>)
    requires Inv(s) && Enabled(s, a) && g < |Next(s, a).memory.groups|
    requires Completed(outcome, id) in Next(s, a).memory.groups[g].results
    ensures (g < |s.memory.groups| && Completed(outcome, id) in s.memory.groups[g].results
             && Next(s, a).memory.groups[g].owner == s.memory.groups[g].owner)
            || (a.EndComplete? && s.pending[a.resource] == Removed(Next(s, a).memory.groups[g].owner, Some(true), outcome, id))
  {
    hide Sound, Covered, PendingValid, Woken, Joined, Renewed, Finished, Expired;
    match a
    case EndComplete(q) => CompletionAdds(s, q, g, outcome, id);
    case EndAcquire(q) =>
      WokenWithRetry(s.memory, q);
      if s.pending[q].Found? && s.pending[q].current.Some? { JoiningAddsNoOutcome(s.memory, q, s.pending[q].current.value, s.now); }
    case EndRenew(q) => RenewalResolvesNobody(s.memory, s.pending[q].owner, s.now);
    case Expire(t) => ExpiryAddsNoOutcome(s.memory, t);
    case _ =>
  }

  /** Only retries are added. */
  ghost predicate NoOutcomeAdded(m: Memory, m': Memory)
  {
    forall g: nat, outcome, id :: g < |m'.groups| && Completed(outcome, id) in m'.groups[g].results ==>
      g < |m.groups| && Completed(outcome, id) in m.groups[g].results && m'.groups[g].owner == m.groups[g].owner
  }

  lemma JustRemoved(before: seq<Action>, a: Action, o: Owner, outcome: Outcome, id: Option<nat>)
    requires a == DeleteRow(o, outcome, id) && Enabled(Run(before), a) && Live(Run(before), o)
    ensures WasCompleted(before + [a], o, outcome, id)
  {
    assert (before + [a])[..|before|] == before;
    assert CompletedAt(before + [a], |before|, o, outcome, id);
  }

  lemma JustifiedStep(before: seq<Action>, a: Action)
    requires Justified(before, Run(before)) && Inv(Run(before))
    ensures Justified(before + [a], Run(before + [a]))
  {
    hide Inv, WasCompleted;
    var s, s', actions := Run(before), Run(before + [a]), before + [a];
    assert actions[..|actions| - 1] == before;
    if Enabled(s, a) {
      forall g: nat, outcome, id | g < |s'.memory.groups| && Completed(outcome, id) in s'.memory.groups[g].results
        ensures WasCompleted(actions, s'.memory.groups[g].owner, outcome, id)
      {
        ResultsAdded(s, a, g, outcome, id);
        StillCompleted(before, a, s'.memory.groups[g].owner, outcome, id);
      }
      forall r | r in s'.pending && s'.pending[r].Removed? && s'.pending[r].live == Some(true)
        ensures WasCompleted(actions, s'.pending[r].owner, s'.pending[r].outcome, s'.pending[r].publicationId)
      {
        var p := s'.pending[r];
        if r in s.pending && s.pending[r] == p {
          StillCompleted(before, a, p.owner, p.outcome, p.publicationId);
        } else {
          JustRemoved(before, a, p.owner, p.outcome, p.publicationId);
        }
      }
    } else {
      forall g: nat, outcome, id | g < |s'.memory.groups| && Completed(outcome, id) in s'.memory.groups[g].results
        ensures WasCompleted(actions, s'.memory.groups[g].owner, outcome, id)
      {
        StillCompleted(before, a, s'.memory.groups[g].owner, outcome, id);
      }
      forall r | r in s'.pending && s'.pending[r].Removed? && s'.pending[r].live == Some(true)
        ensures WasCompleted(actions, s'.pending[r].owner, s'.pending[r].outcome, s'.pending[r].publicationId)
      {
        StillCompleted(before, a, s'.pending[r].owner, s'.pending[r].outcome, s'.pending[r].publicationId);
      }
    }
  }

  lemma {:induction false} RunIsJustified(actions: seq<Action>)
    ensures Justified(actions, Run(actions))
  {
    if actions == [] {
    } else {
      var before, a := actions[..|actions| - 1], actions[|actions| - 1];
      RunIsJustified(before);
      Reachable(before);
      assert actions == before + [a];
      JustifiedStep(before, a);
    }
  }

  /** A follower is told of an outcome only if its own owner reported that outcome while its lease was live. */
  lemma OutcomesComeFromTheOwner(actions: seq<Action>, g: nat, outcome: Outcome, id: Option<nat>)
    requires g < |Run(actions).memory.groups| && Run(actions).memory.groups[g].results == [Completed(outcome, id)]
    ensures exists i: nat :: CompletedAt(actions, i, Run(actions).memory.groups[g].owner, outcome, id)
  {
    RunIsJustified(actions);
    assert WasCompleted(actions, Run(actions).memory.groups[g].owner, outcome, id);
  }

  /** A live completion reaches the followers of its owner at once. */
  lemma CompletionReachesFollowers(actions: seq<Action>, r: string, g: nat)
    requires Enabled(Run(actions), EndComplete(r)) && Run(actions).pending[r].live == Some(true)
    requires g < |Run(actions).memory.groups| && IsMapped(Run(actions).memory, g)
    requires Run(actions).memory.groups[g].owner == Run(actions).pending[r].owner
    ensures var p := Run(actions).pending[r];
            var m := Next(Run(actions), EndComplete(r)).memory;
            |m.groups| > g && m.groups[g].results == [Completed(p.outcome, p.publicationId)]
  {
    Reachable(actions);
    assert Settled(Run(actions).memory, g);
  }
}
