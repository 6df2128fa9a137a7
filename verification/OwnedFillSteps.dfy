/** Every step of an owned fill keeps its invariant. */
module OwnedFillSteps {
  import opened Basics
  import opened F = FillSegments
  import opened OwnedFillProtocol
  import opened OwnedFillInvariants

  /** The completion is logged and the owner ends, before its thread is settled. */
  function Sent(s: System, t: nat, direct: bool): System
  {
    s.(fill := Deactivated(s.fill), log := s.log + [CompletionSent(t, direct)])
  }

  lemma SentKeeps(s: System, t: nat, direct: bool)
    requires Inv(s) && s.fill.active
    requires forall j: nat :: j < |s.line| && ThreadOf(s, s.line[j]).AwaitsRenewal? ==>
               if direct then s.line[j].joined ==> !s.working else ThreadOf(s, s.line[j]).behind
    ensures Inv(Sent(s, t, direct))
  {
    var s' := Sent(s, t, direct);
    LogGrows(s.log, CompletionSent(t, direct));
    LogLonger(s.log, CompletionSent(t, direct));
    SameLine(s, s');
    forall j: nat | j < |s'.line| ensures WaiterOk(s', j) {
      assert WaiterOk(s, j) && EntryOk(s, j);
      AheadBefore(s, s', j);
    }
  }

  /** With no renewal out and nobody who has to go on directly, nobody in the line is joined. */
  lemma NobodyJoined(s: System, j: nat)
    requires Inv(s) && s.fill.renewal.None? && Free(s) && j < |s.line| && s.line[j].Continuation?
    ensures !s.line[j].joined
  {
    assert EntryOk(s, j) && EntryOk(s, 0);
    if j > 0 { assert Together(s, 0, j); }
  }

  lemma TimerIsOff(s: System)
    requires Inv(s) && s.fill.active && s.fill.renewal.Some?
    ensures F.Complete(s.fill).0 == s.fill
  {
  }

  lemma CompletesKeeps(s: System, t: nat)
    requires Inv(s) && t < |s.threads| && !Waits(s.threads[t]) && (Free(s) || !s.working)
    ensures Inv(Completes(s, t))
  {
    hide Alive, LogOk, AnswersLogged, WaitersOk, LineOk;
    if !s.fill.active {
      IdleKeeps(s, t, Over);
    } else if s.fill.renewal.Some? {
      TimerIsOff(s);
      RegisterKeeps(s, t, AwaitsToComplete(s.fill.renewal.value), s.fill.renewal.value);
    } else {
      forall j: nat | j < |s.line| && ThreadOf(s, s.line[j]).AwaitsRenewal? ensures s.line[j].joined ==> !s.working {
        if s.working { NobodyJoined(s, j); }
      }
      SentKeeps(s, t, true);
      IdleKeeps(Sent(s, t, true), t, AwaitsAnswer);
    }
  }

  lemma NeverCalled(s: System, s': System, t: nat)
    requires Inv(s) && t == |s.threads| && s' == Renewing(s).(threads := s.threads + [Over])
    ensures forall i: nat :: i < |s'.log| && s'.log[i].Called? ==> s'.log[i].thread != t
  {
  }

  lemma SameCompleters(s: System, s': System)
    requires s'.threads == s.threads + [Over]
    ensures SomebodyCompletes(s') <==> SomebodyCompletes(s)
  {
    if SomebodyCompletes(s) { var t :| 0 <= t < |s.threads| && s.threads[t].AwaitsToComplete?; assert s'.threads[t].AwaitsToComplete?; }
    if SomebodyCompletes(s') { var t :| 0 <= t < |s'.threads| && s'.threads[t].AwaitsToComplete?; assert s.threads[t].AwaitsToComplete?; }
  }

  /** A renewal that has succeeded before the call is in the log before the call. */
  lemma AnswerIsLogged(s: System, e: Effect, r: nat, late: bool)
    requires Inv(s) && late == !Unsettled(s, r) && r < |s.renewals|
    ensures ResultIs(s, r, true) ==> ConfirmedFor(s.log + [e], |s.log| + 1, r, |s.log|, late)
  {
    if ResultIs(s, r, true) {
      var k :| 0 <= k < |s.log| && s.log[k] == Confirmed(r);
      assert (s.log + [e])[k] == Confirmed(r);
    }
  }

  lemma StillOut(s: System)
    requires Inv(s) && s.fill.active
    ensures Renewing(s).fill.active && F.Renew(s.fill).1.Some? && Renewing(s).fill.renewal == F.Renew(s.fill).1
    ensures F.Renew(s.fill).1.value < |Renewing(s).renewals|
  {
  }

  lemma PublishingKeeps(s: System)
    requires Inv(s) && Free(s)
    ensures Inv(Publishing(s))
  {
    hide Alive, LogOk, WaitersOk, LineOk, Inv;
    var renewed, arrived := Renewing(s), Renewing(s).(threads := s.threads + [Over]);
    RenewingKeeps(s);
    ArrivalKeeps(renewed);
    if s.fill.active {
      var t, r := |s.threads|, F.Renew(s.fill).1.value;
      var behind, late := SomebodyCompletes(s), !Unsettled(arrived, r);
      var e := Called(t, r, behind, late);
      NeverCalled(s, arrived, t);
      StillOut(s);
      CalledKeeps(arrived, e);
      var called := arrived.(log := arrived.log + [e]);
      SameCompleters(s, called);
      AnswerIsLogged(arrived, e, r, late);
      RegisterKeeps(called, t, AwaitsRenewal(r, behind, late, |arrived.log|), r);
    }
  }

  lemma NotDead(s: System, t: nat)
    requires Inv(s) && s.line != [] && s.line[0].Continuation? && s.line[0].thread == t && t < |s.threads|
    requires Waits(s.threads[t]) && ResultIs(s, s.threads[t].renewal, true)
    ensures !Dead(s)
  {
    assert EntryOk(s, 0);
  }

  /** The publisher starts: what its place in the log then tells. */
  lemma StartIsAccounted(s: System, t: nat)
    requires Inv(s) && s.line != [] && s.line[0].Continuation? && s.line[0].thread == t && t < |s.threads|
    requires s.threads[t].AwaitsRenewal? && ResultIs(s, s.threads[t].renewal, true) && s.working
    ensures Accounted(s.log + [Started(t, s.threads[t].renewal)], |s.log|, s.threads[t].since)
  {
    hide LogOk, AnswersLogged;
    var w := s.threads[t];
    var e := Started(t, w.renewal);
    assert EntryOk(s, 0) && WaiterOk(s, 0);
    LogLonger(s.log, e);
    var grown := s.log + [e];
    assert grown[w.since] == s.log[w.since];
    NotDead(s, t);
    assert !CompleterAhead(s, 0);
    if Completed(s) {
      var m :| 0 <= m < |s.log| && s.log[m].CompletionSent?;
      assert m > w.since;
      if !w.behind { assert s.log[m].direct && Passed(s.log, |s.log|, w.since); }
    }
    if Passed(s.log, |s.log|, w.since) {
      var m :| w.since < m < |s.log| && s.log[m].CompletionSent? && s.log[m].direct;
    }
  }

  lemma StartKeeps(s: System, t: nat)
    requires Inv(s) && s.line != [] && s.line[0].Continuation? && s.line[0].thread == t && t < |s.threads|
    requires s.threads[t].AwaitsRenewal? && ResultIs(s, s.threads[t].renewal, true) && s.working
    ensures Inv(s.(line := s.line[1..], threads := s.threads[t := Publishes], log := s.log + [Started(t, s.threads[t].renewal)]))
  {
    var e := Started(t, s.threads[t].renewal);
    StartIsAccounted(s, t);
    LeaveKeeps(s, t, Publishes);
    var left := s.(line := s.line[1..], threads := s.threads[t := Publishes]);
    LogGrows(left.log, e);
    NotedKeeps(left, e);
  }

  lemma SameCompletes(s: System, s': System, t: nat)
    requires t < |s.threads| && s' == s.(threads := s.threads[t := Over])
    ensures Completes(s', t) == Completes(s, t)
  {
    assert forall x: Thread {:trigger s'.threads[t := x]} :: s'.threads[t := x] == s.threads[t := x];
  }

  lemma GoOnPublishingKeeps(s: System, t: nat, joined: bool)
    requires Inv(s) && Ready(s) && s.line[0] == Continuation(t, joined) && s.threads[t].AwaitsRenewal?
    ensures Inv(Head(s))
  {
    hide Inv;
    var rest := s.(line := s.line[1..], threads := s.threads[t := Over]);
    LeaveKeeps(s, t, Over);
    if ResultIs(s, s.threads[t].renewal, true) {
      if s.working {
        StartKeeps(s, t);
      } else {
        CompletesKeeps(rest, t);
        SameCompletes(s.(line := s.line[1..]), rest, t);
      }
    }
  }

  /** The head has waited for a renewal that has reacted; if that failed, the owner has ended. */
  lemma EndedUnlessSuccessful(s: System)
    requires Inv(s) && Ready(s) && s.line[0].Continuation?
    requires !(ResultIs(s, s.threads[s.line[0].thread].renewal, true) && s.fill.active)
    ensures !s.fill.active
  {
    assert EntryOk(s, 0) && s.line[..0] == [];
    var r := s.threads[s.line[0].thread].renewal;
    assert HasReacted(s, r) && s.renewals[r].result.Some?;
    var ok := s.renewals[r].result.value;
    assert s.renewals[r].result == Some(ok);
    if !ok { assert Dead(s); }
  }

  lemma GoOnCompletingKeeps(s: System, t: nat, joined: bool)
    requires Inv(s) && Ready(s) && s.line[0] == Continuation(t, joined) && s.threads[t].AwaitsToComplete?
    ensures Inv(Head(s))
  {
    hide LogOk, AnswersLogged;
    assert EntryOk(s, 0);
    if ResultIs(s, s.threads[t].renewal, true) && s.fill.active {
      forall j: nat | j < |s.line| && ThreadOf(s, s.line[j]).AwaitsRenewal? ensures ThreadOf(s, s.line[j]).behind {
        assert WaiterOk(s, j) && ThreadOf(s, s.line[0]).AwaitsToComplete?;
      }
      SentKeeps(s, t, false);
      LeaveKeeps(Sent(s, t, false), t, AwaitsAnswer);
    } else {
      EndedUnlessSuccessful(s);
      LeaveKeeps(s, t, Over);
    }
  }

  lemma TimerIsRenewal(s: System)
    requires Inv(s) && Enabled(s, TimerFires)
    ensures Next(s, TimerFires) == Renewing(s)
  {
  }

  lemma HeadKeeps(s: System)
    requires Inv(s) && Ready(s)
    ensures Inv(Head(s))
  {
    hide Inv, Head;
    match s.line[0]
    case Reaction(r) => ReactKeeps(s, r);
    case Continuation(t, joined) =>
      if s.threads[t].AwaitsRenewal? { GoOnPublishingKeeps(s, t, joined); } else { GoOnCompletingKeeps(s, t, joined); }
  }

  lemma StepKeeps(s: System, a: Action)
    requires Inv(s) && Enabled(s, a)
    ensures Inv(Next(s, a))
  {
    hide Inv;
    match a
    case StopWork => Effectless(s);
    case CallRenew => RenewingKeeps(s);
    case TimerFires => TimerIsRenewal(s); RenewingKeeps(s);
    case CallPublish => PublishingKeeps(s);
    case CallComplete => ArrivalKeeps(s); CompletesKeeps(s.(threads := s.threads + [Over]), |s.threads|);
    case Settle(r, ok) => SettleKeeps(s, r, ok);
    case GoOn => HeadKeeps(s);
    case PublisherEnds(t) => CompletesKeeps(s, t);
    case Answered(t) => IdleKeeps(s, t, Over);
  }

  lemma {:induction false} Reachable(actions: seq<Action>)
    ensures Inv(Run(actions))
  {
    if actions == [] {
      assert !CompletedBy([], 0);
    } else {
      var before, a := actions[..|actions| - 1], actions[|actions| - 1];
      Reachable(before);
      if Enabled(Run(before), a) { StepKeeps(Run(before), a); }
    }
  }
}
