/** What holds of every run of an owned fill. */
module OwnedFillTheorems {
  import opened Basics
  import opened F = FillSegments
  import opened OwnedFillProtocol
  import opened OwnedFillInvariants
  import opened OwnedFillSteps

  /** However calls overlap, at most one completion is sent, and no renewal after it. */
  lemma OneCompletionAndNothingAfter(actions: seq<Action>, i: nat, j: nat)
    requires i < j < |Run(actions).log| && Run(actions).log[i].CompletionSent?
    ensures !Run(actions).log[j].CompletionSent? && !Run(actions).log[j].RenewSent?
  {
    Reachable(actions);
  }

  /** A publisher starts only after the renewal that its own `publish` awaited was sent and confirmed,
      and after that call unless the renewal had settled by then. */
  lemma PublishersFollowTheirRenewal(actions: seq<Action>, j: nat) returns (call: nat, sent: nat, confirmed: nat)
    requires j < |Run(actions).log| && Run(actions).log[j].Started?
    ensures var log := Run(actions).log;
            var r := log[j].renewal;
            && call < j && log[call].Called? && log[call].thread == log[j].thread && log[call].renewal == r
            && sent < confirmed < j && log[sent] == RenewSent(r) && log[confirmed] == Confirmed(r)
            && (!log[call].late ==> call < confirmed)
  {
    Reachable(actions);
    var log := Run(actions).log;
    call :| Accounted(log, j, call);
    confirmed :| 0 <= confirmed < j && log[confirmed] == Confirmed(log[j].renewal) && (!log[call].late ==> call < confirmed);
    sent :| 0 <= sent < confirmed && log[sent] == RenewSent(log[j].renewal);
  }

  /** An active owner always has its next renewal ahead: a timer or exactly one renewal in flight. An
      inactive one has no timer left. */
  lemma OwnersStayAlive(actions: seq<Action>)
    ensures var s := Run(actions);
            && (s.fill.active ==> (s.fill.timer <==> s.fill.renewal.None?)) && (!s.fill.active ==> !s.fill.timer)
            && forall q: nat, r: nat :: q < r < |s.renewals| ==> s.renewals[q].reacted || s.renewals[r].reacted
  {
    Reachable(actions);
  }

  // ------------------------------------------------- publishers after a completion

  lemma StartsWhenPermitted(s: System, t: nat, joined: bool)
    requires Ready(s) && s.line[0] == Continuation(t, joined) && s.threads[t].AwaitsRenewal?
    ensures var r := s.threads[t].renewal;
            Next(s, GoOn).log == s.log + [Started(t, r)] <==> ResultIs(s, r, true) && s.working
  {
    var r, log := s.threads[t].renewal, Next(s, GoOn).log;
    if !(ResultIs(s, r, true) && s.working) {
      assert log == s.log || exists d :: log == s.log + [CompletionSent(t, d)];
      assert log != s.log + [Started(t, r)] by { assert |log| > |s.log| ==> log[|s.log|].CompletionSent?; }
    }
  }

  lemma CompletedExactly(s: System, t: nat)
    requires Inv(s) && s.line != [] && s.line[0].Continuation? && s.line[0].thread == t && t < |s.threads|
    requires s.threads[t].AwaitsRenewal? && ResultIs(s, s.threads[t].renewal, true) && s.working
    ensures var call := s.threads[t]; Completed(s) <==> call.behind || (call.late && Passed(s.log, |s.log|, call.since))
  {
    hide LogOk, AnswersLogged;
    var e := Started(t, s.threads[t].renewal);
    assert WaiterOk(s, 0) && EntryOk(s, 0);
    StartIsAccounted(s, t);
    LogLonger(s.log, e);
    assert (s.log + [e])[s.threads[t].since] == s.log[s.threads[t].since];
  }

  /** A publication that has waited starts its publisher exactly when its renewal succeeded and work is
      still permitted. The publisher is then started though a completion was sent exactly when another
      completion was waiting as `publish` was called; or, if the renewal had already settled then, when
      a completion that did not have to wait has been sent since. */
  lemma StartsAfterCompletionExactly(actions: seq<Action>, t: nat, joined: bool)
    requires Ready(Run(actions)) && Run(actions).line[0] == Continuation(t, joined) && Run(actions).threads[t].AwaitsRenewal?
    ensures var s := Run(actions);
            var (call, next) := (s.threads[t], Next(s, GoOn));
            && (next.log == s.log + [Started(t, call.renewal)] <==> ResultIs(s, call.renewal, true) && s.working)
            && (next.log == s.log + [Started(t, call.renewal)] ==>
                  (Completed(s) <==> call.behind || (call.late && Passed(s.log, |s.log|, call.since))))
  {
    hide Run, Inv;
    Reachable(actions);
    var s := Run(actions);
    StartsWhenPermitted(s, t, joined);
    if ResultIs(s, s.threads[t].renewal, true) && s.working { CompletedExactly(s, t); }
  }

  /** The same of whole runs: of a publisher that has started, its call in the log tells whether a
      completion was sent before it. */
  lemma PublisherFollowsCompletionExactly(actions: seq<Action>, call: nat, j: nat)
    requires j < |Run(actions).log| && Run(actions).log[j].Started?
    requires call < |Run(actions).log| && Run(actions).log[call].Called? && Run(actions).log[call].thread == Run(actions).log[j].thread
    ensures var log := Run(actions).log;
            (exists h :: 0 <= h < j && log[h].CompletionSent?)
            <==> log[call].behind || (log[call].late && exists h :: call < h < j && log[h].CompletionSent? && log[h].direct)
  {
    Reachable(actions);
    var log := Run(actions).log;
    var since: nat :| Accounted(log, j, since);
    assert since == call;
    assert CompletedBy(log, j) <==> log[call].behind || (log[call].late && Passed(log, j, call));
  }

  /** What the log says of a call is so: whether a completion was waiting, and whether the renewal had settled. */
  lemma CallsAreNoted(s: System)
    requires Inv(s) && Free(s) && s.fill.active
    ensures var next := Next(s, CallPublish);
            && next.log != [] && next.log[|next.log| - 1].Called?
            && var call := next.log[|next.log| - 1];
            && call.thread == |s.threads| && next.fill.renewal == Some(call.renewal)
            && call.behind == SomebodyCompletes(s)
            && (s.fill.renewal.Some? ==> call.renewal == s.fill.renewal.value && call.late == !Unsettled(s, call.renewal))
            && (s.fill.renewal.None? ==> call.late == !s.working)
  {
  }

  lemma RunNothing()
    ensures Run([]) == START
  {
  }

  lemma OneMore(before: seq<Action>, a: Action)
    ensures Run(before + [a]) == After(Run(before), a)
  {
    assert (before + [a])[..|before|] == before;
  }

  lemma BothAreCalled()
    ensures After(After(After(START, TimerFires), CallComplete), CallPublish) == CALLED
  {
    var s := After(START, TimerFires);
    assert s == System(Fill(true, false, Some(0), 1), true, [Renewal(true, None, false)], [], [Reaction(0)], [RenewSent(0)]);
    var s' := After(s, CallComplete);
    assert s' == s.(threads := [AwaitsToComplete(0)], line := [Reaction(0), Continuation(0, true)]);
    assert s'.threads[0].AwaitsToComplete?;
  }

  lemma BothGoOn()
    ensures After(After(After(After(CALLED, Settle(0, true)), GoOn), GoOn), GoOn).log
            == [RenewSent(0), Called(1, 0, true, false), Confirmed(0), CompletionSent(0, false), Started(1, 0)]
  {
    var settled := CALLED.(renewals := [Renewal(true, Some(true), false)], log := CALLED.log + [Confirmed(0)]);
    assert After(CALLED, Settle(0, true)) == settled;
    var reacted := settled.(fill := Fill(true, true, None, 1), renewals := [Renewal(true, Some(true), true)],
                            line := [Continuation(0, true), Continuation(1, true)]);
    assert After(settled, GoOn) == reacted;
    var sent := reacted.(fill := Fill(false, false, None, 1), threads := [AwaitsAnswer, AwaitsRenewal(0, true, false, 1)],
                         line := [Continuation(1, true)], log := settled.log + [CompletionSent(0, false)]);
    assert After(reacted, GoOn) == sent;
  }

  /** `complete` waits for a renewal, `publish` is called behind it, the renewal succeeds: both go on in
      that order, and the publisher is started though nothing it stores will be completed. */
  lemma PublisherMayFollowCompletion() returns (actions: seq<Action>)
    ensures Run(actions).log == [RenewSent(0), Called(1, 0, true, false), Confirmed(0), CompletionSent(0, false), Started(1, 0)]
  {
    hide Run, Next, Enabled;
    var a := [TimerFires];
    var b := a + [CallComplete];
    var c := b + [CallPublish];
    var d := c + [Settle(0, true)];
    var e := d + [GoOn];
    var f := e + [GoOn];
    actions := f + [GoOn];
    assert Run([]) == START && a == [] + [TimerFires] by { RunNothing(); }
    OneMore([], TimerFires);
    OneMore(a, CallComplete);
    OneMore(b, CallPublish);
    OneMore(c, Settle(0, true));
    OneMore(d, GoOn);
    OneMore(e, GoOn);
    OneMore(f, GoOn);
    BothAreCalled();
    BothGoOn();
  }

  function After(s: System, a: Action): System
  {
    if Enabled(s, a) then Next(s, a) else s
  }

  const CALLED := System(Fill(true, false, Some(0), 1), true, [Renewal(true, None, false)],
                         [AwaitsToComplete(0), AwaitsRenewal(0, true, false, 1)],
                         [Reaction(0), Continuation(0, true), Continuation(1, true)],
                         [RenewSent(0), Called(1, 0, true, false)])

  /** The other way: `publish` is called when its renewal has settled but not yet reacted, and `complete`
      after the reaction, when no renewal is out to wait for. */
  lemma PublisherMayFollowDirectCompletion() returns (actions: seq<Action>)
    ensures Run(actions).log == [RenewSent(0), Confirmed(0), Called(0, 0, false, true), CompletionSent(1, true), Started(0, 0)]
  {
    var a := [TimerFires];
    var b := a + [Settle(0, true)];
    var c := b + [CallPublish];
    var d := c + [GoOn];
    var e := d + [CallComplete];
    actions := e + [GoOn];
    assert a[..0] == [] && b[..1] == a && c[..2] == b && d[..3] == c && e[..4] == d && actions[..5] == e;
    var out := Fill(true, false, Some(0), 1);
    assert Run(a) == System(out, true, [Renewal(true, None, false)], [], [Reaction(0)], [RenewSent(0)]);
    assert Run(b) == System(out, true, [Renewal(true, Some(true), false)], [], [Reaction(0)], [RenewSent(0), Confirmed(0)]);
    assert Run(c) == System(out, true, [Renewal(true, Some(true), false)], [AwaitsRenewal(0, false, true, 2)],
                            [Reaction(0), Continuation(0, false)], [RenewSent(0), Confirmed(0), Called(0, 0, false, true)]);
    assert Run(d).line == [Continuation(0, false)] && Run(d).fill == Fill(true, true, None, 1);
    assert Run(e).threads == [AwaitsRenewal(0, false, true, 2), AwaitsAnswer];
  }
}
