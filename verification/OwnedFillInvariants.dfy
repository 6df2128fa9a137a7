/** What every step of an owned fill keeps. */
module OwnedFillInvariants {
  import opened Basics
  import opened F = FillSegments
  import opened OwnedFillProtocol

  predicate CompletedBy(log: seq<Effect>, n: nat)
    requires n <= |log|
  {
    exists i :: 0 <= i < n && log[i].CompletionSent?
  }

  predicate Completed(s: System)
  {
    CompletedBy(s.log, |s.log|)
  }

  /** A renewal has failed, and the owner knows. */
  predicate Dead(s: System)
  {
    exists r :: 0 <= r < |s.renewals| && s.renewals[r].reacted && s.renewals[r].result == Some(false)
  }

  /** While the owner is active a timer runs or a renewal is out, never both; afterwards no timer remains.
      It ends by a completion or by a renewal that failed. */
  predicate Alive(s: System)
  {
    && (s.fill.active ==> (s.fill.timer <==> s.fill.renewal.None?)) && (!s.fill.active ==> !s.fill.timer)
    && (s.fill.active <==> !Completed(s) && !Dead(s))
  }

  predicate RenewalsMatch(s: System)
  {
    && |s.renewals| == s.fill.renewals
    && (s.fill.renewal.Some? ==> s.fill.renewal.value < |s.renewals|)
    && (forall r: nat :: r < |s.renewals| ==> (s.fill.renewal == Some(r) <==> !s.renewals[r].reacted))
    && (forall r: nat :: r < |s.renewals| && s.renewals[r].reacted ==> s.renewals[r].result.Some?)
  }

  /** The thread in an entry of the line, if there is one. */
  function ThreadOf(s: System, e: Entry): Thread
  {
    if e.Continuation? && e.thread < |s.threads| then s.threads[e.thread] else Over
  }

  function Awaited(s: System, e: Entry): nat
  {
    if e.Reaction? then e.renewal else if Waits(ThreadOf(s, e)) then ThreadOf(s, e).renewal else 0
  }

  predicate HasReacted(s: System, r: nat)
  {
    r < |s.renewals| && s.renewals[r].reacted
  }

  predicate ResultIs(s: System, r: nat, ok: bool)
  {
    r < |s.renewals| && s.renewals[r].result == Some(ok)
  }

  /** Whatever is behind a reaction awaits that renewal. */
  predicate InOrder(s: System, i: nat, j: nat)
    requires i < j < |s.line|
  {
    s.line[i].Reaction? ==> s.line[j].Continuation? && Awaited(s, s.line[j]) == s.line[i].renewal
  }

  /** Whoever is ahead of a joined one, for the same renewal or after its reaction, is joined too. */
  predicate Together(s: System, i: nat, j: nat)
    requires i < j < |s.line|
  {
    s.line[j].Continuation? && s.line[j].joined && s.line[i].Continuation?
    && (Awaited(s, s.line[i]) == Awaited(s, s.line[j]) || HasReacted(s, Awaited(s, s.line[j])))
    ==> s.line[i].joined
  }

  predicate InLine(s: System, t: nat)
  {
    exists i :: 0 <= i < |s.line| && s.line[i].Continuation? && s.line[i].thread == t
  }

  /** Whatever awaits a renewal that has not reacted is behind its reaction. */
  predicate EntryOk(s: System, j: nat)
    requires j < |s.line|
  {
    && Awaited(s, s.line[j]) < |s.renewals|
    && (s.line[j].Reaction? ==> s.fill.renewal == Some(s.line[j].renewal))
    && (s.line[j].Continuation? ==>
          && Waits(ThreadOf(s, s.line[j]))
          && (HasReacted(s, Awaited(s, s.line[j])) || Reaction(Awaited(s, s.line[j])) in s.line[..j])
          && (Unsettled(s, Awaited(s, s.line[j])) ==> s.line[j].joined)
          && (ThreadOf(s, s.line[j]).AwaitsRenewal? ==> s.line[j].joined == !ThreadOf(s, s.line[j]).late)
          && (Dead(s) ==> ResultIs(s, Awaited(s, s.line[j]), false)))
  }

  ghost predicate LineOk(s: System)
  {
    && (forall j: nat :: j < |s.line| ==> EntryOk(s, j))
    && (forall i: nat, j: nat :: i < j < |s.line| ==> InOrder(s, i, j) && Together(s, i, j))
    && (forall i: nat, j: nat :: i < j < |s.line| && s.line[i].Continuation? && s.line[j].Continuation? ==>
          s.line[i].thread != s.line[j].thread)
    && (forall t: nat :: t < |s.threads| && Waits(s.threads[t]) ==> InLine(s, t))
    && (s.fill.renewal.Some? ==> Reaction(s.fill.renewal.value) in s.line)
  }

  // ------------------------------------------------- the log

  predicate Logged(log: seq<Effect>, n: nat, e: Effect)
    requires n <= |log|
  {
    exists i :: 0 <= i < n && log[i] == e
  }

  /** The answer to the renewal that a call awaited, after that call unless the renewal had settled by then. */
  predicate ConfirmedFor(log: seq<Effect>, n: nat, r: nat, since: nat, late: bool)
    requires n <= |log|
  {
    exists k :: 0 <= k < n && log[k] == Confirmed(r) && (!late ==> since < k)
  }

  /** A completion that did not have to wait was sent after the call. */
  predicate Passed(log: seq<Effect>, n: nat, since: nat)
    requires n <= |log|
  {
    exists m :: since < m < n && log[m].CompletionSent? && log[m].direct
  }

  /** What a publisher that starts at `j` has behind it. */
  ghost predicate Accounted(log: seq<Effect>, j: nat, since: nat)
    requires j < |log| && log[j].Started?
  {
    && since < j && log[since].Called? && log[since].thread == log[j].thread && log[since].renewal == log[j].renewal
    && ConfirmedFor(log, j, log[j].renewal, since, log[since].late)
    && (CompletedBy(log, j) <==> log[since].behind || (log[since].late && Passed(log, j, since)))
  }

  ghost predicate LogOk(log: seq<Effect>)
  {
    && (forall i, j :: 0 <= i < j < |log| && log[i].CompletionSent? ==> !log[j].CompletionSent? && !log[j].RenewSent?)
    && (forall j: nat :: j < |log| && log[j].Started? ==> exists since: nat :: Accounted(log, j, since))
    && (forall j: nat :: j < |log| && log[j].Confirmed? ==> Logged(log, j, RenewSent(log[j].renewal)))
    && (forall i: nat, j: nat :: i < j < |log| && log[i].Called? && log[j].Called? ==> log[i].thread != log[j].thread)
  }

  ghost predicate AnswersLogged(s: System)
  {
    && (forall r: nat :: r < |s.renewals| && s.renewals[r].sent ==> Logged(s.log, |s.log|, RenewSent(r)))
    && (forall r: nat :: r < |s.renewals| && s.renewals[r].result != Some(false) ==> s.renewals[r].sent)
    && (forall r: nat :: r < |s.renewals| && s.renewals[r].result == Some(true) ==> Logged(s.log, |s.log|, Confirmed(r)))
    && (forall i: nat :: i < |s.log| && s.log[i].Called? ==> s.log[i].thread < |s.threads|)
  }

  /** A completion waits ahead of place `j`. */
  predicate CompleterAhead(s: System, j: nat)
    requires j <= |s.line|
  {
    exists i :: 0 <= i < j && ThreadOf(s, s.line[i]).AwaitsToComplete?
  }

  predicate NoCompletion(log: seq<Effect>, direct: bool)
  {
    forall i :: 0 <= i < |log| && log[i].CompletionSent? ==> log[i].direct != direct
  }

  /** What is known of a publication that waits at place `j`. */
  predicate WaiterOk(s: System, j: nat)
    requires j < |s.line|
  {
    var t := ThreadOf(s, s.line[j]);
    t.AwaitsRenewal? ==>
      && t.since < |s.log| && s.log[t.since] == Called(s.line[j].thread, t.renewal, t.behind, t.late)
      && !CompletedBy(s.log, t.since)
      && (ResultIs(s, t.renewal, true) ==> ConfirmedFor(s.log, |s.log|, t.renewal, t.since, t.late))
      && (!t.behind ==> !CompleterAhead(s, j) && NoCompletion(s.log, false))
      && (t.behind ==> Completed(s) || Dead(s) || CompleterAhead(s, j))
      && (!t.late && s.working ==> NoCompletion(s.log, true))
  }

  ghost predicate WaitersOk(s: System)
  {
    forall j: nat :: j < |s.line| ==> WaiterOk(s, j)
  }

  ghost predicate Inv(s: System)
  {
    Alive(s) && RenewalsMatch(s) && LineOk(s) && LogOk(s.log) && AnswersLogged(s) && WaitersOk(s)
  }

  // ------------------------------------------------- steps

  lemma Effectless(s: System)
    requires Inv(s)
    ensures Inv(s.(working := false))
  {
    var s' := s.(working := false);
    forall j: nat | j < |s'.line| ensures EntryOk(s', j) && WaiterOk(s', j) { assert EntryOk(s, j) && WaiterOk(s, j); }
    forall i: nat, j: nat | i < j < |s'.line| ensures InOrder(s', i, j) && Together(s', i, j) { assert InOrder(s, i, j) && Together(s, i, j); }
    forall t: nat | t < |s'.threads| && Waits(s'.threads[t]) ensures InLine(s', t) { assert InLine(s, t); }
  }

  /** What a longer log keeps of a shorter one. */
  lemma LogLonger(log: seq<Effect>, e: Effect)
    ensures forall n: nat :: n <= |log| ==> (CompletedBy(log + [e], n) <==> CompletedBy(log, n))
    ensures forall n: nat, f: Effect :: n <= |log| && Logged(log, n, f) ==> Logged(log + [e], n, f) && Logged(log + [e], |log| + 1, f)
    ensures forall n: nat, r: nat, since: nat, late: bool :: n <= |log| && ConfirmedFor(log, n, r, since, late) ==>
              ConfirmedFor(log + [e], n, r, since, late) && ConfirmedFor(log + [e], |log| + 1, r, since, late)
    ensures forall n: nat, since: nat :: n <= |log| ==> (Passed(log + [e], n, since) <==> Passed(log, n, since))
    ensures CompletedBy(log + [e], |log| + 1) <==> CompletedBy(log, |log|) || e.CompletionSent?
  {
    var grown := log + [e];
    assert forall i :: 0 <= i < |log| ==> grown[i] == log[i];
    forall n: nat | n <= |log| ensures CompletedBy(grown, n) <==> CompletedBy(log, n) {
      if CompletedBy(log, n) { var i :| 0 <= i < n && log[i].CompletionSent?; assert grown[i].CompletionSent?; }
      if CompletedBy(grown, n) { var i :| 0 <= i < n && grown[i].CompletionSent?; assert log[i].CompletionSent?; }
    }
    forall n: nat, f: Effect | n <= |log| && Logged(log, n, f) ensures Logged(grown, n, f) && Logged(grown, |log| + 1, f) {
      var i :| 0 <= i < n && log[i] == f;
      assert grown[i] == f;
    }
    forall n: nat, r: nat, since: nat, late: bool | n <= |log| && ConfirmedFor(log, n, r, since, late)
      ensures ConfirmedFor(grown, n, r, since, late) && ConfirmedFor(grown, |log| + 1, r, since, late)
    {
      var k :| 0 <= k < n && log[k] == Confirmed(r) && (!late ==> since < k);
      assert grown[k] == Confirmed(r);
    }
    forall n: nat, since: nat | n <= |log| ensures Passed(grown, n, since) <==> Passed(log, n, since) {
      if Passed(log, n, since) { var m :| since < m < n && log[m].CompletionSent? && log[m].direct; assert grown[m].CompletionSent?; }
      if Passed(grown, n, since) { var m :| since < m < n && grown[m].CompletionSent? && grown[m].direct; assert log[m].CompletionSent?; }
    }
    if e.CompletionSent? { assert grown[|log|].CompletionSent?; }
    if CompletedBy(log, |log|) { var i :| 0 <= i < |log| && log[i].CompletionSent?; assert grown[i].CompletionSent?; }
  }

  /** A new entry of the log keeps it in order if it is one that may come now. */
  lemma LogGrows(log: seq<Effect>, e: Effect)
    requires LogOk(log)
    requires e.CompletionSent? || e.RenewSent? ==> !CompletedBy(log, |log|)
    requires e.Started? ==> exists since: nat :: Accounted(log + [e], |log|, since)
    requires e.Confirmed? ==> Logged(log, |log|, RenewSent(e.renewal))
    requires e.Called? ==> forall i: nat :: i < |log| && log[i].Called? ==> log[i].thread != e.thread
    ensures LogOk(log + [e])
  {
    var grown := log + [e];
    LogLonger(log, e);
    assert forall i :: 0 <= i < |log| ==> grown[i] == log[i];
    forall i, j | 0 <= i < j < |grown| && grown[i].CompletionSent? ensures !grown[j].CompletionSent? && !grown[j].RenewSent? {
      if j == |log| { assert log[i].CompletionSent?; }
    }
    forall j: nat | j < |grown| && grown[j].Started? ensures exists since: nat :: Accounted(grown, j, since) {
      if j < |log| {
        var since: nat :| Accounted(log, j, since);
        assert Accounted(grown, j, since);
      }
    }
  }

  lemma SameAhead(s: System, s': System, j: nat)
    requires j <= |s.line| && s'.line == s.line
    requires forall i: nat :: i < j ==> ThreadOf(s', s'.line[i]) == ThreadOf(s, s.line[i])
    ensures CompleterAhead(s', j) <==> CompleterAhead(s, j)
  {
    if CompleterAhead(s, j) { var i :| 0 <= i < j && ThreadOf(s, s.line[i]).AwaitsToComplete?; assert ThreadOf(s', s'.line[i]).AwaitsToComplete?; }
    if CompleterAhead(s', j) { var i :| 0 <= i < j && ThreadOf(s', s'.line[i]).AwaitsToComplete?; assert ThreadOf(s, s.line[i]).AwaitsToComplete?; }
  }

  /** Steps that touch no thread in the line. */
  lemma SameThreads(s: System, s': System)
    requires Inv(s) && s' == s.(threads := s'.threads) && |s'.threads| >= |s.threads|
    requires forall t: nat :: t < |s.threads| && Waits(s.threads[t]) ==> s'.threads[t] == s.threads[t]
    requires forall t: nat :: t < |s'.threads| && Waits(s'.threads[t]) ==> t < |s.threads| && s'.threads[t] == s.threads[t]
    ensures Inv(s')
  {
    hide LogOk;
    forall j: nat | j < |s'.line| ensures ThreadOf(s', s'.line[j]) == ThreadOf(s, s.line[j]) && EntryOk(s', j) {
      assert EntryOk(s, j);
    }
    forall i: nat, j: nat | i < j < |s'.line| ensures InOrder(s', i, j) && Together(s', i, j) {
      assert InOrder(s, i, j) && Together(s, i, j);
    }
    forall t: nat | t < |s'.threads| && Waits(s'.threads[t]) ensures InLine(s', t) { assert InLine(s, t); }
    forall j: nat | j < |s'.line| ensures WaiterOk(s', j) { assert WaiterOk(s, j); SameAhead(s, s', j); }
  }

  /** A thread that does not wait may become any other that does not. */
  lemma IdleKeeps(s: System, t: nat, thread: Thread)
    requires Inv(s) && t < |s.threads| && !Waits(s.threads[t]) && !Waits(thread)
    ensures Inv(s.(threads := s.threads[t := thread]))
  {
    hide LogOk;
    var s' := s.(threads := s.threads[t := thread]);
    SameThreads(s, s');
  }

  lemma ArrivalKeeps(s: System)
    requires Inv(s)
    ensures Inv(s.(threads := s.threads + [Over]))
  {
    hide LogOk;
    SameThreads(s, s.(threads := s.threads + [Over]));
  }

  lemma BeginKeepsLine(s: System)
    requires Alive(s) && RenewalsMatch(s) && LineOk(s) && s.fill.active && s.fill.renewal.None?
    ensures Alive(Renewing(s)) && RenewalsMatch(Renewing(s)) && LineOk(Renewing(s))
  {
    var s', n := Renewing(s), |s.renewals|;
    if s.working { LogLonger(s.log, RenewSent(n)); }
    assert Dead(s') <==> Dead(s);
    forall j: nat | j < |s'.line| ensures EntryOk(s', j) {
      if j < |s.line| { assert EntryOk(s, j); assert s'.line[..j] == s.line[..j]; }
    }
    forall i: nat, j: nat | i < j < |s'.line| ensures InOrder(s', i, j) && Together(s', i, j) {
      assert EntryOk(s, i);
      if j < |s.line| { assert EntryOk(s, j) && InOrder(s, i, j) && Together(s, i, j); }
    }
    forall t: nat | t < |s'.threads| && Waits(s'.threads[t]) ensures InLine(s', t) {
      assert InLine(s, t);
      var i :| 0 <= i < |s.line| && s.line[i].Continuation? && s.line[i].thread == t;
      assert s'.line[i] == s.line[i];
    }
    assert s'.line[|s.line|] == Reaction(n);
  }

  /** Who is ahead of a place depends on the line up to there. */
  lemma AheadBefore(s: System, s': System, j: nat)
    requires j <= |s.line| && j <= |s'.line| && s'.threads == s.threads && s'.line[..j] == s.line[..j]
    ensures CompleterAhead(s', j) <==> CompleterAhead(s, j)
  {
    assert forall i :: 0 <= i < j ==> s'.line[i] == s.line[..j][i] && s'.line[..j][i] == s.line[i];
  }

  lemma BeginKeepsLog(s: System)
    requires Inv(s) && s.fill.active && s.fill.renewal.None?
    ensures LogOk(Renewing(s).log) && AnswersLogged(Renewing(s)) && WaitersOk(Renewing(s))
  {
    var s', n := Renewing(s), |s.renewals|;
    if s.working {
      LogLonger(s.log, RenewSent(n));
      LogGrows(s.log, RenewSent(n));
      assert s'.log[|s.log|] == RenewSent(n);
    }
    forall j: nat | j < |s'.line| ensures WaiterOk(s', j) {
      if j < |s.line| {
        assert WaiterOk(s, j) && EntryOk(s, j);
        AheadBefore(s, s', j);
      }
    }
  }

  /** A renewal is begun when none is out. */
  lemma RenewingKeeps(s: System)
    requires Inv(s)
    ensures Inv(Renewing(s))
  {
    if s.fill.active && s.fill.renewal.None? {
      BeginKeepsLine(s);
      BeginKeepsLog(s);
    }
  }

  lemma NotedKeepsWaiters(s: System, e: Effect)
    requires WaitersOk(s) && !e.CompletionSent?
    ensures WaitersOk(s.(log := s.log + [e]))
  {
    var s' := s.(log := s.log + [e]);
    LogLonger(s.log, e);
    forall j: nat | j < |s'.line| ensures WaiterOk(s', j) { assert WaiterOk(s, j); AheadBefore(s, s', j); }
  }

  /** The line does not depend on the log. */
  lemma SameLine(s: System, s': System)
    requires LineOk(s) && s'.line == s.line && s'.threads == s.threads && s'.renewals == s.renewals && s'.fill.renewal == s.fill.renewal
    ensures LineOk(s')
  {
    forall j: nat | j < |s'.line| ensures EntryOk(s', j) { assert EntryOk(s, j); }
    forall i: nat, j: nat | i < j < |s'.line| ensures InOrder(s', i, j) && Together(s', i, j) { assert InOrder(s, i, j) && Together(s, i, j); }
    forall t: nat | t < |s'.threads| && Waits(s'.threads[t]) ensures InLine(s', t) { assert InLine(s, t); }
  }

  /** A call or a start is only noted. */
  lemma NotedKeeps(s: System, e: Effect)
    requires Inv(s) && (e.Called? || e.Started?) && LogOk(s.log + [e])
    requires e.Called? ==> e.thread < |s.threads|
    ensures Inv(s.(log := s.log + [e]))
  {
    hide LogOk;
    var s' := s.(log := s.log + [e]);
    LogLonger(s.log, e);
    SameLine(s, s');
    NotedKeepsWaiters(s, e);
  }

  lemma CalledKeeps(s: System, e: Effect)
    requires Inv(s) && e.Called? && e.thread < |s.threads|
    requires forall i: nat :: i < |s.log| && s.log[i].Called? ==> s.log[i].thread != e.thread
    ensures Inv(s.(log := s.log + [e]))
  {
    LogGrows(s.log, e);
    NotedKeeps(s, e);
  }

  /** A thread that did not wait stands at the end of the line for the renewal that is out. */
  lemma RegisterKeepsLine(s: System, t: nat, thread: Thread, r: nat)
    requires Alive(s) && RenewalsMatch(s) && LineOk(s) && s.fill.active && s.fill.renewal == Some(r)
    requires t < |s.threads| && !Waits(s.threads[t]) && Waits(thread) && thread.renewal == r
    requires thread.AwaitsRenewal? ==> thread.late == !Unsettled(s, r)
    ensures LineOk(Registered(s, t, thread, r))
  {
    var s' := Registered(s, t, thread, r);
    forall j: nat | j < |s.line| ensures ThreadOf(s', s.line[j]) == ThreadOf(s, s.line[j]) && EntryOk(s, j) { assert EntryOk(s, j); }
    forall j: nat | j < |s'.line| ensures EntryOk(s', j) {
      if j < |s.line| { assert EntryOk(s, j); assert s'.line[..j] == s.line[..j]; } else { assert s'.line[..j] == s.line; }
    }
    forall i: nat, j: nat | i < j < |s'.line| ensures InOrder(s', i, j) && Together(s', i, j) {
      assert EntryOk(s, i);
      if j < |s.line| { assert EntryOk(s, j) && InOrder(s, i, j) && Together(s, i, j); }
    }
    forall u: nat | u < |s'.threads| && Waits(s'.threads[u]) ensures InLine(s', u) {
      if u == t {
        assert s'.line[|s.line|].thread == t;
      } else {
        assert InLine(s, u);
        var i :| 0 <= i < |s.line| && s.line[i].Continuation? && s.line[i].thread == u;
        assert s'.line[i] == s.line[i];
      }
    }
    assert Reaction(r) in s'.line;
  }

  lemma AheadInLonger(s: System, s': System, j: nat)
    requires |s.line| <= |s'.line| && j <= |s'.line|
    requires forall i: nat :: i < |s.line| ==> ThreadOf(s', s'.line[i]) == ThreadOf(s, s.line[i])
    ensures j <= |s.line| ==> (CompleterAhead(s', j) <==> CompleterAhead(s, j))
  {
    if j <= |s.line| {
      if CompleterAhead(s, j) { var i :| 0 <= i < j && ThreadOf(s, s.line[i]).AwaitsToComplete?; assert ThreadOf(s', s'.line[i]).AwaitsToComplete?; }
      if CompleterAhead(s', j) { var i :| 0 <= i < j && ThreadOf(s', s'.line[i]).AwaitsToComplete?; assert ThreadOf(s, s.line[i]).AwaitsToComplete?; }
    }
  }

  /** Completions wait ahead of a newcomer exactly if any waits. */
  lemma NewcomerAhead(s: System, s': System)
    requires LineOk(s) && |s'.line| > |s.line|
    requires forall i: nat :: i < |s.line| ==> ThreadOf(s', s'.line[i]) == ThreadOf(s, s.line[i])
    ensures CompleterAhead(s', |s.line|) <==> SomebodyCompletes(s)
  {
    AheadInLonger(s, s', |s.line|);
    if SomebodyCompletes(s) {
      var t :| 0 <= t < |s.threads| && s.threads[t].AwaitsToComplete?;
      assert InLine(s, t);
      var i :| 0 <= i < |s.line| && s.line[i].Continuation? && s.line[i].thread == t;
      assert ThreadOf(s, s.line[i]).AwaitsToComplete?;
    }
    if CompleterAhead(s, |s.line|) {
      var i :| 0 <= i < |s.line| && ThreadOf(s, s.line[i]).AwaitsToComplete?;
      assert s.threads[s.line[i].thread].AwaitsToComplete?;
    }
  }

  lemma RegisterKeeps(s: System, t: nat, thread: Thread, r: nat)
    requires Inv(s) && s.fill.active && s.fill.renewal == Some(r)
    requires t < |s.threads| && !Waits(s.threads[t]) && Waits(thread) && thread.renewal == r
    requires thread.AwaitsRenewal? ==>
               && thread.late == !Unsettled(s, r) && thread.behind == SomebodyCompletes(s)
               && thread.since < |s.log| && s.log[thread.since] == Called(t, r, thread.behind, thread.late)
               && (ResultIs(s, r, true) ==> ConfirmedFor(s.log, |s.log|, r, thread.since, thread.late))
    ensures Inv(Registered(s, t, thread, r))
  {
    hide LogOk;
    var s' := Registered(s, t, thread, r);
    RegisterKeepsLine(s, t, thread, r);
    forall j: nat | j < |s.line| ensures ThreadOf(s', s'.line[j]) == ThreadOf(s, s.line[j]) { assert EntryOk(s, j); }
    forall j: nat | j < |s'.line| ensures WaiterOk(s', j) {
      AheadInLonger(s, s', j);
      if j < |s.line| { assert WaiterOk(s, j); } else { NewcomerAhead(s, s'); }
    }
  }

  lemma SameDead(s: System, s': System, r: nat)
    requires |s'.renewals| == |s.renewals| && r < |s.renewals|
    requires forall q: nat :: q < |s.renewals| && q != r ==> s'.renewals[q] == s.renewals[q]
    requires !s.renewals[r].reacted && !s'.renewals[r].reacted
    ensures Dead(s') <==> Dead(s)
  {
    if Dead(s) { var q :| 0 <= q < |s.renewals| && s.renewals[q].reacted && s.renewals[q].result == Some(false); assert s'.renewals[q] == s.renewals[q]; }
    if Dead(s') { var q :| 0 <= q < |s.renewals| && s'.renewals[q].reacted && s'.renewals[q].result == Some(false); assert s'.renewals[q] == s.renewals[q]; }
  }

  lemma SettleKeepsLine(s: System, r: nat, ok: bool)
    requires Inv(s) && Enabled(s, Settle(r, ok))
    ensures var s' := Next(s, Settle(r, ok)); LineOk(s') && Alive(s') && RenewalsMatch(s')
  {
    var s' := Next(s, Settle(r, ok));
    if ok { LogLonger(s.log, Confirmed(r)); }
    assert !s.renewals[r].reacted;
    forall q: nat ensures HasReacted(s', q) <==> HasReacted(s, q) {
    }
    assert Dead(s') <==> Dead(s) by { SameDead(s, s', r); }
    forall j: nat | j < |s'.line| ensures EntryOk(s', j) { assert EntryOk(s, j); }
    forall i: nat, j: nat | i < j < |s'.line| ensures InOrder(s', i, j) && Together(s', i, j) {
      assert EntryOk(s, i) && EntryOk(s, j) && InOrder(s, i, j) && Together(s, i, j);
    }
    forall t: nat | t < |s'.threads| && Waits(s'.threads[t]) ensures InLine(s', t) { assert InLine(s, t); }
  }

  lemma SettleKeepsAnswers(s: System, r: nat, ok: bool)
    requires AnswersLogged(s) && Enabled(s, Settle(r, ok))
    ensures AnswersLogged(Next(s, Settle(r, ok)))
  {
    if ok {
      LogLonger(s.log, Confirmed(r));
      assert (s.log + [Confirmed(r)])[|s.log|] == Confirmed(r);
    }
  }

  lemma SettleKeeps(s: System, r: nat, ok: bool)
    requires Inv(s) && Enabled(s, Settle(r, ok))
    ensures Inv(Next(s, Settle(r, ok)))
  {
    var s' := Next(s, Settle(r, ok));
    SettleKeepsLine(s, r, ok);
    SameDead(s, s', r);
    if ok {
      LogGrows(s.log, Confirmed(r));
      LogLonger(s.log, Confirmed(r));
      assert s'.log[|s.log|] == Confirmed(r);
    }
    assert AnswersLogged(s') by { SettleKeepsAnswers(s, r, ok); }
    forall j: nat | j < |s'.line| ensures WaiterOk(s', j) {
      assert WaiterOk(s, j) && EntryOk(s, j);
      AheadBefore(s, s', j);
    }
  }

  lemma ReactDies(s: System, s': System, r: nat)
    requires |s'.renewals| == |s.renewals| && r < |s.renewals| && !s.renewals[r].reacted
    requires s'.renewals == s.renewals[r := s.renewals[r].(reacted := true)]
    ensures Dead(s') <==> Dead(s) || ResultIs(s, r, false)
  {
    if Dead(s) { var q :| 0 <= q < |s.renewals| && s.renewals[q].reacted && s.renewals[q].result == Some(false); assert s'.renewals[q] == s.renewals[q]; }
    if ResultIs(s, r, false) { assert s'.renewals[r].reacted; }
  }

  lemma ReactKeepsLine(s: System, r: nat)
    requires Inv(s) && Ready(s) && s.line[0] == Reaction(r)
    ensures LineOk(Head(s)) && RenewalsMatch(Head(s)) && (Dead(Head(s)) <==> Dead(s) || ResultIs(s, r, false)) && Alive(Head(s))
  {
    var s' := Head(s);
    assert EntryOk(s, 0);
    ReactDies(s, s', r);
    forall j: nat | j < |s'.line| ensures EntryOk(s', j) && Awaited(s', s'.line[j]) == r && s'.line[j].Continuation? {
      assert s'.line[j] == s.line[j + 1] && EntryOk(s, j + 1) && InOrder(s, 0, j + 1);
    }
    forall i: nat, j: nat | i < j < |s'.line| ensures InOrder(s', i, j) && Together(s', i, j) {
      assert s'.line[i] == s.line[i + 1] && s'.line[j] == s.line[j + 1] && Together(s, i + 1, j + 1);
      assert InOrder(s, 0, i + 1) && InOrder(s, 0, j + 1);
    }
    forall t: nat | t < |s'.threads| && Waits(s'.threads[t]) ensures InLine(s', t) {
      assert InLine(s, t);
      var i :| 0 <= i < |s.line| && s.line[i].Continuation? && s.line[i].thread == t;
      assert s'.line[i - 1] == s.line[i];
    }
  }

  /** Without the head, which was no completion. */
  lemma AheadShifts(s: System, s': System, j: nat)
    requires s.line != [] && s'.line == s.line[1..] && j < |s'.line|
    requires forall i: nat :: i < |s'.line| ==> ThreadOf(s', s'.line[i]) == ThreadOf(s, s.line[i + 1])
    ensures CompleterAhead(s', j) ==> CompleterAhead(s, j + 1)
    ensures CompleterAhead(s, j + 1) && !ThreadOf(s, s.line[0]).AwaitsToComplete? ==> CompleterAhead(s', j)
  {
    if CompleterAhead(s', j) { var i :| 0 <= i < j && ThreadOf(s', s'.line[i]).AwaitsToComplete?; assert ThreadOf(s, s.line[i + 1]).AwaitsToComplete?; }
    if CompleterAhead(s, j + 1) {
      var i :| 0 <= i < j + 1 && ThreadOf(s, s.line[i]).AwaitsToComplete?;
      if i > 0 { assert ThreadOf(s', s'.line[i - 1]) == ThreadOf(s, s.line[i]); }
    }
  }

  lemma ReactKeeps(s: System, r: nat)
    requires Inv(s) && Ready(s) && s.line[0] == Reaction(r)
    ensures Inv(Head(s))
  {
    hide LogOk;
    var s' := Head(s);
    ReactKeepsLine(s, r);
    forall j: nat | j < |s'.line| ensures WaiterOk(s', j) {
      assert s'.line[j] == s.line[j + 1] && WaiterOk(s, j + 1);
      AheadShifts(s, s', j);
    }
  }

  /** The head leaves the line; a completion does only if the owner has ended. */
  lemma LeaveKeepsLine(s: System, t: nat, thread: Thread)
    requires LineOk(s) && s.line != [] && s.line[0].Continuation? && s.line[0].thread == t && t < |s.threads| && !Waits(thread)
    ensures LineOk(s.(line := s.line[1..], threads := s.threads[t := thread]))
  {
    var s' := s.(line := s.line[1..], threads := s.threads[t := thread]);
    forall j: nat | j < |s'.line| ensures EntryOk(s', j) && ThreadOf(s', s'.line[j]) == ThreadOf(s, s.line[j + 1]) {
      assert s'.line[j] == s.line[j + 1] && EntryOk(s, j + 1);
      assert s.line[..j + 1] == [s.line[0]] + s'.line[..j];
    }
    forall i: nat, j: nat | i < j < |s'.line| ensures InOrder(s', i, j) && Together(s', i, j) {
      assert s'.line[i] == s.line[i + 1] && s'.line[j] == s.line[j + 1] && InOrder(s, i + 1, j + 1) && Together(s, i + 1, j + 1);
    }
    forall u: nat | u < |s'.threads| && Waits(s'.threads[u]) ensures InLine(s', u) {
      assert InLine(s, u);
      var i :| 0 <= i < |s.line| && s.line[i].Continuation? && s.line[i].thread == u;
      assert s'.line[i - 1] == s.line[i];
    }
    if s.fill.renewal.Some? { assert s.line == [s.line[0]] + s'.line; }
  }

  lemma LeaveKeeps(s: System, t: nat, thread: Thread)
    requires Inv(s) && s.line != [] && s.line[0].Continuation? && s.line[0].thread == t && !Waits(thread)
    requires t < |s.threads| && (s.threads[t].AwaitsToComplete? ==> !s.fill.active)
    ensures Inv(s.(line := s.line[1..], threads := s.threads[t := thread]))
  {
    hide LogOk;
    var s' := s.(line := s.line[1..], threads := s.threads[t := thread]);
    LeaveKeepsLine(s, t, thread);
    assert EntryOk(s, 0);
    forall j: nat | j < |s'.line| ensures ThreadOf(s', s'.line[j]) == ThreadOf(s, s.line[j + 1]) {
      assert s'.line[j] == s.line[j + 1] && EntryOk(s, j + 1);
    }
    forall j: nat | j < |s'.line| ensures WaiterOk(s', j) {
      assert WaiterOk(s, j + 1);
      AheadShifts(s, s', j);
    }
  }
}
