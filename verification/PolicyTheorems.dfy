/** What holds of every run of the policy register, however long the gate may stay closed, and what
    the platform's limit on it adds. */
module PolicyTheorems {
  import opened Basics
  import opened PolicySegments
  import opened PolicyRegister
  import opened PolicyInvariants

  lemma {:induction false} RunInv(run: seq<System>, limit: int, i: nat)
    requires Execution(run, limit) && i < |run|
    ensures Inv(run[i])
  {
    if i == 0 {
    } else {
      RunInv(run, limit, i - 1);
      assert Follows(run[i - 1], run[i], limit);
      var a :| Step(run[i - 1], a, run[i], limit);
      StepKeepsInv(run[i - 1], a, run[i]);
    }
  }

  /** The revisions the coordinator serves, by GET or by an accepted PUT, never decrease. */
  lemma ServedRevisionsNeverDecrease(run: seq<System>, limit: int, n: nat, i: nat, j: nat)
    requires Execution(run, limit) && n < |run| && i < j < |run[n].replies|
    requires Serves(run[n].replies[i].reply) && Serves(run[n].replies[j].reply)
    ensures run[n].replies[i].reply.policy.revision <= run[n].replies[j].reply.policy.revision
  {
    RunInv(run, limit, n);
  }

  /** Version `k` carries the rules of this PUT, was installed by it on top of the revision it expected,
      and is the only version it installed. */
  ghost predicate Fulfils(history: seq<Version>, k: nat, put: Job)
    requires put.Put?
  {
    && 0 < k < |history| && history[k].author == WrittenBy(put.id)
    && history[k - 1].policy.revision == put.expected
    && history[k].policy.revision == put.expected + 1
    && history[k].policy.rules == put.rules
    && forall other :: 0 <= other < |history| && history[other].author == WrittenBy(put.id) ==> other == k
  }

  /** A PUT that is answered as accepted is one transition of the primary, from the revision it expected
      to the next, carrying its rules; and that version is what the answer reports. */
  lemma AcceptedPutIsOneTransition(run: seq<System>, limit: int, n: nat, i: nat)
    requires Execution(run, limit) && n < |run| && i < |run[n].replies| && run[n].replies[i].reply.Replaced?
    ensures var (s, r) := (run[n], run[n].replies[i].reply);
            && r.id in s.arrived && s.arrived[r.id].Put? && s.arrived[r.id].id == r.id
            && exists k: nat :: Fulfils(s.history, k, s.arrived[r.id]) && s.history[k].policy == r.policy
  {
    RunInv(run, limit, n);
    var s, r := run[n], run[n].replies[i].reply;
    assert run[n].replies[i] in s.replies && Backed(s.history, run[n].replies[i]);
    var k: nat :| InstalledAs(s.history, k, r.id, r.policy);
    assert s.history[k] in s.history && AskedFor(s.arrived, s.history[k]);
    assert Fulfils(s.history, k, s.arrived[r.id]) && s.history[k].policy == r.policy;
  }

  /** What was served was the primary's content at an instant less than the lifetime old. */
  ghost predicate Current60(s: System, r: Sent)
    requires Serves(r.reply)
  {
    exists k: nat, e ::
      HeldAt(s.history, k, e) && s.history[k].policy == r.reply.policy && r.at - SNAPSHOT_MAX_AGE_MS < e <= r.at
  }

  /** A policy is served from a snapshot within its lifetime, or from inside the gate. */
  ghost predicate Prompt(s: System, limit: int)
  {
    forall r :: r in s.replies && Serves(r.reply) ==>
      r.at - r.reply.loadedAt < SNAPSHOT_MAX_AGE_MS || r.at - r.reply.loadedAt <= limit
  }

  lemma StepIsPrompt(s: System, a: Action, t: System, limit: int)
    requires Inv(s) && Step(s, a, t, limit) && Prompt(s, limit)
    ensures Prompt(t, limit)
  {
    hide HistoryOk, WritesOk, Ordered, Backed, Witnessed;
  }

  lemma {:induction false} RunIsPrompt(run: seq<System>, limit: int, i: nat)
    requires Execution(run, limit) && i < |run|
    ensures Prompt(run[i], limit)
  {
    if i == 0 {
    } else {
      RunIsPrompt(run, limit, i - 1);
      RunInv(run, limit, i - 1);
      assert Follows(run[i - 1], run[i], limit);
      var a :| Step(run[i - 1], a, run[i], limit);
      StepIsPrompt(run[i - 1], a, run[i], limit);
    }
  }

  lemma ServedIsCurrentWithin(run: seq<System>, limit: int, n: nat, i: nat)
    requires Execution(run, limit) && limit < SNAPSHOT_MAX_AGE_MS
    requires n < |run| && i < |run[n].replies| && Serves(run[n].replies[i].reply)
    ensures Current60(run[n], run[n].replies[i])
  {
    RunInv(run, limit, n);
    RunIsPrompt(run, limit, n);
    var s, r := run[n], run[n].replies[i];
    assert r in s.replies && Backed(s.history, r);
    var k: nat, e :| HeldAt(s.history, k, e) && s.history[k].policy == r.reply.policy && r.reply.loadedAt <= e <= r.at;
    assert HeldAt(s.history, k, e) && s.history[k].policy == r.reply.policy && r.at - SNAPSHOT_MAX_AGE_MS < e <= r.at;
  }

  /** Every policy ever served was the primary's content at an instant less than sixty seconds old. */
  lemma ServedIsCurrent(run: seq<System>, n: nat, i: nat)
    requires Execution(run, GATE_LIMIT_MS) && n < |run| && i < |run[n].replies| && Serves(run[n].replies[i].reply)
    ensures Current60(run[n], run[n].replies[i])
  {
    ServedIsCurrentWithin(run, GATE_LIMIT_MS, n, i);
  }

  const FIRST := Policy(1, 0, "first")
  const LATE := Write(0, 1, 0, "second")
  const PUT := Put(0, 1, "second", true)

  /** A PUT is sent and its acknowledgement is lost. A GET then reads the first revision, the
      write commits, and the answer of the read arrives `delay` later. */
  function SlowRefresh(delay: int): seq<System>
  {
    var s0 := System(0, [Version(FIRST, 0, Seeded)], RESTARTED, 0, Nothing, {}, map[], map[], []);
    var s1 := Apply(Arrived(s0, PUT), Outcome(Coordinator(None, Reading(PUT, 0)), None, None));
    var s2 := s1.(seen := Glimpse(0, 0));
    var s3 := Apply(s2, Outcome(Coordinator(None, Writing(LATE, 0)), None, Some(LATE)));
    var s4 := Apply(s3, Outcome(RESTARTED, Some(Unavailable(0)), None));
    var s5 := Apply(Arrived(s4, Get(1)), Outcome(Coordinator(None, Reading(Get(1), 0)), None, None));
    var s6 := s5.(seen := Glimpse(0, 0));
    var s7 := s6.(history := [Version(FIRST, 0, Seeded), Version(NewPolicy(LATE), 0, WrittenBy(0))],
                  floating := {}, committed := map[0 := true]);
    var s8 := s7.(now := delay);
    var s9 := Apply(s8, Outcome(Coordinator(Some(Snapshot(FIRST, 0)), Open), Some(Served(1, FIRST, 0, true)), None));
    [s0, s1, s2, s3, s4, s5, s6, s7, s8, s9]
  }

  lemma SlowRefreshLosesWrite(delay: nat)
    ensures var r := SlowRefresh(delay); forall i :: 0 < i <= 4 ==> Follows(r[i - 1], r[i], delay)
  {
    var r := SlowRefresh(delay);
    assert Step(r[0], Arrive(PUT), r[1], delay);
    assert Step(r[1], ReadPrimary, r[2], delay);
    assert Step(r[2], RefreshAck, r[3], delay);
    assert Step(r[3], WriteTimeout, r[4], delay);
  }

  lemma SlowRefreshRuns(delay: nat)
    ensures Execution(SlowRefresh(delay), delay)
  {
    var r := SlowRefresh(delay);
    SlowRefreshLosesWrite(delay);
    assert Step(r[4], Arrive(Get(1)), r[5], delay);
    assert Step(r[5], ReadPrimary, r[6], delay);
    assert Step(r[6], Execute(LATE), r[7], delay);
    assert Step(r[7], Tick(delay), r[8], delay);
    assert Step(r[8], RefreshAck, r[9], delay);
  }

  lemma SlowRefreshIsStale(delay: nat)
    requires delay >= SNAPSHOT_MAX_AGE_MS
    ensures Execution(SlowRefresh(delay), delay)
    ensures var s := SlowRefresh(delay)[9]; |s.replies| == 2 && Serves(s.replies[1].reply) && !Current60(s, s.replies[1])
  {
    SlowRefreshRuns(delay);
    var s := SlowRefresh(delay)[9];
    assert s.replies == [Sent(Unavailable(0), 0), Sent(Served(1, FIRST, 0, true), delay)];
    assert s.history[1].at == 0 && |s.history| == 2;
  }

  /** Every reply of every run is current. */
  ghost predicate AlwaysCurrent(limit: int)
  {
    forall run: seq<System>, n: nat, i: nat ::
      Execution(run, limit) && n < |run| && i < |run[n].replies| && Serves(run[n].replies[i].reply) ==>
        Current60(run[n], run[n].replies[i])
  }

  /** What readers are promised rests on the platform's limit: the code tests the age of a kept snapshot,
      and of nothing it has just loaded. It holds exactly if the gate cannot stay closed for a lifetime. */
  lemma CurrentExactlyByTheGateLimit(limit: nat)
    ensures AlwaysCurrent(limit) <==> limit < SNAPSHOT_MAX_AGE_MS
  {
    if limit < SNAPSHOT_MAX_AGE_MS {
      forall run: seq<System>, n: nat, i: nat
        | Execution(run, limit) && n < |run| && i < |run[n].replies| && Serves(run[n].replies[i].reply)
        ensures Current60(run[n], run[n].replies[i])
      {
        ServedIsCurrentWithin(run, limit, n, i);
      }
    } else {
      SlowRefreshIsStale(limit);
      var run := SlowRefresh(limit);
      assert |run| == 10 && !Current60(run[9], run[9].replies[1]);
    }
  }
}
