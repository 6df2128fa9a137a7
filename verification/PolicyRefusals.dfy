/** A PUT that is refused changes nothing, in any run, then or later
    (src/policy-coordinator.ts:67-68, 100-124). */
module PolicyRefusals {
  import opened Basics
  import opened PolicySegments
  import opened PolicyRegister
  import opened PolicyInvariants
  import opened PolicyTheorems

  predicate Refuses(r: Reply)
  {
    r.Conflict? || r.Invalid?
  }

  /** The request is not inside the gate. */
  predicate Outside(gate: Gate, id: nat)
  {
    match gate
    case Open => true
    case Reading(job, _) => job.id != id
    case Writing(write, _) => write.id != id
  }

  /** No write of this request is on its way or has installed anything. */
  ghost predicate Harmless(s: System, id: nat)
  {
    && (forall w :: w in s.floating ==> w.id != id)
    && (id in s.committed ==> !s.committed[id])
  }

  ghost predicate RefusalsOk(s: System)
  {
    && (forall r :: r in s.replies ==>
          && r.reply.id in s.arrived && Outside(s.coordinator.gate, r.reply.id)
          && (Refuses(r.reply) ==> Harmless(s, r.reply.id)))
    && (forall v :: v in s.history && v.author.WrittenBy? ==> v.author.id in s.committed && s.committed[v.author.id])
  }

  /** What the code inside the gate, or a request, may leave and answer: nobody answered before comes
      back into the gate, and a request is refused only if it is harmless. */
  lemma ApplyKeepsRefusals(s: System, out: Outcome)
    requires RefusalsOk(s)
    requires forall r :: r in s.replies ==> Outside(out.next.gate, r.reply.id)
    requires out.sent.Some? ==> out.next.gate.Writing? && out.next.gate.write == out.sent.value
    requires out.reply.Some? ==>
               && out.next.gate == Open && out.sent == None && out.reply.value.id in s.arrived
               && (Refuses(out.reply.value) ==> Harmless(s, out.reply.value.id))
    ensures RefusalsOk(Apply(s, out))
  {
  }

  lemma ArriveKeepsRefusals(s: System, job: Job)
    requires Inv(s) && RefusalsOk(s) && s.coordinator.gate == Open && job.id !in s.arrived
    ensures RefusalsOk(Apply(Arrived(s, job), Fetch(s.coordinator, job, s.now)))
  {
    hide HistoryOk, Ordered, Backed, Witnessed, Installed, AskedFor;
    assert Unsent(s, job.id);
    ApplyKeepsRefusals(Arrived(s, job), Fetch(s.coordinator, job, s.now));
  }

  lemma GateKeepsRefusals(s: System, a: Action, t: System)
    requires Inv(s) && RefusalsOk(s) && Move(s, a, t) && InGate(a)
    ensures RefusalsOk(t)
  {
    hide HistoryOk, Ordered, Backed, Witnessed, Installed, AskedFor;
    var c := s.coordinator;
    match a
    case RefreshAck => ApplyKeepsRefusals(s, Refreshed(c, s.history[s.seen.version].policy, s.now));
    case RefreshLost => ApplyKeepsRefusals(s, RefreshFailed(c));
    case WriteAck => ApplyKeepsRefusals(s, Written(c, s.committed[c.gate.write.id]));
    case WriteTimeout => ApplyKeepsRefusals(s, WriteLost(c));
  }

  lemma ExecuteKeepsRefusals(s: System, w: Write)
    requires WritesOk(s) && RefusalsOk(s) && w in s.floating && |s.history| > 0
    ensures RefusalsOk(Executed(s, w))
  {
    hide Asked, AskedFor;
  }

  lemma StepKeepsRefusals(s: System, a: Action, t: System)
    requires Inv(s) && RefusalsOk(s) && Move(s, a, t)
    ensures RefusalsOk(t)
  {
    hide WritesOk, CoordinatorOk, Ordered, Backed, Apply, Executed;
    match a
    case Arrive(job) => ArriveKeepsRefusals(s, job);
    case Execute(w) => ExecuteKeepsRefusals(s, w);
    case RefreshAck => GateKeepsRefusals(s, a, t);
    case RefreshLost => GateKeepsRefusals(s, a, t);
    case WriteAck => GateKeepsRefusals(s, a, t);
    case WriteTimeout => GateKeepsRefusals(s, a, t);
    case _ =>
  }

  lemma {:induction false} RunRefusals(run: seq<System>, limit: int, i: nat)
    requires Execution(run, limit) && i < |run|
    ensures RefusalsOk(run[i])
  {
    if i == 0 {
    } else {
      RunRefusals(run, limit, i - 1);
      RunInv(run, limit, i - 1);
      assert Follows(run[i - 1], run[i], limit);
      var a :| Step(run[i - 1], a, run[i], limit);
      StepKeepsRefusals(run[i - 1], a, run[i]);
    }
  }

  lemma {:induction false} RepliesStay(run: seq<System>, limit: int, n: nat, m: nat)
    requires Execution(run, limit) && n <= m < |run|
    ensures run[n].replies <= run[m].replies
  {
    if n == m {
    } else {
      RepliesStay(run, limit, n, m - 1);
      assert Follows(run[m - 1], run[m], limit);
    }
  }

  /** A PUT answered with a conflict or as invalid has installed no version and never will: none of any
      later state is its own. Only an unavailable answer leaves that open. */
  lemma RefusedPutInstallsNothing(run: seq<System>, limit: int, n: nat, i: nat, m: nat, k: nat)
    requires Execution(run, limit) && n <= m < |run| && i < |run[n].replies| && Refuses(run[n].replies[i].reply)
    requires k < |run[m].history|
    ensures run[m].history[k].author != WrittenBy(run[n].replies[i].reply.id)
  {
    RepliesStay(run, limit, n, m);
    RunRefusals(run, limit, m);
    assert run[m].replies[i] in run[m].replies && run[m].history[k] in run[m].history;
  }
}
