/** What holds of every run of the lease protocol. */
module LeaseTheorems {
  import opened LeaseHolder
  import A = BackendAdmission
  import Basics
  import opened LeaseProtocol
  import opened LeaseInvariants

  lemma {:induction false} RunInv(run: seq<System>, i: nat)
    requires Execution(run) && i < |run|
    ensures Inv(run[i])
  {
    if i == 0 {
    } else {
      RunInv(run, i - 1);
      var a :| Step(run[i - 1], a, run[i]);
      StepKeepsInv(run[i - 1], a, run[i]);
    }
  }

  lemma {:induction false} RunCapacity(run: seq<System>, i: nat, client: string, cap: nat)
    requires Execution(run) && i < |run|
    requires forall k :: 0 <= k < |run| ==> Limited(run[k], client, cap)
    ensures |A.Live(run[i].permits, client, run[i].now)| <= cap
  {
    if i == 0 {
      assert A.Live(run[0].permits, client, run[0].now) == {};
    } else {
      RunCapacity(run, i - 1, client, cap);
      RunInv(run, i - 1);
      assert Follows(run[i - 1], run[i]);
      var a :| Step(run[i - 1], a, run[i]);
      StepKeepsCapacity(run[i - 1], a, run[i], client, cap);
    }
  }

  /** Local time is enough: a holder that passes `check` owns a live permit of its own client,
      which outlasts the authority it holds. */
  lemma AuthorityHasPermit(run: seq<System>, i: nat, id: string)
    requires Execution(run) && i < |run| && id in run[i].jobs
    requires Authorized(run[i].jobs[id].holder, run[i].now)
    ensures var s, h := run[i], run[i].jobs[id].holder;
            && id in A.Live(s.permits, s.jobs[id].client, s.now)
            && h.until.At? && s.now < h.until.ms <= s.permits[id].expiresAt
  {
    RunInv(run, i);
    assert JobOk(run[i], id);
  }

  /** Lease safety, at every instant of every run. */
  lemma LeaseSafety(run: seq<System>, i: nat, client: string, cap: nat)
    requires Execution(run) && i < |run|
    requires forall k :: 0 <= k < |run| ==> Limited(run[k], client, cap)
    ensures |Holding(run[i], client)| <= cap
  {
    forall id | id in Holding(run[i], client) ensures id in A.Live(run[i].permits, client, run[i].now) {
      AuthorityHasPermit(run, i, id);
    }
    Basics.SubsetSize(Holding(run[i], client), A.Live(run[i].permits, client, run[i].now));
    RunCapacity(run, i, client, cap);
  }

  /** The other way round, nobody is kept out needlessly: a grant that is acknowledged while the first
      lease lasts gives authority at once, and an acknowledged renewal carries it to thirty seconds
      after the renewal was sent, or to the deadline. */
  lemma AnswersGiveAuthority(run: seq<System>, i: nat, id: string, segment: Segment)
    requires Execution(run) && i < |run| && id in run[i].jobs && Enabled(run[i], id, segment)
    requires segment == GotAnswer(true) || segment == GotRenewal(true)
    requires var h := run[i].jobs[id].holder; !h.aborted && h.until.At? && run[i].now < h.until.ms
    requires segment == GotRenewal(true) ==> run[i].now < run[i].jobs[id].holder.renewing.ms + LEASE_MS
    ensures var h, k := run[i].jobs[id].holder, Run(run[i], id, segment).holder;
            && Authorized(k, run[i].now)
            && k.until == if segment == GotAnswer(true) then h.until else At(Earlier(h.renewing.ms + LEASE_MS, h.deadline))
  {
    RunInv(run, i);
    assert JobOk(run[i], id);
  }

  lemma StepKeepsDeadline(s: System, t: System, id: string)
    requires Inv(s) && Follows(s, t)
    requires id in s.jobs && s.jobs[id].holder.pending != Idle
    ensures id in t.jobs && t.jobs[id].holder.pending != Idle
    ensures t.jobs[id].holder.deadline == s.jobs[id].holder.deadline
  {
    var a :| Step(s, a, t);
    if a.Local? { SegmentOk(s, a.id, a.segment); }
  }

  /** A holder leaves `Idle` only by its first `enter`, which sets the deadline. */
  lemma FirstEnter(s: System, t: System, id: string)
    requires Inv(s) && Follows(s, t)
    requires id in s.jobs && s.jobs[id].holder.pending == Idle
    requires id in t.jobs && t.jobs[id].holder.pending != Idle
    ensures t.jobs[id].holder.deadline == At(s.now + DEADLINE_MS)
  {
    assert JobOk(s, id);
    var a :| Step(s, a, t);
  }

  lemma {:induction false} DeadlineFixed(run: seq<System>, i: nat, j: nat, id: string)
    requires Execution(run) && i <= j < |run|
    requires id in run[i].jobs && run[i].jobs[id].holder.pending != Idle
    ensures id in run[j].jobs && run[j].jobs[id].holder.pending != Idle
    ensures run[j].jobs[id].holder.deadline == run[i].jobs[id].holder.deadline
  {
    hide Follows, Inv;
    if i < j {
      DeadlineFixed(run, i, j - 1, id);
      RunInv(run, j - 1);
      StepKeepsDeadline(run[j - 1], run[j], id);
    }
  }

  /** No renewal, retry or late grant carries authority past a minute from the first `enter`. */
  lemma HardDeadline(run: seq<System>, first: nat, j: nat, id: string)
    requires Execution(run) && first + 1 <= j < |run|
    requires id in run[first].jobs && run[first].jobs[id].holder.pending == Idle
    requires id in run[first + 1].jobs && run[first + 1].jobs[id].holder.pending != Idle
    ensures id in run[j].jobs
    ensures Authorized(run[j].jobs[id].holder, run[j].now) ==> run[j].now < run[first].now + DEADLINE_MS
  {
    RunInv(run, first);
    assert Follows(run[(first + 1) - 1], run[first + 1]);
    FirstEnter(run[first], run[first + 1], id);
    DeadlineFixed(run, first + 1, j, id);
  }

  /** A closed holder that began to acquire has sent its release. */
  ghost predicate ReleaseSent(s: System)
  {
    forall id :: id in s.jobs && s.jobs[id].holder.closed && s.jobs[id].holder.pending != Idle ==> Request(id, Release) in s.requests
  }

  lemma StepKeepsReleases(s: System, a: Action, t: System)
    requires Inv(s) && ReleaseSent(s) && Step(s, a, t)
    ensures ReleaseSent(t)
  {
    match a
    case Local(id, segment) =>
      assert JobOk(s, id);
      assert forall op :: op in Run(s, id, segment).sent ==> Request(id, op) in t.requests;
    case _ =>
  }

  /** In every run, nobody closes with a permit that is not given back: a holder that has closed after it began
      to acquire has sent its release, and the release that is served frees its place in the table, whatever was
      granted late. */
  lemma {:induction false} ClosedWorkIsReleased(run: seq<System>, i: nat)
    requires Execution(run) && i < |run|
    ensures ReleaseSent(run[i])
  {
    if i == 0 {
    } else {
      ClosedWorkIsReleased(run, i - 1);
      RunInv(run, i - 1);
      assert Follows(run[i - 1], run[i]);
      var a :| Step(run[i - 1], a, run[i]);
      StepKeepsReleases(run[i - 1], a, run[i]);
    }
  }

  /** An acquisition that ends after its request has closed, however it ends, releases again: its grant may have
      taken effect after the first release. */
  lemma LateAcquisitionsRelease(s: System, id: string, segment: Segment)
    requires id in s.jobs && Enabled(s, id, segment) && s.jobs[id].holder.closed
    requires s.jobs[id].holder.pending.Acquiring? || s.jobs[id].holder.pending.BackingOff?
    ensures var out := Run(s, id, segment);
            out.holder.pending == Entered || out.holder.pending == Refused ==> Release in out.sent
  {
  }

  /** A release that is served removes the row of its holder and no other, so that one more of the client fits. */
  lemma ReleaseIsServed(s: System, id: string, gone: set<string>, client: string)
    requires id in s.jobs
    ensures var t := Served(s, Request(id, Release), gone);
            && id !in t.permits && (forall p :: p != id ==> (p in t.permits <==> p in s.permits) && (p in s.permits ==> t.permits[p] == s.permits[p]))
            && |A.Live(t.permits, client, s.now)|
               == |A.Live(s.permits, client, s.now)| - if id in s.permits && s.permits[id].clientKey == client && s.permits[id].expiresAt > s.now then 1 else 0
  {
    var t := Served(s, Request(id, Release), gone);
    assert A.Live(t.permits, client, s.now) == A.Live(s.permits, client, s.now) - {id};
  }
}
