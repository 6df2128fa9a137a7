/** What every step of the lease protocol keeps. */
module LeaseInvariants {
  import opened LeaseHolder
  import A = BackendAdmission
  import Basics
  import opened LeaseProtocol

  lemma TickKeepsInv(s: System, later: int)
    requires Inv(s) && later >= s.now
    ensures Inv(s.(now := later))
  {
    var t := s.(now := later);
    forall r | r in t.requests ensures RequestOk(t, r) { assert RequestOk(s, r); }
    forall r | r in t.replies ensures ReplyOk(t, r) { assert ReplyOk(s, r); }
    forall id | id in t.jobs ensures JobOk(t, id) { assert JobOk(s, id); }
  }

  lemma CreateKeepsInv(s: System, id: string, client: string, limit: int)
    requires Inv(s) && id !in s.jobs
    ensures Inv(s.(jobs := s.jobs[id := Job(client, limit, FRESH)]))
  {
    var t := s.(jobs := s.jobs[id := Job(client, limit, FRESH)]);
    forall r | r in t.requests ensures RequestOk(t, r) { assert RequestOk(s, r); }
    forall r | r in t.replies ensures ReplyOk(t, r) { assert ReplyOk(s, r); }
    forall other | other in t.jobs ensures JobOk(t, other) { if other != id { assert JobOk(s, other); } }
  }

  /** What no segment undoes. */
  ghost predicate Monotone(h: Holder, k: Holder)
  {
    && (h.pending != Idle ==> k.pending != Idle && k.deadline == h.deadline)
    && (h.pending == Entered ==> k.pending == Entered)
    && (h.closed ==> k.closed)
    && (h.aborted ==> k.aborted)
  }

  /** One segment on its own: the holder stays well formed, and its messages are justified. */
  lemma SegmentOk(s: System, id: string, segment: Segment)
    requires Inv(s) && id in s.jobs && Enabled(s, id, segment)
    ensures var out := Run(s, id, segment);
            && HolderOk(out.holder, s.now)
            && Monotone(s.jobs[id].holder, out.holder)
            && forall op :: op in out.sent ==>
                 match op
                 case Acquire(_) => out.holder.pending != Idle
                 case Renew(started) => out.holder.pending == Entered && started <= s.now
                 case Release => out.holder.closed
  {
    assert JobOk(s, id);
  }

  /** The heart of the argument: whenever authority is taken or extended, the answer that
      allowed it promises a permit at least as long. */
  lemma AuthorityBacked(s: System, id: string, segment: Segment)
    requires Inv(s) && id in s.jobs && Enabled(s, id, segment)
    ensures var t, h := Ran(s, id, segment), Run(s, id, segment).holder;
            h.pending == Entered && !h.aborted ==> h.until.At? && Secured(t, id, h.until.ms)
  {
    SegmentOk(s, id, segment);
    assert JobOk(s, id);
    match segment
    case GotAnswer(yes) =>
      assert ReplyOk(s, Reply(id, Acquire(s.jobs[id].holder.pending.attempt), yes));
    case GotRenewal(yes) =>
      assert ReplyOk(s, Reply(id, Renew(s.jobs[id].holder.renewing.ms), yes));
    case _ =>
  }

  lemma LocalKeepsInv(s: System, id: string, segment: Segment)
    requires Inv(s) && id in s.jobs && Enabled(s, id, segment)
    ensures Inv(Ran(s, id, segment))
  {
    var t := Ran(s, id, segment);
    SegmentOk(s, id, segment);
    AuthorityBacked(s, id, segment);
    assert JobOk(s, id);
    forall r | r in t.requests ensures RequestOk(t, r) {
      if r in s.requests { assert RequestOk(s, r); }
    }
    forall r | r in t.replies ensures ReplyOk(t, r) { assert ReplyOk(s, r); }
    forall other | other in t.jobs ensures JobOk(t, other) { assert JobOk(s, other); }
  }

  /** A row that another request removes or extends stays long enough for its holder. */
  lemma TableChangeKeepsInv(s: System, permits: A.PermitTable)
    requires Inv(s) && A.Sound(permits)
    requires forall id :: id in permits ==> id in s.jobs
    requires forall id :: id in permits ==>
               var h := s.jobs[id].holder;
               && h.pending != Idle
               && permits[id].clientKey == s.jobs[id].client
               && h.deadline.At? && permits[id].deadline >= h.deadline.ms
               && permits[id].expiresAt >= Started(h) + LEASE_MS
    requires forall id, limit :: id in s.jobs && Secured(s, id, limit) ==> Secured(s.(permits := permits), id, limit)
    ensures Inv(s.(permits := permits))
  {
    var t := s.(permits := permits);
    forall r | r in t.requests ensures RequestOk(t, r) { assert RequestOk(s, r); }
    forall r | r in t.replies ensures ReplyOk(t, r) { assert ReplyOk(s, r); }
    forall id | id in t.jobs ensures JobOk(t, id) { assert JobOk(s, id); }
  }

  lemma ReplyKeepsInv(s: System, reply: Reply)
    requires Inv(s) && ReplyOk(s, reply)
    ensures Inv(s.(replies := s.replies + {reply}))
  {
    var t := s.(replies := s.replies + {reply});
    forall r | r in t.requests ensures RequestOk(t, r) { assert RequestOk(s, r); }
    forall r | r in t.replies ensures ReplyOk(t, r) { assert ReplyOk(s, r); }
    forall id | id in t.jobs ensures JobOk(t, id) { assert JobOk(s, id); }
  }

  lemma AcquireKeepsInv(s: System, request: Request, gone: set<string>)
    requires Inv(s) && request in s.requests && request.op.Acquire? && request.id in s.jobs
    requires A.Drains(s.permits, s.now, gone)
    ensures Inv(Served(s, request, gone))
  {
    assert RequestOk(s, request);
    var id, job := request.id, s.jobs[request.id];
    assert JobOk(s, id);
    if job.limit >= 1 {
      var kept := s.permits - gone;
      var permits := A.Granted(kept, id, job.client, job.limit, s.now);
      var granted := s.(permits := permits);
      forall other, limit | other in s.jobs && Secured(s, other, limit) ensures Secured(granted, other, limit) {
      }
      forall other | other in permits
        ensures other in s.jobs
        ensures var h := s.jobs[other].holder;
                && h.pending != Idle
                && permits[other].clientKey == s.jobs[other].client
                && h.deadline.At? && permits[other].deadline >= h.deadline.ms
                && permits[other].expiresAt >= Started(h) + LEASE_MS
      {
        assert other in s.jobs && JobOk(s, other);
      }
      TableChangeKeepsInv(s, permits);
      ReplyKeepsInv(granted, Reply(id, request.op, A.Grants(kept, id, job.client, job.limit, s.now)));
    }
  }

  lemma RenewKeepsInv(s: System, request: Request, gone: set<string>)
    requires Inv(s) && request in s.requests && request.op.Renew? && request.id in s.jobs
    ensures Inv(Served(s, request, gone))
  {
    assert RequestOk(s, request);
    var id := request.id;
    assert JobOk(s, id);
    var permits := A.Renewed(s.permits, id, s.now);
    var renewed := s.(permits := permits);
    A.RenewKeepsLive(s.permits, id, s.now, "");
    forall other | other in permits
      ensures var h := s.jobs[other].holder;
              && h.pending != Idle
              && permits[other].clientKey == s.jobs[other].client
              && h.deadline.At? && permits[other].deadline >= h.deadline.ms
              && permits[other].expiresAt >= Started(h) + LEASE_MS
    {
      assert JobOk(s, other);
    }
    TableChangeKeepsInv(s, permits);
    ReplyKeepsInv(renewed, Reply(id, request.op, A.Renewable(s.permits, id, s.now)));
  }

  lemma ReleaseKeepsInv(s: System, request: Request, gone: set<string>)
    requires Inv(s) && request in s.requests && request.op.Release? && request.id in s.jobs
    ensures Inv(Served(s, request, gone))
  {
    assert RequestOk(s, request);
    var permits := A.Released(s.permits, request.id);
    forall other | other in permits
      ensures var h := s.jobs[other].holder;
              && h.pending != Idle
              && permits[other].clientKey == s.jobs[other].client
              && h.deadline.At? && permits[other].deadline >= h.deadline.ms
              && permits[other].expiresAt >= Started(h) + LEASE_MS
    {
      assert JobOk(s, other);
    }
    TableChangeKeepsInv(s, permits);
  }

  lemma StepKeepsInv(s: System, a: Action, t: System)
    requires Inv(s) && Step(s, a, t)
    ensures Inv(t)
  {
    match a
    case Tick(later) => TickKeepsInv(s, later);
    case Create(id, client, limit) => CreateKeepsInv(s, id, client, limit);
    case Local(id, segment) => LocalKeepsInv(s, id, segment);
    case Serve(request, gone) =>
      match request.op {
        case Acquire(_) => AcquireKeepsInv(s, request, gone);
        case Renew(_) => RenewKeepsInv(s, request, gone);
        case Release => ReleaseKeepsInv(s, request, gone);
      }
  }

  lemma StepKeepsCapacity(s: System, a: Action, t: System, client: string, cap: nat)
    requires Inv(s) && Step(s, a, t) && Limited(s, client, cap)
    requires |A.Live(s.permits, client, s.now)| <= cap
    ensures |A.Live(t.permits, client, t.now)| <= cap
  {
    match a
    case Tick(later) => A.LiveShrinks(s.permits, client, s.now, later);
    case Serve(request, gone) =>
      var job := s.jobs[request.id];
      match request.op {
        case Acquire(_) =>
          A.AcquireKeepsCapacity(s.permits, gone, request.id, job.client, job.limit, s.now, client, cap);
        case Renew(_) => A.RenewKeepsLive(s.permits, request.id, s.now, client);
        case Release => A.ReleaseShrinksLive(s.permits, request.id, s.now, client);
      }
    case _ =>
  }
}
