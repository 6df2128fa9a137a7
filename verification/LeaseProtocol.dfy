/** Backend leases end to end: any number of `BackendWork` holders, one permit table and
    the RPCs between them, under one non-decreasing clock.

    Requests and replies are never taken out of their sets, and nothing forces them to be
    used. So an RPC may be lost before or after it took effect, take effect late, take
    effect again, or be answered late, in every combination. */
module LeaseProtocol {
  import opened LeaseHolder
  import A = BackendAdmission
  import Basics

  datatype Job = Job(client: string, limit: int, holder: Holder)

  datatype Request = Request(id: string, op: Operation)

  datatype Reply = Reply(id: string, op: Operation, yes: bool)

  datatype System = System(
    now: int,
    permits: A.PermitTable,
    jobs: map<string, Job>,
    requests: set<Request>,
    replies: set<Reply>)

  /** The segments of one holder, with the choices its environment makes. */
  datatype Segment =
    | Entering
    | GotAnswer(yes: bool)
    | LostAcquire(typed: bool, pause: nat)
    | Retrying
    | RenewalTimer
    | GotRenewal(yes: bool)
    | LostRenewal
    | ExpiryTimer
    | Cancelled
    | Closing

  datatype Action =
    | Tick(later: int)
    | Create(id: string, client: string, limit: int)
    | Local(id: string, segment: Segment)
    | Serve(request: Request, gone: set<string>)

  ghost predicate Enabled(s: System, id: string, segment: Segment)
    requires id in s.jobs
  {
    var h := s.jobs[id].holder;
    match segment
    case Entering => true
    case GotAnswer(yes) => h.pending.Acquiring? && Reply(id, Acquire(h.pending.attempt), yes) in s.replies
    case LostAcquire(_, _) => h.pending.Acquiring?
    case Retrying => h.pending.BackingOff? && (h.aborted || Reached(s.now, h.retryTimer))
    case RenewalTimer => Reached(s.now, h.renewalTimer)
    case GotRenewal(yes) => h.renewing.At? && Reply(id, Renew(h.renewing.ms), yes) in s.replies
    case LostRenewal => h.renewing.At?
    case ExpiryTimer => Reached(s.now, h.expiryTimer)
    case Cancelled => true
    case Closing => !h.closed
  }

  ghost function Run(s: System, id: string, segment: Segment): Outcome
    requires id in s.jobs && Enabled(s, id, segment)
  {
    var h := s.jobs[id].holder;
    match segment
    case Entering => Enter(h, s.now)
    case GotAnswer(yes) => Acknowledged(h, yes, s.now)
    case LostAcquire(typed, pause) => Failed(h, typed, s.now, pause)
    case Retrying => Retry(h, s.now)
    case RenewalTimer => RenewalDue(h, s.now)
    case GotRenewal(yes) => Outcome(RenewalAnswered(h, yes, s.now), {})
    case LostRenewal => Outcome(RenewalFailed(h), {})
    case ExpiryTimer => Outcome(Stop(h), {})
    case Cancelled => Outcome(Stop(h), {})
    case Closing => Close(h)
  }

  ghost function Sends(id: string, sent: set<Operation>): set<Request>
  {
    set op | op in sent :: Request(id, op)
  }

  ghost function Ran(s: System, id: string, segment: Segment): System
    requires id in s.jobs && Enabled(s, id, segment)
  {
    var out := Run(s, id, segment);
    s.(jobs := s.jobs[id := s.jobs[id].(holder := out.holder)],
       requests := s.requests + Sends(id, out.sent))
  }

  /** The table takes one request. An invalid limit throws, so it has no effect and no reply. */
  ghost function Served(s: System, request: Request, gone: set<string>): System
    requires request.id in s.jobs
  {
    var id, job := request.id, s.jobs[request.id];
    match request.op
    case Acquire(_) =>
      if job.limit < 1 then s
      else
        var kept := s.permits - gone;
        s.(permits := A.Granted(kept, id, job.client, job.limit, s.now),
           replies := s.replies + {Reply(id, request.op, A.Grants(kept, id, job.client, job.limit, s.now))})
    case Renew(_) =>
      s.(permits := A.Renewed(s.permits, id, s.now),
         replies := s.replies + {Reply(id, request.op, A.Renewable(s.permits, id, s.now))})
    case Release =>
      s.(permits := A.Released(s.permits, id))
  }

  ghost predicate Step(s: System, a: Action, t: System)
  {
    match a
    case Tick(later) => later >= s.now && t == s.(now := later)
    case Create(id, client, limit) =>
      id !in s.jobs && t == s.(jobs := s.jobs[id := Job(client, limit, FRESH)])
    case Local(id, segment) => id in s.jobs && Enabled(s, id, segment) && t == Ran(s, id, segment)
    case Serve(request, gone) =>
      && request in s.requests && request.id in s.jobs
      && A.Drains(s.permits, s.now, gone)
      && t == Served(s, request, gone)
  }

  ghost predicate Follows(s: System, t: System)
  {
    exists a :: Step(s, a, t)
  }

  ghost predicate Initial(s: System)
  {
    s.permits == map[] && s.jobs == map[] && s.requests == {} && s.replies == {}
  }

  ghost predicate Execution(run: seq<System>)
  {
    && |run| > 0 && Initial(run[0])
    && forall i :: 0 < i < |run| ==> Follows(run[i - 1], run[i])
  }

  /** The holders of `client` that have returned from `enter` and would still pass `check`. */
  ghost function Holding(s: System, client: string): set<string>
  {
    set id | id in s.jobs && s.jobs[id].client == client && Authorized(s.jobs[id].holder, s.now)
  }

  /** The first `enter` fixed the deadline a minute ahead. */
  function Started(h: Holder): int
    requires h.deadline.At?
  {
    h.deadline.ms - DEADLINE_MS
  }

  ghost predicate HolderOk(h: Holder, now: int)
  {
    && (h.pending == Idle <==> h.deadline == Never)
    && (h.pending == Idle ==> h.until == Never)
    && (h.pending != Idle ==> h.until.At? && h.until.ms <= h.deadline.ms && Started(h) <= now)
    && (h.pending.Acquiring? || h.pending.BackingOff? ==> h.until.ms == Started(h) + LEASE_MS)
    && (h.renewing.At? ==> h.pending == Entered && h.renewing.ms <= now)
    && (h.renewalTimer.At? ==> h.pending == Entered)
    && (h.closed ==> h.aborted)
  }

  /** Either nothing depends on the permit until `limit`, or it lasts at least that long. */
  ghost predicate Secured(s: System, id: string, limit: int)
    requires id in s.jobs
  {
    || s.jobs[id].holder.closed
    || s.now >= limit
    || (id in s.permits && s.permits[id].expiresAt >= limit)
  }

  ghost predicate JobOk(s: System, id: string)
    requires id in s.jobs
  {
    var h := s.jobs[id].holder;
    && HolderOk(h, s.now)
    && (id in s.permits ==>
      && h.pending != Idle
      && s.permits[id].clientKey == s.jobs[id].client
      && s.permits[id].deadline >= h.deadline.ms
      && s.permits[id].expiresAt >= Started(h) + LEASE_MS)
    && (h.pending == Entered && !h.aborted ==> Secured(s, id, h.until.ms))
  }

  ghost predicate RequestOk(s: System, r: Request)
  {
    && r.id in s.jobs
    && var h := s.jobs[r.id].holder;
       match r.op
       case Acquire(_) => h.pending != Idle
       case Renew(started) => h.pending == Entered && started <= s.now
       case Release => h.closed
  }

  ghost predicate ReplyOk(s: System, r: Reply)
  {
    && r.id in s.jobs
    && var h := s.jobs[r.id].holder;
       (r.yes ==> match r.op
                  case Acquire(_) => h.deadline.At? && Secured(s, r.id, Started(h) + LEASE_MS)
                  case Renew(started) => h.deadline.At? && Secured(s, r.id, Earlier(started + LEASE_MS, h.deadline))
                  case Release => true)
  }

  ghost predicate Inv(s: System)
  {
    && A.Sound(s.permits)
    && (forall id :: id in s.permits ==> id in s.jobs)
    && (forall id :: id in s.jobs ==> JobOk(s, id))
    && (forall r :: r in s.requests ==> RequestOk(s, r))
    && (forall r :: r in s.replies ==> ReplyOk(s, r))
  }

  ghost predicate Limited(s: System, client: string, cap: nat)
  {
    forall id :: id in s.jobs && s.jobs[id].client == client ==> s.jobs[id].limit <= cap
  }
}
