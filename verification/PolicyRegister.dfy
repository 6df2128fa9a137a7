/** The coordinator against the primary row, under lost and delayed acknowledgements, restarts of the
    object, and the platform's limit on how long `blockConcurrencyWhile` may hold the object. */
module PolicyRegister {
  import opened Basics
  import opened PolicySegments

  /** One value of the primary row, the instant it was installed, and the write that did it. */
  datatype Author = Seeded | WrittenBy(id: nat)

  datatype Version = Version(policy: Policy, at: int, author: Author)

  datatype Sent = Sent(reply: Reply, at: int)

  /** The platform resets an object whose gate has been closed for longer. */
  const GATE_LIMIT_MS := 30_000

  datatype Glimpse = Nothing | Glimpse(version: nat, instant: int)

  /** `floating` are the writes sent and not yet executed; nothing forces them to run, and they
      survive the caller. `seen` is the version a refresh has read and at what instant, `entered` the
      instant at which the gate was last entered, and `arrived` every request ever made. */
  datatype System = System(
    now: int,
    history: seq<Version>,
    coordinator: Coordinator,
    entered: int,
    seen: Glimpse,
    floating: set<Write>,
    committed: map<nat, bool>,
    arrived: map<nat, Job>,
    replies: seq<Sent>)

  datatype Action =
    | Tick(later: int)
    | Arrive(job: Job)
    | ReadPrimary
    | RefreshAck
    | RefreshLost
    | Execute(write: Write)
    | WriteAck
    | WriteTimeout
    | Restart

  function Current(s: System): Policy
    requires |s.history| > 0
  {
    s.history[|s.history| - 1].policy
  }

  function Apply(s: System, out: Outcome): System
  {
    s.(coordinator := out.next,
       seen := Nothing,
       floating := s.floating + (if out.sent.Some? then {out.sent.value} else {}),
       replies := s.replies + (if out.reply.Some? then [Sent(out.reply.value, s.now)] else []))
  }

  /** `ReplaceStringRewritePolicy` at the primary. */
  function Executed(s: System, w: Write): System
    requires |s.history| > 0
  {
    var rest := s.(floating := s.floating - {w});
    if Current(s).revision == w.expected then
      rest.(history := s.history + [Version(Policy(w.expected + 1, w.updatedAt, w.rules), s.now, WrittenBy(w.id))],
            committed := s.committed[w.id := true])
    else rest.(committed := s.committed[w.id := false])
  }

  /** The steps that continue the code inside the gate. */
  predicate InGate(a: Action)
  {
    a.RefreshAck? || a.RefreshLost? || a.WriteAck? || a.WriteTimeout?
  }

  /** A step, where the gate may stay closed for `limit` milliseconds: past that the code inside does
      not go on, and only a restart opens the gate. */
  ghost predicate Step(s: System, a: Action, t: System, limit: int)
    requires |s.history| > 0
  {
    Move(s, a, t) && (InGate(a) ==> s.now - s.entered <= limit)
  }

  function Arrived(s: System, job: Job): System
  {
    s.(arrived := s.arrived[job.id := job], entered := s.now)
  }

  ghost predicate Move(s: System, a: Action, t: System)
    requires |s.history| > 0
  {
    var c := s.coordinator;
    match a
    case Tick(later) => later >= s.now && t == s.(now := later)
    case Arrive(job) =>
      && c.gate == Open && job.id !in s.arrived
      && t == Apply(Arrived(s, job), Fetch(c, job, s.now))
    case ReadPrimary => c.gate.Reading? && s.seen.Nothing? && t == s.(seen := Glimpse(|s.history| - 1, s.now))
    case RefreshAck =>
      && c.gate.Reading? && s.seen.Glimpse? && s.seen.version < |s.history|
      && t == Apply(s, Refreshed(c, s.history[s.seen.version].policy, s.now))
    case RefreshLost => c.gate.Reading? && t == Apply(s, RefreshFailed(c))
    case Execute(write) => write in s.floating && t == Executed(s, write)
    case WriteAck =>
      && c.gate.Writing? && c.gate.write.id in s.committed
      && t == Apply(s, Written(c, s.committed[c.gate.write.id]))
    case WriteTimeout => c.gate.Writing? && t == Apply(s, WriteLost(c))
    case Restart => t == s.(coordinator := RESTARTED, seen := Nothing)
  }

  ghost predicate Follows(s: System, t: System, limit: int)
  {
    |s.history| > 0 && exists a :: Step(s, a, t, limit)
  }

  ghost predicate Initial(s: System)
  {
    && |s.history| == 1 && s.history[0].at <= s.now && s.history[0].author.Seeded?
    && s.coordinator == RESTARTED && s.entered <= s.now && s.seen.Nothing?
    && s.floating == {} && s.committed == map[] && s.arrived == map[] && s.replies == []
  }

  ghost predicate Execution(run: seq<System>, limit: int)
  {
    && |run| > 0 && Initial(run[0])
    && forall i :: 0 < i < |run| ==> Follows(run[i - 1], run[i], limit)
  }

  /** The primary held version `k` at instant `e`. */
  predicate HeldAt(history: seq<Version>, k: nat, e: int)
  {
    k < |history| && history[k].at <= e && (k + 1 < |history| ==> e <= history[k + 1].at)
  }

  /** `p` was what the primary held at some instant from `since` to `now`. */
  ghost predicate Witnessed(history: seq<Version>, p: Policy, since: int, now: int)
  {
    exists k: nat, e :: HeldAt(history, k, e) && history[k].policy == p && since <= e <= now
  }

  predicate Serves(r: Reply)
  {
    r.Served? || r.Replaced?
  }

  /** No policy has been served with a revision above `revision`. */
  ghost predicate ServedUpTo(replies: seq<Sent>, revision: nat)
  {
    forall i :: 0 <= i < |replies| && Serves(replies[i].reply) ==> replies[i].reply.policy.revision <= revision
  }

  ghost predicate Ordered(replies: seq<Sent>)
  {
    forall i, j :: 0 <= i < j < |replies| && Serves(replies[i].reply) && Serves(replies[j].reply) ==>
      replies[i].reply.policy.revision <= replies[j].reply.policy.revision
  }

  ghost predicate Backed(history: seq<Version>, r: Sent)
  {
    && (Serves(r.reply) ==> r.reply.loadedAt <= r.at && Witnessed(history, r.reply.policy, r.reply.loadedAt, r.at))
    && (r.reply.Served? && !r.reply.gated ==> r.at - r.reply.loadedAt < SNAPSHOT_MAX_AGE_MS)
    && (r.reply.Replaced? ==> Installed(history, r.reply.id, r.reply.policy))
  }

  /** Exactly one version was installed by this write, one revision after its predecessor. */
  ghost predicate Installed(history: seq<Version>, id: nat, p: Policy)
  {
    exists k: nat :: InstalledAs(history, k, id, p)
  }

  ghost predicate InstalledAs(history: seq<Version>, k: nat, id: nat, p: Policy)
  {
    && 0 < k < |history| && history[k].author == WrittenBy(id) && history[k].policy == p
    && history[k - 1].policy.revision + 1 == p.revision
    && forall other :: 0 <= other < |history| && history[other].author == WrittenBy(id) ==> other == k
  }

  ghost predicate HistoryOk(s: System)
  {
    && |s.history| > 0
    && (forall k {:trigger s.history[k]} :: 0 <= k < |s.history| ==>
         && s.history[k].policy.revision == s.history[0].policy.revision + k
         && s.history[k].at <= s.now)
    && (forall j, k :: 0 <= j < k < |s.history| ==> s.history[j].at <= s.history[k].at)
  }

  /** A PUT of this id arrived with these rules, on top of revision `expected`. */
  predicate Asked(arrived: map<nat, Job>, id: nat, expected: nat, rules: string)
  {
    id in arrived && arrived[id] == Put(id, expected, rules, true)
  }

  /** A version installed by a write is what a PUT of that id asked for. */
  predicate AskedFor(arrived: map<nat, Job>, v: Version)
  {
    v.author.WrittenBy? ==> v.policy.revision >= 1 && Asked(arrived, v.author.id, v.policy.revision - 1, v.policy.rules)
  }

  /** Each write executes at most once, and its result says whether it installed a version. */
  ghost predicate WritesOk(s: System)
  {
    && (forall w :: w in s.floating ==> Asked(s.arrived, w.id, w.expected, w.rules) && w.id !in s.committed)
    && (forall v, w :: v in s.floating && w in s.floating && v.id == w.id ==> v == w)
    && (forall id :: id in s.committed ==> id in s.arrived)
    && (forall v :: v in s.history ==> AskedFor(s.arrived, v))
    && (forall k :: 0 <= k < |s.history| && s.history[k].author.WrittenBy? ==> s.history[k].author.id in s.committed)
  }

  /** No write of this request exists yet. */
  ghost predicate Unsent(s: System, id: nat)
  {
    id !in s.committed && forall w :: w in s.floating ==> w.id != id
  }

  ghost predicate SnapshotOk(s: System, snapshot: Snapshot)
  {
    && snapshot.loadedAt <= s.now
    && Witnessed(s.history, snapshot.policy, snapshot.loadedAt, s.now)
    && ServedUpTo(s.replies, snapshot.policy.revision)
  }

  ghost predicate ReadingOk(s: System, job: Job, loadedAt: int)
  {
    && s.entered <= loadedAt <= s.now && job.id in s.arrived && s.arrived[job.id] == job && Unsent(s, job.id)
    && (s.seen.Glimpse? ==>
         && HeldAt(s.history, s.seen.version, s.seen.instant) && loadedAt <= s.seen.instant <= s.now
         && ServedUpTo(s.replies, s.history[s.seen.version].policy.revision))
  }

  function NewPolicy(w: Write): Policy
  {
    Policy(w.expected + 1, w.updatedAt, w.rules)
  }

  ghost predicate WritingOk(s: System, w: Write, since: int)
  {
    && s.entered <= since <= s.now && Asked(s.arrived, w.id, w.expected, w.rules)
    && (w.id !in s.committed ==> w in s.floating)
    && (w.id in s.committed && s.committed[w.id] ==>
         && Installed(s.history, w.id, NewPolicy(w)) && Witnessed(s.history, NewPolicy(w), since, s.now)
         && ServedUpTo(s.replies, w.expected + 1))
  }

  ghost predicate CoordinatorOk(s: System)
  {
    && (s.coordinator.snapshot.Some? ==> SnapshotOk(s, s.coordinator.snapshot.value))
    && (s.coordinator.gate.Reading? ==> ReadingOk(s, s.coordinator.gate.job, s.coordinator.gate.loadedAt))
    && (s.coordinator.gate.Writing? ==> WritingOk(s, s.coordinator.gate.write, s.coordinator.gate.since))
  }

  ghost predicate Inv(s: System)
  {
    && s.entered <= s.now && HistoryOk(s) && WritesOk(s) && CoordinatorOk(s)
    && ServedUpTo(s.replies, Current(s).revision)
    && Ordered(s.replies)
    && (forall r :: r in s.replies ==> r.at <= s.now && Backed(s.history, r))
  }
}
