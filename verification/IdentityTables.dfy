/** The choice of an identity for a request (src/pool-coordinator.ts:281-390,409-443,486-511,
    sql/queries/coordinator.sql). */
module IdentityTables {
  import opened Basics

  const LEASE_MS := 10_000
  const COOLDOWN_MS := 120_000
  const SECONDARY_MS := 60_000
  const FULL_QUOTA := 5_000
  const MAX_SAFE_INTEGER := 9007199254740991

  datatype Lease = Lease(identity: string, expires: int)

  datatype Rate = Rate(limit: int, remaining: int, reset: int)

  /** `cooldowns` by identity and key, `rates` by identity and resource. */
  datatype Tables = Tables(leases: map<string, Lease>, rates: map<(string, string), Rate>, cooldowns: map<(string, string), int>)

  datatype Candidate = Candidate(id: string, weight: int)

  datatype Request = Request(route: string, resource: string, candidates: seq<Candidate>)

  datatype Result = Sticky(identity: string, seconds: int) | Highest(identity: string) | Unavailable

  predicate Cooling(t: Tables, id: string, key: string, now: int)
  {
    (id, key) in t.cooldowns && t.cooldowns[(id, key)] > now
  }

  /** `isCoolingDown`: for everything, for the resource or for the route. */
  predicate CoolingDown(t: Tables, id: string, q: Request, now: int)
  {
    Cooling(t, id, "*", now) || Cooling(t, id, "resource:" + q.resource, now) || Cooling(t, id, q.route, now)
  }

  predicate Exhausted(t: Tables, id: string, resource: string, now: int)
  {
    (id, resource) in t.rates && t.rates[(id, resource)].reset > now && t.rates[(id, resource)].remaining <= 0
  }

  predicate Eligible(t: Tables, id: string, q: Request, now: int)
  {
    !CoolingDown(t, id, q, now) && !Exhausted(t, id, q.resource, now)
  }

  /** What remains in the current window, and a weight. */
  function Score(t: Tables, c: Candidate, resource: string, now: int): int
  {
    var key := (c.id, resource);
    (if key in t.rates && t.rates[key].reset > now then t.rates[key].remaining else FULL_QUOTA) + c.weight
  }

  predicate IsCandidate(q: Request, id: string)
  {
    exists i :: 0 <= i < |q.candidates| && q.candidates[i].id == id
  }

  predicate LeaseUsable(t: Tables, q: Request, now: int)
  {
    && q.route in t.leases && t.leases[q.route].expires > now
    && IsCandidate(q, t.leases[q.route].identity) && Eligible(t, t.leases[q.route].identity, q, now)
  }

  /** The greatest score among the eligible, and the first that has it. */
  predicate Best(t: Tables, q: Request, now: int, k: nat)
  {
    && k < |q.candidates| && Eligible(t, q.candidates[k].id, q, now)
    && forall j :: 0 <= j < |q.candidates| && Eligible(t, q.candidates[j].id, q, now) ==>
         Score(t, q.candidates[j], q.resource, now) <= Score(t, q.candidates[k], q.resource, now)
         && (j < k ==> Score(t, q.candidates[j], q.resource, now) < Score(t, q.candidates[k], q.resource, now))
  }

  predicate NoneEligible(t: Tables, q: Request, now: int)
  {
    forall j :: 0 <= j < |q.candidates| ==> !Eligible(t, q.candidates[j].id, q, now)
  }

  /** Milliseconds in whole seconds, rounded up. */
  function Seconds(ms: int): int
  {
    (ms + 999) / 1000
  }

  /** What a selection may come to, and the tables after it. */
  ghost predicate Selects(t: Tables, q: Request, now: int, r: Result, t': Tables)
  {
    match r
    case Sticky(id, seconds) =>
      t' == t && LeaseUsable(t, q, now) && t.leases[q.route].identity == id && seconds == Seconds(t.leases[q.route].expires - now)
    case Highest(id) =>
      && !LeaseUsable(t, q, now) && t' == t.(leases := t.leases[q.route := Lease(id, now + LEASE_MS)])
      && exists k: nat :: Best(t, q, now, k) && q.candidates[k].id == id
    case Unavailable => t' == t && NoneEligible(t, q, now)
  }

  /** Draining drops rows that have expired, at most sixteen at a time: some, in any order. */
  ghost predicate Drained(t: Tables, t': Tables, now: int)
  {
    && t'.rates == t.rates
    && (forall r :: r in t'.leases ==> r in t.leases && t'.leases[r] == t.leases[r])
    && (forall r :: r in t.leases && t.leases[r].expires > now ==> r in t'.leases)
    && (forall k :: k in t'.cooldowns ==> k in t.cooldowns && t'.cooldowns[k] == t.cooldowns[k])
    && (forall k :: k in t.cooldowns && t.cooldowns[k] > now ==> k in t'.cooldowns)
  }

  // ------------------------------------------------- observations

  /** An observation; numbers are there if they are safe and not negative. */
  datatype Observation = Observation(
    identity: string, route: string, resource: string, status: int, secondary: bool,
    limit: Option<nat>, badLimit: bool, remaining: Option<nat>, resetSeconds: Option<nat>, retrySeconds: Option<nat>)

  datatype Cooldown = Cooldown(key: string, ttl: int)

  /** `classifyCooldown` */
  function Classified(o: Observation, now: int): Cooldown
  {
    var duration := match o.retrySeconds case Some(s) => Some(Max(s, 1) * 1000) case None => None;
    var retry := if duration.Some? && now + duration.value <= MAX_SAFE_INTEGER then duration else None;
    if o.status == 401 then Cooldown("*", if retry.Some? then retry.value else COOLDOWN_MS)
    else if o.secondary then
      var wait := if o.remaining == Some(0) && o.resetSeconds.Some? then o.resetSeconds.value * 1000 - now else 0;
      var ms := if retry.Some? then retry.value else wait;
      Cooldown("*", if ms > SECONDARY_MS then ms else SECONDARY_MS)
    else if retry.Some? then Cooldown("*", retry.value)
    else if o.status == 429 then Cooldown("resource:" + o.resource, COOLDOWN_MS)
    else Cooldown(o.route, COOLDOWN_MS)
  }

  /** The observation tells of the quota, or asks for a pause. */
  predicate TellsRate(o: Observation)
  {
    o.remaining.Some? && o.resetSeconds.Some? && o.resetSeconds.value > 0 && !o.badLimit
  }

  predicate AsksPause(o: Observation)
  {
    o.status == 401 || o.status == 403 || o.status == 429 || o.secondary || (o.resource == "graphql" && o.retrySeconds.Some?)
  }

  /** A new window replaces the old one; within a window the least that was seen counts; an older one is ignored. */
  function WithRate(t: Tables, key: (string, string), rate: Rate): Tables
  {
    if key !in t.rates || rate.reset > t.rates[key].reset then t.(rates := t.rates[key := rate])
    else if rate.reset == t.rates[key].reset then
      var least := if rate.remaining < t.rates[key].remaining then rate.remaining else t.rates[key].remaining;
      t.(rates := t.rates[key := Rate(t.rates[key].limit, least, rate.reset)])
    else t
  }

  /** A cooldown is only ever made longer. */
  function WithCooldown(t: Tables, id: string, key: string, expires: int): Tables
  {
    if (id, key) in t.cooldowns && expires <= t.cooldowns[(id, key)] then t else t.(cooldowns := t.cooldowns[(id, key) := expires])
  }

  function Recorded(t: Tables, o: Observation, now: int): Tables
  {
    var rated := if TellsRate(o)
                 then WithRate(t, (o.identity, o.resource), Rate(if o.limit.Some? then o.limit.value else FULL_QUOTA, o.remaining.value, o.resetSeconds.value * 1000))
                 else t;
    if !AsksPause(o) then rated
    else var c := Classified(o, now); WithCooldown(rated, o.identity, c.key, now + c.ttl)
  }

  function CredentialFailed(t: Tables, id: string, now: int): Tables
  {
    WithCooldown(t, id, "*", now + COOLDOWN_MS)
  }

  // ------------------------------------------------- runs

  datatype Step =
    | Select(now: int, request: Request, result: Result)
    | Record(now: int, observation: Observation)
    | Fail(now: int, identity: string)

  ghost predicate Follows(t: Tables, s: Step, t': Tables)
  {
    match s
    case Select(now, q, r) => exists drained: Tables :: Drained(t, drained, now) && Selects(drained, q, now, r, t')
    case Record(now, o) => t' == Recorded(t, o, now)
    case Fail(now, id) => t' == CredentialFailed(t, id, now)
  }

  /** Tables before and after each step, of one clock. */
  ghost predicate IsRun(steps: seq<Step>, tables: seq<Tables>)
  {
    && |tables| == |steps| + 1
    && (forall i: nat :: i < |steps| ==> At(steps, tables, i))
    && (forall i: nat, j: nat :: i < j < |steps| ==> steps[i].now <= steps[j].now)
  }

  ghost predicate At(steps: seq<Step>, tables: seq<Tables>, i: nat)
    requires i < |steps| && |tables| == |steps| + 1
  {
    Follows(tables[i], steps[i], tables[i + 1])
  }

  lemma DrainedSame(t: Tables, t': Tables, q: Request, now: int, id: string)
    requires Drained(t, t', now)
    ensures Eligible(t', id, q, now) <==> Eligible(t, id, q, now)
    ensures forall key :: Cooling(t', id, key, now) <==> Cooling(t, id, key, now)
    ensures LeaseUsable(t', q, now) <==> LeaseUsable(t, q, now)
  {
    forall key ensures Cooling(t', id, key, now) <==> Cooling(t, id, key, now) {
    }
    if q.route in t.leases && t.leases[q.route].expires > now {
      var holder := t.leases[q.route].identity;
      assert forall key :: Cooling(t', holder, key, now) <==> Cooling(t, holder, key, now);
    }
  }

  /** The lease of a route is held by `id` until `expires`. */
  predicate HeldBy(t: Tables, route: string, id: string, expires: int)
  {
    route in t.leases && t.leases[route] == Lease(id, expires)
  }

  lemma SomeEligible(t: Tables, q: Request, now: int, id: string)
    requires IsCandidate(q, id) && Eligible(t, id, q, now)
    ensures !NoneEligible(t, q, now)
  {
    var i :| 0 <= i < |q.candidates| && q.candidates[i].id == id;
  }

  /** A selection is refused exactly when no candidate is eligible; an identity that is chosen is one
      of the candidates, rests in none of the three scopes and has quota left. */
  lemma OnlyEligibleAreChosen(t: Tables, q: Request, now: int, r: Result, t': Tables)
    requires Selects(t, q, now, r, t')
    ensures r == Unavailable <==> NoneEligible(t, q, now)
    ensures r != Unavailable ==> IsCandidate(q, r.identity) && Eligible(t, r.identity, q, now)
    ensures r != Unavailable ==> q.route in t'.leases && t'.leases[q.route].identity == r.identity
  {
    if r.Sticky? { SomeEligible(t, q, now, r.identity); }
  }

  /** Where `id` is still an eligible candidate, a selection for the route keeps its lease. */
  lemma LeaseKept(t: Tables, s: Step, t': Tables, route: string, id: string, expires: int)
    requires Follows(t, s, t') && HeldBy(t, route, id, expires) && s.now < expires
    requires s.Select? && s.request.route == route ==> IsCandidate(s.request, id) && Eligible(t, id, s.request, s.now)
    ensures HeldBy(t', route, id, expires)
    ensures s.Select? && s.request.route == route ==> s.result.Sticky? && s.result.identity == id
  {
    match s
    case Select(now, q, r) =>
      var drained: Tables :| Drained(t, drained, now) && Selects(drained, q, now, r, t');
      DrainedSame(t, drained, q, now, id);
      if q.route == route { SomeEligible(drained, q, now, id); }
    case Record(_, _) =>
    case Fail(_, _) =>
  }

  lemma ChosenHolds(t: Tables, s: Step, t': Tables, id: string)
    requires Follows(t, s, t') && s.Select? && s.result == Highest(id)
    ensures HeldBy(t', s.request.route, id, s.now + LEASE_MS)
  {
  }

  /** Within ten seconds of a choice, selections for the route stay with the identity chosen, as long
      as each finds it an eligible candidate. */
  lemma {:induction false} SelectionsAreSticky(steps: seq<Step>, tables: seq<Tables>, first: nat, n: nat, id: string)
    requires IsRun(steps, tables) && first < n <= |steps|
    requires steps[first].Select? && steps[first].result == Highest(id)
    requires forall i: nat :: first < i < n ==> steps[i].now < steps[first].now + LEASE_MS
    requires forall i: nat :: first < i < n && steps[i].Select? && steps[i].request.route == steps[first].request.route ==>
               IsCandidate(steps[i].request, id) && Eligible(tables[i], id, steps[i].request, steps[i].now)
    ensures HeldBy(tables[n], steps[first].request.route, id, steps[first].now + LEASE_MS)
    ensures forall i: nat :: first < i < n && steps[i].Select? && steps[i].request.route == steps[first].request.route ==>
              steps[i].result.Sticky? && steps[i].result.identity == id
  {
    hide Follows, Eligible, IsCandidate;
    if n == first + 1 {
      assert At(steps, tables, first);
      ChosenHolds(tables[first], steps[first], tables[n], id);
    } else {
      SelectionsAreSticky(steps, tables, first, n - 1, id);
      assert At(steps, tables, n - 1);
      LeaseKept(tables[n - 1], steps[n - 1], tables[n], steps[first].request.route, id, steps[first].now + LEASE_MS);
    }
  }

  /** The identity rests under this key at least until `expires`. */
  predicate Rests(t: Tables, id: string, key: string, expires: int)
  {
    (id, key) in t.cooldowns && t.cooldowns[(id, key)] >= expires
  }

  lemma RestKept(t: Tables, s: Step, t': Tables, id: string, key: string, expires: int)
    requires Follows(t, s, t') && Rests(t, id, key, expires) && s.now < expires
    ensures Rests(t', id, key, expires)
  {
  }

  lemma {:induction false} RestsOn(steps: seq<Step>, tables: seq<Tables>, from: nat, n: nat, id: string, key: string, expires: int)
    requires IsRun(steps, tables) && from <= n <= |steps| && Rests(tables[from], id, key, expires)
    requires forall i: nat :: from <= i < n ==> steps[i].now < expires
    ensures Rests(tables[n], id, key, expires)
  {
    hide Follows, Rests;
    if n > from {
      RestsOn(steps, tables, from, n - 1, id, key, expires);
      assert At(steps, tables, n - 1);
      RestKept(tables[n - 1], steps[n - 1], tables[n], id, key, expires);
    }
  }

  predicate Scope(q: Request, key: string)
  {
    key == "*" || key == "resource:" + q.resource || key == q.route
  }

  lemma RestingNotSelected(t: Tables, s: Step, t': Tables, id: string, key: string, expires: int)
    requires Follows(t, s, t') && s.Select? && Rests(t, id, key, expires) && s.now < expires && Scope(s.request, key)
    ensures s.result.Unavailable? || s.result.identity != id
  {
    var drained: Tables :| Drained(t, drained, s.now) && Selects(drained, s.request, s.now, s.result, t');
    DrainedSame(t, drained, s.request, s.now, id);
    assert Cooling(t, id, key, s.now);
  }

  /** Once an observation has asked for a pause, the identity is chosen for no request in its scope
      until the pause is over, whatever is recorded or drained meanwhile. */
  lemma PausesAreKept(steps: seq<Step>, tables: seq<Tables>, i: nat, j: nat)
    requires IsRun(steps, tables) && i < j < |steps|
    requires steps[i].Record? && AsksPause(steps[i].observation) && steps[j].Select?
    requires var c := Classified(steps[i].observation, steps[i].now);
             Scope(steps[j].request, c.key) && steps[j].now < steps[i].now + c.ttl
    ensures steps[j].result.Unavailable? || steps[j].result.identity != steps[i].observation.identity
  {
    var o, c := steps[i].observation, Classified(steps[i].observation, steps[i].now);
    var expires := steps[i].now + c.ttl;
    assert At(steps, tables, i) && At(steps, tables, j);
    assert Rests(tables[i + 1], o.identity, c.key, expires);
    RestsOn(steps, tables, i + 1, j, o.identity, c.key, expires);
    RestingNotSelected(tables[j], steps[j], tables[j + 1], o.identity, c.key, expires);
  }

  /** The window that ends at `reset` is used up, or a later one is known. */
  predicate UsedUp(t: Tables, key: (string, string), reset: int)
  {
    key in t.rates && t.rates[key].reset >= reset && (t.rates[key].reset == reset ==> t.rates[key].remaining <= 0)
  }

  lemma UsedUpKept(t: Tables, s: Step, t': Tables, key: (string, string), reset: int)
    requires Follows(t, s, t') && UsedUp(t, key, reset)
    ensures UsedUp(t', key, reset)
  {
  }

  lemma {:induction false} UsedUpOn(steps: seq<Step>, tables: seq<Tables>, from: nat, n: nat, key: (string, string), reset: int)
    requires IsRun(steps, tables) && from <= n <= |steps| && UsedUp(tables[from], key, reset)
    ensures UsedUp(tables[n], key, reset)
  {
    hide Follows, UsedUp;
    if n > from {
      UsedUpOn(steps, tables, from, n - 1, key, reset);
      assert At(steps, tables, n - 1);
      UsedUpKept(tables[n - 1], steps[n - 1], tables[n], key, reset);
    }
  }

  lemma UsedUpNotSelected(t: Tables, s: Step, t': Tables, id: string)
    requires Follows(t, s, t') && s.Select? && Exhausted(t, id, s.request.resource, s.now)
    ensures s.result.Unavailable? || s.result.identity != id
  {
    var drained: Tables :| Drained(t, drained, s.now) && Selects(drained, s.request, s.now, s.result, t');
    DrainedSame(t, drained, s.request, s.now, id);
  }

  /** An identity whose quota was seen used up is not chosen for the resource before the window ends,
      unless a later window is known by then: late reports of the same or an older one change nothing. */
  lemma UsedUpQuotaIsKept(steps: seq<Step>, tables: seq<Tables>, i: nat, j: nat)
    requires IsRun(steps, tables) && i < j < |steps| && steps[i].Record? && steps[j].Select?
    requires TellsRate(steps[i].observation) && steps[i].observation.remaining == Some(0)
    requires steps[j].request.resource == steps[i].observation.resource
    requires steps[j].now < steps[i].observation.resetSeconds.value * 1000
    ensures var o := steps[i].observation;
            var key := (o.identity, o.resource);
            && key in tables[j].rates
            && (tables[j].rates[key].reset <= o.resetSeconds.value * 1000 ==>
                  steps[j].result.Unavailable? || steps[j].result.identity != o.identity)
  {
    var o := steps[i].observation;
    var key, reset := (o.identity, o.resource), o.resetSeconds.value * 1000;
    assert At(steps, tables, i) && At(steps, tables, j);
    assert UsedUp(tables[i + 1], key, reset);
    UsedUpOn(steps, tables, i + 1, j, key, reset);
    if tables[j].rates[key].reset <= reset { UsedUpNotSelected(tables[j], steps[j], tables[j + 1], o.identity); }
  }
}
