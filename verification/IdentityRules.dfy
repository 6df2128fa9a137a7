/** Who is chosen, and what is remembered of an answer, on quotas, pauses and weights themselves
    (src/pool-coordinator.ts:281-390,409-443,486-511). */
module IdentityRules {
  import opened Basics
  import opened IdentityTables

  // ------------------------------------------------- choosing

  /** A pause of the identity that is not over, for everything, for the resource or for the route. */
  predicate Paused(t: Tables, id: string, q: Request, now: int)
  {
    exists key :: key in ["*", "resource:" + q.resource, q.route] && (id, key) in t.cooldowns && t.cooldowns[(id, key)] > now
  }

  /** What is left to the identity of the resource: what was last seen in a window that is still open, or 5000. */
  predicate HasLeft(t: Tables, id: string, resource: string, now: int, n: int)
  {
    if (id, resource) in t.rates && t.rates[(id, resource)].reset > now then n == t.rates[(id, resource)].remaining else n == 5_000
  }

  ghost predicate MayServe(t: Tables, id: string, q: Request, now: int)
  {
    !Paused(t, id, q, now) && exists n :: HasLeft(t, id, q.resource, now, n) && n > 0
  }

  /** The candidate comes before the other: more is left with its weight added, or as much and it is listed first. */
  ghost predicate Outranks(t: Tables, q: Request, now: int, k: nat, j: nat)
    requires k < |q.candidates| && j < |q.candidates|
  {
    exists m, n ::
      && HasLeft(t, q.candidates[k].id, q.resource, now, m) && HasLeft(t, q.candidates[j].id, q.resource, now, n)
      && (m + q.candidates[k].weight > n + q.candidates[j].weight || (m + q.candidates[k].weight == n + q.candidates[j].weight && k < j))
  }

  /** The identity that the route's lease names is usable. */
  ghost predicate Leased(t: Tables, q: Request, now: int, id: string)
  {
    && q.route in t.leases && t.leases[q.route].identity == id && t.leases[q.route].expires > now
    && (exists k :: 0 <= k < |q.candidates| && q.candidates[k].id == id) && MayServe(t, id, q, now)
  }

  /** Seconds are whole, and cover the milliseconds. */
  predicate Covers(seconds: int, ms: int)
  {
    (seconds - 1) * 1000 < ms <= seconds * 1000
  }

  lemma EligibleMeans(t: Tables, id: string, q: Request, now: int)
    ensures Eligible(t, id, q, now) <==> MayServe(t, id, q, now)
  {
    var keys := ["*", "resource:" + q.resource, q.route];
    assert keys[0] == "*" && keys[1] == "resource:" + q.resource && keys[2] == q.route;
    var n := if (id, q.resource) in t.rates && t.rates[(id, q.resource)].reset > now then t.rates[(id, q.resource)].remaining else 5_000;
    assert HasLeft(t, id, q.resource, now, n) && forall m :: HasLeft(t, id, q.resource, now, m) ==> m == n;
  }

  lemma ScoreMeans(t: Tables, c: Candidate, resource: string, now: int, n: int)
    requires HasLeft(t, c.id, resource, now, n)
    ensures Score(t, c, resource, now) == n + c.weight
  {
  }

  lemma OneIsLeft(t: Tables, id: string, resource: string, now: int) returns (n: int)
    ensures HasLeft(t, id, resource, now, n)
  {
    n := if (id, resource) in t.rates && t.rates[(id, resource)].reset > now then t.rates[(id, resource)].remaining else 5_000;
  }

  lemma OutranksMeans(t: Tables, q: Request, now: int, k: nat, j: nat)
    requires k < |q.candidates| && j < |q.candidates|
    ensures Outranks(t, q, now, k, j)
            <==> var (a, b) := (Score(t, q.candidates[k], q.resource, now), Score(t, q.candidates[j], q.resource, now)); a > b || (a == b && k < j)
  {
    var m := OneIsLeft(t, q.candidates[k].id, q.resource, now);
    var n := OneIsLeft(t, q.candidates[j].id, q.resource, now);
    ScoreMeans(t, q.candidates[k], q.resource, now, m);
    ScoreMeans(t, q.candidates[j], q.resource, now, n);
  }

  lemma LeasedMeans(t: Tables, q: Request, now: int)
    ensures LeaseUsable(t, q, now) <==> q.route in t.leases && Leased(t, q, now, t.leases[q.route].identity)
  {
    if q.route in t.leases { EligibleMeans(t, t.leases[q.route].identity, q, now); }
  }

  /** A usable lease is kept, and the client is told how long it lasts. Otherwise the candidate is chosen that
      may serve and outranks every other that may, and is leased for ten seconds. Otherwise there is none. */
  lemma SelectionMeans(t: Tables, q: Request, now: int, r: Result, t': Tables)
    requires Selects(t, q, now, r, t')
    ensures match r
            case Sticky(id, seconds) => Leased(t, q, now, id) && t' == t && Covers(seconds, t.leases[q.route].expires - now)
            case Highest(id) =>
              && (forall other :: !Leased(t, q, now, other))
              && t'.rates == t.rates && t'.cooldowns == t.cooldowns
              && t'.leases == t.leases[q.route := Lease(id, now + 10_000)]
              && exists k: nat ::
                   && k < |q.candidates| && q.candidates[k].id == id && MayServe(t, id, q, now)
                   && forall j: nat :: j < |q.candidates| && j != k && MayServe(t, q.candidates[j].id, q, now) ==> Outranks(t, q, now, k, j)
            case Unavailable => t' == t && forall j :: 0 <= j < |q.candidates| ==> !MayServe(t, q.candidates[j].id, q, now)
  {
    hide Eligible, MayServe, Outranks, Score;
    LeasedMeans(t, q, now);
    forall id ensures Eligible(t, id, q, now) <==> MayServe(t, id, q, now) { EligibleMeans(t, id, q, now); }
    match r
    case Sticky(_, _) =>
    case Unavailable =>
    case Highest(id) =>
      var k: nat :| Best(t, q, now, k) && q.candidates[k].id == id;
      forall j: nat | j < |q.candidates| && j != k && MayServe(t, q.candidates[j].id, q, now) ensures Outranks(t, q, now, k, j) {
        OutranksMeans(t, q, now, k, j);
      }
  }

  // ------------------------------------------------- remembering

  /** How long the answer itself asks to wait, if that is a time that can be counted. */
  predicate AsksFor(o: Observation, now: int, ms: int)
  {
    && o.retrySeconds.Some? && ms == (if o.retrySeconds.value == 0 then 1_000 else o.retrySeconds.value * 1000)
    && now + ms <= 9007199254740991
  }

  /** After this answer the identity must rest under this key until then. A bad credential and a secondary limit
      rest everything, and so does any wait that was asked for; a plain 429 rests the resource, any other refusal
      the route. Without a wait it is two minutes, but for a secondary limit, which rests until the quota comes
      back if it is used up, and a minute at least. */
  ghost predicate MustRest(o: Observation, now: int, key: string, until: int)
  {
    && (o.status in {401, 403, 429} || o.secondary || (o.resource == "graphql" && o.retrySeconds.Some?))
    && if o.status != 401 && o.secondary then
         && key == "*" && until >= now + 60_000
         && if exists ms :: AsksFor(o, now, ms) then (until == now + 60_000 || AsksFor(o, now, until - now)) && forall ms :: AsksFor(o, now, ms) ==> now + ms <= until
            else if o.remaining == Some(0) && o.resetSeconds.Some? && o.resetSeconds.value * 1000 > now + 60_000 then until == o.resetSeconds.value * 1000
            else until == now + 60_000
       else if exists ms :: AsksFor(o, now, ms) then key == "*" && AsksFor(o, now, until - now)
       else
         && until == now + 120_000
         && key == (if o.status == 401 then "*" else if o.status == 429 then "resource:" + o.resource else o.route)
  }

  lemma PauseMeans(o: Observation, now: int, key: string, until: int)
    ensures MustRest(o, now, key, until) <==> AsksPause(o) && Classified(o, now) == Cooldown(key, until - now)
  {
    if o.retrySeconds.Some? {
      var ms := if o.retrySeconds.value == 0 then 1_000 else o.retrySeconds.value * 1000;
      assert AsksFor(o, now, ms) <==> now + ms <= MAX_SAFE_INTEGER;
      assert forall other :: AsksFor(o, now, other) ==> other == ms;
    } else {
      assert forall other :: !AsksFor(o, now, other);
    }
  }

  /** A row of the quota table after an observation of a window: a later window replaces it, in the same one the
      least that was left counts, and one of an earlier window changes nothing. */
  predicate QuotaSeen(before: Option<Rate>, after: Rate, limit: Option<nat>, left: nat, reset: int)
  {
    if before.None? || before.value.reset < reset then after == Rate(if limit.Some? then limit.value else 5_000, left, reset)
    else if before.value.reset == reset then
      after.limit == before.value.limit && after.reset == reset && after.remaining <= left && after.remaining <= before.value.remaining
      && (after.remaining == left || after.remaining == before.value.remaining)
    else after == before.value
  }

  function RowOf<K, V>(rows: map<K, V>, key: K): Option<V>
  {
    if key in rows then Some(rows[key]) else None
  }

  function Later(before: Option<int>, until: int): int
  {
    if before.Some? && before.value > until then before.value else until
  }

  /** An observation touches the quota of its identity and resource, if it tells it, and the one pause it asks
      for, which is only ever made longer; and nothing else. */
  lemma RecordingMeans(t: Tables, o: Observation, now: int)
    ensures var t' := Recorded(t, o, now);
            var key := (o.identity, o.resource);
            && t'.leases == t.leases
            && (forall other :: other != key ==> RowOf(t'.rates, other) == RowOf(t.rates, other))
            && (if o.remaining.Some? && o.resetSeconds.Some? && o.resetSeconds.value != 0 && !o.badLimit
                then key in t'.rates && QuotaSeen(RowOf(t.rates, key), t'.rates[key], o.limit, o.remaining.value, o.resetSeconds.value * 1000)
                else t'.rates == t.rates)
    ensures var t' := Recorded(t, o, now);
            && (forall rest, until :: MustRest(o, now, rest, until) ==>
                  && (o.identity, rest) in t'.cooldowns
                  && t'.cooldowns[(o.identity, rest)] == Later(RowOf(t.cooldowns, (o.identity, rest)), until))
            && (forall id, rest :: (id != o.identity || forall until :: !MustRest(o, now, rest, until)) ==>
                  RowOf(t'.cooldowns, (id, rest)) == RowOf(t.cooldowns, (id, rest)))
  {
    hide MustRest, Classified, AsksPause;
    forall rest, until ensures MustRest(o, now, rest, until) <==> AsksPause(o) && Classified(o, now) == Cooldown(rest, until - now) {
      PauseMeans(o, now, rest, until);
    }
    var c := Classified(o, now);
    assert AsksPause(o) ==> MustRest(o, now, c.key, now + c.ttl);
  }

  /** A credential that could not be used rests everything of its identity for two minutes. */
  lemma FailureMeans(t: Tables, id: string, now: int)
    ensures var t' := CredentialFailed(t, id, now);
            && t'.leases == t.leases && t'.rates == t.rates
            && (id, "*") in t'.cooldowns && t'.cooldowns[(id, "*")] >= now + 120_000
            && (t'.cooldowns[(id, "*")] == now + 120_000 || RowOf(t.cooldowns, (id, "*")) == Some(t'.cooldowns[(id, "*")]))
            && forall other :: other != (id, "*") ==> RowOf(t'.cooldowns, other) == RowOf(t.cooldowns, other)
  {
  }

  /** In every run, an identity that must rest is chosen for no request in the scope until its rest is over. */
  lemma WhoMustRestIsNotChosen(steps: seq<Step>, tables: seq<Tables>, i: nat, j: nat, key: string, until: int)
    requires IsRun(steps, tables) && i < j < |steps| && steps[i].Record? && steps[j].Select?
    requires MustRest(steps[i].observation, steps[i].now, key, until) && steps[j].now < until
    requires key in ["*", "resource:" + steps[j].request.resource, steps[j].request.route]
    ensures steps[j].result.Unavailable? || steps[j].result.identity != steps[i].observation.identity
  {
    PauseMeans(steps[i].observation, steps[i].now, key, until);
    PausesAreKept(steps, tables, i, j);
  }
}
