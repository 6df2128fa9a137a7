/** What each step of the config cache does, on the entries and loads themselves (src/config-cache.ts:26-90). */
module ConfigCacheSteps {
  import opened Basics
  import opened ConfigCacheModel
  import opened ConfigCacheInvariants

  /** The load is the one of its key in its request, and no other request's loads change. Others of the request
      stay while there are fewer than 256. */
  ghost predicate SharedUnder(pending: map<Scope, map<string, nat>>, after: map<Scope, map<string, nat>>, scope: Option<Scope>, key: string, id: nat)
  {
    && after.Keys == pending.Keys
    && (forall s :: s in pending && scope != Some(s) ==> after[s] == pending[s])
    && forall s :: s in pending && scope == Some(s) ==>
         && key in after[s] && after[s][key] == id
         && (forall k :: k in after[s] && k != key ==> k in pending[s] && after[s][k] == pending[s][k])
         && (|pending[s]| < 256 ==> forall k :: k in pending[s] ==> k in after[s])
  }

  lemma SharingActs(pending: map<Scope, map<string, nat>>, scope: Option<Scope>, key: string, id: nat)
    requires scope.Some? ==> scope.value in pending
    ensures SharedUnder(pending, Shared(pending, scope, key, id), scope, key, id)
  {
  }

  /** An entry that is not thirty seconds old answers. Otherwise a load of the same request does that is still
      going to count: not thirty seconds old, and no clear or invalidation since. Otherwise a new one is begun. */
  lemma LookupActs(c: Cache, key: string, scope: Option<Scope>)
    requires Inv(c) && (scope.Some? ==> scope.value in c.pending)
    ensures var (d, answer) := Lookup(c, key, scope);
            var shared := if scope.Some? && key in c.pending[scope.value] then Some(c.pending[scope.value][key]) else None;
            && d.store == c.store && d.generation == c.generation && d.now == c.now
            && if key in c.store && c.store[key].expires > c.now then
                 answer == Hit(c.store[key].source, c.store[key].value) && d.loads == c.loads && d.pending == c.pending
               else if shared.Some? && shared.value < |c.loads| && c.loads[shared.value].created + 30_000 > c.now
                       && c.loads[shared.value].generation == c.generation then
                 answer == Joined(shared.value) && d.loads == c.loads && d.pending == c.pending
               else
                 && answer == Began(|c.loads|) && |d.loads| == |c.loads| + 1 && d.loads[..|c.loads|] == c.loads
                 && var l := d.loads[|c.loads|];
                 && l.key == key && l.created == c.now && l.generation == c.generation && l.scope == scope && l.progress == Queued
                 && l.hit == (if key in c.store then Some(c.store[key].source) else None)
                 && SharedUnder(c.pending, d.pending, scope, key, |c.loads|)
  {
    hide SharedUnder, Shared, LoadsOk, StoreOk, FencesOk;
    if scope.Some? && key in c.pending[scope.value] { assert ScopeOk(c.pending[scope.value], c.loads); }
    SharingActs(c.pending, scope, key, |c.loads|);
  }

  /** Nothing has fenced the load off: no clear or invalidation since it was created, the entry of its key is
      the one its lookup saw, and it is not thirty seconds old. */
  predicate Unfenced(c: Cache, l: Load)
  {
    && c.generation == l.generation && l.created + 30_000 > c.now
    && l.hit == if l.key in c.store then Some(c.store[l.key].source) else None
  }

  /** The store after a load was published: its entry expires thirty seconds after the lookup; with room, all
      others stay; without, expired ones go; and all, as by a clear, if none had expired. */
  ghost predicate PublishedInto(c: Cache, d: Cache, id: nat, value: Value)
    requires id < |c.loads|
  {
    var l := c.loads[id];
    var live := set key | key in c.store && c.store[key].expires > c.now;
    && l.key in d.store && d.store[l.key] == Entry(l.created + 30_000, value, id)
    && (forall key :: key in d.store && key != l.key ==> key in c.store && d.store[key] == c.store[key])
    && if |c.store| < 256 then d.generation == c.generation && forall key :: key in c.store ==> key in d.store
       else if |live| < 256 then d.generation == c.generation && forall key :: key != l.key ==> (key in d.store <==> key in live)
       else d.generation == c.generation + 1 && forall key :: key in d.store ==> key == l.key
  }

  /** The value of a load is delivered to whoever joined it in any case. */
  lemma SettlingActs(c: Cache, id: nat, value: Value)
    requires id < |c.loads| && c.loads[id].progress.Loading?
    ensures var d := Settle(c, id, value);
            && d.now == c.now && d.pending == c.pending && |d.loads| == |c.loads|
            && (forall k :: 0 <= k < |c.loads| && k != id ==> d.loads[k] == c.loads[k])
            && d.loads[id].progress == Loaded(c.loads[id].progress.startedAt, c.loads[id].progress.startTick, value)
            && d.loads[id].key == c.loads[id].key && d.loads[id].created == c.loads[id].created
            && if Unfenced(c, c.loads[id]) then PublishedInto(c, d, id, value) else d.store == c.store && d.generation == c.generation
  {
    var live := set key | key in c.store && c.store[key].expires > c.now;
    assert Fresh(c.store, c.now).Keys == live;
  }

  /** Loading begins no earlier than the lookup's own turn is over, and is told when; a load that fails
      leaves the store alone; a load that is over leaves the request's map unless it was replaced there. */
  lemma LoadingActs(c: Cache, id: nat)
    requires WellFormed(c) && id < |c.loads|
    ensures var d := Begin(c, id);
            && d.loads == c.loads[id := c.loads[id].(progress := Loading(c.now, c.tick))] && d.tick == c.tick + 1
            && d.store == c.store && d.pending == c.pending && d.generation == c.generation && d.now == c.now
    ensures var d := Reject(c, id);
            && d.loads == c.loads[id := c.loads[id].(progress := Rejected)]
            && d.store == c.store && d.pending == c.pending && d.generation == c.generation && d.now == c.now
    ensures var d := Forget(c, id);
            && d.loads == c.loads && d.store == c.store && d.generation == c.generation && d.now == c.now
            && d.pending.Keys == c.pending.Keys
            && forall s :: s in c.pending ==>
                 forall key :: key in d.pending[s] <==> key in c.pending[s] && !(c.loads[id].scope == Some(s) && key == c.loads[id].key && c.pending[s][key] == id)
    ensures var d := Forget(c, id);
            forall s :: s in c.pending && s in d.pending ==> forall key :: key in d.pending[s] && key in c.pending[s] ==> d.pending[s][key] == c.pending[s][key]
  {
    assert ScopeOpen(c, c.loads[id]);
  }

  /** An invalidation of the value that is held removes that entry only, and fences every load off. One of any
      other value changes nothing. A clear removes all entries and fences every load off. */
  lemma FencingActs(c: Cache, key: string, value: Value)
    ensures var d := Invalidate(c, key, value);
            && d.loads == c.loads && d.pending == c.pending && d.now == c.now
            && if key in c.store && c.store[key].value == value then
                 && d.generation > c.generation && key !in d.store
                 && forall k :: k != key ==> (k in d.store <==> k in c.store) && (k in c.store ==> d.store[k] == c.store[k])
               else d.store == c.store && d.generation == c.generation
    ensures var d := Clear(c);
            d.loads == c.loads && d.pending == c.pending && d.now == c.now && d.generation > c.generation && forall k :: k !in d.store
  {
  }
}
