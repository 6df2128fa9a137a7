/** What every step of the config cache keeps. */
module ConfigCacheInvariants {
  import opened Basics
  import opened ConfigCacheModel

  /** The load was created after every clear, and after every effective invalidation of its key. */
  predicate AfterFences(c: Cache, l: Load)
  {
    l.born >= c.cleared && (l.key in c.invalidated ==> l.born >= c.invalidated[l.key])
  }

  predicate StartedLater(l: Load)
  {
    l.progress.Loading? || l.progress.Loaded? ==> l.progress.startedAt >= l.created && l.progress.startTick > l.born
  }

  ghost predicate LoadOk(c: Cache, l: Load)
  {
    && l.created <= c.now && l.born < c.tick
    && l.generation <= c.generation
    && (l.generation == c.generation ==> AfterFences(c, l))
    && StartedLater(l)
  }

  ghost predicate LoadsOk(c: Cache)
  {
    forall i {:trigger LoadOk(c, c.loads[i])} :: 0 <= i < |c.loads| ==> LoadOk(c, c.loads[i])
  }

  ghost predicate EntryOk(c: Cache, key: string, e: Entry)
  {
    && e.source < |c.loads|
    && var l := c.loads[e.source];
       && l.key == key && e.expires == l.created + TTL_MS
       && l.progress.Loaded? && l.progress.value == e.value
       && AfterFences(c, l)
  }

  ghost predicate StoreOk(c: Cache)
  {
    && |c.store| <= MAX_ENTRIES
    && forall key {:trigger EntryOk(c, key, c.store[key])} :: key in c.store ==> EntryOk(c, key, c.store[key])
  }

  ghost predicate FencesOk(c: Cache)
  {
    c.cleared <= c.tick && forall key :: key in c.invalidated ==> c.invalidated[key] <= c.tick
  }

  ghost predicate Inv(c: Cache)
  {
    WellFormed(c) && LoadsOk(c) && StoreOk(c) && FencesOk(c)
  }

  /** Loads are only ever added, and only their progress changes. */
  ghost predicate Grown(before: seq<Load>, after: seq<Load>)
  {
    && |before| <= |after|
    && forall i {:trigger Successor(before[i], after[i])} :: 0 <= i < |before| ==> Successor(before[i], after[i])
  }

  predicate Successor(l: Load, m: Load)
  {
    && m.key == l.key && m.created == l.created && m.born == l.born && m.scope == l.scope
    && (l.progress.Loaded? ==> m.progress == l.progress)
  }

  lemma PendingFrame(c: Cache, d: Cache)
    requires WellFormed(c) && Grown(c.loads, d.loads) && d.pending == c.pending && |d.loads| == |c.loads|
    ensures WellFormed(d)
  {
    forall s | s in d.pending ensures ScopeOk(d.pending[s], d.loads) {
      var mine := d.pending[s];
      assert ScopeOk(mine, c.loads);
      forall key | key in mine ensures d.loads[mine[key]].key == key { assert Successor(c.loads[mine[key]], d.loads[mine[key]]); }
    }
    forall i | 0 <= i < |d.loads| ensures ScopeOpen(d, d.loads[i]) {
      assert ScopeOpen(c, c.loads[i]) && Successor(c.loads[i], d.loads[i]);
    }
  }

  lemma StoreFrame(c: Cache, d: Cache)
    requires StoreOk(c) && Grown(c.loads, d.loads) && d.store == c.store
    requires d.cleared == c.cleared && d.invalidated == c.invalidated
    ensures StoreOk(d)
  {
    forall k | k in d.store ensures EntryOk(d, k, d.store[k]) {
      assert EntryOk(c, k, c.store[k]);
      assert Successor(c.loads[c.store[k].source], d.loads[c.store[k].source]);
    }
  }

  predicate Paced(l: Load, m: Load)
  {
    m.generation == l.generation && (StartedLater(l) ==> StartedLater(m))
  }

  /** Steps that touch at most the progress of a load. */
  lemma ProgressKeepsInv(c: Cache, d: Cache)
    requires Inv(c) && Grown(c.loads, d.loads) && |d.loads| == |c.loads|
    requires d.store == c.store && d.pending == c.pending && d.generation == c.generation
    requires d.now >= c.now && d.tick >= c.tick && d.cleared == c.cleared && d.invalidated == c.invalidated
    requires forall i :: 0 <= i < |c.loads| ==> Paced(c.loads[i], d.loads[i])
    ensures Inv(d)
  {
    PendingFrame(c, d);
    StoreFrame(c, d);
    forall i | 0 <= i < |d.loads| ensures LoadOk(d, d.loads[i]) {
      assert LoadOk(c, c.loads[i]) && Successor(c.loads[i], d.loads[i]) && Paced(c.loads[i], d.loads[i]);
    }
  }

  lemma PendingKeepsInv(c: Cache, pending: map<Scope, map<string, nat>>)
    requires Inv(c) && c.pending.Keys <= pending.Keys
    requires forall s :: s in pending ==> ScopeOk(pending[s], c.loads)
    ensures Inv(c.(pending := pending))
  {
    var d := c.(pending := pending);
    forall i | 0 <= i < |d.loads| ensures LoadOk(d, d.loads[i]) && ScopeOpen(d, d.loads[i]) {
      assert LoadOk(c, c.loads[i]) && ScopeOpen(c, c.loads[i]);
    }
    StoreFrame(c, d);
  }

  /** A smaller or larger store is safe as long as each of its entries is after every fence. */
  lemma StoreKeepsInv(c: Cache, store: map<string, Entry>, generation: nat)
    requires Inv(c) && generation >= c.generation && |store| <= MAX_ENTRIES
    requires forall key :: key in store ==> EntryOk(c, key, store[key])
    ensures Inv(c.(store := store, generation := generation))
  {
    var d := c.(store := store, generation := generation);
    PendingFrame(c, d);
    forall i | 0 <= i < |d.loads| ensures LoadOk(d, d.loads[i]) { assert LoadOk(c, c.loads[i]); }
    forall key | key in d.store ensures EntryOk(d, key, d.store[key]) { assert EntryOk(c, key, store[key]); }
  }

  lemma AddedKeepsScope(mine: map<string, nat>, key: string, loads: seq<Load>)
    requires |loads| > 0 && loads[|loads| - 1].key == key && ScopeOk(mine, loads) && |mine| < MAX_ENTRIES
    ensures ScopeOk(mine[key := |loads| - 1], loads)
  {
    var grown := mine[key := |loads| - 1];
    assert grown.Keys == mine.Keys + {key};
  }

  lemma SharedKeepsScopes(pending: map<Scope, map<string, nat>>, scope: Option<Scope>, key: string, loads: seq<Load>)
    requires |loads| > 0 && loads[|loads| - 1].key == key
    requires forall s :: s in pending ==> ScopeOk(pending[s], loads)
    requires scope.Some? ==> scope.value in pending
    ensures var shared := Shared(pending, scope, key, |loads| - 1);
            && shared.Keys == pending.Keys
            && forall s :: s in shared ==> ScopeOk(shared[s], loads)
  {
    var shared := Shared(pending, scope, key, |loads| - 1);
    forall s | s in shared ensures ScopeOk(shared[s], loads) {
      assert ScopeOk(pending[s], loads);
      if scope == Some(s) { AddedKeepsScope(if |pending[s]| >= MAX_ENTRIES then map[] else pending[s], key, loads); }
    }
  }

  lemma NewLoadKeepsLoads(c: Cache, l: Load)
    requires LoadsOk(c) && FencesOk(c)
    requires l.created == c.now && l.born == c.tick && l.generation == c.generation && l.progress == Queued
    ensures LoadsOk(WithLoad(c, l))
  {
    var d := WithLoad(c, l);
    forall i | 0 <= i < |d.loads| ensures LoadOk(d, d.loads[i]) {
      if i < |c.loads| { assert LoadOk(c, c.loads[i]); }
    }
  }

  lemma NewLoadKeepsPending(c: Cache, l: Load)
    requires WellFormed(c) && (l.scope.Some? ==> l.scope.value in c.pending)
    ensures WellFormed(WithLoad(c, l))
  {
    var d := WithLoad(c, l);
    forall s | s in d.pending ensures ScopeOk(d.pending[s], d.loads) { assert ScopeOk(c.pending[s], c.loads); }
    forall i | 0 <= i < |d.loads| ensures ScopeOpen(d, d.loads[i]) {
      if i < |c.loads| { assert ScopeOpen(c, c.loads[i]); }
    }
  }

  lemma NewLoadKeepsInv(c: Cache, l: Load)
    requires Inv(c)
    requires l.created == c.now && l.born == c.tick && l.generation == c.generation && l.progress == Queued
    requires l.scope.Some? ==> l.scope.value in c.pending
    ensures Inv(WithLoad(c, l))
  {
    NewLoadKeepsLoads(c, l);
    NewLoadKeepsPending(c, l);
    StoreFrame(c, WithLoad(c, l));
  }

  lemma BeganKeepsInv(c: Cache, l: Load)
    requires Inv(c)
    requires l.created == c.now && l.born == c.tick && l.generation == c.generation && l.progress == Queued
    requires ScopeOpen(c, l)
    ensures Inv(WithLoad(c, l).(pending := Shared(c.pending, l.scope, l.key, |c.loads|)))
  {
    var grown := WithLoad(c, l);
    NewLoadKeepsInv(c, l);
    SharedKeepsScopes(grown.pending, l.scope, l.key, grown.loads);
    PendingKeepsInv(grown, Shared(grown.pending, l.scope, l.key, |c.loads|));
  }

  lemma LookupKeepsInv(c: Cache, key: string, scope: Option<Scope>)
    requires Inv(c) && (scope.Some? ==> scope.value in c.pending)
    ensures Inv(Lookup(c, key, scope).0)
  {
    if Lookup(c, key, scope).1.Began? {
      BeganKeepsInv(c, NewLoad(c, key, scope));
    } else {
      ProgressKeepsInv(c, c.(tick := c.tick + 1));
    }
  }

  function WithLoad(c: Cache, l: Load): Cache
  {
    c.(tick := c.tick + 1, loads := c.loads + [l])
  }

  lemma FreshShrinks(store: map<string, Entry>, now: int)
    ensures |Fresh(store, now)| <= |store|
  {
    var rest := Fresh(store, now).Keys;
    assert rest <= store.Keys;
    SubsetSize(rest, store.Keys);
  }

  /** A publication that passes the three fences puts a value after every fence in the store. */
  lemma SettleKeepsInv(c: Cache, id: nat, value: Value)
    requires Inv(c) && id < |c.loads| && c.loads[id].progress.Loading?
    ensures Inv(Settle(c, id, value))
  {
    var done := Done(c, id, value);
    assert LoadOk(c, c.loads[id]);
    ProgressKeepsInv(c, done);
    if Publishes(c, c.loads[id]) {
      var (store, generation) := Published(done, id, value);
      FreshShrinks(c.store, c.now);
      forall key | key in store ensures EntryOk(done, key, store[key]) {
        if key in done.store { assert EntryOk(done, key, done.store[key]); }
      }
      StoreKeepsInv(done, store, generation);
    }
  }

  lemma InvalidateKeepsPending(c: Cache, key: string, value: Value)
    requires WellFormed(c)
    ensures WellFormed(Invalidate(c, key, value))
  {
    PendingFrame(c, Invalidate(c, key, value));
  }

  lemma InvalidateKeepsLoads(c: Cache, key: string, value: Value)
    requires LoadsOk(c)
    ensures LoadsOk(Invalidate(c, key, value))
  {
    var d := Invalidate(c, key, value);
    forall i | 0 <= i < |d.loads| ensures LoadOk(d, d.loads[i]) { assert LoadOk(c, c.loads[i]); }
  }

  lemma InvalidateKeepsStore(c: Cache, key: string, value: Value)
    requires StoreOk(c)
    ensures StoreOk(Invalidate(c, key, value))
  {
    var d := Invalidate(c, key, value);
    SubsetSize(d.store.Keys, c.store.Keys);
    forall k | k in d.store ensures EntryOk(d, k, d.store[k]) { assert EntryOk(c, k, c.store[k]); }
  }

  lemma InvalidateKeepsInv(c: Cache, key: string, value: Value)
    requires Inv(c)
    ensures Inv(Invalidate(c, key, value))
  {
    hide LoadsOk, StoreOk, WellFormed;
    InvalidateKeepsPending(c, key, value);
    InvalidateKeepsLoads(c, key, value);
    InvalidateKeepsStore(c, key, value);
  }

  lemma ClearKeepsInv(c: Cache)
    requires Inv(c)
    ensures Inv(Clear(c))
  {
    var d := Clear(c);
    PendingFrame(c, d);
    forall i | 0 <= i < |d.loads| ensures LoadOk(d, d.loads[i]) { assert LoadOk(c, c.loads[i]); }
  }

  lemma ForgetKeepsInv(c: Cache, id: nat)
    requires Inv(c) && id < |c.loads|
    ensures Inv(Forget(c, id))
  {
    var d := Forget(c, id);
    var ticked := c.(tick := c.tick + 1);
    ProgressKeepsInv(c, ticked);
    assert ScopeOpen(c, c.loads[id]);
    forall s | s in d.pending ensures ScopeOk(d.pending[s], c.loads) {
      assert ScopeOk(c.pending[s], c.loads);
      SubsetSize(d.pending[s].Keys, c.pending[s].Keys);
    }
    PendingKeepsInv(ticked, d.pending);
  }

  lemma StepKeepsInv(c: Cache, a: Action, d: Cache)
    requires Inv(c) && Step(c, a, d)
    ensures Inv(d)
  {
    match a
    case Look(key, scope) => LookupKeepsInv(c, key, scope);
    case SettleLoad(id, value) => SettleKeepsInv(c, id, value);
    case BeginLoad(id) => assert LoadOk(c, c.loads[id]); ProgressKeepsInv(c, d);
    case RejectLoad(id) => assert LoadOk(c, c.loads[id]); ProgressKeepsInv(c, d);
    case FinishLoad(id) => ForgetKeepsInv(c, id);
    case InvalidateKey(key, value) => InvalidateKeepsInv(c, key, value);
    case ClearAll => ClearKeepsInv(c);
    case Tick(_) => ProgressKeepsInv(c, d);
    case OpenScope(_) => PendingKeepsInv(c, d.pending);
  }
}
