/** The module state of src/config-cache.ts as an object. Each method is one step of `ConfigCacheModel`. */
module ConfigCache {
  import opened Basics
  import opened ConfigCacheModel
  import opened ConfigCacheInvariants

  class ConfigCache {
    var now: int
    var generation: nat
    var store: map<string, Entry>
    var loads: seq<Load>
    var pending: map<Scope, map<string, nat>>
    var tick: nat
    ghost var cleared: nat
    ghost var invalidated: map<string, nat>

    ghost function State(): Cache
      reads this
    {
      Cache(now, tick, generation, store, loads, pending, cleared, invalidated)
    }

    constructor (start: int)
      ensures Initial(State()) && now == start && Inv(State())
    {
      now, tick, generation, store, loads, pending := start, 0, 0, map[], [], map[];
      cleared, invalidated := 0, map[];
    }

    method Lookup(key: string, scope: Option<Scope>) returns (answer: Answer)
      requires WellFormed(State()) && (scope.Some? ==> scope.value in pending)
      modifies this
      ensures (State(), answer) == ConfigCacheModel.Lookup(old(State()), key, scope)
    {
      tick := tick + 1;
      if key in store && store[key].expires > now {
        return Hit(store[key].source, store[key].value);
      }
      if scope.Some? && key in pending[scope.value] {
        assert ScopeOk(pending[scope.value], loads);
        var existing := loads[pending[scope.value][key]];
        if existing.created + TTL_MS > now && existing.generation == generation {
          return Joined(pending[scope.value][key]);
        }
      }
      var id := |loads|;
      loads := loads + [Load(key, now, tick - 1, generation, SeenBy(store, key), scope, Queued)];
      if scope.Some? {
        var mine := pending[scope.value];
        if |mine| >= MAX_ENTRIES { mine := map[]; }
        pending := pending[scope.value := mine[key := id]];
      }
      return Began(id);
    }

    method DropStale()
      modifies this`store
      ensures store == Fresh(old(store), now)
    {
      var keys := store.Keys;
      while keys != {}
        invariant keys <= store.Keys <= old(store).Keys
        invariant forall key :: key in store ==> store[key] == old(store)[key] && (key !in keys ==> store[key].expires > now)
        invariant forall key :: key in old(store) && key !in store ==> old(store)[key].expires <= now
        decreases keys
      {
        var key :| key in keys;
        if store[key].expires <= now { store := store - {key}; }
        keys := keys - {key};
      }
    }

    method Settle(id: nat, value: Value)
      requires id < |loads| && loads[id].progress.Loading?
      modifies this
      ensures State() == ConfigCacheModel.Settle(old(State()), id, value)
    {
      var l := loads[id];
      tick := tick + 1;
      loads := loads[id := l.(progress := Loaded(l.progress.startedAt, l.progress.startTick, value))];
      if generation == l.generation && SeenBy(store, l.key) == l.hit && l.created + TTL_MS > now {
        if |store| >= MAX_ENTRIES {
          DropStale();
          if |store| >= MAX_ENTRIES {
            store, generation := map[], generation + 1;
          }
        }
        store := store[l.key := Entry(l.created + TTL_MS, value, id)];
      }
    }

    method InvalidateConfigValue(key: string, value: Value)
      modifies this
      ensures State() == Invalidate(old(State()), key, value)
    {
      tick := tick + 1;
      if key in store && store[key].value == value {
        store, generation := store - {key}, generation + 1;
        invalidated := invalidated[key := tick];
      }
    }

    method ClearConfigCache()
      modifies this
      ensures State() == Clear(old(State()))
    {
      tick, store, generation := tick + 1, map[], generation + 1;
      cleared := tick;
    }
  }
}
