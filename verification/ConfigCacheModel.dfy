/** The process-local config cache (src/config-cache.ts) as a state machine.

    A load is named by its index in `loads`. An entry of the store is an object of its own,
    and each load creates at most one, so `source` is also the identity of the entry. */
module ConfigCacheModel {
  import opened Basics

  const TTL_MS := 30_000
  const MAX_ENTRIES := 256

  /** The identity of a loaded value. */
  type Value = nat

  type Scope = nat

  datatype Entry = Entry(expires: int, value: Value, source: nat)

  datatype Progress = Queued | Loading(startedAt: int, startTick: nat) | Loaded(startedAt: int, startTick: nat, value: Value) | Rejected

  datatype Load = Load(
    key: string,
    created: int,
    born: nat,              // the tick of the lookup that created it
    generation: nat,
    hit: Option<nat>,       // the entry that lookup saw, expired or absent
    scope: Option<Scope>,
    progress: Progress)

  /** `tick` counts steps. `cleared` and `invalidated` only record history: the tick after the
      last external clear, and after the last effective invalidation of each key. */
  datatype Cache = Cache(
    now: int,
    tick: nat,
    generation: nat,
    store: map<string, Entry>,
    loads: seq<Load>,
    pending: map<Scope, map<string, nat>>,
    cleared: nat,
    invalidated: map<string, nat>)

  datatype Answer = Hit(source: nat, value: Value) | Joined(source: nat) | Began(source: nat)

  function SeenBy(store: map<string, Entry>, key: string): Option<nat>
  {
    if key in store then Some(store[key].source) else None
  }

  predicate Usable(c: Cache, l: Load)
  {
    l.created + TTL_MS > c.now && l.generation == c.generation
  }

  function Lookup(c: Cache, key: string, scope: Option<Scope>): (r: (Cache, Answer))
    requires WellFormed(c)
    requires scope.Some? ==> scope.value in c.pending
  {
    var ticked := c.(tick := c.tick + 1);
    if key in c.store && c.store[key].expires > c.now then
      (ticked, Hit(c.store[key].source, c.store[key].value))
    else if scope.Some? && key in c.pending[scope.value] && Usable(c, c.loads[c.pending[scope.value][key]]) then
      (ticked, Joined(c.pending[scope.value][key]))
    else
      var id := |c.loads|;
      (ticked.(loads := c.loads + [NewLoad(c, key, scope)], pending := Shared(c.pending, scope, key, id)), Began(id))
  }

  function NewLoad(c: Cache, key: string, scope: Option<Scope>): Load
  {
    Load(key, c.now, c.tick, c.generation, SeenBy(c.store, key), scope, Queued)
  }

  function Shared(pending: map<Scope, map<string, nat>>, scope: Option<Scope>, key: string, id: nat): map<Scope, map<string, nat>>
    requires scope.Some? ==> scope.value in pending
  {
    if scope.None? then pending
    else
      var mine := pending[scope.value];
      pending[scope.value := (if |mine| >= MAX_ENTRIES then map[] else mine)[key := id]]
  }

  /** The microtask that calls `load`. */
  function Begin(c: Cache, id: nat): Cache
    requires id < |c.loads|
  {
    c.(tick := c.tick + 1, loads := c.loads[id := c.loads[id].(progress := Loading(c.now, c.tick))])
  }

  /** Clears, invalidations, evictions and newer entries fence a late publication. */
  predicate Publishes(c: Cache, l: Load)
  {
    && c.generation == l.generation
    && SeenBy(c.store, l.key) == l.hit
    && l.created + TTL_MS > c.now
  }

  function Fresh(store: map<string, Entry>, now: int): map<string, Entry>
  {
    map key | key in store && store[key].expires > now :: store[key]
  }

  function Settle(c: Cache, id: nat, value: Value): Cache
    requires id < |c.loads| && c.loads[id].progress.Loading?
  {
    var done := Done(c, id, value);
    if !Publishes(c, c.loads[id]) then done
    else
      var (store, generation) := Published(done, id, value);
      done.(store := store, generation := generation)
  }

  function Done(c: Cache, id: nat, value: Value): Cache
    requires id < |c.loads| && c.loads[id].progress.Loading?
  {
    var l := c.loads[id];
    c.(tick := c.tick + 1, loads := c.loads[id := l.(progress := Loaded(l.progress.startedAt, l.progress.startTick, value))])
  }

  /** Make room, by dropping expired entries and then everything, and add the entry. */
  function Published(c: Cache, id: nat, value: Value): (map<string, Entry>, nat)
    requires id < |c.loads|
  {
    var l := c.loads[id];
    var kept := if |c.store| >= MAX_ENTRIES then Fresh(c.store, c.now) else c.store;
    var entry := Entry(l.created + TTL_MS, value, id);
    if |kept| >= MAX_ENTRIES then (map[l.key := entry], c.generation + 1) else (kept[l.key := entry], c.generation)
  }

  function Reject(c: Cache, id: nat): Cache
    requires id < |c.loads|
  {
    c.(tick := c.tick + 1, loads := c.loads[id := c.loads[id].(progress := Rejected)])
  }

  /** The `finally` handler, whenever it runs. */
  function Forget(c: Cache, id: nat): Cache
    requires WellFormed(c) && id < |c.loads|
  {
    var l := c.loads[id];
    var ticked := c.(tick := c.tick + 1);
    assert ScopeOpen(c, l);
    if l.scope.Some? && l.key in c.pending[l.scope.value] && c.pending[l.scope.value][l.key] == id then
      ticked.(pending := c.pending[l.scope.value := c.pending[l.scope.value] - {l.key}])
    else ticked
  }

  function Invalidate(c: Cache, key: string, value: Value): Cache
  {
    if key in c.store && c.store[key].value == value then
      c.(tick := c.tick + 1, store := c.store - {key}, generation := c.generation + 1,
         invalidated := c.invalidated[key := c.tick + 1])
    else c.(tick := c.tick + 1)
  }

  function Clear(c: Cache): Cache
  {
    c.(tick := c.tick + 1, store := map[], generation := c.generation + 1, cleared := c.tick + 1)
  }

  /** One request's pending map: bounded, and every entry is a load of its own key. */
  ghost predicate ScopeOk(mine: map<string, nat>, loads: seq<Load>)
  {
    && |mine| <= MAX_ENTRIES
    && forall key :: key in mine ==> mine[key] < |loads| && loads[mine[key]].key == key
  }

  predicate ScopeOpen(c: Cache, l: Load)
  {
    l.scope.Some? ==> l.scope.value in c.pending
  }

  ghost predicate WellFormed(c: Cache)
  {
    && (forall s :: s in c.pending ==> ScopeOk(c.pending[s], c.loads))
    && (forall i {:trigger ScopeOpen(c, c.loads[i])} :: 0 <= i < |c.loads| ==> ScopeOpen(c, c.loads[i]))
  }

  datatype Action =
    | Tick(later: int)
    | OpenScope(request: Scope)
    | Look(key: string, scope: Option<Scope>)
    | BeginLoad(id: nat)
    | SettleLoad(id: nat, value: Value)
    | RejectLoad(id: nat)
    | FinishLoad(id: nat)
    | InvalidateKey(key: string, value: Value)
    | ClearAll

  ghost predicate Step(c: Cache, a: Action, d: Cache)
    requires WellFormed(c)
  {
    match a
    case Tick(later) => later >= c.now && d == c.(now := later)
    case OpenScope(request) => request !in c.pending && d == c.(pending := c.pending[request := map[]])
    case Look(key, scope) => (scope.Some? ==> scope.value in c.pending) && d == Lookup(c, key, scope).0
    case BeginLoad(id) => id < |c.loads| && c.loads[id].progress.Queued? && d == Begin(c, id)
    case SettleLoad(id, value) => id < |c.loads| && c.loads[id].progress.Loading? && d == Settle(c, id, value)
    case RejectLoad(id) => id < |c.loads| && c.loads[id].progress.Loading? && d == Reject(c, id)
    case FinishLoad(id) =>
      && id < |c.loads| && (c.loads[id].progress.Loaded? || c.loads[id].progress.Rejected?)
      && d == Forget(c, id)
    case InvalidateKey(key, value) => d == Invalidate(c, key, value)
    case ClearAll => d == Clear(c)
  }

  ghost predicate Follows(c: Cache, d: Cache)
  {
    WellFormed(c) && exists a :: Step(c, a, d)
  }

  ghost predicate Initial(c: Cache)
  {
    c.tick == 0 && c.store == map[] && c.loads == [] && c.pending == map[] && c.cleared == 0 && c.invalidated == map[]
  }

  ghost predicate Execution(run: seq<Cache>)
  {
    && |run| > 0 && Initial(run[0])
    && forall i :: 0 < i < |run| ==> Follows(run[i - 1], run[i])
  }
}
