/** What a clear or an invalidation that is a step of a run keeps out of every later lookup
    (src/config-cache.ts:76-90). */
module ConfigCacheFences {
  import opened Basics
  import opened ConfigCacheModel
  import opened ConfigCacheInvariants
  import opened ConfigCacheTheorems

  /** Step `k` of the run is this action. */
  ghost predicate IsStep(run: seq<Cache>, k: nat, a: Action)
  {
    k + 1 < |run| && WellFormed(run[k]) && Step(run[k], a, run[k + 1])
  }

  /** No fence is ever taken back. */
  ghost predicate FencedAsBefore(c: Cache, d: Cache)
  {
    && c.cleared <= d.cleared
    && forall key :: key in c.invalidated ==> key in d.invalidated && c.invalidated[key] <= d.invalidated[key]
  }

  lemma StepKeepsFences(c: Cache, a: Action, d: Cache)
    requires WellFormed(c) && FencesOk(c) && Step(c, a, d)
    ensures FencedAsBefore(c, d)
  {
    hide WellFormed, Publishes, Published, Fresh, Shared, NewLoad, Usable;
  }

  lemma FollowsKeepsFences(c: Cache, d: Cache)
    requires Inv(c) && Follows(c, d)
    ensures FencedAsBefore(c, d)
  {
    hide Step, LoadsOk, StoreOk, FencesOk, WellFormed;
    var a :| Step(c, a, d);
    StepKeepsFences(c, a, d);
  }

  lemma FencesTransitive(a: Cache, b: Cache, c: Cache)
    requires FencedAsBefore(a, b) && FencedAsBefore(b, c)
    ensures FencedAsBefore(a, c)
  {
  }

  lemma RunStep(run: seq<Cache>, j: nat)
    requires Execution(run) && 0 < j < |run|
    ensures Follows(run[j - 1], run[j])
  {
    hide Follows, Initial;
  }

  lemma {:induction false} RunKeepsFences(run: seq<Cache>, i: nat, j: nat)
    requires Execution(run) && i <= j < |run|
    ensures FencedAsBefore(run[i], run[j])
  {
    if i == j {
      hide Execution;
    } else {
      hide Inv, FencedAsBefore, Follows, Execution;
      RunKeepsFences(run, i, j - 1);
      RunInv(run, j - 1);
      RunStep(run, j);
      FollowsKeepsFences(run[j - 1], run[j]);
      FencesTransitive(run[i], run[j - 1], run[j]);
    }
  }

  /** A load that existed at step `k` keeps its birth, which is before that step's tick. */
  lemma OldLoad(run: seq<Cache>, k: nat, j: nat, id: nat)
    requires Execution(run) && k <= j < |run| && id < |run[k].loads|
    ensures |run[k].loads| <= |run[j].loads|
    ensures run[j].loads[id].born < run[k].tick && run[j].loads[id].key == run[k].loads[id].key
  {
    LoadsOnlyProgress(run, k, j);
    RunInv(run, k);
    assert LoadOk(run[k], run[k].loads[id]);
    assert Successor(run[k].loads[id], run[j].loads[id]);
  }

  /** After a clear, no lookup is ever answered from a load that had been created before it. */
  lemma ClearedLoadsAreNeverServed(run: seq<Cache>, k: nat, j: nat, key: string, scope: Option<Scope>)
    requires Execution(run) && IsStep(run, k, ClearAll) && k < j < |run|
    requires scope.Some? ==> scope.value in run[j].pending
    ensures WellFormed(run[j]) && Lookup(run[j], key, scope).1.source >= |run[k].loads|
  {
    LookupIsFenced(run, j, key, scope);
    var (d, answer) := Lookup(run[j], key, scope);
    RunKeepsFences(run, k + 1, j);
    LoadsOnlyProgress(run, k, j);
    if answer.source < |run[k].loads| { OldLoad(run, k, j, answer.source); }
  }

  /** After an invalidation of the value that the store holds under a key, no lookup of that key is ever
      answered from a load that had been created before it. */
  lemma InvalidatedLoadsAreNeverServed(run: seq<Cache>, k: nat, j: nat, key: string, value: Value, scope: Option<Scope>)
    requires Execution(run) && IsStep(run, k, InvalidateKey(key, value)) && k < j < |run|
    requires key in run[k].store && run[k].store[key].value == value
    requires scope.Some? ==> scope.value in run[j].pending
    ensures WellFormed(run[j]) && Lookup(run[j], key, scope).1.source >= |run[k].loads|
  {
    LookupIsFenced(run, j, key, scope);
    var (d, answer) := Lookup(run[j], key, scope);
    RunKeepsFences(run, k + 1, j);
    LoadsOnlyProgress(run, k, j);
    if answer.source < |run[k].loads| { OldLoad(run, k, j, answer.source); }
  }

  /** An invalidation of another value than the one that is held changes nothing that a lookup goes by. */
  lemma StaleInvalidationChangesNothing(run: seq<Cache>, k: nat, key: string, value: Value, look: string, scope: Option<Scope>)
    requires Execution(run) && IsStep(run, k, InvalidateKey(key, value))
    requires key in run[k].store ==> run[k].store[key].value != value
    requires scope.Some? ==> scope.value in run[k].pending
    ensures WellFormed(run[k + 1]) && (scope.Some? ==> scope.value in run[k + 1].pending)
    ensures Lookup(run[k + 1], look, scope).1 == Lookup(run[k], look, scope).1
    ensures run[k + 1].store == run[k].store && run[k + 1].loads == run[k].loads && run[k + 1].generation == run[k].generation
  {
    RunInv(run, k + 1);
  }
}
