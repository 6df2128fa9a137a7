/** What holds of every run of the config cache. */
module ConfigCacheTheorems {
  import opened Basics
  import opened ConfigCacheModel
  import opened ConfigCacheInvariants

  lemma {:induction false} RunInv(run: seq<Cache>, i: nat)
    requires Execution(run) && i < |run|
    ensures Inv(run[i])
  {
    if i == 0 {
    } else {
      RunInv(run, i - 1);
      assert Follows(run[i - 1], run[i]);
      var a :| Step(run[i - 1], a, run[i]);
      StepKeepsInv(run[i - 1], a, run[i]);
    }
  }

  /** Fencing: wherever the answer of a lookup comes from, it is the value of one load of that
      key, created less than the lifetime ago and after every fence that preceded the lookup.
      The loading function was called no earlier than that. */
  lemma LookupIsFenced(run: seq<Cache>, i: nat, key: string, scope: Option<Scope>)
    requires Execution(run) && i < |run|
    requires scope.Some? ==> scope.value in run[i].pending
    ensures WellFormed(run[i])
    ensures var c := run[i];
            var (d, answer) := Lookup(c, key, scope);
            && answer.source < |d.loads|
            && var l := d.loads[answer.source];
               && l.key == key && l.created > c.now - TTL_MS
               && AfterFences(c, l) && StartedLater(l)
               && (answer.Hit? ==> l.progress.Loaded? && l.progress.value == answer.value)
  {
    RunInv(run, i);
    var c := run[i];
    var (d, answer) := Lookup(c, key, scope);
    LookupKeepsInv(c, key, scope);
    if answer.Hit? { assert EntryOk(c, key, c.store[key]); }
    if !answer.Began? { assert LoadOk(c, c.loads[answer.source]); }
  }

  /** A load that passes the fences is what the next lookup is answered with, for its whole lifetime; and
      a lookup in the same request joins a load that is still fresh instead of beginning another. */
  lemma PublishedIsServed(c: Cache, id: nat, value: Value, later: int, scope: Option<Scope>)
    requires Inv(c) && id < |c.loads| && c.loads[id].progress.Loading? && Publishes(c, c.loads[id])
    requires c.now <= later < c.loads[id].created + TTL_MS
    requires scope.Some? ==> scope.value in c.pending
    ensures var d := Settle(c, id, value).(now := later);
            && WellFormed(d) && Lookup(d, c.loads[id].key, scope).1 == Hit(id, value)
            && (|c.store| < MAX_ENTRIES ==> forall key :: key in c.store ==> key in d.store)
  {
    SettleKeepsInv(c, id, value);
    ProgressKeepsInv(Settle(c, id, value), Settle(c, id, value).(now := later));
  }

  lemma BegunIsJoined(c: Cache, key: string, request: Scope)
    requires Inv(c) && request in c.pending && Lookup(c, key, Some(request)).1.Began?
    ensures var d := Lookup(c, key, Some(request)).0; WellFormed(d) && Lookup(d, key, Some(request)).1 == Joined(|c.loads|)
  {
    LookupKeepsInv(c, key, Some(request));
  }

  lemma StepGrows(c: Cache, a: Action, d: Cache)
    requires WellFormed(c) && Step(c, a, d)
    ensures Grown(c.loads, d.loads)
  {
    match a
    case Look(key, scope) =>
    case SettleLoad(id, value) => assert Successor(c.loads[id], d.loads[id]);
    case FinishLoad(id) => assert d.loads == c.loads;
    case _ =>
  }

  lemma FollowsGrows(c: Cache, d: Cache)
    requires Follows(c, d)
    ensures Grown(c.loads, d.loads)
  {
    var a :| Step(c, a, d);
    StepGrows(c, a, d);
  }

  lemma GrownTransitive(a: seq<Load>, b: seq<Load>, c: seq<Load>)
    requires Grown(a, b) && Grown(b, c)
    ensures Grown(a, c)
  {
    forall k | 0 <= k < |a| ensures Successor(a[k], c[k]) {
      assert Successor(a[k], b[k]) && Successor(b[k], c[k]);
    }
  }

  lemma {:induction false} ChainGrows(run: seq<Cache>, i: nat, j: nat)
    requires i <= j < |run|
    requires forall k :: 0 < k < |run| ==> Grown(run[k - 1].loads, run[k].loads)
    ensures Grown(run[i].loads, run[j].loads)
  {
    if i < j {
      ChainGrows(run, i, j - 1);
      GrownTransitive(run[i].loads, run[j - 1].loads, run[j].loads);
    }
  }

  /** Loads keep their key, creation and, once loaded, their value: what a joined or begun
      lookup is answered with later is what `LookupIsFenced` spoke of. */
  lemma LoadsOnlyProgress(run: seq<Cache>, i: nat, j: nat)
    requires Execution(run) && i <= j < |run|
    ensures Grown(run[i].loads, run[j].loads)
  {
    forall k | 0 < k < |run| ensures Grown(run[k - 1].loads, run[k].loads) {
      FollowsGrows(run[k - 1], run[k]);
    }
    ChainGrows(run, i, j);
  }

  lemma BoundedStore(run: seq<Cache>, i: nat)
    requires Execution(run) && i < |run|
    ensures |run[i].store| <= MAX_ENTRIES
    ensures forall s :: s in run[i].pending ==> |run[i].pending[s]| <= MAX_ENTRIES
  {
    RunInv(run, i);
  }
}
