/** What every step of the policy register keeps. */
module PolicyInvariants {
  import opened Basics
  import opened PolicySegments
  import opened PolicyRegister

  lemma VersionKeepsHeld(history: seq<Version>, v: Version, k: nat, e: int)
    requires HeldAt(history, k, e) && e <= v.at
    ensures HeldAt(history + [v], k, e) && (history + [v])[k] == history[k]
  {
  }

  lemma VersionKeepsWitness(history: seq<Version>, v: Version, p: Policy, since: int, now: int)
    requires Witnessed(history, p, since, now) && now <= v.at
    ensures Witnessed(history + [v], p, since, now)
  {
    var k: nat, e :| HeldAt(history, k, e) && history[k].policy == p && since <= e <= now;
    VersionKeepsHeld(history, v, k, e);
  }

  lemma VersionKeepsInstalled(history: seq<Version>, v: Version, id: nat, p: Policy)
    requires Installed(history, id, p) && v.author != WrittenBy(id)
    ensures Installed(history + [v], id, p)
  {
    var k: nat :| InstalledAs(history, k, id, p);
    var longer := history + [v];
    assert longer[k].author == WrittenBy(id) && longer[k - 1] == history[k - 1];
    forall other | 0 <= other < |longer| && longer[other].author == WrittenBy(id) ensures other == k {
      if other < |history| { assert history[other] == longer[other]; }
    }
    assert InstalledAs(longer, k, id, p);
  }

  lemma LaterKeepsWitness(history: seq<Version>, p: Policy, since: int, now: int, later: int)
    requires Witnessed(history, p, since, now) && now <= later
    ensures Witnessed(history, p, since, later)
  {
    var k: nat, e :| HeldAt(history, k, e) && history[k].policy == p && since <= e <= now;
    assert HeldAt(history, k, e) && history[k].policy == p && since <= e <= later;
  }

  lemma TickKeepsInv(s: System, later: int)
    requires Inv(s) && s.now <= later
    ensures Inv(s.(now := later))
  {
    var c := s.coordinator;
    if c.snapshot.Some? {
      LaterKeepsWitness(s.history, c.snapshot.value.policy, c.snapshot.value.loadedAt, s.now, later);
    }
    if c.gate.Writing? {
      var w := c.gate.write;
      if w.id in s.committed && s.committed[w.id] {
        LaterKeepsWitness(s.history, NewPolicy(w), c.gate.since, s.now, later);
      }
    }
  }

  /** A witness is a version, so its revision is at most the current one. */
  lemma WitnessIsOld(s: System, p: Policy, since: int, now: int)
    requires HistoryOk(s) && Witnessed(s.history, p, since, now)
    ensures p.revision <= Current(s).revision
  {
    var k: nat, e :| HeldAt(s.history, k, e) && s.history[k].policy == p && since <= e <= now;
    assert s.history[k].policy.revision == s.history[0].policy.revision + k;
    assert s.history[|s.history| - 1].policy.revision == s.history[0].policy.revision + |s.history| - 1;
  }

  /** Every outcome keeps the invariant if its reply is backed and what it leaves is sound. */
  lemma ApplyKeepsInv(s: System, out: Outcome)
    requires Inv(s) && CoordinatorOk(Apply(s, out)) && WritesOk(Apply(s, out))
    requires out.reply.Some? ==> Backed(s.history, Sent(out.reply.value, s.now))
    requires out.reply.Some? && Serves(out.reply.value) ==> ServedUpTo(s.replies, out.reply.value.policy.revision)
    ensures Inv(Apply(s, out))
  {
    if out.reply.Some? && Serves(out.reply.value) {
      WitnessIsOld(s, out.reply.value.policy, out.reply.value.loadedAt, s.now);
    }
  }

  lemma ReplaceKeepsInv(s: System, job: Job, snapshot: Snapshot)
    requires Inv(s) && job.id in s.arrived && s.arrived[job.id] == job && snapshot.loadedAt <= s.now
    requires Witnessed(s.history, snapshot.policy, snapshot.loadedAt, s.now)
    requires ServedUpTo(s.replies, snapshot.policy.revision)
    requires Unsent(s, job.id)
    ensures Inv(Apply(s, Replace(s.coordinator, job, snapshot, s.now)))
  {
    ApplyKeepsInv(s, Replace(s.coordinator, job, snapshot, s.now));
  }

  lemma ExecuteKeepsHistory(s: System, w: Write)
    requires HistoryOk(s)
    ensures HistoryOk(Executed(s, w))
  {
    var t := Executed(s, w);
    if t.history != s.history {
      assert s.history[|s.history| - 1].policy.revision == s.history[0].policy.revision + |s.history| - 1;
    }
  }

  lemma ExecuteKeepsWrites(s: System, w: Write)
    requires HistoryOk(s) && WritesOk(s) && w in s.floating
    ensures WritesOk(Executed(s, w))
  {
  }

  /** A write that has not executed installed no version, so an execution adds the only one. */
  lemma ExecuteInstalls(s: System, w: Write)
    requires HistoryOk(s) && WritesOk(s) && w in s.floating && Current(s).revision == w.expected
    ensures var t := Executed(s, w);
            && Installed(t.history, w.id, NewPolicy(w))
            && HeldAt(t.history, |s.history|, s.now) && t.history[|s.history|].policy == NewPolicy(w)
  {
    var t, k := Executed(s, w), |s.history|;
    assert forall other :: 0 <= other < k ==> t.history[other] == s.history[other];
    assert InstalledAs(t.history, k, w.id, NewPolicy(w));
  }

  lemma InstalledSurvives(s: System, w: Write, id: nat, p: Policy)
    requires WritesOk(s) && w in s.floating && |s.history| > 0 && Installed(s.history, id, p)
    ensures Installed(Executed(s, w).history, id, p)
  {
    var k: nat :| InstalledAs(s.history, k, id, p);
    assert id in s.committed;
    VersionKeepsInstalled(s.history, Version(NewPolicy(w), s.now, WrittenBy(w.id)), id, p);
  }

  lemma ExecuteKeepsBacking(s: System, w: Write, r: Sent)
    requires HistoryOk(s) && WritesOk(s) && w in s.floating && Backed(s.history, r) && r.at <= s.now
    ensures Backed(Executed(s, w).history, r)
  {
    if Current(s).revision == w.expected {
      var v := Version(NewPolicy(w), s.now, WrittenBy(w.id));
      if Serves(r.reply) { VersionKeepsWitness(s.history, v, r.reply.policy, r.reply.loadedAt, r.at); }
      if r.reply.Replaced? { InstalledSurvives(s, w, r.reply.id, r.reply.policy); }
    }
  }

  lemma ExecuteKeepsCoordinator(s: System, w: Write)
    requires HistoryOk(s) && WritesOk(s) && CoordinatorOk(s) && w in s.floating
    requires ServedUpTo(s.replies, Current(s).revision)
    ensures CoordinatorOk(Executed(s, w))
  {
    var t, c := Executed(s, w), s.coordinator;
    var v := Version(NewPolicy(w), s.now, WrittenBy(w.id));
    if c.snapshot.Some? && t.history != s.history {
      VersionKeepsWitness(s.history, v, c.snapshot.value.policy, c.snapshot.value.loadedAt, s.now);
    }
    if c.gate.Reading? && s.seen.Glimpse? && t.history != s.history {
      VersionKeepsHeld(s.history, v, s.seen.version, s.seen.instant);
    }
    if c.gate.Writing? {
      var mine := c.gate.write;
      if mine == w && t.history != s.history {
        ExecuteInstalls(s, w);
      } else if mine.id in s.committed && s.committed[mine.id] && t.history != s.history {
        InstalledSurvives(s, w, mine.id, NewPolicy(mine));
        VersionKeepsWitness(s.history, v, NewPolicy(mine), c.gate.since, s.now);
      }
    }
  }

  lemma ExecuteKeepsInv(s: System, w: Write)
    requires Inv(s) && w in s.floating
    ensures Inv(Executed(s, w))
  {
    ExecuteKeepsHistory(s, w);
    ExecuteKeepsWrites(s, w);
    ExecuteKeepsCoordinator(s, w);
    var t := Executed(s, w);
    forall r | r in t.replies ensures r.at <= t.now && Backed(t.history, r) { ExecuteKeepsBacking(s, w, r); }
  }

  lemma ArriveKeepsInv(s: System, job: Job)
    requires Inv(s) && s.coordinator.gate == Open && job.id !in s.arrived
    ensures Inv(Apply(Arrived(s, job), Fetch(s.coordinator, job, s.now)))
  {
    var u := Arrived(s, job);
    assert Inv(u) && Unsent(u, job.id);
    var recent := Fresh(s.coordinator.snapshot, s.now);
    if recent.Some? && job.Put? {
      ReplaceKeepsInv(u, job, recent.value);
    } else {
      ApplyKeepsInv(u, Fetch(s.coordinator, job, s.now));
    }
  }

  lemma RefreshKeepsInv(s: System)
    requires Inv(s) && s.coordinator.gate.Reading? && s.seen.Glimpse? && s.seen.version < |s.history|
    ensures Inv(Apply(s, Refreshed(s.coordinator, s.history[s.seen.version].policy, s.now)))
  {
    var snapshot := Snapshot(s.history[s.seen.version].policy, s.coordinator.gate.loadedAt);
    ReplaceKeepsInv(s, s.coordinator.gate.job, snapshot);
  }

  lemma LossKeepsInv(s: System)
    requires Inv(s)
    ensures s.coordinator.gate.Reading? ==> Inv(Apply(s, RefreshFailed(s.coordinator)))
    ensures s.coordinator.gate.Writing? ==> Inv(Apply(s, WriteLost(s.coordinator)))
  {
    if s.coordinator.gate.Reading? { ApplyKeepsInv(s, RefreshFailed(s.coordinator)); }
    if s.coordinator.gate.Writing? { ApplyKeepsInv(s, WriteLost(s.coordinator)); }
  }

  lemma WriteAckKeepsInv(s: System)
    requires Inv(s) && s.coordinator.gate.Writing? && s.coordinator.gate.write.id in s.committed
    ensures Inv(Apply(s, Written(s.coordinator, s.committed[s.coordinator.gate.write.id])))
  {
    ApplyKeepsInv(s, Written(s.coordinator, s.committed[s.coordinator.gate.write.id]));
  }

  lemma RestartKeepsInv(s: System)
    requires Inv(s)
    ensures Inv(s.(coordinator := RESTARTED, seen := Nothing))
  {
  }

  lemma GlimpseKeepsInv(s: System)
    requires Inv(s) && s.coordinator.gate.Reading?
    ensures Inv(s.(seen := Glimpse(|s.history| - 1, s.now)))
  {
    assert s.history[|s.history| - 1].at <= s.now;
  }

  lemma StepKeepsInv(s: System, a: Action, t: System)
    requires Inv(s) && Move(s, a, t)
    ensures Inv(t)
  {
    match a
    case Tick(later) => TickKeepsInv(s, later);
    case Arrive(job) => ArriveKeepsInv(s, job);
    case ReadPrimary => GlimpseKeepsInv(s);
    case RefreshAck => RefreshKeepsInv(s);
    case RefreshLost => LossKeepsInv(s);
    case Execute(write) => ExecuteKeepsInv(s, write);
    case WriteAck => WriteAckKeepsInv(s);
    case WriteTimeout => LossKeepsInv(s);
    case Restart => RestartKeepsInv(s);
  }
}
