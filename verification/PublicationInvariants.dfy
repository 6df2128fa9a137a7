/** What every step of the publication protocol keeps. */
module PublicationInvariants {
  import opened Basics
  import opened WaiterMemory
  import opened PublicationProtocol

  predicate RowsValid(s: System)
  {
    forall r :: r in s.rows ==>
      s.rows[r].owner.resource == r && s.rows[r].owner.id <= s.lastId && s.rows[r].lease <= s.now + LEASE_MS
  }

  /** An unacknowledged renewal of the owner accounts for the lease. */
  predicate Overran(s: System, o: Owner, lease: nat)
  {
    exists k :: 0 <= k < |s.unacknowledged| && s.unacknowledged[k].owner == o && s.unacknowledged[k].at + LEASE_MS >= lease
  }

  /** Ids of one resource only grow. */
  predicate NoYounger(s: System, r: string, o: Owner)
  {
    r in s.rows ==> s.rows[r].owner.id >= o.id && (s.rows[r].owner.id == o.id ==> s.rows[r].owner == o)
  }

  predicate PendingValid(s: System, r: string)
    requires r in s.pending
  {
    match s.pending[r]
    case Granted(o) =>
      && o.resource == r && o.id <= s.lastId && NoYounger(s, r, o)
      && (Current(s.memory, r).Some? ==> s.memory.groups[Current(s.memory, r).value].owner.id < o.id)
    case Denied => true
    case Found(current) =>
      current.Some? ==>
        && current.value.resource == r && current.value.id <= s.lastId && NoYounger(s, r, current.value)
        && (Current(s.memory, r).Some? ==> s.memory.groups[Current(s.memory, r).value].owner.id <= current.value.id)
    case Extended(o, ok, at) =>
      && o.resource == r && at <= s.now
      && (ok ==> o.id <= s.lastId)
      && (ok && OwnRow(s, o) ==>
            at + LEASE_MS <= s.rows[r].lease && (s.rows[r].lease <= at + LEASE_MS || Overran(s, o, s.rows[r].lease)))
    case Removed(o, live, _, _) => o.resource == r && (live.Some? ==> o.id <= s.lastId && (r in s.rows ==> s.rows[r].owner.id > o.id))
  }

  /** A group's timer is due no earlier than its owner's lease runs out, unless the lease was just
      renewed, or a renewal was not acknowledged. */
  predicate Covered(s: System, r: string)
    requires r in s.memory.mapped
  {
    var g := Current(s.memory, r);
    && g.Some? && s.memory.groups[g.value].owner.id <= s.lastId && NoYounger(s, r, s.memory.groups[g.value].owner)
    && (OwnRow(s, s.memory.groups[g.value].owner) && s.memory.groups[g.value].owner.resource == r ==>
          || (r in s.pending && s.pending[r].Extended? && s.pending[r].owner == s.rows[r].owner && s.pending[r].ok)
          || (s.memory.groups[g.value].timer.Some? && s.memory.groups[g.value].timer.value < |s.memory.alarms|
              && s.rows[r].lease <= s.memory.alarms[s.memory.groups[g.value].timer.value].due)
          || Overran(s, s.rows[r].owner, s.rows[r].lease))
  }

  /** As long as the owner of an unacknowledged renewal has its row, the lease lasts as renewed. */
  predicate UnacknowledgedOk(s: System)
  {
    forall k :: 0 <= k < |s.unacknowledged| ==>
      var u := s.unacknowledged[k];
      && u.at <= s.now && u.owner.id <= s.lastId && (OwnRow(s, u.owner) ==> s.rows[u.owner.resource].lease >= u.at + LEASE_MS)
  }

  predicate QueuedWereDue(s: System)
  {
    forall t :: 0 <= t < |s.memory.alarms| && s.memory.alarms[t].phase == Queued ==> s.memory.alarms[t].due <= s.now
  }

  ghost predicate Inv(s: System)
  {
    && Sound(s.memory) && RowsValid(s) && QueuedWereDue(s) && UnacknowledgedOk(s)
    && (forall r :: r in s.pending ==> PendingValid(s, r))
    && (forall r :: r in s.memory.mapped ==> Covered(s, r))
  }

  lemma MemoryKept(s: System, a: Action)
    requires Inv(s) && Enabled(s, a)
    ensures Sound(Next(s, a).memory)
  {
    hide Sound, Woken, Joined, Renewed, Finished, Expired, Fired;
    match a
    case Fire(t) => FiredSound(s.memory, t);
    case Expire(t) => ExpiredSound(s.memory, t);
    case EndAcquire(r) =>
      assert PendingValid(s, r);
      WokenSound(s.memory, r, Retry);
      if s.pending[r].Found? && s.pending[r].current.Some? { JoinedSound(s.memory, r, s.pending[r].current.value, s.now); }
    case EndRenew(r) => RenewedSound(s.memory, s.pending[r].owner, s.now);
    case EndComplete(r) =>
      var p := s.pending[r];
      if p.live.Some? { FinishedSound(s.memory, p.owner, p.live.value, p.outcome, p.publicationId); }
    case _ =>
  }

  /** What an operation does to the groups of other resources: nothing. */
  ghost predicate OthersKept(m: Memory, m': Memory, r: string)
  {
    && (forall q :: q != r ==> (q in m'.mapped <==> q in m.mapped))
    && (forall q :: q != r && q in m.mapped && q in m'.mapped ==> m'.mapped[q] == m.mapped[q])
    && |m'.groups| >= |m.groups| && |m'.alarms| >= |m.alarms|
    && (forall g :: 0 <= g < |m.groups| && m.groups[g].owner.resource != r ==> m'.groups[g] == m.groups[g])
    && (forall t :: 0 <= t < |m.alarms| ==> m'.alarms[t].due == m.alarms[t].due)
  }

  /** The steps that touch the waiters of one resource. */
  predicate About(s: System, a: Action, r: string)
    requires Enabled(s, a)
  {
    match a
    case Expire(t) => s.memory.alarms[t].resource == r
    case EndAcquire(q) => q == r
    case EndRenew(q) => q == r
    case EndComplete(q) => q == r
    case _ => false
  }

  lemma WokenIsLocal(m: Memory, r: string, result: Result)
    requires MapValid(m)
    ensures OthersKept(m, Woken(m, r, result), r)
  {
  }

  lemma RenewedIsLocal(m: Memory, o: Owner, now: nat)
    requires MapValid(m)
    ensures OthersKept(m, Renewed(m, o, now), o.resource)
  {
  }

  lemma JoinedIsLocal(m: Memory, r: string, current: Owner, now: nat)
    requires MapValid(m)
    ensures OthersKept(m, Joined(m, r, current, now), r)
  {
    hide Woken;
    WokenIsLocal(m, r, Retry);
  }

  lemma FinishedIsLocal(m: Memory, o: Owner, accepted: bool, outcome: Outcome, id: Option<nat>)
    requires MapValid(m)
    ensures OthersKept(m, Finished(m, o, accepted, outcome, id), o.resource)
  {
    hide Woken;
    WokenIsLocal(m, o.resource, if accepted then Completed(outcome, id) else Retry);
  }

  lemma ExpiredIsLocal(m: Memory, t: nat)
    requires MapValid(m) && t < |m.alarms|
    ensures OthersKept(m, Expired(m, t), m.alarms[t].resource)
  {
  }

  lemma StepIsLocal(s: System, a: Action, r: string)
    requires Inv(s) && Enabled(s, a) && About(s, a, r)
    ensures OthersKept(s.memory, Next(s, a).memory, r)
  {
    hide Woken, Joined, Renewed, Finished, Expired;
    if r in s.pending { assert PendingValid(s, r); }
    match a
    case Expire(t) => ExpiredIsLocal(s.memory, t);
    case EndAcquire(q) =>
      WokenIsLocal(s.memory, q, Retry);
      if s.pending[q].Found? && s.pending[q].current.Some? { JoinedIsLocal(s.memory, q, s.pending[q].current.value, s.now); }
    case EndRenew(q) => RenewedIsLocal(s.memory, s.pending[q].owner, s.now);
    case EndComplete(q) =>
      var p := s.pending[q];
      WokenIsLocal(s.memory, q, Retry);
      if p.live.Some? { FinishedIsLocal(s.memory, p.owner, p.live.value, p.outcome, p.publicationId); }
  }

  lemma OverranLater(s: System, s': System, o: Owner)
    requires |s.unacknowledged| <= |s'.unacknowledged| && s'.unacknowledged[..|s.unacknowledged|] == s.unacknowledged
    ensures forall lease: nat :: Overran(s, o, lease) ==> Overran(s', o, lease)
  {
    forall lease: nat | Overran(s, o, lease) ensures Overran(s', o, lease) {
      var k :| 0 <= k < |s.unacknowledged| && s.unacknowledged[k].owner == o && s.unacknowledged[k].at + LEASE_MS >= lease;
      assert s'.unacknowledged[k] == s.unacknowledged[k];
    }
  }

  lemma PendingAfterDrift(s: System, statement: Statement, r: string)
    requires Inv(s) && statement in s.adrift && r in s.pending
    ensures PendingValid(Drifted(s, statement), r)
  {
    hide Sound;
    var s' := Drifted(s, statement);
    assert PendingValid(s, r);
    if s.pending[r].Extended? && s.pending[r].ok && OwnRow(s', s.pending[r].owner) {
      OverranLater(s, s', s.pending[r].owner);
      if statement == Renewing(s.pending[r].owner) && Live(s, s.pending[r].owner) {
        assert s'.unacknowledged[|s.unacknowledged|].owner == s.pending[r].owner;
      }
    }
  }

  lemma PendingAfterReject(s: System, q: string, r: string)
    requires Inv(s) && q in s.pending && r in OperationRejected(s, q).pending
    ensures PendingValid(OperationRejected(s, q), r)
  {
    hide Sound;
    assert PendingValid(s, r);
    if s.pending[r].Extended? { OverranLater(s, OperationRejected(s, q), s.pending[r].owner); }
  }

  lemma PendingAfterInsert(s: System, q: string, token: string, follow: bool, r: string)
    requires Inv(s) && q !in s.pending && r in Inserted(s, q, token, follow).pending
    ensures PendingValid(Inserted(s, q, token, follow), r)
  {
    hide Sound;
    if r in s.pending { assert PendingValid(s, r); }
    if r in s.memory.mapped { assert Covered(s, r); }
  }

  lemma PendingAfterRenewRow(s: System, o: Owner, r: string)
    requires RowsValid(s) && o.resource !in s.pending && r in RowRenewed(s, o).pending
    requires r in s.pending ==> PendingValid(s, r)
    ensures PendingValid(RowRenewed(s, o), r)
  {
  }

  lemma PendingAfterRow(s: System, a: Action, o: Owner, r: string)
    requires Inv(s) && Enabled(s, a) && r in Next(s, a).pending
    requires a.RenewRow? || a.DeleteRow?
    requires a.owner == o
    ensures PendingValid(Next(s, a), r)
  {
    hide Sound, Covered, UnacknowledgedOk;
    if r in s.pending { assert PendingValid(s, r); }
    if a.RenewRow? { PendingAfterRenewRow(s, o, r); }
  }

  lemma PendingByRows(s: System, a: Action, r: string)
    requires Inv(s) && Enabled(s, a) && r in Next(s, a).pending
    requires !a.Expire? && !a.EndAcquire? && !a.EndRenew? && !a.EndComplete?
    ensures PendingValid(Next(s, a), r)
  {
    hide Sound, Woken, Joined, Renewed, Finished, Expired;
    assert r in s.pending ==> PendingValid(s, r);
    match a
    case InsertOwner(q, token, follow) => PendingAfterInsert(s, q, token, follow, r);
    case RenewRow(o) => PendingAfterRow(s, a, o, r);
    case DeleteRow(o, _, _) => PendingAfterRow(s, a, o, r);
    case Drift(statement) => PendingAfterDrift(s, statement, r);
    case Reject(q) => PendingAfterReject(s, q, r);
    case _ =>
  }

  /** What a pending operation relies on. */
  lemma PendingFrame(s: System, s': System, r: string)
    requires r in s.pending && r in s'.pending && s'.pending[r] == s.pending[r] && PendingValid(s, r)
    requires s'.now == s.now && s'.rows == s.rows && s'.lastId == s.lastId && s'.unacknowledged == s.unacknowledged
    requires Current(s'.memory, r) == Current(s.memory, r)
    requires Current(s.memory, r).Some? ==>
               s'.memory.groups[Current(s.memory, r).value].owner == s.memory.groups[Current(s.memory, r).value].owner
    ensures PendingValid(s', r)
  {
  }

  lemma PendingElsewhere(s: System, a: Action, r: string, q: string)
    requires Inv(s) && Enabled(s, a) && r in Next(s, a).pending && About(s, a, q)
    ensures PendingValid(Next(s, a), r)
  {
    hide Woken, Joined, Renewed, Finished, Expired, PendingValid, Covered;
    StepIsLocal(s, a, q);
    assert r != q && r in s.pending && PendingValid(s, r);
    if r in s.memory.mapped { assert Settled(s.memory, s.memory.mapped[r]); }
    PendingFrame(s, Next(s, a), r);
  }

  lemma PendingKept(s: System, a: Action)
    requires Inv(s) && Enabled(s, a)
    ensures forall r :: r in Next(s, a).pending ==> PendingValid(Next(s, a), r)
  {
    var s' := Next(s, a);
    forall r | r in s'.pending ensures PendingValid(s', r) {
      match a
      case Expire(t) => PendingElsewhere(s, a, r, s.memory.alarms[t].resource);
      case EndAcquire(q) => PendingElsewhere(s, a, r, q);
      case EndRenew(q) => PendingElsewhere(s, a, r, q);
      case EndComplete(q) => PendingElsewhere(s, a, r, q);
      case _ => PendingByRows(s, a, r);
    }
  }

  /** What one step does to the group, row and pending operation of a resource it is not about. */
  lemma CoveredElsewhere(s: System, s': System, r: string, q: string)
    requires Inv(s) && q != r && r in s'.memory.mapped && OthersKept(s.memory, s'.memory, q)
    requires s'.lastId >= s.lastId
    requires (r in s'.rows <==> r in s.rows) && (r in s.rows ==> s'.rows[r] == s.rows[r])
    requires s'.unacknowledged == s.unacknowledged
    requires (r in s'.pending <==> r in s.pending) && (r in s.pending ==> s'.pending[r] == s.pending[r])
    ensures Covered(s', r)
  {
    assert r in s.memory.mapped && Covered(s, r);
    assert Settled(s.memory, s.memory.mapped[r]);
  }

  lemma CoveredAfterInsert(s: System, q: string, token: string, follow: bool, r: string)
    requires Inv(s) && q !in s.pending && r in s.memory.mapped
    ensures Covered(Inserted(s, q, token, follow), r)
  {
    hide Sound, PendingValid;
    assert Covered(s, r);
  }

  lemma CoveredAfterRow(s: System, a: Action, r: string)
    requires Inv(s) && Enabled(s, a) && (a.RenewRow? || a.DeleteRow?) && r in s.memory.mapped
    ensures Covered(Next(s, a), r)
  {
    hide Sound, PendingValid;
    assert Covered(s, r);
  }

  lemma CoveredAfterNothing(s: System, a: Action, r: string)
    requires Inv(s) && Enabled(s, a) && r in s.memory.mapped
    requires a.Tick? || a.Prune? || a.Fire? || a.ReadOwner? || a.Abandon?
    ensures Covered(Next(s, a), r)
  {
    hide Sound;
    assert Covered(s, r);
    if r in s.pending { assert PendingValid(s, r); }
  }

  lemma CoveredAfterDrift(s: System, statement: Statement, r: string)
    requires Inv(s) && statement in s.adrift && r in s.memory.mapped
    ensures Covered(Drifted(s, statement), r)
  {
    hide Sound, PendingValid;
    var s' := Drifted(s, statement);
    assert Covered(s, r);
    var o := s.memory.groups[Current(s.memory, r).value].owner;
    OverranLater(s, s', o);
    if statement == Renewing(o) && Live(s, o) {
      assert s'.unacknowledged[|s.unacknowledged|].owner == o;
    }
  }

  lemma CoveredAfterReject(s: System, q: string, r: string)
    requires Inv(s) && q in s.pending && r in s.memory.mapped
    ensures Covered(OperationRejected(s, q), r)
  {
    hide Sound;
    var s' := OperationRejected(s, q);
    assert Covered(s, r) && PendingValid(s, q);
    var o := s.memory.groups[Current(s.memory, r).value].owner;
    OverranLater(s, s', o);
    if q == r && s.pending[r].Extended? && s.pending[r].ok && s.pending[r].owner == o {
      assert s'.unacknowledged[|s.unacknowledged|].owner == o;
    }
  }

  lemma CoveredByRows(s: System, a: Action, r: string)
    requires Inv(s) && Enabled(s, a) && r in Next(s, a).memory.mapped
    requires !a.Expire? && !a.EndAcquire? && !a.EndRenew? && !a.EndComplete?
    ensures Covered(Next(s, a), r)
  {
    hide Sound, PendingValid, Overran;
    assert r in s.memory.mapped && Covered(s, r);
    match a
    case Drift(statement) => CoveredAfterDrift(s, statement, r);
    case Reject(q) => CoveredAfterReject(s, q, r);
    case InsertOwner(q, token, follow) => CoveredAfterInsert(s, q, token, follow, r);
    case RenewRow(o) => CoveredAfterRow(s, a, r);
    case DeleteRow(o, _, _) => CoveredAfterRow(s, a, r);
    case _ => CoveredAfterNothing(s, a, r);
  }

  lemma CoveredAfterExpiry(s: System, t: nat)
    requires Inv(s) && Enabled(s, Expire(t))
    ensures var s' := Next(s, Expire(t)); var r := s.memory.alarms[t].resource; r in s'.memory.mapped ==> Covered(s', r)
  {
    var r := s.memory.alarms[t].resource;
    if r in s.memory.mapped { assert Covered(s, r); }
  }

  lemma CoveredAfterAcquire(s: System, r: string)
    requires Inv(s) && Enabled(s, EndAcquire(r))
    ensures var s' := Next(s, EndAcquire(r)); r in s'.memory.mapped ==> Covered(s', r)
  {
    assert PendingValid(s, r);
    if r in s.memory.mapped { assert Covered(s, r); }
  }

  lemma CoveredAfterRenewal(s: System, r: string)
    requires Inv(s) && Enabled(s, EndRenew(r))
    ensures var s' := Next(s, EndRenew(r)); r in s'.memory.mapped ==> Covered(s', r)
  {
    assert PendingValid(s, r);
    if r in s.memory.mapped { assert Covered(s, r); }
  }

  lemma CoveredAfterCompletion(s: System, r: string)
    requires Inv(s) && Enabled(s, EndComplete(r))
    ensures var s' := Next(s, EndComplete(r)); r in s'.memory.mapped ==> Covered(s', r)
  {
    assert PendingValid(s, r);
    if r in s.memory.mapped { assert Covered(s, r); }
  }

  lemma CoveredAfter(s: System, a: Action, r: string, q: string)
    requires Inv(s) && Enabled(s, a) && r in Next(s, a).memory.mapped && About(s, a, q)
    ensures Covered(Next(s, a), r)
  {
    hide Woken, Joined, Renewed, Finished, Expired;
    if r != q {
      StepIsLocal(s, a, q);
      CoveredElsewhere(s, Next(s, a), r, q);
    } else {
      match a
      case Expire(t) => CoveredAfterExpiry(s, t);
      case EndAcquire(_) => CoveredAfterAcquire(s, q);
      case EndRenew(_) => CoveredAfterRenewal(s, q);
      case EndComplete(_) => CoveredAfterCompletion(s, q);
    }
  }

  lemma CoveredKept(s: System, a: Action)
    requires Inv(s) && Enabled(s, a)
    ensures forall r :: r in Next(s, a).memory.mapped ==> Covered(Next(s, a), r)
  {
    var s' := Next(s, a);
    forall r | r in s'.memory.mapped ensures Covered(s', r) {
      match a
      case Expire(t) => CoveredAfter(s, a, r, s.memory.alarms[t].resource);
      case EndAcquire(q) => CoveredAfter(s, a, r, q);
      case EndRenew(q) => CoveredAfter(s, a, r, q);
      case EndComplete(q) => CoveredAfter(s, a, r, q);
      case _ => CoveredByRows(s, a, r);
    }
  }

  /** Only a timer that goes off queues a callback. */
  predicate NoneQueued(m: Memory, m': Memory)
  {
    && |m'.alarms| >= |m.alarms|
    && forall t :: 0 <= t < |m'.alarms| && m'.alarms[t].phase == Queued ==> t < |m.alarms| && m.alarms[t] == m'.alarms[t]
  }

  lemma WokenQueuesNothing(m: Memory, r: string, result: Result)
    ensures NoneQueued(m, Woken(m, r, result))
  {
  }

  lemma ScheduledQueuesNothing(m: Memory, r: string, g: nat, now: nat)
    requires g < |m.groups|
    ensures NoneQueued(m, Scheduled(m, r, g, now))
  {
  }

  lemma BelongsHasGroup(m: Memory, o: Owner)
    ensures Belongs(m, o) ==> Current(m, o.resource).Some?
  {
  }

  lemma QueuedKept(s: System, a: Action)
    requires Inv(s) && Enabled(s, a)
    ensures QueuedWereDue(Next(s, a))
  {
    hide Woken, Scheduled, Sound, Belongs;
    match a
    case Expire(t) =>
      var rest := s.memory.(alarms := s.memory.alarms[t := s.memory.alarms[t].(phase := Over)]);
      WokenQueuesNothing(rest, s.memory.alarms[t].resource, Retry);
    case EndAcquire(r) =>
      WokenQueuesNothing(s.memory, r, Retry);
      if s.pending[r].Found? && s.pending[r].current.Some? {
        var w := Woken(s.memory, r, Retry);
        var n := |w.groups|;
        ScheduledQueuesNothing(Memory(w.groups + [Group(s.pending[r].current.value, None, [])], w.mapped[r := n], w.alarms), r, n, s.now);
      }
    case EndRenew(r) =>
      var o := s.pending[r].owner;
      var g := Current(s.memory, o.resource);
      if g.Some? { ScheduledQueuesNothing(s.memory, o.resource, g.value, s.now); }
      BelongsHasGroup(s.memory, o);
    case EndComplete(r) =>
      var p := s.pending[r];
      WokenQueuesNothing(s.memory, p.owner.resource, Retry);
      WokenQueuesNothing(s.memory, p.owner.resource, Completed(p.outcome, p.publicationId));
    case _ =>
  }

  lemma RowsKept(s: System, a: Action)
    requires Inv(s) && Enabled(s, a)
    ensures RowsValid(Next(s, a))
  {
    hide Sound;
  }

  lemma UnacknowledgedKept(s: System, a: Action)
    requires Inv(s) && Enabled(s, a)
    ensures UnacknowledgedOk(Next(s, a))
  {
    hide Sound, Covered, Woken, Joined, Renewed, Finished, Expired, Fired;
    if a.Reject? { assert PendingValid(s, a.resource); }
  }

  lemma {:induction false} Reachable(actions: seq<Action>)
    ensures Inv(Run(actions))
  {
    if actions == [] {
    } else {
      var before, a := actions[..|actions| - 1], actions[|actions| - 1];
      Reachable(before);
      var s := Run(before);
      if Enabled(s, a) {
        MemoryKept(s, a);
        PendingKept(s, a);
        CoveredKept(s, a);
        QueuedKept(s, a);
        RowsKept(s, a);
        UnacknowledgedKept(s, a);
      }
    }
  }
}
