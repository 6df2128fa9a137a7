/** What the three operations of the coordinator do to the rows and to the followers, on the rows alone
    (src/pool-coordinator.ts:96-183, sql/queries/publication.sql:1-48). */
module PublicationOperations {
  import opened Basics
  import opened WaiterMemory
  import opened PublicationProtocol
  import opened PublicationInvariants

  /** The group that the followers of this owner wait in. */
  predicate FollowersOf(m: Memory, o: Owner, g: nat)
  {
    && g < |m.groups| && o.resource in m.mapped && m.mapped[o.resource] == g
    && m.groups[g].owner.id == o.id && m.groups[g].owner.token == o.token
  }

  /** Of other resources the rows, the operations in progress and the followers are as they were. */
  ghost predicate OnlyResource(s: System, end: System, r: string)
  {
    && (forall q :: q != r ==> (q in end.rows <==> q in s.rows) && (q in s.rows ==> end.rows[q] == s.rows[q]))
    && (forall q :: q != r ==> (q in end.pending <==> q in s.pending) && (q in s.pending ==> end.pending[q] == s.pending[q]))
    && OthersKept(s.memory, end.memory, r) && r !in end.pending && end.now == s.now
  }

  /** The followers of the owner, if there are any, have this answer and no other. */
  ghost predicate AnsweredOnce(s: System, end: System, o: Owner, result: Result)
  {
    forall g: nat :: FollowersOf(s.memory, o, g) ==>
      o.resource !in end.memory.mapped && g < |end.memory.groups| && end.memory.groups[g].results == [result]
  }

  predicate HasRow(s: System, o: Owner)
  {
    o.resource in s.rows && s.rows[o.resource].owner == o
  }

  lemma FollowersWait(s: System, o: Owner)
    requires Inv(s)
    ensures forall g: nat :: FollowersOf(s.memory, o, g) ==> s.memory.groups[g].results == [] && s.memory.groups[g].owner == o
  {
    hide Covered, PendingValid, UnacknowledgedOk, QueuedWereDue, RowsValid;
    forall g: nat | FollowersOf(s.memory, o, g) ensures s.memory.groups[g].results == [] && s.memory.groups[g].owner == o {
      assert Settled(s.memory, g);
    }
  }

  /** A completion. Of a live row: the row goes, and the owner's followers are told that outcome. Of an
      expired row: an outcome that revokes removes it and its followers retry, any other changes nothing. Of
      no row of the owner: nothing changes. */
  ghost predicate CompletionEffect(s: System, end: System, o: Owner, outcome: Outcome, id: Option<nat>)
  {
    && OnlyResource(s, end, o.resource)
    && if HasRow(s, o) && s.rows[o.resource].lease > s.now then
         o.resource !in end.rows && AnsweredOnce(s, end, o, Completed(outcome, id))
       else if HasRow(s, o) && outcome in {NotStored, Failed, Rejected, Unknown} then
         o.resource !in end.rows && AnsweredOnce(s, end, o, Retry)
       else end.rows == s.rows && end.memory == s.memory
  }

  lemma FinishedEffect(m: Memory, o: Owner, accepted: bool, outcome: Outcome, id: Option<nat>)
    requires MapValid(m) && forall g: nat :: FollowersOf(m, o, g) ==> m.groups[g].results == []
    ensures var end := Finished(m, o, accepted, outcome, id);
            && OthersKept(m, end, o.resource)
            && forall g: nat :: FollowersOf(m, o, g) ==>
                 o.resource !in end.mapped && g < |end.groups| && end.groups[g].results == [if accepted then Completed(outcome, id) else Retry]
  {
  }

  lemma NothingKept(m: Memory, r: string)
    ensures OthersKept(m, m, r)
  {
  }

  lemma CompletionActsOnTheRow(actions: seq<Action>, o: Owner, outcome: Outcome, id: Option<nat>)
    requires Enabled(Run(actions), DeleteRow(o, outcome, id))
    ensures var s := Run(actions);
            var sent := Next(s, DeleteRow(o, outcome, id));
            Enabled(sent, EndComplete(o.resource)) && CompletionEffect(s, Next(sent, EndComplete(o.resource)), o, outcome, id)
  {
    hide Run, Covered, PendingValid, UnacknowledgedOk, QueuedWereDue, RowsValid, Finished, FollowersOf, OthersKept;
    Reachable(actions);
    var s := Run(actions);
    FollowersWait(s, o);
    FinishedEffect(s.memory, o, true, outcome, id);
    FinishedEffect(s.memory, o, false, outcome, id);
    NothingKept(s.memory, o.resource);
  }

  /** A renewal. Of a live row of the owner: its lease lasts at least eight seconds from now, no less than
      it did, and the owner's followers get a new timer and no answer. Otherwise nothing changes. */
  ghost predicate RenewalEffect(s: System, end: System, o: Owner)
  {
    var r := o.resource;
    && OnlyResource(s, end, r)
    && if HasRow(s, o) && s.rows[r].lease > s.now then
         && HasRow(end, o) && end.rows[r].lease == (if s.rows[r].lease > s.now + 8_000 then s.rows[r].lease else s.now + 8_000)
         && forall g: nat :: FollowersOf(s.memory, o, g) ==> NewTimer(s.memory, end.memory, o, s.now, g)
       else end.rows == s.rows && end.memory == s.memory
  }

  ghost predicate NewTimer(m: Memory, end: Memory, o: Owner, now: nat, g: nat)
  {
    var t := |m.alarms|;
    && FollowersOf(end, o, g) && end.groups[g].results == [] && end.groups[g].timer == Some(t)
    && |end.alarms| == t + 1 && end.alarms[t] == Alarm(g, o.resource, now + 8_000, Armed)
  }

  lemma RenewedEffect(m: Memory, o: Owner, now: nat)
    requires MapValid(m) && forall g: nat :: FollowersOf(m, o, g) ==> m.groups[g].results == []
    ensures OthersKept(m, Renewed(m, o, now), o.resource)
    ensures forall g: nat :: FollowersOf(m, o, g) ==> NewTimer(m, Renewed(m, o, now), o, now, g)
  {
  }

  lemma RenewalActsOnTheRow(actions: seq<Action>, o: Owner)
    requires Enabled(Run(actions), RenewRow(o))
    ensures var s := Run(actions);
            var sent := Next(s, RenewRow(o));
            Enabled(sent, EndRenew(o.resource)) && RenewalEffect(s, Next(sent, EndRenew(o.resource)), o)
  {
    hide Run, Covered, PendingValid, UnacknowledgedOk, QueuedWereDue, RowsValid, Renewed, FollowersOf, OthersKept, NewTimer;
    Reachable(actions);
    var s := Run(actions);
    FollowersWait(s, o);
    RenewedEffect(s.memory, o, s.now);
    NothingKept(s.memory, o.resource);
  }

  /** An acquisition where nobody holds a live row: the token gets the row, under a new id and for eight
      seconds, and whoever followed an earlier owner retries. */
  ghost predicate TakenEffect(s: System, end: System, r: string, token: string)
  {
    && OnlyResource(s, end, r)
    && r in end.rows && end.rows[r] == Row(Owner(end.rows[r].owner.id, r, token), s.now + 8_000)
    && (forall q :: q in s.rows ==> s.rows[q].owner.id < end.rows[r].owner.id)
    && forall o: Owner :: o.resource == r ==> AnsweredOnce(s, end, o, Retry)
  }

  lemma AcquisitionTakesTheRow(actions: seq<Action>, r: string, token: string, follow: bool)
    requires Enabled(Run(actions), InsertOwner(r, token, follow))
    requires r !in Run(actions).rows || Run(actions).rows[r].lease <= Run(actions).now
    ensures var s := Run(actions);
            var sent := Next(s, InsertOwner(r, token, follow));
            Enabled(sent, EndAcquire(r)) && TakenEffect(s, Next(sent, EndAcquire(r)), r, token)
  {
    hide Run, Covered, PendingValid, UnacknowledgedOk, QueuedWereDue;
    Reachable(actions);
    var s := Run(actions);
    if r in s.memory.mapped { assert Settled(s.memory, s.memory.mapped[r]); }
  }

  /** An acquisition where somebody does takes nothing. A caller that does not follow is turned away at once;
      one that follows waits, with a timer, in the group of the owner that is then found. */
  ghost predicate FollowedEffect(s: System, end: System, r: string)
  {
    && OnlyResource(s, end, r) && end.rows == s.rows
    && r in s.rows && r in end.memory.mapped
    && var g := end.memory.mapped[r];
    && g < |end.memory.groups| && end.memory.groups[g].owner == s.rows[r].owner && Attended(end.memory, g)
  }

  lemma JoiningFollows(m: Memory, r: string, current: Owner, now: nat)
    requires Sound(m) && current.resource == r
    requires r in m.mapped && m.mapped[r] < |m.groups| && m.groups[m.mapped[r]].owner.id == current.id ==> m.groups[m.mapped[r]].owner == current
    ensures var end := Joined(m, r, current, now);
            && OthersKept(m, end, r) && r in end.mapped && end.mapped[r] < |end.groups|
            && end.groups[end.mapped[r]].owner == current && Attended(end, end.mapped[r])
  {
    JoinedSound(m, r, current, now);
    JoinedIsLocal(m, r, current, now);
    var end := Joined(m, r, current, now);
    assert Settled(end, end.mapped[r]);
  }

  lemma AcquisitionFollowsTheRow(actions: seq<Action>, r: string, token: string, follow: bool)
    requires Enabled(Run(actions), InsertOwner(r, token, follow))
    requires r in Run(actions).rows && Run(actions).rows[r].lease > Run(actions).now
    ensures var s := Run(actions);
            var sent := Next(s, InsertOwner(r, token, follow));
            if !follow then sent == s
            else
              && Enabled(sent, ReadOwner(r)) && Enabled(Next(sent, ReadOwner(r)), EndAcquire(r))
              && FollowedEffect(s, Next(Next(sent, ReadOwner(r)), EndAcquire(r)), r)
  {
    hide Run, PendingValid, UnacknowledgedOk, QueuedWereDue, Joined, OthersKept, Attended;
    Reachable(actions);
    var s := Run(actions);
    if r in s.memory.mapped { assert Covered(s, r); }
    JoiningFollows(s.memory, r, s.rows[r].owner, s.now);
  }

  /** A statement that takes effect after its call was given up does to the row what it would have done, and
      nothing to the followers. */
  ghost predicate DriftEffect(s: System, end: System, statement: Statement)
  {
    && end.memory == s.memory && end.pending == s.pending && end.now == s.now && end.adrift == s.adrift - {statement}
    && match statement
       case Inserting(r, token) =>
         if r in s.rows && s.rows[r].lease > s.now then end.rows == s.rows
         else
           && r in end.rows && end.rows[r] == Row(Owner(end.lastId, r, token), s.now + 8_000) && end.lastId > s.lastId
           && forall q :: q != r ==> (q in end.rows <==> q in s.rows) && (q in s.rows ==> end.rows[q] == s.rows[q])
       case Renewing(o) =>
         if HasRow(s, o) && s.rows[o.resource].lease > s.now then
           var lease := s.rows[o.resource].lease;
           end.rows == s.rows[o.resource := Row(o, if lease > s.now + 8_000 then lease else s.now + 8_000)]
         else end.rows == s.rows
       case Deleting(o, outcome) =>
         if HasRow(s, o) && (s.rows[o.resource].lease > s.now || outcome in {NotStored, Failed, Rejected, Unknown}) then
           o.resource !in end.rows && forall q :: q != o.resource ==> (q in end.rows <==> q in s.rows) && (q in s.rows ==> end.rows[q] == s.rows[q])
         else end.rows == s.rows
  }

  lemma DriftActsOnTheRow(s: System, statement: Statement)
    requires Enabled(s, Drift(statement))
    ensures DriftEffect(s, Next(s, Drift(statement)), statement)
  {
  }
}
