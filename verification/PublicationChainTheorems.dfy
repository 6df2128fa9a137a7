/** What every run of the chain of promises keeps. */
module PublicationChainTheorems {
  import opened Basics
  import opened PublicationChain

  lemma EnterKeeps(c: Chain, r: string)
    requires Inv(c)
    ensures Inv(Entered(c, r))
  {
    var c', n := Entered(c, r), |c.calls|;
    assert forall t: nat :: t < n ==> c'.calls[t] == c.calls[t];
    assert forall t: nat, u: nat :: u < n ==> (Earlier(c', t, u) <==> Earlier(c, t, u));
    assert forall t: nat :: t < n ==> (Pending(c', t) <==> Pending(c, t));
    forall t: nat | t < |c'.calls| ensures Linked(c', t) {
      if t < n { assert Linked(c, t); }
    }
  }

  lemma StartKeeps(c: Chain, ticket: nat)
    requires Inv(c) && MayStart(c, ticket)
    ensures Inv(Started(c, ticket))
  {
    var c' := Started(c, ticket);
    assert forall t: nat, u: nat :: Earlier(c', t, u) <==> Earlier(c, t, u);
    assert forall t: nat :: Pending(c', t) <==> Pending(c, t);
    assert Linked(c, ticket);
    forall t: nat | t < |c'.calls| ensures Linked(c', t) {
      assert Linked(c, t);
    }
    forall t: nat, u: nat | Earlier(c', t, u) && c'.calls[u].phase != Waiting ensures !Pending(c', t) {
      if u == ticket && c.calls[ticket].previous.Some? {
        var p := c.calls[ticket].previous.value;
        if t < p { assert Earlier(c, t, p); }
      }
    }
  }

  lemma FinishKeeps(c: Chain, ticket: nat)
    requires Inv(c) && ticket < |c.calls| && c.calls[ticket].phase == Running
    ensures Inv(Finished(c, ticket))
  {
    var c' := Finished(c, ticket);
    assert forall t: nat, u: nat :: Earlier(c', t, u) <==> Earlier(c, t, u);
    assert forall t: nat :: Pending(c', t) <==> Pending(c, t) && t != ticket;
    forall t: nat | t < |c'.calls| ensures Linked(c', t) {
      assert Linked(c, t);
    }
    forall t: nat | Pending(c', t) ensures c'.calls[t].resource in c'.tails {
      assert !(Earlier(c, t, ticket));
    }
  }

  lemma {:induction false} Reachable(events: seq<Event>)
    ensures Inv(Run(events))
  {
    if events == [] {
    } else {
      var before := events[..|events| - 1];
      Reachable(before);
      var c, e := Run(before), events[|events| - 1];
      if Enabled(c, e) {
        match e
        case Enter(r) => EnterKeeps(c, r);
        case Start(t) => StartKeeps(c, t);
        case Finish(t) => FinishKeeps(c, t);
      }
    }
  }

  /** At most one operation of a resource runs at a time, and all that entered before it are over. */
  lemma OperationsNeverOverlap(events: seq<Event>, t: nat, u: nat)
    requires t < u < |Run(events).calls| && Run(events).calls[t].resource == Run(events).calls[u].resource
    ensures Run(events).calls[u].phase != Waiting ==> Run(events).calls[t].phase == Released
  {
    Reachable(events);
    assert Earlier(Run(events), t, u);
    if Run(events).calls[t].phase != Released { assert Pending(Run(events), t); }
  }

  lemma {:induction false} QueueSorted(calls: seq<Call>, r: string)
    ensures forall i, j :: 0 <= i < j < |Queue(calls, r)| ==> Queue(calls, r)[i] < Queue(calls, r)[j]
  {
    if calls == [] {
    } else {
      var last := |calls| - 1;
      QueueSorted(calls[..last], r);
      var q := Queue(calls[..last], r);
      assert forall i :: 0 <= i < |q| ==> q[i] in q;
    }
  }

  lemma QueueEnds(calls: seq<Call>, r: string)
    ensures forall t: nat :: t in Queue(calls, r) ==> Queue(calls, r)[0] <= t <= Queue(calls, r)[|Queue(calls, r)| - 1]
  {
    QueueSorted(calls, r);
  }

  /** The map holds a resource exactly while some operation of it is not over, and holds its last one. */
  lemma MapHoldsTheTail(events: seq<Event>, r: string)
    ensures var c := Run(events);
            && (r in c.tails <==> Queue(c.calls, r) != [])
            && (r in c.tails ==> c.tails[r] == Queue(c.calls, r)[|Queue(c.calls, r)| - 1])
  {
    hide Run, Queue;
    Reachable(events);
    var c := Run(events);
    var q := Queue(c.calls, r);
    QueueEnds(c.calls, r);
    if q != [] {
      var last := q[|q| - 1];
      assert last in q && Pending(c, last) && c.calls[last].resource == r;
      assert c.tails[r] in q;
    }
    if r in c.tails { assert c.tails[r] in q; }
  }

  lemma UpdateTake<T>(s: seq<T>, t: nat, x: T)
    requires t < |s|
    ensures var last := |s| - 1; s[t := x][..last] == if t < last then s[..last][t := x] else s[..last]
  {
  }

  lemma {:induction false} QueueUpdated(calls: seq<Call>, t: nat, phase: Phase, r: string)
    requires t < |calls| && phase != Released && calls[t].phase != Released
    ensures Queue(calls[t := calls[t].(phase := phase)], r) == Queue(calls, r)
  {
    var last := |calls| - 1;
    var calls' := calls[t := calls[t].(phase := phase)];
    UpdateTake(calls, t, calls[t].(phase := phase));
    if t < last { QueueUpdated(calls[..last], t, phase, r); }
  }

  lemma {:induction false} NothingQueued(calls: seq<Call>, r: string)
    requires forall c :: c in calls && c.resource == r ==> c.phase == Released
    ensures Queue(calls, r) == []
  {
    if calls != [] { NothingQueued(calls[..|calls| - 1], r); }
  }

  lemma {:induction false} QueueWithout(calls: seq<Call>, t: nat, r: string)
    requires t < |calls| && calls[t].phase != Released
    requires forall u: nat :: u < t && calls[u].resource == calls[t].resource ==> calls[u].phase == Released
    ensures var calls' := calls[t := calls[t].(phase := Released)];
            if r == calls[t].resource then Queue(calls, r) == [t] + Queue(calls', r) else Queue(calls', r) == Queue(calls, r)
  {
    var last := |calls| - 1;
    var calls' := calls[t := calls[t].(phase := Released)];
    UpdateTake(calls, t, calls[t].(phase := Released));
    if t < last {
      QueueWithout(calls[..last], t, r);
    } else {
      if r == calls[t].resource { NothingQueued(calls[..last], r); }
    }
  }

  lemma HeadOfQueue(c: Chain, t: nat)
    requires Inv(c) && t < |c.calls| && c.calls[t].phase == Running
    ensures Queue(c.calls, c.calls[t].resource) != [] && Queue(c.calls, c.calls[t].resource)[0] == t
  {
    var q := Queue(c.calls, c.calls[t].resource);
    QueueEnds(c.calls, c.calls[t].resource);
    assert t in q && q[0] in q;
    if q[0] < t { assert Earlier(c, q[0], t) && Pending(c, q[0]); }
  }

  lemma StartLeavesQueues(c: Chain, t: nat, r: string)
    requires Inv(c) && MayStart(c, t)
    ensures var q := Queue(c.calls, r);
            Queue(Started(c, t).calls, r) == q && (c.calls[t].resource == r ==> q != [] && q[0] == t)
  {
    StartKeeps(c, t);
    QueueUpdated(c.calls, t, Running, r);
    if c.calls[t].resource == r { HeadOfQueue(Started(c, t), t); }
  }

  lemma FinishTakesHead(c: Chain, t: nat, r: string)
    requires Inv(c) && t < |c.calls| && c.calls[t].phase == Running
    ensures var q, q' := Queue(c.calls, r), Queue(Finished(c, t).calls, r);
            if c.calls[t].resource == r then q == [t] + q' else q' == q
  {
    assert forall u: nat :: u < t && c.calls[u].resource == c.calls[t].resource ==> Earlier(c, u, t) && !Pending(c, u);
    QueueWithout(c.calls, t, r);
  }

  /** The chain is a first-in first-out lock: entering appends to the queue of the resource, an
      operation that starts is the head of its queue, finishing removes the head, and the queues of other
      resources never change. */
  lemma ChainIsFifoLock(events: seq<Event>, e: Event, r: string)
    requires Enabled(Run(events), e)
    ensures var c := Run(events);
            var q, q' := Queue(c.calls, r), Queue(Next(c, e).calls, r);
            match e
            case Enter(resource) => q' == if r == resource then q + [|c.calls|] else q
            case Start(t) => q' == q && (c.calls[t].resource == r ==> q != [] && q[0] == t)
            case Finish(t) => if c.calls[t].resource == r then q == [t] + q' else q' == q
  {
    hide Run, Inv;
    Reachable(events);
    var c := Run(events);
    match e
    case Enter(resource) => assert Next(c, e).calls[..|c.calls|] == c.calls;
    case Start(t) => StartLeavesQueues(c, t, r);
    case Finish(t) => FinishTakesHead(c, t, r);
  }

  /** No deadlock: the head of a queue either runs or may start. */
  lemma HeadMayStart(events: seq<Event>, r: string)
    requires Queue(Run(events).calls, r) != []
    ensures var head := Queue(Run(events).calls, r)[0];
            head < |Run(events).calls| && (Run(events).calls[head].phase == Running || MayStart(Run(events), head))
  {
    Reachable(events);
    var c := Run(events);
    var q := Queue(c.calls, r);
    var head := q[0];
    assert head in q && Linked(c, head);
    QueueEnds(c.calls, r);
    if c.calls[head].previous.Some? {
      assert c.calls[head].previous.value !in q;
    }
  }

  lemma RunGoesOn(events: seq<Event>, e: Event)
    requires Enabled(Run(events), e)
    ensures Run(events + [e]) == Next(Run(events), e)
  {
    assert (events + [e])[..|events|] == events;
  }

  /** From every run the queue of a resource can be emptied one by one: its head starts, if it has not, and when
      it has finished the next is the head. */
  lemma QueueDrains(events: seq<Event>, r: string) returns (more: seq<Event>)
    requires Queue(Run(events).calls, r) != []
    ensures var head := Queue(Run(events).calls, r)[0]; more == [Start(head), Finish(head)] || more == [Finish(head)]
    ensures Queue(Run(events + more).calls, r) == Queue(Run(events).calls, r)[1..]
  {
    hide Run, MayStart;
    var c := Run(events);
    var q := Queue(c.calls, r);
    var head := q[0];
    HeadMayStart(events, r);
    more := [Finish(head)];
    var started := events;
    if c.calls[head].phase != Running {
      RunGoesOn(events, Start(head));
      ChainIsFifoLock(events, Start(head), r);
      started := events + [Start(head)];
      more := [Start(head), Finish(head)];
    }
    RunGoesOn(started, Finish(head));
    ChainIsFifoLock(started, Finish(head), r);
    assert events + more == started + [Finish(head)];
    assert head in q && c.calls[head].resource == r;
  }
}
