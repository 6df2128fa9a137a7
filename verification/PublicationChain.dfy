/** `withPublicationResource` (src/pool-coordinator.ts:185-206): operations chained on promises.

    A ticket is the promise that a call leaves in the map; it is resolved when the call releases
    it. The map keeps only the last ticket of a resource, each call keeps the one before its own,
    and nothing else records the order. */
module PublicationChain {
  import opened Basics

  datatype Phase = Waiting | Running | Released

  /** A call with the `previous` promise it awaits. */
  datatype Call = Call(resource: string, previous: Option<nat>, phase: Phase)

  datatype Chain = Chain(calls: seq<Call>, tails: map<string, nat>)

  datatype Event = Enter(resource: string) | Start(ticket: nat) | Finish(ticket: nat)

  const EMPTY := Chain([], map[])

  function Entered(c: Chain, resource: string): Chain
  {
    var previous := if resource in c.tails then Some(c.tails[resource]) else None;
    Chain(c.calls + [Call(resource, previous, Waiting)], c.tails[resource := |c.calls|])
  }

  /** The awaited promise, if any, is resolved. */
  predicate MayStart(c: Chain, ticket: nat)
  {
    && ticket < |c.calls| && c.calls[ticket].phase == Waiting
    && match c.calls[ticket].previous
       case None => true
       case Some(p) => p < |c.calls| && c.calls[p].phase == Released
  }

  function Started(c: Chain, ticket: nat): Chain
    requires ticket < |c.calls|
  {
    c.(calls := c.calls[ticket := c.calls[ticket].(phase := Running)])
  }

  function Finished(c: Chain, ticket: nat): Chain
    requires ticket < |c.calls|
  {
    var resource := c.calls[ticket].resource;
    Chain(c.calls[ticket := c.calls[ticket].(phase := Released)],
          if resource in c.tails && c.tails[resource] == ticket then c.tails - {resource} else c.tails)
  }

  predicate Enabled(c: Chain, e: Event)
  {
    match e
    case Enter(_) => true
    case Start(t) => MayStart(c, t)
    case Finish(t) => t < |c.calls| && c.calls[t].phase == Running
  }

  function Next(c: Chain, e: Event): Chain
    requires Enabled(c, e)
  {
    match e
    case Enter(resource) => Entered(c, resource)
    case Start(t) => Started(c, t)
    case Finish(t) => Finished(c, t)
  }

  /** The state after any attempt to perform these events in order; one that is not enabled does nothing. */
  function Run(events: seq<Event>): Chain
  {
    if events == [] then EMPTY
    else
      var c := Run(events[..|events| - 1]);
      var e := events[|events| - 1];
      if Enabled(c, e) then Next(c, e) else c
  }

  // ------------------------------------------------- the queue it stands for

  /** The tickets of a resource that are not released, in order of arrival. */
  function Queue(calls: seq<Call>, resource: string): (q: seq<nat>)
    ensures forall t: nat :: t in q <==> t < |calls| && calls[t].resource == resource && calls[t].phase != Released
  {
    if calls == [] then []
    else
      var last := |calls| - 1;
      var q := Queue(calls[..last], resource);
      if calls[last].resource == resource && calls[last].phase != Released then q + [last] else q
  }

  predicate Earlier(c: Chain, t: nat, u: nat)
  {
    t < u < |c.calls| && c.calls[t].resource == c.calls[u].resource
  }

  predicate Pending(c: Chain, t: nat)
  {
    t < |c.calls| && c.calls[t].phase != Released
  }

  /** The promise that a call awaits is that of the last call before it, or all before it are done. */
  ghost predicate Linked(c: Chain, t: nat)
    requires t < |c.calls|
  {
    match c.calls[t].previous
    case None => forall u: nat :: Earlier(c, u, t) ==> !Pending(c, u)
    case Some(p) => Earlier(c, p, t) && forall u: nat :: Earlier(c, u, t) ==> u <= p
  }

  ghost predicate Inv(c: Chain)
  {
    && (forall t: nat :: t < |c.calls| ==> Linked(c, t))
    && (forall t: nat, u: nat :: Earlier(c, t, u) && c.calls[u].phase != Waiting ==> !Pending(c, t))
    && (forall r :: r in c.tails ==> Pending(c, c.tails[r]) && c.calls[c.tails[r]].resource == r)
    && (forall t: nat :: t < |c.calls| && c.calls[t].resource in c.tails ==> t <= c.tails[c.calls[t].resource])
    && (forall t: nat :: Pending(c, t) ==> c.calls[t].resource in c.tails)
  }
}
