/** The map of promises as the coordinator keeps it (src/pool-coordinator.ts:185-206). */
module PublicationQueue {
  import opened Basics
  import opened C = PublicationChain

  class PublicationQueue {
    var operations: map<string, nat>
    ghost var calls: seq<Call>

    ghost function State(): Chain
      reads this
    {
      Chain(calls, operations)
    }

    constructor ()
      ensures State() == EMPTY
    {
      operations, calls := map[], [];
    }

    /** The entry of `withPublicationResource`, up to its await. */
    method Enter(resource: string, current: nat) returns (previous: Option<nat>)
      requires current == |calls|
      modifies this
      ensures State() == Next(old(State()), C.Enter(resource))
      ensures calls[current].previous == previous
    {
      previous := if resource in operations then Some(operations[resource]) else None;
      operations := operations[resource := current];
      calls := calls + [Call(resource, previous, Waiting)];
    }

    /** Its `finally`: the map entry goes only if nobody has entered since. */
    method Finish(resource: string, current: nat)
      requires current < |calls| && calls[current].phase == Running && calls[current].resource == resource
      modifies this
      ensures State() == Next(old(State()), C.Finish(current))
    {
      if resource in operations && operations[resource] == current {
        operations := operations - {resource};
      }
      calls := calls[current := calls[current].(phase := Released)];
    }
  }
}
