/** The waiter groups updated in place, as the coordinator does (src/pool-coordinator.ts:109-225). */
module PublicationWaiters {
  import opened Basics
  import opened W = WaiterMemory

  class PublicationWaiters {
    var groups: seq<Group>
    var publicationWaiters: map<string, nat>
    var alarms: seq<Alarm>

    ghost function State(): Memory
      reads this
    {
      Memory(groups, publicationWaiters, alarms)
    }

    constructor ()
      ensures State() == NOBODY
    {
      groups, publicationWaiters, alarms := [], map[], [];
    }

    method ClearTimeout(timer: Option<nat>)
      modifies this`alarms
      ensures alarms == Cleared(old(alarms), timer)
    {
      if timer.Some? && timer.value < |alarms| && alarms[timer.value].phase == Armed {
        alarms := alarms[timer.value := alarms[timer.value].(phase := Over)];
      }
    }

    method WakePublication(resource: string, result: Result)
      requires MapValid(State())
      modifies this
      ensures State() == Woken(old(State()), resource, result)
    {
      if resource !in publicationWaiters { return; }
      var g := publicationWaiters[resource];
      publicationWaiters := publicationWaiters - {resource};
      ClearTimeout(groups[g].timer);
      groups := groups[g := groups[g].(results := groups[g].results + [result])];
    }

    method SchedulePublicationExpiry(resource: string, g: nat, now: nat)
      requires g < |groups|
      modifies this`groups, this`alarms
      ensures State() == Scheduled(old(State()), resource, g, now)
    {
      ClearTimeout(groups[g].timer);
      alarms := alarms + [Alarm(g, resource, now + LEASE_MS, Armed)];
      groups := groups[g := groups[g].(timer := Some(|alarms| - 1))];
    }

    /** The follower's part of `acquirePublication`: the group whose promise it awaits. */
    method Join(resource: string, current: Owner, now: nat) returns (waiting: nat)
      requires Sound(State()) && current.resource == resource
      modifies this
      ensures State() == Joined(old(State()), resource, current, now) && Sound(State())
      ensures waiting < |groups| && groups[waiting].owner.id == current.id && IsMapped(State(), waiting)
    {
      JoinedSound(State(), resource, current, now);
      if resource in publicationWaiters && groups[publicationWaiters[resource]].owner.id == current.id {
        return publicationWaiters[resource];
      }
      WakePublication(resource, Retry);
      waiting := |groups|;
      groups := groups + [Group(current, None, [])];
      publicationWaiters := publicationWaiters[resource := waiting];
      SchedulePublicationExpiry(resource, waiting, now);
    }

    method AfterRenewal(owner: Owner, now: nat)
      requires Sound(State())
      modifies this
      ensures State() == Renewed(old(State()), owner, now) && Sound(State())
    {
      RenewedSound(State(), owner, now);
      if owner.resource in publicationWaiters {
        var g := publicationWaiters[owner.resource];
        if groups[g].owner.id == owner.id && groups[g].owner.token == owner.token {
          SchedulePublicationExpiry(owner.resource, g, now);
        }
      }
    }

    method AfterCompletion(owner: Owner, accepted: bool, outcome: Outcome, publicationId: Option<nat>)
      requires Sound(State())
      modifies this
      ensures State() == Finished(old(State()), owner, accepted, outcome, publicationId) && Sound(State())
    {
      FinishedSound(State(), owner, accepted, outcome, publicationId);
      if owner.resource in publicationWaiters {
        var g := publicationWaiters[owner.resource];
        if groups[g].owner.id == owner.id && groups[g].owner.token == owner.token {
          WakePublication(owner.resource, if accepted then Completed(outcome, publicationId) else Retry);
        }
      }
    }

    /** The callback of timer `t`, holding the resource. */
    method Expiry(t: nat)
      requires Sound(State()) && t < |alarms| && alarms[t].phase == Queued
      modifies this
      ensures State() == Expired(old(State()), t) && Sound(State())
    {
      ExpiredSound(State(), t);
      var alarm := alarms[t];
      assert Useful(State(), t);
      alarms := alarms[t := alarm.(phase := Over)];
      if alarm.resource in publicationWaiters && publicationWaiters[alarm.resource] == alarm.group
         && groups[alarm.group].timer == Some(t) {
        WakePublication(alarm.resource, Retry);
      }
    }
  }
}
