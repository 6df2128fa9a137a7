/** `BackendWork` itself (src/backend-work.ts:64-251): each segment updates the fields in place, and is
    proved equal to its function on holders. */
module BackendWork {
  import opened LeaseHolder

  class BackendWork {
    var pending: Pending
    var until: Instant
    var deadline: Instant
    var closed: bool
    var aborted: bool
    var renewing: Instant
    var renewalTimer: Instant
    var expiryTimer: Instant
    var retryTimer: Instant

    function State(): Holder
      reads this
    {
      Holder(pending, until, deadline, closed, aborted, renewing, renewalTimer, expiryTimer, retryTimer)
    }

    constructor ()
      ensures State() == FRESH
    {
      pending, until, deadline, closed, aborted := Idle, Never, Never, false, false;
      renewing, renewalTimer, expiryTimer, retryTimer := Never, Never, Never, Never;
    }

    method Stop()
      modifies this
      ensures State() == LeaseHolder.Stop(old(State()))
    {
      aborted := true;
      renewalTimer, expiryTimer := Never, Never;
    }

    method Check(now: int) returns (passed: bool)
      modifies this
      ensures State() == LeaseHolder.Check(old(State()), now)
      ensures passed == !aborted
    {
      if Reached(now, until) || Reached(now, deadline) { Stop(); }
      return !aborted;
    }

    method SetExpiry(limit: int)
      modifies this
      ensures State() == LeaseHolder.SetExpiry(old(State()), limit)
    {
      until := At(Earlier(limit, deadline));
      expiryTimer := until;
    }

    method Enter(now: int) returns (sent: set<Operation>)
      modifies this
      ensures Outcome(State(), sent) == LeaseHolder.Enter(old(State()), now)
    {
      sent := {};
      var ok := Check(now);
      if ok && pending == Idle {
        deadline := At(now + DEADLINE_MS);
        SetExpiry(now + LEASE_MS);
        pending := Acquiring(1);
        sent := {Acquire(1)};
      }
    }

    method Settle(outcome: Pending) returns (sent: set<Operation>)
      modifies this
      ensures Outcome(State(), sent) == LeaseHolder.Settle(old(State()), outcome)
    {
      pending := outcome;
      sent := if closed then {Release} else {};
    }

    method Acknowledged(granted: bool, now: int) returns (sent: set<Operation>)
      modifies this
      ensures Outcome(State(), sent) == LeaseHolder.Acknowledged(old(State()), granted, now)
    {
      if !granted { Stop(); }
      var ok := Check(now);
      if !ok {
        sent := Settle(Refused);
        return;
      }
      renewalTimer := At(now + RENEW_MS);
      sent := Settle(Entered);
    }

    method Failed(typed: bool, now: int, pause: nat) returns (sent: set<Operation>)
      requires pending.Acquiring?
      modifies this
      ensures Outcome(State(), sent) == LeaseHolder.Failed(old(State()), typed, now, pause)
    {
      sent := {};
      if typed || pending.attempt == 2 {
        Stop();
        sent := Settle(Refused);
        return;
      }
      var ok := Check(now);
      if ok {
        pending, retryTimer := BackingOff, At(now + pause);
      } else {
        sent := Settle(Refused);
      }
    }

    method Retry(now: int) returns (sent: set<Operation>)
      modifies this
      ensures Outcome(State(), sent) == LeaseHolder.Retry(old(State()), now)
    {
      var ok := Check(now);
      retryTimer := Never;
      if ok {
        pending, sent := Acquiring(2), {Acquire(2)};
      } else {
        sent := Settle(Refused);
      }
    }

    method RenewalDue(now: int) returns (sent: set<Operation>)
      modifies this
      ensures Outcome(State(), sent) == LeaseHolder.RenewalDue(old(State()), now)
    {
      renewalTimer, sent := Never, {};
      var ok := Check(now);
      if ok {
        renewing, sent := At(now), {Renew(now)};
      } else {
        Stop();
      }
    }

    method RenewalAnswered(renewed: bool, now: int)
      requires renewing.At?
      modifies this
      ensures State() == LeaseHolder.RenewalAnswered(old(State()), renewed, now)
    {
      var started := renewing.ms;
      if !renewed { Stop(); }
      var ok := Check(now);
      renewing := Never;
      if ok {
        SetExpiry(started + LEASE_MS);
        renewalTimer := At(now + RENEW_MS);
      } else {
        Stop();
      }
    }

    method RenewalFailed()
      modifies this
      ensures State() == LeaseHolder.RenewalFailed(old(State()))
    {
      Stop();
      renewing := Never;
    }

    method Close() returns (sent: set<Operation>)
      modifies this
      ensures Outcome(State(), sent) == LeaseHolder.Close(old(State()))
    {
      closed := true;
      Stop();
      sent := if pending == Idle then {} else {Release};
    }
  }
}
