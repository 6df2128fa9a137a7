/** The closure of `startOwnedCacheFill` as an object whose fields change (src/cache-fill.ts:72-149). */
module OwnedCacheFill {
  import opened Basics
  import opened F = FillSegments

  class OwnedCacheFill {
    var active: bool
    var timer: bool
    var renewal: Option<nat>
    ghost var renewals: nat

    ghost function State(): Fill
      reads this
    {
      Fill(active, timer, renewal, renewals)
    }

    constructor ()
      ensures State() == FRESH
    {
      active, timer, renewal, renewals := true, true, None, 0;
    }

    method Deactivate()
      modifies this`active, this`timer
      ensures State() == Deactivated(old(State()))
    {
      active := false;
      timer := false;
    }

    /** `number` names the promise of the RPC, should one be sent. */
    method Renew(number: nat) returns (promise: Option<nat>)
      requires number == renewals
      modifies this
      ensures (State(), promise) == F.Renew(old(State()))
    {
      if !active { return None; }
      timer := false;
      if renewal.Some? { return renewal; }
      renewal := Some(number);
      renewals := renewals + 1;
      return renewal;
    }

    method React(current: nat, renewed: bool)
      modifies this`active, this`timer, this`renewal
      ensures State() == F.Reacted(old(State()), current, renewed)
    {
      if renewal == Some(current) { renewal := None; }
      if !renewed {
        Deactivate();
      } else if active {
        timer := true;
      }
    }

    method Complete() returns (next: Completing)
      modifies this`active, this`timer
      ensures (State(), next) == F.Complete(old(State()))
    {
      if !active { return Refused; }
      timer := false;
      if renewal.Some? { return Awaits(renewal.value); }
      Deactivate();
      return Sends;
    }

    method Resume(renewed: bool) returns (next: Completing)
      modifies this`active, this`timer
      ensures (State(), next) == F.Resume(old(State()), renewed)
    {
      if !renewed { return Refused; }
      if !active { return Refused; }
      Deactivate();
      return Sends;
    }
  }
}
