/** The owner's side of a publication lease (src/cache-fill.ts:72-182).

    `Fill` holds the variables of the closure. Each function is the code between two awaits. A
    promise for a renewal is numbered; its own reaction, registered first, runs before anybody who
    awaits it goes on. */
module FillSegments {
  import opened Basics

  datatype Fill = Fill(active: bool, timer: bool, renewal: Option<nat>, renewals: nat)

  const FRESH := Fill(true, true, None, 0)

  function Deactivated(f: Fill): Fill
  {
    f.(active := false, timer := false)
  }

  /** `renew`: the promise it returns, or None for one that is already false. */
  function Renew(f: Fill): (Fill, Option<nat>)
  {
    if !f.active then (f, None)
    else if f.renewal.Some? then (f.(timer := false), f.renewal)
    else (f.(timer := false, renewal := Some(f.renewals), renewals := f.renewals + 1), Some(f.renewals))
  }

  /** The reaction to a settled renewal. */
  function Reacted(f: Fill, renewal: nat, ok: bool): Fill
  {
    var g := if f.renewal == Some(renewal) then f.(renewal := None) else f;
    if !ok then Deactivated(g) else if g.active then g.(timer := true) else g
  }

  datatype Completing = Refused | Awaits(renewal: nat) | Sends

  /** `complete` up to its await, or to sending the completion. */
  function Complete(f: Fill): (Fill, Completing)
  {
    if !f.active then (f, Refused)
    else if f.renewal.Some? then (f.(timer := false), Awaits(f.renewal.value))
    else (Deactivated(f), Sends)
  }

  /** `complete` after its await. */
  function Resume(f: Fill, ok: bool): (Fill, Completing)
  {
    if !ok || !f.active then (f, Refused) else (Deactivated(f), Sends)
  }
}
