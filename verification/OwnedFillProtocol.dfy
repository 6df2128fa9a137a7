/** All interleavings of renewals, publications and completions of one owner (src/cache-fill.ts:72-182).

    Whoever awaits a renewal is registered with its promise and goes on in that order, after the
    promise's own reaction. At most one renewal has not reacted, so one line in order of registration
    is the order in which all of them go on. Those registered before the renewal settles go on one
    directly after another; anything else may happen between the rest. */
module OwnedFillProtocol {
  import opened Basics
  import opened F = FillSegments

  /** `sent`: work was still permitted, so that the RPC was sent. */
  datatype Renewal = Renewal(sent: bool, result: Option<bool>, reacted: bool)

  /** A call of `publish` or `complete`, and what it waits for. Of a waiting publication: whether a
      completion was waiting when it was called, whether its renewal had already settled then, and
      where the call is in the log. */
  datatype Thread =
    | AwaitsRenewal(renewal: nat, behind: bool, late: bool, since: nat)
    | Publishes
    | AwaitsToComplete(renewal: nat)
    | AwaitsAnswer
    | Over

  /** Who goes on: the reaction of a renewal, or a thread; `joined` to whoever is before it. */
  datatype Entry = Reaction(renewal: nat) | Continuation(thread: nat, joined: bool)

  /** `direct`: the completion did not have to wait for a renewal. */
  datatype Effect =
    | RenewSent(renewal: nat)
    | Confirmed(renewal: nat)
    | Called(thread: nat, renewal: nat, behind: bool, late: bool)
    | Started(thread: nat, renewal: nat)
    | CompletionSent(thread: nat, direct: bool)

  /** `working`: the backend lease of the request is held. Once it is lost, it is lost for good. */
  datatype System = System(
    fill: Fill, working: bool, renewals: seq<Renewal>, threads: seq<Thread>, line: seq<Entry>, log: seq<Effect>)

  const START := System(FRESH, true, [], [], [], [])

  datatype Action =
    | StopWork
    | CallRenew
    | TimerFires
    | CallPublish
    | CallComplete
    | Settle(renewal: nat, ok: bool)
    | GoOn
    | PublisherEnds(thread: nat)
    | Answered(thread: nat)

  /** Nobody has to go on directly. */
  predicate Free(s: System)
  {
    s.line != [] && s.line[0].Continuation? ==> !s.line[0].joined
  }

  predicate Unsettled(s: System, r: nat)
  {
    r < |s.renewals| && s.renewals[r].result.None?
  }

  predicate Waits(t: Thread)
  {
    t.AwaitsRenewal? || t.AwaitsToComplete?
  }

  /** The head of the line may run. */
  predicate Ready(s: System)
  {
    && s.line != []
    && match s.line[0]
       case Reaction(r) => r < |s.renewals| && s.renewals[r].result.Some?
       case Continuation(t, _) => t < |s.threads| && Waits(s.threads[t]) && s.threads[t].renewal < |s.renewals|
  }

  predicate Enabled(s: System, a: Action)
  {
    match a
    case StopWork => true
    case CallRenew => Free(s)
    case TimerFires => s.fill.timer && s.line == []
    case CallPublish => Free(s)
    case CallComplete => Free(s)
    case Settle(r, _) => Free(s) && Unsettled(s, r)
    case GoOn => Ready(s)
    case PublisherEnds(t) => Free(s) && t < |s.threads| && s.threads[t].Publishes?
    case Answered(t) => Free(s) && t < |s.threads| && s.threads[t].AwaitsAnswer?
  }

  /** `renew`. Without permission nothing is sent, and the promise is false from the start. */
  function Renewing(s: System): System
  {
    var fill := F.Renew(s.fill).0;
    if fill.renewals == s.fill.renewals then s.(fill := fill)
    else s.(fill := fill,
            renewals := s.renewals + [Renewal(s.working, if s.working then None else Some(false), false)],
            line := s.line + [Reaction(s.fill.renewals)],
            log := if s.working then s.log + [RenewSent(s.fill.renewals)] else s.log)
  }

  /** Thread `t` awaits renewal `r`. */
  function Registered(s: System, t: nat, thread: Thread, r: nat): System
    requires t < |s.threads|
  {
    s.(threads := s.threads[t := thread], line := s.line + [Continuation(t, Unsettled(s, r))])
  }

  predicate SomebodyCompletes(s: System)
  {
    exists t :: 0 <= t < |s.threads| && s.threads[t].AwaitsToComplete?
  }

  /** `publish` up to its await. */
  function Publishing(s: System): System
  {
    var promise := F.Renew(s.fill).1;
    var renewed := Renewing(s).(threads := s.threads + [Over]);
    if promise.None? then renewed
    else
      var (t, r, behind) := (|s.threads|, promise.value, SomebodyCompletes(s));
      var late := !Unsettled(renewed, r);
      Registered(renewed, t, AwaitsRenewal(r, behind, late, |renewed.log|), r).(log := renewed.log + [Called(t, r, behind, late)])
  }

  /** Thread `t` goes on as `complete` decided. */
  function Decided(s: System, t: nat, fill: Fill, next: Completing, direct: bool): System
    requires t < |s.threads|
  {
    match next
    case Refused => s.(fill := fill, threads := s.threads[t := Over])
    case Awaits(r) => Registered(s.(fill := fill), t, AwaitsToComplete(r), r)
    case Sends => s.(fill := fill, threads := s.threads[t := AwaitsAnswer], log := s.log + [CompletionSent(t, direct)])
  }

  function Completes(s: System, t: nat): System
    requires t < |s.threads|
  {
    var (fill, next) := F.Complete(s.fill);
    Decided(s, t, fill, next, true)
  }

  /** `publish` after its await. */
  function GoOnPublishing(s: System, t: nat): System
    requires t < |s.threads| && s.threads[t].AwaitsRenewal? && s.threads[t].renewal < |s.renewals|
  {
    var r := s.threads[t].renewal;
    if s.renewals[r].result != Some(true) then s.(threads := s.threads[t := Over])
    else if s.working then s.(threads := s.threads[t := Publishes], log := s.log + [Started(t, r)])
    else Completes(s, t)
  }

  /** `complete` after its await. */
  function GoOnCompleting(s: System, t: nat): System
    requires t < |s.threads| && s.threads[t].AwaitsToComplete? && s.threads[t].renewal < |s.renewals|
  {
    var (fill, next) := F.Resume(s.fill, s.renewals[s.threads[t].renewal].result == Some(true));
    Decided(s, t, fill, next, false)
  }

  function Head(s: System): System
    requires Ready(s)
  {
    var rest := s.(line := s.line[1..]);
    match s.line[0]
    case Reaction(r) =>
      rest.(fill := F.Reacted(s.fill, r, s.renewals[r].result.value), renewals := s.renewals[r := s.renewals[r].(reacted := true)])
    case Continuation(t, _) => if s.threads[t].AwaitsRenewal? then GoOnPublishing(rest, t) else GoOnCompleting(rest, t)
  }

  function Next(s: System, a: Action): System
    requires Enabled(s, a)
  {
    match a
    case StopWork => s.(working := false)
    case CallRenew => Renewing(s)
    case TimerFires => Renewing(s.(fill := s.fill.(timer := false)))
    case CallPublish => Publishing(s)
    case CallComplete => Completes(s.(threads := s.threads + [Over]), |s.threads|)
    case Settle(r, ok) =>
      s.(renewals := s.renewals[r := s.renewals[r].(result := Some(ok))], log := if ok then s.log + [Confirmed(r)] else s.log)
    case GoOn => Head(s)
    case PublisherEnds(t) => Completes(s, t)
    case Answered(t) => s.(threads := s.threads[t := Over])
  }

  /** The state after these actions; one that is not enabled when its turn comes does nothing. */
  function Run(actions: seq<Action>): System
  {
    if actions == [] then START
    else
      var s := Run(actions[..|actions| - 1]);
      var a := actions[|actions| - 1];
      if Enabled(s, a) then Next(s, a) else s
  }
}
