/** The waiter groups of the pool coordinator and their timers (src/pool-coordinator.ts:96-225).

    A group is the promise that the followers of one owner await. Groups and timers are numbered;
    `results` lists every resolution a group was given. */
module WaiterMemory {
  import opened Basics

  const LEASE_MS: nat := 8_000

  datatype Owner = Owner(id: nat, resource: string, token: string)

  datatype Outcome = Shared | EdgeOnly | NotStored | Failed | Rejected | Unknown

  datatype Result = Completed(outcome: Outcome, publicationId: Option<nat>) | Retry

  datatype Group = Group(owner: Owner, timer: Option<nat>, results: seq<Result>)

  /** A timer runs, has fired so that its callback waits for the resource, or is over. */
  datatype Phase = Armed | Queued | Over

  datatype Alarm = Alarm(group: nat, resource: string, due: nat, phase: Phase)

  datatype Memory = Memory(groups: seq<Group>, mapped: map<string, nat>, alarms: seq<Alarm>)

  const NOBODY := Memory([], map[], [])

  /** `clearTimeout`: a callback that has already been queued still runs. */
  function Cleared(alarms: seq<Alarm>, timer: Option<nat>): seq<Alarm>
  {
    match timer
    case None => alarms
    case Some(t) => if t < |alarms| && alarms[t].phase == Armed then alarms[t := alarms[t].(phase := Over)] else alarms
  }

  /** `wakePublication` */
  function Woken(m: Memory, resource: string, result: Result): Memory
  {
    if resource !in m.mapped || m.mapped[resource] >= |m.groups| then m
    else
      var g := m.mapped[resource];
      var group := m.groups[g];
      Memory(m.groups[g := group.(results := group.results + [result])], m.mapped - {resource}, Cleared(m.alarms, group.timer))
  }

  /** `schedulePublicationExpiry` */
  function Scheduled(m: Memory, resource: string, g: nat, now: nat): Memory
    requires g < |m.groups|
  {
    var group := m.groups[g];
    var alarm := Alarm(g, resource, now + LEASE_MS, Armed);
    m.(groups := m.groups[g := group.(timer := Some(|m.alarms|))], alarms := Cleared(m.alarms, group.timer) + [alarm])
  }

  /** The group that the map holds for a resource. */
  function Current(m: Memory, resource: string): (g: Option<nat>)
    ensures g.Some? ==> g.value < |m.groups| && resource in m.mapped && m.mapped[resource] == g.value
  {
    if resource in m.mapped && m.mapped[resource] < |m.groups| then Some(m.mapped[resource]) else None
  }

  predicate Belongs(m: Memory, owner: Owner)
  {
    var g := Current(m, owner.resource);
    g.Some? && m.groups[g.value].owner.id == owner.id && m.groups[g.value].owner.token == owner.token
  }

  /** The end of `acquirePublication` for a follower of `current`. */
  function Joined(m: Memory, resource: string, current: Owner, now: nat): Memory
  {
    var g := Current(m, resource);
    if g.Some? && m.groups[g.value].owner.id == current.id then m
    else
      var w := Woken(m, resource, Retry);
      var n := |w.groups|;
      Scheduled(Memory(w.groups + [Group(current, None, [])], w.mapped[resource := n], w.alarms), resource, n, now)
  }

  /** The end of `renewPublication` after the row was renewed. */
  function Renewed(m: Memory, owner: Owner, now: nat): Memory
  {
    if Belongs(m, owner) then Scheduled(m, owner.resource, Current(m, owner.resource).value, now) else m
  }

  /** The end of `completePublication` after the row was deleted. */
  function Finished(m: Memory, owner: Owner, accepted: bool, outcome: Outcome, publicationId: Option<nat>): Memory
  {
    if Belongs(m, owner) then Woken(m, owner.resource, if accepted then Completed(outcome, publicationId) else Retry) else m
  }

  /** A timer goes off: its callback enters `withPublicationResource`. */
  function Fired(m: Memory, t: nat): Memory
    requires t < |m.alarms|
  {
    m.(alarms := m.alarms[t := m.alarms[t].(phase := Queued)])
  }

  /** The callback runs. Only the current timer of the mapped group wakes anybody. */
  function Expired(m: Memory, t: nat): Memory
    requires t < |m.alarms|
  {
    var alarm := m.alarms[t];
    var rest := m.(alarms := m.alarms[t := alarm.(phase := Over)]);
    if Current(m, alarm.resource) == Some(alarm.group) && m.groups[alarm.group].timer == Some(t)
    then Woken(rest, alarm.resource, Retry) else rest
  }

  // ------------------------------------------------- what they keep

  /** A mapped group waits with a current timer that is armed or whose callback is queued. */
  predicate Attended(m: Memory, g: nat)
    requires g < |m.groups|
  {
    var group := m.groups[g];
    && group.results == [] && group.timer.Some? && group.timer.value < |m.alarms|
    && var alarm := m.alarms[group.timer.value];
    && alarm.group == g && alarm.resource == group.owner.resource && alarm.phase != Over
  }

  predicate IsMapped(m: Memory, g: nat)
    requires g < |m.groups|
  {
    var r := m.groups[g].owner.resource;
    r in m.mapped && m.mapped[r] == g
  }

  /** Every group ever created is either mapped and attended, or was resolved exactly once. */
  predicate Settled(m: Memory, g: nat)
    requires g < |m.groups|
  {
    if IsMapped(m, g) then Attended(m, g) else |m.groups[g].results| == 1
  }

  /** A timer that runs belongs to a group that is mapped, and is its current one: none is leaked. */
  predicate Useful(m: Memory, t: nat)
    requires t < |m.alarms|
  {
    var alarm := m.alarms[t];
    && alarm.group < |m.groups| && alarm.resource == m.groups[alarm.group].owner.resource
    && (alarm.phase == Armed ==> IsMapped(m, alarm.group) && m.groups[alarm.group].timer == Some(t))
  }

  predicate MapValid(m: Memory)
  {
    forall r :: r in m.mapped ==> m.mapped[r] < |m.groups| && m.groups[m.mapped[r]].owner.resource == r
  }

  ghost predicate Sound(m: Memory)
  {
    && MapValid(m)
    && (forall g: nat :: g < |m.groups| ==> Settled(m, g))
    && (forall t: nat :: t < |m.alarms| ==> Useful(m, t))
  }

  lemma WokenSound(m: Memory, resource: string, result: Result)
    requires Sound(m)
    ensures Sound(Woken(m, resource, result))
    ensures resource !in Woken(m, resource, result).mapped
  {
    var m' := Woken(m, resource, result);
    if resource in m.mapped {
      var g := m.mapped[resource];
      assert Settled(m, g);
      forall h: nat | h < |m'.groups| ensures Settled(m', h) {
        assert Settled(m, h);
        if h != g && IsMapped(m, h) { assert m.groups[h].owner.resource != resource; }
      }
      forall t: nat | t < |m'.alarms| ensures Useful(m', t) {
        assert Useful(m, t);
      }
    }
  }

  /** Starting a new timer for the mapped group, whether or not it had one. */
  lemma ScheduledSound(m: Memory, resource: string, g: nat, now: nat)
    requires MapValid(m) && resource in m.mapped && m.mapped[resource] == g && g < |m.groups|
    requires forall h: nat :: h < |m.groups| && h != g ==> Settled(m, h)
    requires m.groups[g].results == [] && (m.groups[g].timer.Some? ==> Attended(m, g))
    requires forall t: nat :: t < |m.alarms| ==> Useful(m, t)
    ensures Sound(Scheduled(m, resource, g, now))
  {
    var m' := Scheduled(m, resource, g, now);
    assert m.groups[g].owner.resource == resource;
    forall h: nat | h < |m'.groups| ensures Settled(m', h) {
      if h != g {
        assert Settled(m, h);
        if IsMapped(m, h) && m.groups[g].timer.Some? { assert m.groups[h].timer != m.groups[g].timer; }
      }
    }
    forall t: nat | t < |m'.alarms| ensures Useful(m', t) {
      if t < |m.alarms| { assert Useful(m, t); }
    }
  }

  lemma RenewedSound(m: Memory, owner: Owner, now: nat)
    requires Sound(m)
    ensures Sound(Renewed(m, owner, now))
  {
    if Belongs(m, owner) {
      assert Settled(m, Current(m, owner.resource).value);
      ScheduledSound(m, owner.resource, Current(m, owner.resource).value, now);
    }
  }

  lemma JoinedSound(m: Memory, resource: string, current: Owner, now: nat)
    requires Sound(m) && current.resource == resource
    ensures Sound(Joined(m, resource, current, now))
  {
    hide Woken;
    var g := Current(m, resource);
    if !(g.Some? && m.groups[g.value].owner.id == current.id) {
      var w := Woken(m, resource, Retry);
      WokenSound(m, resource, Retry);
      var n := |w.groups|;
      var grown := Memory(w.groups + [Group(current, None, [])], w.mapped[resource := n], w.alarms);
      forall h: nat | h < |grown.groups| && h != n ensures Settled(grown, h) {
        assert Settled(w, h);
      }
      forall t: nat | t < |grown.alarms| ensures Useful(grown, t) {
        assert Useful(w, t);
      }
      ScheduledSound(grown, resource, n, now);
    }
  }

  lemma FinishedSound(m: Memory, owner: Owner, accepted: bool, outcome: Outcome, publicationId: Option<nat>)
    requires Sound(m)
    ensures Sound(Finished(m, owner, accepted, outcome, publicationId))
  {
    if Belongs(m, owner) {
      WokenSound(m, owner.resource, if accepted then Completed(outcome, publicationId) else Retry);
    }
  }

  lemma FiredSound(m: Memory, t: nat)
    requires Sound(m) && t < |m.alarms| && m.alarms[t].phase == Armed
    ensures Sound(Fired(m, t))
  {
    var m' := Fired(m, t);
    forall h: nat | h < |m'.groups| ensures Settled(m', h) { assert Settled(m, h); }
    forall u: nat | u < |m'.alarms| ensures Useful(m', u) { assert Useful(m, u); }
  }

  lemma ExpiredSound(m: Memory, t: nat)
    requires Sound(m) && t < |m.alarms| && m.alarms[t].phase == Queued
    ensures Sound(Expired(m, t))
  {
    var alarm, m' := m.alarms[t], Expired(m, t);
    assert Useful(m, t);
    forall h: nat | h < |m'.groups| ensures Settled(m', h) {
      assert Settled(m, h);
      if IsMapped(m, h) && m.groups[h].timer == Some(t) { assert alarm.group == h; }
    }
    forall u: nat | u < |m'.alarms| ensures Useful(m', u) { assert Useful(m, u); }
  }

  /** The callback of the current timer resolves its group; that of a stale one resolves nobody. */
  lemma ExpiryWakesExactlyItsGroup(m: Memory, t: nat, g: nat)
    requires Sound(m) && t < |m.alarms| && m.alarms[t].phase == Queued && g < |m.groups|
    ensures Expired(m, t).groups[g].results
            == if IsMapped(m, g) && m.groups[g].timer == Some(t) then [Retry] else m.groups[g].results
  {
    assert Useful(m, t) && Settled(m, g);
  }
}
