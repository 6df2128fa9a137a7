/** The coordinator's waiters beside the owner table, over whole runs (src/pool-coordinator.ts:96-225,
    sql/queries/publication.sql:1-48).

    One clock. Each statement and each piece of code between two awaits is one step; the chain of
    PublicationChain keeps at most one operation of a resource in progress, so `pending` holds one. The
    call of a statement may reject although the statement took effect, or before it takes effect: the
    operation then ends without touching the waiters. */
module PublicationProtocol {
  import opened Basics
  import opened WaiterMemory

  datatype Row = Row(owner: Owner, lease: nat)

  /** Where the operation that holds a resource is suspended, with what the database answered. */
  datatype Pending =
    | Granted(owner: Owner)
    | Denied
    | Found(current: Option<Owner>)
    | Extended(owner: Owner, ok: bool, at: nat)
    | Removed(owner: Owner, live: Option<bool>, outcome: Outcome, publicationId: Option<nat>)

  /** A statement whose call was rejected before it took effect. */
  datatype Statement = Inserting(resource: string, token: string) | Renewing(owner: Owner) | Deleting(owner: Owner, outcome: Outcome)

  /** A renewal that took effect and that nobody was told of. */
  datatype Unacknowledged = Unacknowledged(owner: Owner, at: nat)

  /** `adrift` are the statements that may still take effect; `unacknowledged` records renewals. */
  datatype System = System(
    now: nat, rows: map<string, Row>, lastId: nat, memory: Memory, pending: map<string, Pending>,
    adrift: set<Statement>, unacknowledged: seq<Unacknowledged>)

  const START := System(0, map[], 0, NOBODY, map[], {}, [])

  datatype Action =
    | Tick(delay: nat)
    | Prune(resource: string)
    | Fire(timer: nat)
    | Expire(timer: nat)
    | InsertOwner(resource: string, token: string, follow: bool)
    | ReadOwner(resource: string)
    | EndAcquire(resource: string)
    | RenewRow(owner: Owner)
    | EndRenew(resource: string)
    | DeleteRow(owner: Owner, outcome: Outcome, publicationId: Option<nat>)
    | EndComplete(resource: string)
    | Reject(resource: string)
    | Abandon(statement: Statement)
    | Drift(statement: Statement)

  predicate LiveRow(s: System, resource: string)
  {
    resource in s.rows && s.rows[resource].lease > s.now
  }

  /** The statement's binding selects the owner's own row. */
  predicate OwnRow(s: System, o: Owner)
  {
    o.resource in s.rows && s.rows[o.resource].owner == o
  }

  predicate Live(s: System, o: Owner)
  {
    OwnRow(s, o) && s.rows[o.resource].lease > s.now
  }

  predicate Revokes(outcome: Outcome)
  {
    outcome != Shared && outcome != EdgeOnly
  }

  predicate Enabled(s: System, a: Action)
  {
    match a
    case Tick(_) => true
    case Prune(r) => r in s.rows && !LiveRow(s, r)
    case Fire(t) => t < |s.memory.alarms| && s.memory.alarms[t].phase == Armed && s.memory.alarms[t].due <= s.now
    case Expire(t) => t < |s.memory.alarms| && s.memory.alarms[t].phase == Queued && s.memory.alarms[t].resource !in s.pending
    case InsertOwner(r, _, _) => r !in s.pending
    case ReadOwner(r) => r in s.pending && s.pending[r] == Denied
    case EndAcquire(r) => r in s.pending && (s.pending[r].Granted? || s.pending[r].Found?)
    case RenewRow(o) => o.resource !in s.pending
    case EndRenew(r) => r in s.pending && s.pending[r].Extended?
    case DeleteRow(o, outcome, id) => o.resource !in s.pending && (id.Some? ==> outcome == Shared && id.value >= 1)
    case EndComplete(r) => r in s.pending && s.pending[r].Removed?
    case Reject(r) => r in s.pending
    case Abandon(statement) => ResourceOf(statement) !in s.pending
    case Drift(statement) => statement in s.adrift
  }

  function ResourceOf(statement: Statement): string
  {
    match statement case Inserting(r, _) => r case Renewing(o) => o.resource case Deleting(o, _) => o.resource
  }

  function RowInserted(s: System, r: string, token: string): System
  {
    s.(rows := s.rows[r := Row(Owner(s.lastId + 1, r, token), s.now + LEASE_MS)], lastId := s.lastId + 1)
  }

  function LeaseExtended(s: System, o: Owner): System
    requires OwnRow(s, o)
  {
    s.(rows := s.rows[o.resource := Row(o, Max(s.rows[o.resource].lease, s.now + LEASE_MS))])
  }

  predicate Deletes(s: System, o: Owner, outcome: Outcome)
  {
    Live(s, o) || (OwnRow(s, o) && Revokes(outcome))
  }

  function Inserted(s: System, r: string, token: string, follow: bool): System
  {
    if LiveRow(s, r) then if follow then s.(pending := s.pending[r := Denied]) else s
    else
      var t := RowInserted(s, r, token);
      t.(pending := s.pending[r := Granted(t.rows[r].owner)])
  }

  function RowRenewed(s: System, o: Owner): System
  {
    if Live(s, o) then LeaseExtended(s, o).(pending := s.pending[o.resource := Extended(o, true, s.now)])
    else s.(pending := s.pending[o.resource := Extended(o, false, s.now)])
  }

  function RowDeleted(s: System, o: Owner, outcome: Outcome, id: Option<nat>): System
  {
    if Deletes(s, o, outcome)
    then s.(rows := s.rows - {o.resource}, pending := s.pending[o.resource := Removed(o, Some(Live(s, o)), outcome, id)])
    else s.(pending := s.pending[o.resource := Removed(o, None, outcome, id)])
  }

  /** A statement that was adrift takes effect, or finds nothing to do. */
  function Drifted(s: System, statement: Statement): System
  {
    var t := s.(adrift := s.adrift - {statement});
    match statement
    case Inserting(r, token) => if LiveRow(s, r) then t else RowInserted(t, r, token)
    case Renewing(o) =>
      if Live(s, o) then LeaseExtended(t, o).(unacknowledged := s.unacknowledged + [Unacknowledged(o, s.now)]) else t
    case Deleting(o, outcome) => if Deletes(s, o, outcome) then t.(rows := s.rows - {o.resource}) else t
  }

  /** The operation on a resource rejects after its last statement. */
  function OperationRejected(s: System, r: string): System
    requires r in s.pending
  {
    var p := s.pending[r];
    var t := s.(pending := s.pending - {r});
    if p.Extended? && p.ok then t.(unacknowledged := s.unacknowledged + [Unacknowledged(p.owner, p.at)]) else t
  }

  function AcquireEnded(s: System, r: string): System
    requires r in s.pending && (s.pending[r].Granted? || s.pending[r].Found?)
  {
    var released := s.(pending := s.pending - {r});
    match s.pending[r]
    case Granted(_) => released.(memory := Woken(s.memory, r, Retry))
    case Found(current) =>
      if current.None? then released else released.(memory := Joined(s.memory, r, current.value, s.now))
  }

  function Next(s: System, a: Action): System
    requires Enabled(s, a)
  {
    match a
    case Tick(delay) => s.(now := s.now + delay)
    case Prune(r) => s.(rows := s.rows - {r})
    case Fire(t) => s.(memory := Fired(s.memory, t))
    case Expire(t) => s.(memory := Expired(s.memory, t))
    case InsertOwner(r, token, follow) => Inserted(s, r, token, follow)
    case ReadOwner(r) =>
      s.(pending := s.pending[r := Found(if r in s.rows then Some(s.rows[r].owner) else None)])
    case EndAcquire(r) => AcquireEnded(s, r)
    case RenewRow(o) => RowRenewed(s, o)
    case EndRenew(r) =>
      var p := s.pending[r];
      s.(memory := if p.ok then Renewed(s.memory, p.owner, s.now) else s.memory, pending := s.pending - {r})
    case DeleteRow(o, outcome, id) => RowDeleted(s, o, outcome, id)
    case EndComplete(r) =>
      var p := s.pending[r];
      s.(memory := if p.live.Some? then Finished(s.memory, p.owner, p.live.value, p.outcome, p.publicationId) else s.memory,
         pending := s.pending - {r})
    case Reject(r) => OperationRejected(s, r)
    case Abandon(statement) => s.(adrift := s.adrift + {statement})
    case Drift(statement) => Drifted(s, statement)
  }

  /** The state after these actions; one that is not enabled when its turn comes does nothing. */
  function Run(actions: seq<Action>): System
  {
    if actions == [] then START
    else
      var s := Run(actions[..|actions| - 1]);
      var a := actions[|actions| - 1];
      if Enabled(s, a) then Next(s, a) else s
  }
}
