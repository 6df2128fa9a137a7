/** Where the evidence that a repository is public comes from (src/public-repos.ts:145-186,353-418,441-510,
    sql/queries/d1.sql:478-509, sql/queries/publication.sql).

    Publication ids are issued once and to one live owner at a time. Whoever holds one observes the
    repository once, at any time, and publishes that observation: to the table by a guarded statement,
    whose call may run late or more than once, and to the edge cache, however late. Readers copy rows
    that they have read to the edge, again however late. */
module ProofTable {
  import opened Basics

  datatype Proof = Proof(id: nat, wellFormed: bool, isPublic: bool, checkedAt: int, expiresAt: int)

  /** `holder` is the id of the live owner, `observed` what each holder has seen, and `copies` the rows
      that readers have in hand. */
  datatype Table = Table(
    lastId: nat, holder: Option<nat>, observed: map<nat, bool>, row: Option<Proof>, edge: Option<Proof>, copies: set<Proof>)

  datatype Action =
    | Grant
    | Lapse
    | Observe(id: nat, isPublic: bool)
    | Store(id: nat, checkedAt: int, expiresAt: int, now: int)
    | WriteEdge(id: nat, checkedAt: int, expiresAt: int)
    | ReadRow
    | CopyToEdge(proof: Proof)
    | DropRow
    | DropEdge

  const START := Table(0, None, map[], None, None, {})

  predicate Enabled(t: Table, a: Action)
  {
    match a
    case Grant => t.holder.None?
    case Lapse => true
    case Observe(id, _) => 1 <= id <= t.lastId && id !in t.observed
    case Store(id, _, _, _) => id in t.observed
    case WriteEdge(id, _, _) => id in t.observed
    case ReadRow => t.row.Some?
    case CopyToEdge(p) => p in t.copies
    case DropRow => true
    case DropEdge => true
  }

  /** `UpsertPublicRepoProof`: it takes effect for the live owner only, and over smaller ids only. */
  predicate Accepted(t: Table, id: nat, expiresAt: int, now: int)
  {
    t.holder == Some(id) && expiresAt > now && (t.row.Some? ==> t.row.value.id < id)
  }

  function Next(t: Table, a: Action): Table
    requires Enabled(t, a)
  {
    match a
    case Grant => t.(lastId := t.lastId + 1, holder := Some(t.lastId + 1))
    case Lapse => t.(holder := None)
    case Observe(id, isPublic) => t.(observed := t.observed[id := isPublic])
    case Store(id, checkedAt, expiresAt, now) =>
      if Accepted(t, id, expiresAt, now) then t.(row := Some(Proof(id, true, t.observed[id], checkedAt, expiresAt))) else t
    case WriteEdge(id, checkedAt, expiresAt) => t.(edge := Some(Proof(id, true, t.observed[id], checkedAt, expiresAt)))
    case ReadRow => t.(copies := t.copies + {t.row.value})
    case CopyToEdge(p) => t.(edge := Some(p))
    case DropRow => t.(row := None)
    case DropEdge => t.(edge := None)
  }

  function Try(t: Table, a: Action): Table
  {
    if Enabled(t, a) then Next(t, a) else t
  }

  /** The table after any attempt to perform these actions in order. */
  function Run(t: Table, actions: seq<Action>): Table
    decreases |actions|
  {
    if actions == [] then t else Run(Try(t, actions[0]), actions[1..])
  }

  /** The proof tells what the holder of its id saw. */
  predicate Truthful(t: Table, p: Proof)
  {
    p.id in t.observed && t.observed[p.id] == p.isPublic
  }

  ghost predicate Inv(t: Table)
  {
    && (forall id :: id in t.observed ==> 1 <= id <= t.lastId)
    && (t.holder.Some? ==> t.holder.value == t.lastId)
    && (t.row.Some? ==> Truthful(t, t.row.value))
    && (t.edge.Some? ==> Truthful(t, t.edge.value))
    && (forall p :: p in t.copies ==> Truthful(t, p))
  }

  lemma TryKeeps(t: Table, a: Action)
    requires Inv(t)
    ensures Inv(Try(t, a))
    ensures Try(t, a).lastId >= t.lastId
    ensures forall id :: id in t.observed ==> id in Try(t, a).observed && Try(t, a).observed[id] == t.observed[id]
  {
  }

  /** In every run, every proof that can be read tells what the holder of its id saw, and what one has
      seen is never changed. */
  lemma {:induction false} ProofsAreTruthful(t: Table, actions: seq<Action>)
    requires Inv(t)
    ensures Inv(Run(t, actions)) && Run(t, actions).lastId >= t.lastId
    ensures forall id :: id in t.observed ==> id in Run(t, actions).observed && Run(t, actions).observed[id] == t.observed[id]
    decreases |actions|
  {
    if actions == [] {
    } else {
      TryKeeps(t, actions[0]);
      ProofsAreTruthful(Try(t, actions[0]), actions[1..]);
    }
  }

  /** Over any run the id in the table only grows, even where rows are dropped in between: a later row
      of the same id tells the same. */
  lemma {:induction false} RowsOnlyAdvance(t: Table, actions: seq<Action>, last: Proof)
    requires Inv(t) && Truthful(t, last) && (t.row.Some? ==> t.row.value.id >= last.id)
    ensures var end := Run(t, actions);
            end.row.Some? ==> end.row.value.id >= last.id && (end.row.value.id == last.id ==> end.row.value.isPublic == last.isPublic)
    decreases |actions|
  {
    if actions == [] {
    } else {
      TryKeeps(t, actions[0]);
      RowsOnlyAdvance(Try(t, actions[0]), actions[1..], last);
    }
  }

  /** What the statements and writes do to what can be read: a grant is of an id that nobody has had; the live
      owner's unexpired observation replaces a row of a smaller id, and any other store changes nothing; what is
      written or copied to the edge is what is read there. */
  lemma TableActs(t: Table, id: nat, checkedAt: int, expiresAt: int, now: int, p: Proof)
    requires Inv(t)
    ensures t.holder == None ==>
              var end := Try(t, Grant); end.holder == Some(end.lastId) && end.lastId == t.lastId + 1 && end.lastId !in end.observed
    ensures id in t.observed ==>
              var end := Try(t, Store(id, checkedAt, expiresAt, now));
              if t.holder == Some(id) && now < expiresAt && (t.row == None || t.row.value.id < id)
              then end.row == Some(Proof(id, true, t.observed[id], checkedAt, expiresAt)) && end.edge == t.edge
              else end == t
    ensures id in t.observed ==> Try(t, WriteEdge(id, checkedAt, expiresAt)).edge == Some(Proof(id, true, t.observed[id], checkedAt, expiresAt))
    ensures t.row == Some(p) ==> Try(Try(t, ReadRow), CopyToEdge(p)).edge == Some(p)
  {
  }

  /** A run goes on where it was. */
  lemma {:induction false} RunAdds(t: Table, left: seq<Action>, right: seq<Action>)
    ensures Run(t, left + right) == Run(Run(t, left), right)
    ensures right != [] ==> Run(t, right) == Run(if Enabled(t, right[0]) then Next(t, right[0]) else t, right[1..])
    decreases |left|
  {
    if left == [] {
      assert left + right == right;
    } else {
      assert (left + right)[1..] == left[1..] + right;
      RunAdds(Try(t, left[0]), left[1..], right);
    }
  }
}
