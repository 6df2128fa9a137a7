/** The reading of a whole document: what may be relayed (src/graphql-read.ts:31-147). */
module GraphQLEligible {
  import opened Basics
  import opened GraphQLReads
  import opened GraphQLDocuments
  import opened GraphQLFragments

  datatype Definition =
    | Operation(kind: string, title: Option<string>, directives: seq<string>, selections: seq<Selection>)
    | Fragment(name: string, directives: seq<string>, selections: seq<Selection>)
    | OtherDefinition

  /** Variables that hold text, and those that do not. */
  type Variables = map<string, Option<string>>

  const MAX_NAME := 100

  function Operations(document: seq<Definition>): seq<Definition>
  {
    if document == [] then []
    else (if document[0].Operation? then [document[0]] else []) + Operations(document[1..])
  }

  function FragmentList(document: seq<Definition>): (list: seq<Definition>)
    ensures forall d :: d in list ==> d.Fragment?
  {
    if document == [] then []
    else (if document[0].Fragment? then [document[0]] else []) + FragmentList(document[1..])
  }

  predicate DistinctFragments(list: seq<Definition>)
    requires forall d :: d in list ==> d.Fragment?
  {
    forall i, j :: 0 <= i < j < |list| ==> list[i].name != list[j].name
  }

  function FragmentMap(list: seq<Definition>): Fragments
    requires forall d :: d in list ==> d.Fragment?
  {
    if list == [] then map[] else FragmentMap(list[..|list| - 1])[list[|list| - 1].name := list[|list| - 1].selections]
  }

  predicate DirectivesAllowed(directives: seq<string>)
  {
    forall d :: d in directives ==> d == "include" || d == "skip"
  }

  predicate FieldAllowed(name: string)
  {
    name != "mergeStateStatus" && !StartsWithViewer(name) && name != "__schema" && name != "__type"
  }

  /** What `visit` lets pass in a selection set. */
  predicate AllowedOne(s: Selection, names: set<string>)
    decreases s
  {
    DirectivesAllowed(s.directives)
    && match s
       case Scalar(field, _) => FieldAllowed(field.name)
       case Nested(field, _, inner) => FieldAllowed(field.name) && AllAllowed(inner, names)
       case Inline(_, body) => AllAllowed(body, names)
       case Spread(name, _) => name in names
  }

  predicate AllAllowed(selections: seq<Selection>, names: set<string>)
    decreases selections
  {
    selections == [] || (AllowedOne(selections[0], names) && AllAllowed(selections[1..], names))
  }

  predicate Visited(document: seq<Definition>, names: set<string>)
  {
    forall d :: d in document ==> !d.OtherDefinition? ==> DirectivesAllowed(d.directives) && AllAllowed(d.selections, names)
  }

  function ArgumentNamed(arguments: seq<Argument>, name: string): ArgumentValue
  {
    if arguments == [] then OtherValue
    else if arguments[0].name == name then arguments[0].value else ArgumentNamed(arguments[1..], name)
  }

  /** `textArgument` */
  function TextArgument(field: GraphQLDocuments.Field, name: string, variables: Variables): Option<string>
  {
    var args := field.arguments;
    if |args| != 2 || args[0].name == args[1].name then None
    else
      var text := match ArgumentNamed(args, name)
                  case Text(t) => Some(t)
                  case Variable(v) => if v in variables then variables[v] else None
                  case OtherValue => None;
      if text.None? || !RepoName(text.value) || text.value == "." || text.value == ".." || |text.value| > MAX_NAME then None
      else Some(LowerText(text.value))
  }

  datatype Repository = Repository(owner: string, name: string)

  /** The field reads this repository and nothing else. */
  predicate Reads(field: GraphQLDocuments.Field, r: Repository, variables: Variables)
  {
    && field.name == "repository"
    && TextArgument(field, "owner", variables) == Some(r.owner) && TextArgument(field, "name", variables) == Some(r.name)
  }

  ghost predicate OnlyReads(roots: seq<GraphQLDocuments.Field>, r: Repository, variables: Variables)
  {
    && (forall f :: f in roots ==> f.name == "__typename" || Reads(f, r, variables))
    && (exists f :: f in roots && f.name != "__typename")
  }

  function FragmentSizes(list: seq<Definition>, fragments: Fragments): nat
    requires forall d :: d in list ==> d.Fragment?
  {
    if list == [] then 0
    else
      var last := list[|list| - 1];
      var tree := Expand(last.selections, {last.name}, fragments);
      FragmentSizes(list[..|list| - 1], fragments) + if tree.Some? then Size(tree.value) else 0
  }

  /** The fully inlined operation of a document without cycles. */
  function Inlined(operation: seq<Selection>, fragments: Fragments): seq<Node>
  {
    var tree := Expand(operation, {}, fragments);
    if tree.Some? then tree.value else []
  }

  ghost predicate ShallowFragments(list: seq<Definition>, fragments: Fragments)
    requires forall d :: d in list ==> d.Fragment?
  {
    forall i :: 0 <= i < |list| ==>
      var tree := Expand(list[i].selections, {list[i].name}, fragments);
      tree.Some? && Depth(tree.value) <= MAX_DEPTH
  }

  /** A document that may be relayed, as reading `r`: one query, nothing that is forbidden, fragments
      without cycles, bounded when inlined, and only that repository at the root. */
  ghost predicate Eligible(document: seq<Definition>, operationName: Option<string>, variables: Variables, r: Repository)
  {
    var operations, list := Operations(document), FragmentList(document);
    && |operations| == 1 && operations[0].Operation? && operations[0].kind == "query"
    && (operationName.Some? ==> operations[0].title == operationName)
    && DistinctFragments(list) && (forall d :: d in document ==> !d.OtherDefinition?)
    && var fragments := FragmentMap(list);
    && Visited(document, fragments.Keys)
    && Defined(operations[0].selections, fragments) && Acyclic(fragments)
    && var tree := Inlined(operations[0].selections, fragments);
    && Depth(tree) <= MAX_DEPTH && ShallowFragments(list, fragments)
    && Size(tree) + FragmentSizes(list, fragments) <= MAX_EXPANDED
    && OnlyReads(RootFields(tree), r, variables)
  }

  lemma {:induction false} SizesGrow(list: seq<Definition>, n: nat, fragments: Fragments)
    requires n <= |list| && forall d :: d in list ==> d.Fragment?
    ensures forall d :: d in list[..n] ==> d.Fragment?
    ensures FragmentSizes(list[..n], fragments) <= FragmentSizes(list, fragments)
    decreases |list| - n
  {
    if n < |list| {
      var most := list[..|list| - 1];
      SizesGrow(most, n, fragments);
      assert most[..n] == list[..n];
    } else {
      assert list[..n] == list;
    }
  }

  method WalkFragments(walker: Walker, list: seq<Definition>) returns (ok: bool)
    requires forall d :: d in list ==> d.Fragment?
    requires walker.expanded <= MAX_EXPANDED
    modifies walker
    ensures ok <==> ShallowFragments(list, walker.fragments)
                    && old(walker.expanded) + FragmentSizes(list, walker.fragments) <= MAX_EXPANDED
    ensures ok ==> walker.roots == old(walker.roots)
  {
    hide Expand, Depth, Size;
    for n := 0 to |list|
      invariant walker.expanded == old(walker.expanded) + FragmentSizes(list[..n], walker.fragments) <= MAX_EXPANDED
      invariant ShallowFragments(list[..n], walker.fragments) && walker.roots == old(walker.roots)
    {
      assert list[..n + 1][..n] == list[..n];
      SizesGrow(list, n, walker.fragments);
      SizesGrow(list, n + 1, walker.fragments);
      assert forall d :: d in list[..n + 1] ==> d in list;
      var fine := walker.Walk(list[n].selections, 1, {list[n].name}, false);
      if !fine { return false; }
      assert walker.roots == old(walker.roots);
    }
    assert list[..|list|] == list;
    return true;
  }

  /** The check of the root fields, from the first repository on. */
  method ReadRoots(roots: seq<GraphQLDocuments.Field>, variables: Variables) returns (r: Option<Repository>)
    ensures r.Some? ==> OnlyReads(roots, r.value, variables)
    ensures r.None? ==> forall other :: !OnlyReads(roots, other, variables)
  {
    var first: Option<nat> := None;
    for n := 0 to |roots|
      invariant match first
                case None => forall i :: 0 <= i < n ==> roots[i].name == "__typename"
                case Some(k) => k < n && roots[k].name != "__typename"
    {
      if first.None? && roots[n].name != "__typename" { first := Some(n); }
    }
    if first.None? { return None; }
    var owner := TextArgument(roots[first.value], "owner", variables);
    var name := TextArgument(roots[first.value], "name", variables);
    assert roots[first.value] in roots;
    if owner.None? || name.None? { return None; }
    var target := Repository(owner.value, name.value);
    for n := 0 to |roots|
      invariant forall i :: 0 <= i < n ==> roots[i].name == "__typename" || Reads(roots[i], target, variables)
    {
      if roots[n].name != "__typename" && !Reads(roots[n], target, variables) {
        assert roots[n] in roots;
        return None;
      }
    }
    return Some(target);
  }

  lemma {:induction false} MapHolds(list: seq<Definition>)
    requires (forall d :: d in list ==> d.Fragment?) && DistinctFragments(list)
    ensures forall i :: 0 <= i < |list| ==> list[i].name in FragmentMap(list) && FragmentMap(list)[list[i].name] == list[i].selections
    ensures forall name :: name in FragmentMap(list) ==> exists i :: 0 <= i < |list| && list[i].name == name
  {
    if list == [] {
    } else {
      var most := list[..|list| - 1];
      assert forall d :: d in most ==> d in list;
      MapHolds(most);
      assert forall i :: 0 <= i < |most| ==> list[i] == most[i];
    }
  }

  /** Each fragment that is walked is one of the map. */
  lemma ShallowMeansExpanded(list: seq<Definition>, fragments: Fragments)
    requires (forall d :: d in list ==> d.Fragment?) && DistinctFragments(list) && fragments == FragmentMap(list)
    ensures ShallowFragments(list, fragments) ==> AllExpand(fragments)
  {
    hide Expand;
    MapHolds(list);
  }

  method ParseGraphQLRead(document: seq<Definition>, operationName: Option<string>, variables: Variables)
    returns (r: Option<Repository>)
    ensures r.Some? ==> Eligible(document, operationName, variables, r.value)
    ensures r.None? ==> forall other :: !Eligible(document, operationName, variables, other)
  {
    hide Expand, Depth, Size, RootFields, Acyclic, Defined, OnlyReads, ShallowFragments, Visited, AllExpand;
    var operations, list := Operations(document), FragmentList(document);
    if |operations| != 1 || !operations[0].Operation? || operations[0].kind != "query" { return None; }
    if operationName.Some? && operations[0].title != operationName { return None; }
    if !DistinctFragments(list) || exists d :: d in document && d.OtherDefinition? { return None; }
    var fragments := FragmentMap(list);
    if !Visited(document, fragments.Keys) { return None; }
    var operation := operations[0].selections;
    var walker := new Walker(fragments);
    var ok := walker.Walk(operation, 1, {}, true);
    ExpandsExactlyWhenAcyclic(operation, fragments);
    if !ok { return None; }
    assert walker.roots == RootFields(Inlined(operation, fragments));
    ok := WalkFragments(walker, list);
    ShallowMeansExpanded(list, fragments);
    if !ok { return None; }
    r := ReadRoots(walker.roots, variables);
  }
}
