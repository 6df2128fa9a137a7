/** The walk over selection sets, with its counters (src/graphql-read.ts:81-104). */
module GraphQLFragments {
  import opened Basics
  import opened GraphQLReads
  import opened GraphQLDocuments

  const MAX_EXPANDED: nat := 4_000

  lemma Nothing(stack: set<string>, fragments: Fragments)
    ensures Expand([], stack, fragments) == Some([]) && Size([]) == 0 && Depth([]) == 1 && RootFields([]) == []
  {
  }

  /** One round: the tree of the next selection is between those that are done and the rest, and
      bounds on the whole are bounds on each part. */
  lemma StepOf(selections: seq<Selection>, n: nat, stack: set<string>, fragments: Fragments, done: seq<Node>)
    requires n < |selections|
    requires Expand(selections, stack, fragments) == Before(done, Expand(selections[n..], stack, fragments))
    ensures var one := ExpandOne(selections[n], stack, fragments);
            var all := Expand(selections, stack, fragments);
            && (one.None? ==> all.None?)
            && (one.Some? ==> all == Before(done + [one.value], Expand(selections[n + 1..], stack, fragments)))
            && (all.Some? ==> one.Some? && Size(all.value) >= Size(done) + SizeOne(one.value)
                              && Depth(all.value) >= Max(Depth(done), DepthOne(one.value)))
            && (all.Some? ==> Size(all.value) > Size(done))
  {
    var one := ExpandOne(selections[n], stack, fragments);
    var rest := Expand(selections[n + 1..], stack, fragments);
    assert selections[n..][0] == selections[n] && selections[n..][1..] == selections[n + 1..];
    if one.Some? && rest.Some? {
      Adds(done + [one.value], rest.value);
      Adds(done, [one.value]);
      Single(one.value);
      assert done + ([one.value] + rest.value) == (done + [one.value]) + rest.value;
    }
  }

  class Walker {
    const fragments: Fragments
    var roots: seq<GraphQLDocuments.Field>
    var expanded: nat

    constructor (fragments: Fragments)
      ensures this.fragments == fragments && roots == [] && expanded == 0
    {
      this.fragments, roots, expanded := fragments, [], 0;
    }

    /** Accepts exactly the sets that expand to a tree within the limits; then it has collected the
        root fields of that tree, and counted its nodes. It ends on every document, cyclic ones too. */
    method Walk(selections: seq<Selection>, depth: nat, stack: set<string>, collectRoots: bool) returns (ok: bool)
      requires expanded <= MAX_EXPANDED
      modifies this
      ensures ok <==> var tree := Expand(selections, stack, fragments);
                      tree.Some? && depth + Depth(tree.value) - 1 <= MAX_DEPTH && old(expanded) + Size(tree.value) <= MAX_EXPANDED
      ensures ok ==> var tree := Expand(selections, stack, fragments).value;
                     expanded == old(expanded) + Size(tree) && roots == old(roots) + if collectRoots then RootFields(tree) else []
      decreases |fragments.Keys - stack|, selections
    {
      hide Expand, ExpandOne, Size, SizeOne, Depth, DepthOne, RootFields, RootsOne;
      Nothing(stack, fragments);
      if depth > MAX_DEPTH { return false; }
      ghost var done: seq<Node> := [];
      ghost var begun, held := expanded, roots;
      assert forall rest: seq<Node> :: [] + rest == rest;
      assert roots + [] == roots;
      for n := 0 to |selections|
        invariant Expand(selections, stack, fragments) == Before(done, Expand(selections[n..], stack, fragments))
        invariant expanded == begun + Size(done) && expanded <= MAX_EXPANDED
        invariant roots == held + if collectRoots then RootFields(done) else []
        invariant depth + Depth(done) - 1 <= MAX_DEPTH
      {
        var node := selections[n];
        ghost var tree := ExpandOne(node, stack, fragments);
        StepOf(selections, n, stack, fragments, done);
        var fine := Visit(node, depth, stack, collectRoots);
        if !fine { return false; }
        Adds(done, [tree.value]);
        Single(tree.value);
        done := done + [tree.value];
      }
      assert done + [] == done && selections[|selections|..] == [];
      return true;
    }

    method Visit(node: Selection, depth: nat, stack: set<string>, collectRoots: bool) returns (ok: bool)
      requires expanded <= MAX_EXPANDED && depth <= MAX_DEPTH
      modifies this
      ensures ok <==> var tree := ExpandOne(node, stack, fragments);
                      tree.Some? && depth + DepthOne(tree.value) - 1 <= MAX_DEPTH && old(expanded) + SizeOne(tree.value) <= MAX_EXPANDED
      ensures ok ==> var tree := ExpandOne(node, stack, fragments).value;
                     expanded == old(expanded) + SizeOne(tree) && roots == old(roots) + if collectRoots then RootsOne(tree) else []
      decreases |fragments.Keys - stack|, node
    {
      expanded := expanded + 1;
      if expanded > MAX_EXPANDED { return false; }
      match node {
        case Scalar(field, _) =>
          if collectRoots { roots := roots + [field]; }
          ok := true;
        case Nested(field, _, inner) =>
          if collectRoots { roots := roots + [field]; }
          ok := Walk(inner, depth + 1, stack, false);
        case Inline(_, body) =>
          ok := Walk(body, depth, stack, collectRoots);
        case Spread(name, _) =>
          if name in stack || name !in fragments { return false; }
          Shrinks(fragments, stack, name);
          ok := Walk(fragments[name], depth, stack + {name}, collectRoots);
      }
    }
  }
}
