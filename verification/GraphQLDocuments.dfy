/** The worker's reading of a GraphQL document (src/graphql-read.ts:34-153): what it means to inline
    every fragment, and that the bounded walk accepts exactly the documents for which that is possible. */
module GraphQLDocuments {
  import opened Basics
  import opened GraphQLReads

  datatype ArgumentValue = Text(text: string) | Variable(name: string) | OtherValue

  datatype Argument = Argument(name: string, value: ArgumentValue)

  datatype Field = Field(name: string, arguments: seq<Argument>)

  datatype Selection =
    | Scalar(field: Field, directives: seq<string>)
    | Nested(field: Field, directives: seq<string>, inner: seq<Selection>)
    | Inline(directives: seq<string>, body: seq<Selection>)
    | Spread(name: string, directives: seq<string>)

  type Fragments = map<string, seq<Selection>>

  /** A selection with its fragments in place. */
  datatype Node = Leaf(field: Field) | Branch(field: Field, inner: seq<Node>) | Group(body: seq<Node>)

  lemma Shrinks(fragments: Fragments, stack: set<string>, name: string)
    requires name in fragments && name !in stack
    ensures |fragments.Keys - (stack + {name})| < |fragments.Keys - stack|
  {
    SubsetSize(fragments.Keys - (stack + {name}), fragments.Keys - stack - {name});
  }

  /** The node of one selection, if no fragment on the stack is spread again. */
  function ExpandOne(s: Selection, stack: set<string>, fragments: Fragments): Option<Node>
    decreases |fragments.Keys - stack|, s
  {
    match s
    case Scalar(field, _) => Some(Leaf(field))
    case Nested(field, _, inner) =>
      (match Expand(inner, stack, fragments) case None => None case Some(nodes) => Some(Branch(field, nodes)))
    case Inline(_, body) =>
      (match Expand(body, stack, fragments) case None => None case Some(nodes) => Some(Group(nodes)))
    case Spread(name, _) =>
      if name in stack || name !in fragments then None
      else
        Shrinks(fragments, stack, name);
        match Expand(fragments[name], stack + {name}, fragments) case None => None case Some(nodes) => Some(Group(nodes))
  }

  function Expand(selections: seq<Selection>, stack: set<string>, fragments: Fragments): Option<seq<Node>>
    decreases |fragments.Keys - stack|, selections
  {
    if selections == [] then Some([])
    else match ExpandOne(selections[0], stack, fragments)
         case None => None
         case Some(node) => Before([node], Expand(selections[1..], stack, fragments))
  }

  function Before(done: seq<Node>, rest: Option<seq<Node>>): Option<seq<Node>>
  {
    match rest case None => None case Some(nodes) => Some(done + nodes)
  }

  /** The nodes that are visited, fragments counted at each spread. */
  function SizeOne(n: Node): nat
    decreases n
  {
    match n case Leaf(_) => 1 case Branch(_, inner) => 1 + Size(inner) case Group(body) => 1 + Size(body)
  }

  function Size(nodes: seq<Node>): nat
    decreases nodes
  {
    if nodes == [] then 0 else SizeOne(nodes[0]) + Size(nodes[1..])
  }

  /** The nesting of selection sets; fragments add none. */
  function DepthOne(n: Node): nat
    decreases n
  {
    match n case Leaf(_) => 1 case Branch(_, inner) => 1 + Depth(inner) case Group(body) => Depth(body)
  }

  function Depth(nodes: seq<Node>): (d: nat)
    ensures d >= 1
    decreases nodes
  {
    if nodes == [] then 1 else Max(DepthOne(nodes[0]), Depth(nodes[1..]))
  }

  /** The fields at the top once all fragments are inlined. */
  function RootsOne(n: Node): seq<Field>
    decreases n
  {
    match n case Leaf(field) => [field] case Branch(field, _) => [field] case Group(body) => RootFields(body)
  }

  function RootFields(nodes: seq<Node>): seq<Field>
    decreases nodes
  {
    if nodes == [] then [] else RootsOne(nodes[0]) + RootFields(nodes[1..])
  }

  lemma {:induction false} Adds(done: seq<Node>, rest: seq<Node>)
    ensures Size(done + rest) == Size(done) + Size(rest)
    ensures Depth(done + rest) == Max(Depth(done), Depth(rest))
    ensures RootFields(done + rest) == RootFields(done) + RootFields(rest)
  {
    if done == [] {
      assert done + rest == rest;
    } else {
      assert done + rest == [done[0]] + (done[1..] + rest);
      Adds(done[1..], rest);
    }
  }

  /** The measures of one node alone. */
  lemma Single(n: Node)
    ensures Size([n]) == SizeOne(n) && RootFields([n]) == RootsOne(n) && Depth([n]) == Max(DepthOne(n), 1)
  {
    assert [n][1..] == [];
  }

  // ------------------------------------------------- what is spread where

  function SpreadsOne(s: Selection): set<string>
    decreases s
  {
    match s
    case Scalar(_, _) => {}
    case Nested(_, _, inner) => Spreads(inner)
    case Inline(_, body) => Spreads(body)
    case Spread(name, _) => {name}
  }

  function Spreads(selections: seq<Selection>): set<string>
    decreases selections
  {
    if selections == [] then {} else SpreadsOne(selections[0]) + Spreads(selections[1..])
  }

  /** Each fragment on the path is spread somewhere in the one before it. */
  predicate Path(p: seq<string>, fragments: Fragments)
  {
    && (forall i :: 0 <= i < |p| ==> p[i] in fragments)
    && (forall i :: 0 <= i < |p| - 1 ==> Follows(p, i, fragments))
  }

  predicate Follows(p: seq<string>, i: nat, fragments: Fragments)
    requires i + 1 < |p| && p[i] in fragments
  {
    p[i + 1] in Spreads(fragments[p[i]])
  }

  ghost predicate Acyclic(fragments: Fragments)
  {
    forall p: seq<string> :: Path(p, fragments) && |p| > 1 ==> p[0] != p[|p| - 1]
  }

  function Elements(p: seq<string>): set<string>
  {
    set s | s in p
  }

  /** If a set expands, so does every fragment spread in it, and none is on the stack. */
  lemma {:induction false} SpreadsExpandOne(s: Selection, stack: set<string>, fragments: Fragments, name: string)
    requires ExpandOne(s, stack, fragments).Some? && name in SpreadsOne(s)
    ensures name in fragments && name !in stack && Expand(fragments[name], stack + {name}, fragments).Some?
    decreases s
  {
    match s
    case Nested(_, _, inner) => SpreadsExpand(inner, stack, fragments, name);
    case Inline(_, body) => SpreadsExpand(body, stack, fragments, name);
    case Spread(_, _) =>
  }

  lemma {:induction false} SpreadsExpand(selections: seq<Selection>, stack: set<string>, fragments: Fragments, name: string)
    requires Expand(selections, stack, fragments).Some? && name in Spreads(selections)
    ensures name in fragments && name !in stack && Expand(fragments[name], stack + {name}, fragments).Some?
    decreases selections
  {
    if name in SpreadsOne(selections[0]) {
      SpreadsExpandOne(selections[0], stack, fragments, name);
    } else {
      SpreadsExpand(selections[1..], stack, fragments, name);
    }
  }

  lemma PrefixIsPath(p: seq<string>, n: nat, fragments: Fragments)
    requires Path(p, fragments) && n <= |p|
    ensures Path(p[..n], fragments)
  {
    forall i | 0 <= i < n - 1 ensures Follows(p[..n], i, fragments) {
      assert Follows(p, i, fragments);
    }
  }

  lemma PathGrows(p: seq<string>, name: string, fragments: Fragments)
    requires Path(p, fragments) && name in fragments && (p != [] ==> name in Spreads(fragments[p[|p| - 1]]))
    ensures Path(p + [name], fragments)
  {
    var q := p + [name];
    forall i | 0 <= i < |q| - 1 ensures Follows(q, i, fragments) {
      if i < |p| - 1 { assert Follows(p, i, fragments); }
    }
  }

  ghost predicate AllExpand(fragments: Fragments)
  {
    forall name :: name in fragments ==> Expand(fragments[name], {name}, fragments).Some?
  }

  /** Along a path from a fragment that expands, the stack is the path, so no name comes twice. */
  lemma {:induction false} PathExpands(p: seq<string>, fragments: Fragments)
    requires Path(p, fragments) && p != [] && AllExpand(fragments)
    ensures Expand(fragments[p[|p| - 1]], Elements(p), fragments).Some?
    ensures forall i :: 0 <= i < |p| - 1 ==> p[i] != p[|p| - 1]
  {
    var last := |p| - 1;
    if last == 0 {
      assert Elements(p) == {p[0]};
    } else {
      var q := p[..last];
      PrefixIsPath(p, last, fragments);
      PathExpands(q, fragments);
      assert Follows(p, last - 1, fragments);
      SpreadsExpand(fragments[q[last - 1]], Elements(q), fragments, p[last]);
      assert Elements(p) == Elements(q) + {p[last]};
      assert forall i :: 0 <= i < last ==> p[i] == q[i] && q[i] in Elements(q);
    }
  }

  /** Its last fragment is on it before. */
  predicate Closes(q: seq<string>)
  {
    exists i :: 0 <= i < |q| - 1 && q[i] == q[|q| - 1]
  }

  ghost predicate NoneMissing(fragments: Fragments)
  {
    forall name :: name in fragments ==> Spreads(fragments[name]) <= fragments.Keys
  }

  /** All of these are spread in the last fragment of the path. */
  predicate Onward(p: seq<string>, names: set<string>, fragments: Fragments)
  {
    names <= fragments.Keys
    && (p != [] ==> p[|p| - 1] in fragments && names <= Spreads(fragments[p[|p| - 1]]))
  }

  /** The step along a spread: either the path closes, or it grows and the fragment cannot be expanded. */
  lemma SpreadStuck(name: string, p: seq<string>, fragments: Fragments)
    requires Path(p, fragments) && Onward(p, {name}, fragments) && NoneMissing(fragments)
    requires name in Elements(p) || Expand(fragments[name], Elements(p) + {name}, fragments).None?
    ensures Path(p + [name], fragments) && Onward(p + [name], Spreads(fragments[name]), fragments)
    ensures if name in Elements(p) then Closes(p + [name])
            else Expand(fragments[name], Elements(p + [name]), fragments).None?
                 && |fragments.Keys - Elements(p + [name])| < |fragments.Keys - Elements(p)|
  {
    hide Expand, Spreads;
    var q := p + [name];
    assert name in fragments;
    PathGrows(p, name, fragments);
    assert q[|q| - 1] == name;
    if name in Elements(p) {
      var i :| 0 <= i < |p| && p[i] == name;
      assert q[i] == q[|q| - 1];
    } else {
      assert Elements(q) == Elements(p) + {name};
      Shrinks(fragments, Elements(p), name);
    }
  }

  /** A set that cannot be expanded, though all it spreads is defined, leads into a cycle. */
  lemma {:induction false} StuckOne(s: Selection, p: seq<string>, fragments: Fragments) returns (q: seq<string>)
    requires Path(p, fragments) && ExpandOne(s, Elements(p), fragments).None?
    requires Onward(p, SpreadsOne(s), fragments) && NoneMissing(fragments)
    ensures Path(q, fragments) && Closes(q)
    decreases |fragments.Keys - Elements(p)|, s
  {
    hide Path, Closes, NoneMissing, Elements, Expand, Spreads;
    match s
    case Nested(_, _, inner) => q := Stuck(inner, p, fragments);
    case Inline(_, body) => q := Stuck(body, p, fragments);
    case Spread(name, _) =>
      q := p + [name];
      SpreadStuck(name, p, fragments);
      if name !in Elements(p) {
        q := Stuck(fragments[name], q, fragments);
      }
  }

  lemma {:induction false} Stuck(selections: seq<Selection>, p: seq<string>, fragments: Fragments) returns (q: seq<string>)
    requires Path(p, fragments) && Expand(selections, Elements(p), fragments).None?
    requires Onward(p, Spreads(selections), fragments) && NoneMissing(fragments)
    ensures Path(q, fragments) && Closes(q)
    decreases |fragments.Keys - Elements(p)|, selections
  {
    hide Path, Closes, NoneMissing, Elements;
    if ExpandOne(selections[0], Elements(p), fragments).None? {
      q := StuckOne(selections[0], p, fragments);
    } else {
      q := Stuck(selections[1..], p, fragments);
    }
  }

  ghost predicate Defined(selections: seq<Selection>, fragments: Fragments)
  {
    Spreads(selections) <= fragments.Keys && NoneMissing(fragments)
  }

  lemma SuffixIsPath(q: seq<string>, i: nat, fragments: Fragments)
    requires Path(q, fragments) && i <= |q|
    ensures Path(q[i..], fragments)
  {
    var p := q[i..];
    assert forall j :: 0 <= j < |p| ==> p[j] == q[i + j];
    forall j | 0 <= j < |p| - 1 ensures Follows(p, j, fragments) {
      assert Follows(q, i + j, fragments);
    }
  }

  lemma {:induction false} ExpansionDefines(selections: seq<Selection>, stack: set<string>, fragments: Fragments)
    requires Expand(selections, stack, fragments).Some?
    ensures Spreads(selections) <= fragments.Keys
  {
    forall name | name in Spreads(selections) ensures name in fragments {
      SpreadsExpand(selections, stack, fragments, name);
    }
  }

  lemma NoRepeats(q: seq<string>, fragments: Fragments)
    requires Path(q, fragments) && Acyclic(fragments)
    ensures !Closes(q)
  {
    forall i | 0 <= i < |q| - 1 ensures q[i] != q[|q| - 1] {
      SuffixIsPath(q, i, fragments);
      assert q[i..][0] == q[i] && q[i..][|q| - i - 1] == q[|q| - 1];
    }
  }

  /** The operation and all fragments can be inlined exactly when every spread fragment is defined and
      the fragments spread each other in no cycle. */
  lemma ExpandsExactlyWhenAcyclic(operation: seq<Selection>, fragments: Fragments)
    ensures Expand(operation, {}, fragments).Some? && AllExpand(fragments)
            <==> Defined(operation, fragments) && Acyclic(fragments)
  {
    if Expand(operation, {}, fragments).Some? && AllExpand(fragments) {
      ExpansionDefines(operation, {}, fragments);
      forall name | name in fragments ensures Spreads(fragments[name]) <= fragments.Keys {
        ExpansionDefines(fragments[name], {name}, fragments);
      }
      forall p: seq<string> | Path(p, fragments) && |p| > 1 ensures p[0] != p[|p| - 1] {
        PathExpands(p, fragments);
      }
    }
    if Defined(operation, fragments) && Acyclic(fragments) {
      if Expand(operation, {}, fragments).None? {
        assert Elements([]) == {};
        var q := Stuck(operation, [], fragments);
        NoRepeats(q, fragments);
      }
      forall name | name in fragments ensures Expand(fragments[name], {name}, fragments).Some? {
        assert Elements([name]) == {name};
        if Expand(fragments[name], {name}, fragments).None? {
          var q := Stuck(fragments[name], [name], fragments);
          NoRepeats(q, fragments);
        }
      }
    }
  }
}
