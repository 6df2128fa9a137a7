/** What a document that may be relayed holds, on its own definitions, selections and arguments
    (src/graphql-read.ts:52-147). */
module GraphQLRules {
  import opened Basics
  import opened GraphQLReads
  import opened GraphQLDocuments
  import opened GraphQLEligible

  // ------------------------------------------------- what is forbidden anywhere

  /** The selection stands in the set, at any depth, but not behind a spread. */
  predicate Occurs(s: Selection, selections: seq<Selection>)
    decreases selections
  {
    selections != [] && (OccursIn(s, selections[0]) || Occurs(s, selections[1..]))
  }

  predicate OccursIn(s: Selection, other: Selection)
    decreases other
  {
    s == other ||
    match other
    case Nested(_, _, inner) => Occurs(s, inner)
    case Inline(_, body) => Occurs(s, body)
    case _ => false
  }

  /** No other directive than the two that leave a field out, no field that tells of the caller or of the
      schema, and no spread of a fragment that is not there. */
  predicate Harmless(s: Selection, names: set<string>)
  {
    && (forall d :: d in s.directives ==> d in {"include", "skip"})
    && (s.Scalar? || s.Nested? ==>
          s.field.name !in {"mergeStateStatus", "__schema", "__type"} && !(|s.field.name| >= 6 && s.field.name[..6] == "viewer"))
    && (s.Spread? ==> s.name in names)
  }

  lemma HarmlessMeans(s: Selection, names: set<string>)
    ensures Harmless(s, names)
            <==> DirectivesAllowed(s.directives) && (s.Scalar? || s.Nested? ==> FieldAllowed(s.field.name)) && (s.Spread? ==> s.name in names)
  {
  }

  lemma {:induction false} AllowedExactly(selections: seq<Selection>, names: set<string>)
    ensures AllAllowed(selections, names) <==> forall s :: Occurs(s, selections) ==> Harmless(s, names)
    decreases selections
  {
    if selections == [] {
    } else {
      OneAllowedExactly(selections[0], names);
      AllowedExactly(selections[1..], names);
    }
  }

  lemma {:induction false} OneAllowedExactly(other: Selection, names: set<string>)
    ensures AllowedOne(other, names) <==> forall s :: OccursIn(s, other) ==> Harmless(s, names)
    decreases other
  {
    HarmlessMeans(other, names);
    assert OccursIn(other, other);
    if other.Nested? {
      AllowedExactly(other.inner, names);
      assert forall s :: OccursIn(s, other) <==> s == other || Occurs(s, other.inner);
    } else if other.Inline? {
      AllowedExactly(other.body, names);
      assert forall s :: OccursIn(s, other) <==> s == other || Occurs(s, other.body);
    }
  }

  // ------------------------------------------------- the repository of a root field

  predicate NamePart(c: char)
  {
    'a' <= c <= 'z' || 'A' <= c <= 'Z' || '0' <= c <= '9' || c == '_' || c == '.' || c == '-'
  }

  /** The text in lower case. */
  predicate Lowered(text: string, lower: string)
  {
    && |lower| == |text|
    && forall i :: 0 <= i < |text| ==> lower[i] == if 'A' <= text[i] <= 'Z' then text[i] - 'A' + 'a' else text[i]
  }

  predicate IsText(value: ArgumentValue, variables: Variables, text: string)
  {
    value == Text(text) || (value.Variable? && value.name in variables && variables[value.name] == Some(text))
  }

  /** One of exactly two arguments of different names has this one, and as a text or as a variable that holds one
      it gives this text. */
  predicate GivesText(field: GraphQLDocuments.Field, name: string, variables: Variables, text: string)
  {
    && |field.arguments| == 2 && field.arguments[0].name != field.arguments[1].name
    && exists i :: 0 <= i < 2 && field.arguments[i].name == name && IsText(field.arguments[i].value, variables, text)
  }

  predicate GivesName(field: GraphQLDocuments.Field, name: string, variables: Variables, text: string)
  {
    GivesText(field, name, variables, text)
    && 1 <= |text| <= 100 && text != "." && text != ".." && forall i :: 0 <= i < |text| ==> NamePart(text[i])
  }

  /** It is the field `repository` with an owner and a name, which are those in lower case. */
  ghost predicate ReadsRepository(field: GraphQLDocuments.Field, variables: Variables, r: Repository)
  {
    && field.name == "repository"
    && (exists owner :: GivesName(field, "owner", variables, owner) && Lowered(owner, r.owner))
    && (exists name :: GivesName(field, "name", variables, name) && Lowered(name, r.name))
  }

  lemma {:induction false} LowerExactly(text: string, lower: string)
    ensures lower == LowerText(text) <==> Lowered(text, lower)
  {
    if text == "" {
    } else if lower != "" {
      LowerExactly(text[1..], lower[1..]);
      assert lower == [lower[0]] + lower[1..];
      assert forall i :: 1 <= i < |text| ==> text[i] == text[1..][i - 1];
      assert forall i :: 1 <= i < |lower| ==> lower[i] == lower[1..][i - 1];
      assert Lowered(text, lower) ==> Lowered(text[1..], lower[1..]);
      assert Lowered(text[1..], lower[1..]) && lower[0] == Lower(text[0]) ==> Lowered(text, lower);
    }
  }

  lemma NamesExactly(text: string)
    ensures RepoName(text) <==> text != "" && forall i :: 0 <= i < |text| ==> NamePart(text[i])
  {
    assert forall i :: 0 <= i < |text| ==> text[i] in text;
  }

  lemma NamedArgument(arguments: seq<Argument>, name: string)
    requires |arguments| == 2 && arguments[0].name != arguments[1].name
    ensures ArgumentNamed(arguments, name)
            == if arguments[0].name == name then arguments[0].value else if arguments[1].name == name then arguments[1].value else OtherValue
  {
    var rest := arguments[1..];
    assert rest[0] == arguments[1] && rest[1..] == [];
    assert ArgumentNamed(rest, name) == if rest[0].name == name then rest[0].value else ArgumentNamed(rest[1..], name);
  }

  lemma TextMeans(field: GraphQLDocuments.Field, name: string, variables: Variables, text: string)
    requires GivesText(field, name, variables, text)
    ensures TextArgument(field, name, variables)
            == if RepoName(text) && text != "." && text != ".." && |text| <= 100 then Some(LowerText(text)) else None
  {
    hide RepoName, LowerText;
    NamedArgument(field.arguments, name);
  }

  lemma TextThere(field: GraphQLDocuments.Field, name: string, variables: Variables) returns (text: string)
    requires TextArgument(field, name, variables).Some?
    ensures GivesText(field, name, variables, text)
  {
    hide RepoName, LowerText;
    NamedArgument(field.arguments, name);
    match ArgumentNamed(field.arguments, name)
    case Text(t) => text := t;
    case Variable(v) => text := variables[v].value;
  }

  lemma TextExactly(field: GraphQLDocuments.Field, name: string, variables: Variables, lower: string)
    ensures TextArgument(field, name, variables) == Some(lower)
            <==> exists text :: GivesName(field, name, variables, text) && Lowered(text, lower)
  {
    hide RepoName, LowerText, NamePart, Lowered;
    forall text | GivesText(field, name, variables, text)
      ensures TextArgument(field, name, variables) == Some(lower) <==> GivesName(field, name, variables, text) && Lowered(text, lower)
    {
      TextMeans(field, name, variables, text);
      NamesExactly(text);
      LowerExactly(text, lower);
    }
    if TextArgument(field, name, variables).Some? { var text := TextThere(field, name, variables); }
  }

  lemma ReadsExactly(field: GraphQLDocuments.Field, r: Repository, variables: Variables)
    ensures Reads(field, r, variables) <==> ReadsRepository(field, variables, r)
  {
    hide TextArgument, GivesName, Lowered;
    TextExactly(field, "owner", variables, r.owner);
    TextExactly(field, "name", variables, r.name);
  }

  // ------------------------------------------------- the definitions

  /** There is one operation, at `k`, and all else are fragments of different names. */
  predicate OneOperation(document: seq<Definition>, k: nat)
  {
    && k < |document| && document[k].Operation?
    && (forall i :: 0 <= i < |document| && i != k ==> document[i].Fragment?)
    && forall i, j :: 0 <= i < j < |document| && i != k && j != k ==> document[i].name != document[j].name
  }

  lemma {:induction false} OperationsMean(document: seq<Definition>)
    ensures forall d :: d in Operations(document) <==> d in document && d.Operation?
    ensures |Operations(document)| <= |document|
    ensures forall k: nat :: k < |document| && document[k].Operation? && (forall i :: 0 <= i < |document| && i != k ==> !document[i].Operation?)
              ==> Operations(document) == [document[k]]
    ensures (forall i :: 0 <= i < |document| ==> !document[i].Operation?) ==> Operations(document) == []
  {
    if document == [] {
    } else {
      var rest := document[1..];
      OperationsMean(rest);
      assert document == [document[0]] + rest;
      assert forall i :: 0 <= i < |rest| ==> rest[i] == document[i + 1];
      forall k: nat | k < |document| && document[k].Operation? && (forall i :: 0 <= i < |document| && i != k ==> !document[i].Operation?)
        ensures Operations(document) == [document[k]]
      {
        if k > 0 { assert rest[k - 1].Operation? && forall i :: 0 <= i < |rest| && i != k - 1 ==> !rest[i].Operation?; }
      }
    }
  }

  lemma {:induction false} OperationsCount(document: seq<Definition>, i: nat, j: nat)
    requires i < j < |document| && document[i].Operation? && document[j].Operation?
    ensures |Operations(document)| >= 2
  {
    var rest := document[1..];
    OperationsMean(rest);
    if i > 0 {
      OperationsCount(rest, i - 1, j - 1);
    } else {
      assert rest[j - 1] in rest && rest[j - 1] in Operations(rest);
    }
  }

  /** No two fragments of the document have one name. */
  predicate FragmentNamesDiffer(document: seq<Definition>)
  {
    forall i, j :: 0 <= i < j < |document| && document[i].Fragment? && document[j].Fragment? ==> document[i].name != document[j].name
  }

  lemma FirstDiffers(document: seq<Definition>)
    requires document != []
    ensures FragmentNamesDiffer(document)
            <==> FragmentNamesDiffer(document[1..])
                 && (document[0].Fragment? ==> forall j :: 0 <= j < |document[1..]| && document[1..][j].Fragment? ==> document[1..][j].name != document[0].name)
  {
    var rest := document[1..];
    assert forall i :: 0 <= i < |rest| ==> rest[i] == document[i + 1];
    if FragmentNamesDiffer(document) {
      forall i, j | 0 <= i < j < |rest| && rest[i].Fragment? && rest[j].Fragment? ensures rest[i].name != rest[j].name {
        assert document[i + 1].name != document[j + 1].name;
      }
    }
    forall i, j | 0 <= i < j < |document| && document[i].Fragment? && document[j].Fragment? && FragmentNamesDiffer(rest) && i > 0
      ensures document[i].name != document[j].name
    {
      assert rest[i - 1].name != rest[j - 1].name;
    }
    assert forall j :: 1 <= j < |document| ==> document[j] == rest[j - 1];
  }

  lemma FirstDistinct(first: Definition, list: seq<Definition>, rest: seq<Definition>)
    requires first.Fragment? && forall d :: d in list <==> d in rest && d.Fragment?
    ensures DistinctFragments([first] + list)
            <==> DistinctFragments(list) && forall j :: 0 <= j < |rest| && rest[j].Fragment? ==> rest[j].name != first.name
  {
    var all := [first] + list;
    assert forall i :: 0 <= i < |list| ==> all[i + 1] == list[i];
    if DistinctFragments(all) {
      forall j | 0 <= j < |rest| && rest[j].Fragment? ensures rest[j].name != first.name {
        assert rest[j] in list;
        var i :| 0 <= i < |list| && list[i] == rest[j];
        assert all[0].name != all[i + 1].name;
      }
      forall i, j | 0 <= i < j < |list| ensures list[i].name != list[j].name { assert all[i + 1].name != all[j + 1].name; }
    }
    if DistinctFragments(list) && forall j :: 0 <= j < |rest| && rest[j].Fragment? ==> rest[j].name != first.name {
      forall i, j | 0 <= i < j < |all| ensures all[i].name != all[j].name {
        if i == 0 { assert all[j] in list; }
      }
    }
  }

  lemma {:induction false} FragmentsMean(document: seq<Definition>)
    ensures forall d :: d in FragmentList(document) <==> d in document && d.Fragment?
    ensures DistinctFragments(FragmentList(document)) <==> FragmentNamesDiffer(document)
  {
    if document == [] {
    } else {
      hide DistinctFragments, FragmentNamesDiffer;
      var rest, list := document[1..], FragmentList(document[1..]);
      FragmentsMean(rest);
      FirstDiffers(document);
      assert document == [document[0]] + rest;
      if document[0].Fragment? { FirstDistinct(document[0], list, rest); } else { assert [] + list == list; }
    }
  }

  lemma KeysAreNames(document: seq<Definition>, k: nat, names: set<string>)
    requires OneOperation(document, k) && names == set i | 0 <= i < |document| && i != k :: document[i].name
    ensures FragmentMap(FragmentList(document)).Keys == names
  {
    var list := FragmentList(document);
    FragmentsMean(document);
    MapHolds(list);
    var keys := FragmentMap(list).Keys;
    forall name | name in names ensures name in keys {
      var i :| 0 <= i < |document| && i != k && document[i].name == name;
      assert document[i] in list;
      var j :| 0 <= j < |list| && list[j] == document[i];
    }
    forall name | name in keys ensures name in names {
      var j :| 0 <= j < |list| && list[j].name == name;
      assert list[j] in document;
      var i :| 0 <= i < |document| && document[i] == list[j];
    }
  }

  /** The fragments of the document, by their names. */
  ghost predicate AreFragments(document: seq<Definition>, k: nat, fragments: Fragments)
    requires OneOperation(document, k)
  {
    && (forall i :: 0 <= i < |document| && i != k ==> document[i].name in fragments && fragments[document[i].name] == document[i].selections)
    && forall name :: name in fragments ==> exists i :: 0 <= i < |document| && i != k && document[i].name == name
  }

  /** What a definition comes to with all fragments in place; a fragment may not be spread in itself. */
  function Whole(d: Definition, fragments: Fragments): Option<seq<Node>>
  {
    match d
    case Operation(_, _, _, selections) => Expand(selections, {}, fragments)
    case Fragment(name, _, selections) => Expand(selections, {name}, fragments)
    case OtherDefinition => None
  }

  /** How many selections all definitions come to, those of unused fragments too. */
  function Visits(document: seq<Definition>, fragments: Fragments): nat
  {
    if document == [] then 0
    else (if Whole(document[0], fragments).Some? then Size(Whole(document[0], fragments).value) else 0) + Visits(document[1..], fragments)
  }

  lemma {:induction false} SizesAdd(first: Definition, list: seq<Definition>, fragments: Fragments)
    requires first.Fragment? && forall d :: d in list ==> d.Fragment?
    ensures FragmentSizes([first] + list, fragments)
            == (if Whole(first, fragments).Some? then Size(Whole(first, fragments).value) else 0) + FragmentSizes(list, fragments)
    decreases |list|
  {
    hide Expand, Size;
    var all := [first] + list;
    if list == [] {
      assert all[..0] == [] && all[0] == first;
    } else {
      assert all[..|all| - 1] == [first] + list[..|list| - 1] && all[|all| - 1] == list[|list| - 1];
      assert forall d :: d in list[..|list| - 1] ==> d in list;
      SizesAdd(first, list[..|list| - 1], fragments);
    }
  }

  lemma {:induction false} VisitsMean(document: seq<Definition>, fragments: Fragments)
    requires forall d :: d in document ==> !d.OtherDefinition?
    requires |Operations(document)| <= 1
    ensures Visits(document, fragments)
            == FragmentSizes(FragmentList(document), fragments)
               + if Operations(document) == [] then 0
                 else if Whole(Operations(document)[0], fragments).Some? then Size(Whole(Operations(document)[0], fragments).value) else 0
  {
    hide Expand, Size;
    if document == [] {
    } else {
      var rest := document[1..];
      assert forall d :: d in rest ==> d in document;
      OperationsMean(rest);
      VisitsMean(rest, fragments);
      if document[0].Fragment? {
        SizesAdd(document[0], FragmentList(rest), fragments);
        assert [] + Operations(rest) == Operations(rest);
      } else {
        assert Operations(rest) == [];
        assert [] + FragmentList(rest) == FragmentList(rest);
      }
    }
  }

  /** One query, of the name that was asked for if any, and fragments of different names. Nothing in it, used or
      not, is forbidden; no spread is undefined, and no fragments spread each other in a circle; no definition is
      more than twelve deep, and together they come to no more than 4000 selections; and at the root of the query,
      with all fragments in place, every field but `__typename`, and there is one, reads the one repository. */
  ghost predicate Readable(document: seq<Definition>, operationName: Option<string>, variables: Variables, r: Repository, k: nat, fragments: Fragments)
  {
    && OneOperation(document, k) && AreFragments(document, k, fragments)
    && document[k].kind == "query" && (operationName.Some? ==> document[k].title == operationName)
    && (forall d, name :: d in document && name in d.directives ==> name in {"include", "skip"})
    && (forall d, s :: d in document && Occurs(s, d.selections) ==> Harmless(s, fragments.Keys))
    && Defined(document[k].selections, fragments) && Acyclic(fragments)
    && (forall d :: d in document ==> Whole(d, fragments).Some? && Depth(Whole(d, fragments).value) <= 12)
    && Visits(document, fragments) <= 4_000
    && var roots := RootFields(Whole(document[k], fragments).value);
    && (exists f :: f in roots && f.name != "__typename")
    && forall f :: f in roots && f.name != "__typename" ==> ReadsRepository(f, variables, r)
  }

  lemma VisitedMeans(document: seq<Definition>, names: set<string>)
    requires forall d :: d in document ==> !d.OtherDefinition?
    ensures Visited(document, names)
            <==> && (forall d, name :: d in document && name in d.directives ==> name in {"include", "skip"})
                 && (forall d, s :: d in document && Occurs(s, d.selections) ==> Harmless(s, names))
  {
    hide AllAllowed, Occurs, Harmless;
    forall d | d in document ensures AllAllowed(d.selections, names) <==> forall s :: Occurs(s, d.selections) ==> Harmless(s, names) {
      AllowedExactly(d.selections, names);
    }
  }

  lemma BuiltHolds(document: seq<Definition>, k: nat)
    requires OneOperation(document, k)
    ensures AreFragments(document, k, FragmentMap(FragmentList(document)))
  {
    hide FragmentMap;
    var list := FragmentList(document);
    FragmentsMean(document);
    MapHolds(list);
    forall i | 0 <= i < |document| && i != k
      ensures document[i].name in FragmentMap(list) && FragmentMap(list)[document[i].name] == document[i].selections
    {
      assert document[i] in list;
      var j :| 0 <= j < |list| && list[j] == document[i];
    }
    KeysAreNames(document, k, set i | 0 <= i < |document| && i != k :: document[i].name);
  }

  lemma OneMap(document: seq<Definition>, k: nat, a: Fragments, b: Fragments)
    requires OneOperation(document, k) && AreFragments(document, k, a) && AreFragments(document, k, b)
    ensures a == b
  {
    forall name | name in a ensures name in b && a[name] == b[name] {
      var i :| 0 <= i < |document| && i != k && document[i].name == name;
    }
    forall name | name in b ensures name in a {
      var i :| 0 <= i < |document| && i != k && document[i].name == name;
    }
  }

  lemma FragmentsAre(document: seq<Definition>, k: nat, fragments: Fragments)
    requires OneOperation(document, k)
    ensures AreFragments(document, k, fragments) <==> fragments == FragmentMap(FragmentList(document))
  {
    hide AreFragments;
    BuiltHolds(document, k);
    if AreFragments(document, k, fragments) { OneMap(document, k, fragments, FragmentMap(FragmentList(document))); }
  }

  lemma OperationAt(document: seq<Definition>) returns (k: nat)
    requires |Operations(document)| == 1 && DistinctFragments(FragmentList(document)) && forall d :: d in document ==> !d.OtherDefinition?
    ensures OneOperation(document, k) && Operations(document) == [document[k]]
  {
    OperationsMean(document);
    FragmentsMean(document);
    var operation := Operations(document)[0];
    assert operation in document;
    k :| 0 <= k < |document| && document[k] == operation;
    forall i | 0 <= i < |document| && i != k ensures document[i].Fragment? {
      assert document[i] in document;
      if document[i].Operation? { OperationsCount(document, if i < k then i else k, if i < k then k else i); }
    }
  }

  lemma WholesMean(document: seq<Definition>, k: nat, fragments: Fragments)
    requires OneOperation(document, k) && Operations(document) == [document[k]]
    ensures (forall d :: d in document ==> Whole(d, fragments).Some? && Depth(Whole(d, fragments).value) <= 12)
            <==> && Expand(document[k].selections, {}, fragments).Some?
                 && Depth(Expand(document[k].selections, {}, fragments).value) <= 12
                 && ShallowFragments(FragmentList(document), fragments)
  {
    hide Expand, Depth;
    var list := FragmentList(document);
    FragmentsMean(document);
    assert document[k] in document;
    forall d | d in document ensures d == document[k] || d in list {
      var i :| 0 <= i < |document| && document[i] == d;
    }
    assert forall i :: 0 <= i < |list| ==> list[i] in list && list[i] in document;
    if ShallowFragments(list, fragments) {
      forall d | d in list ensures Whole(d, fragments).Some? && Depth(Whole(d, fragments).value) <= 12 {
        var i :| 0 <= i < |list| && list[i] == d;
      }
    }
  }

  lemma ReadableIsEligible(document: seq<Definition>, operationName: Option<string>, variables: Variables, r: Repository, k: nat, fragments: Fragments)
    requires OneOperation(document, k) && Operations(document) == [document[k]] && fragments == FragmentMap(FragmentList(document))
    ensures Eligible(document, operationName, variables, r) <==> Readable(document, operationName, variables, r, k, fragments)
  {
    hide Reads, ReadsRepository, Expand, Acyclic, Defined, Depth, Size, RootFields, ShallowFragments, FragmentSizes, Occurs, Harmless, Visited, Visits, AreFragments;
    FragmentsMean(document);
    assert forall d :: d in document ==> !d.OtherDefinition?;
    FragmentsAre(document, k, fragments);
    VisitedMeans(document, fragments.Keys);
    VisitsMean(document, fragments);
    WholesMean(document, k, fragments);
    ExpandsExactlyWhenAcyclic(document[k].selections, fragments);
    ShallowMeansExpanded(FragmentList(document), fragments);
    forall f ensures Reads(f, r, variables) <==> ReadsRepository(f, variables, r) { ReadsExactly(f, r, variables); }
  }

  lemma ReadableShape(document: seq<Definition>, operationName: Option<string>, variables: Variables, r: Repository, k: nat, fragments: Fragments)
    requires Readable(document, operationName, variables, r, k, fragments)
    ensures OneOperation(document, k) && AreFragments(document, k, fragments)
  {
  }

  /** A document is accepted exactly if it is readable in this sense. */
  lemma AcceptedExactly(document: seq<Definition>, operationName: Option<string>, variables: Variables, r: Repository)
    ensures Eligible(document, operationName, variables, r)
            <==> exists k: nat, fragments :: Readable(document, operationName, variables, r, k, fragments)
  {
    hide Readable;
    if Eligible(document, operationName, variables, r) {
      var k := OperationAt(document);
      ReadableIsEligible(document, operationName, variables, r, k, FragmentMap(FragmentList(document)));
    }
    if k: nat, fragments :| Readable(document, operationName, variables, r, k, fragments) {
      ReadableShape(document, operationName, variables, r, k, fragments);
      OperationsMean(document);
      assert Operations(document) == [document[k]];
      FragmentsAre(document, k, fragments);
      ReadableIsEligible(document, operationName, variables, r, k, fragments);
    }
  }

  // ------------------------------------------------- how much an expansion holds

  /** A fragment in place: one more that is visited, no deeper, and the same roots. */
  predicate Passes(nodes: seq<Node>, inside: Option<seq<Node>>)
  {
    && inside.Some? && Size(nodes) == Size(inside.value) + 1 && Depth(nodes) == Depth(inside.value)
    && RootFields(nodes) == RootFields(inside.value)
  }

  /** What one selection adds: a field counts once, and is itself the root; a selection set in it is one deeper; a
      fragment counts once, is no deeper, and its roots are those of what stands in it. */
  lemma SelectionMeasures(s: Selection, stack: set<string>, fragments: Fragments)
    requires Expand([s], stack, fragments).Some?
    ensures var nodes := Expand([s], stack, fragments).value;
            && (s.Scalar? ==> Size(nodes) == 1 && Depth(nodes) == 1 && RootFields(nodes) == [s.field])
            && (s.Nested? ==>
                  && Expand(s.inner, stack, fragments).Some?
                  && var inside := Expand(s.inner, stack, fragments).value;
                  Size(nodes) == Size(inside) + 1 && Depth(nodes) == Depth(inside) + 1 && RootFields(nodes) == [s.field])
            && (s.Inline? ==> Passes(nodes, Expand(s.body, stack, fragments)))
            && (s.Spread? ==>
                  s.name in fragments && s.name !in stack && Passes(nodes, Expand(fragments[s.name], stack + {s.name}, fragments)))
  {
    var node := ExpandOne(s, stack, fragments).value;
    assert [s][1..] == [];
    assert Expand([s], stack, fragments).value == [node];
    Single(node);
  }

  lemma {:induction false} ExpansionAdds(left: seq<Selection>, right: seq<Selection>, stack: set<string>, fragments: Fragments)
    requires Expand(left, stack, fragments).Some? && Expand(right, stack, fragments).Some?
    ensures Expand(left + right, stack, fragments) == Some(Expand(left, stack, fragments).value + Expand(right, stack, fragments).value)
  {
    hide ExpandOne;
    if left == [] {
      assert left + right == right;
      assert [] + Expand(right, stack, fragments).value == Expand(right, stack, fragments).value;
    } else {
      ExpansionAdds(left[1..], right, stack, fragments);
      assert (left + right)[1..] == left[1..] + right && (left + right)[0] == left[0];
      var node := ExpandOne(left[0], stack, fragments).value;
      Regroup([node], Expand(left[1..], stack, fragments).value, Expand(right, stack, fragments).value);
    }
  }

  /** And of selections one after another: the sum, the deepest, and the roots in order. */
  lemma {:induction false} MeasuresAdd(left: seq<Selection>, right: seq<Selection>, stack: set<string>, fragments: Fragments)
    requires Expand(left, stack, fragments).Some? && Expand(right, stack, fragments).Some?
    ensures Expand(left + right, stack, fragments).Some?
    ensures var (a, b, both) := (Expand(left, stack, fragments).value, Expand(right, stack, fragments).value, Expand(left + right, stack, fragments).value);
            && Size(both) == Size(a) + Size(b) && Depth(both) == (if Depth(a) >= Depth(b) then Depth(a) else Depth(b))
            && RootFields(both) == RootFields(a) + RootFields(b)
  {
    ExpansionAdds(left, right, stack, fragments);
    Adds(Expand(left, stack, fragments).value, Expand(right, stack, fragments).value);
  }
}
