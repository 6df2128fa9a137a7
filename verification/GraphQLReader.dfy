/** The recogniser as the CLI runs it: an index that moves over the tokens
    (cmd/octopool/gh_graphql_read.go:59-234). */
module GraphQLReader {
  import opened Basics
  import GraphQLTokens
  import opened G = GraphQLReads
  import opened GraphQLLocality
  import opened GraphQLRootLists
  import opened GraphQLStripping

  lemma PrependOne(done: seq<Root>, n: nat, r: Root, m: nat, p: Parsed<seq<Root>>)
    ensures Prepend(done, n, Prepend([r], m, p)) == Prepend(done + [r], n + m, p)
  {
    if p.Parsed? { Regroup(done, [r], p.value); }
  }

  lemma PrependEnd(done: seq<Root>, n: nat)
    ensures Prepend(done, n, Failed) == Failed && Prepend(done, n, Parsed([], 0)) == Parsed(done, n)
  {
    assert done + [] == done;
  }

  lemma WithRootKey(l: RootList, r: Root, start: nat, end: nat)
    ensures WithRoot(l, r, start, end).key.Some? == (l.key.Some? || r.field == "viewer")
  {
  }

  lemma NothingYet(ts: seq<string>, scope: Scope, begin: nat)
    ensures Summary([], begin) == RootList([], 0, None, 0, 0) && Flatten([]) == []
    ensures Prepend([], 0, G.Roots(ts, scope, "", false)) == G.Roots(ts, scope, "", false)
  {
    hide G.Roots;
    if G.Roots(ts, scope, "", false).Parsed? {
      var roots := G.Roots(ts, scope, "", false).value;
      assert [] + roots == roots;
    }
  }

  lemma SummaryAdds(done: seq<Root>, r: Root, begin: nat)
    ensures Summary(done + [r], begin)
            == WithRoot(Summary(done, begin), r, begin + |Flatten(done)|, begin + |Flatten(done)| + |r.tokens|)
    ensures |Flatten(done + [r])| == |Flatten(done)| + |r.tokens|
  {
    FlattenAdds(done, [r]);
    assert (done + [r])[..|done|] == done && [r][1..] == [];
  }

  class Reader {
    const tokens: seq<string>
    const scope: Scope
    var i: nat

    ghost predicate Valid()
      reads this
    {
      i <= |tokens|
    }

    /** The tokens that are left. */
    function Rest(): seq<string>
      requires Valid()
      reads this
    {
      tokens[i..]
    }

    constructor (tokens: seq<string>, scope: Scope)
      ensures Valid() && this.tokens == tokens && this.scope == scope && i == 0
    {
      this.tokens, this.scope, i := tokens, scope, 0;
    }

    /** Moves past a balanced bracket pair. */
    method Skip(open: string, close: string) returns (ok: bool)
      requires Valid()
      modifies this
      ensures Valid() && old(i) <= i && ok == G.Skip(old(Rest()), open, close).Parsed?
      ensures ok ==> i == old(i) + G.Skip(old(Rest()), open, close).used
    {
      if i >= |tokens| || tokens[i] != open { return false; }
      ghost var all := Rest();
      var depth := 0;
      while i < |tokens|
        invariant old(i) <= i <= |tokens| && 0 <= depth
        invariant i == old(i) || depth > 0
        invariant SkipFrom(all, 0, open, close) == Took(i - old(i), SkipFrom(tokens[i..], depth, open, close))
        decreases |tokens| - i
      {
        var token := tokens[i];
        assert tokens[i..][1..] == tokens[i + 1..];
        i := i + 1;
        if token == open { depth := depth + 1; }
        if token == close {
          depth := depth - 1;
          if depth == 0 { return true; }
        }
        if depth > MAX_DEPTH { return false; }
      }
      return false;
    }

    method Value() returns (value: Option<string>)
      requires Valid()
      modifies this
      ensures Valid() && old(i) <= i && value.Some? == G.Value(old(Rest()), scope).Parsed?
      ensures value.Some? ==> G.Value(old(Rest()), scope) == Parsed(value.value, i - old(i))
    {
      if i >= |tokens| { return None; }
      if tokens[i] == "$" {
        i := i + 1;
        if i >= |tokens| || tokens[i] !in scope.variables { return None; }
        value := Some(scope.variables[tokens[i]]);
      } else {
        value := scope.unquote(tokens[i]);
        if value == None { return; }
      }
      i := i + 1;
    }

    method Arguments() returns (names: Option<Names>)
      requires Valid()
      modifies this
      ensures Valid() && old(i) <= i && names.Some? == G.Arguments(old(Rest()), Names("", ""), scope).Parsed?
      ensures names.Some? ==> G.Arguments(old(Rest()), Names("", ""), scope) == Parsed(names.value, i - old(i))
    {
      hide G.Value, G.Arguments;
      ghost var all := Rest();
      var args := Names("", "");
      while i < |tokens| && tokens[i] != ")"
        invariant old(i) <= i <= |tokens|
        invariant G.Arguments(all, Names("", ""), scope) == Took(i - old(i), G.Arguments(Rest(), args, scope))
        decreases |tokens| - i
      {
        ghost var before := i;
        ArgumentsStep(Rest(), args, scope);
        var name := tokens[i];
        i := i + 1;
        if (name != "owner" && name != "name") || (if name == "owner" then args.owner else args.name) != ""
           || i >= |tokens| || tokens[i] != ":" {
          return None;
        }
        i := i + 1;
        assert tokens[before..][2..] == Rest();
        var value := Value();
        if value == None { return None; }
        var v := value.value;
        if v == "" || v == "." || v == ".." || '/' in v { return None; }
        assert tokens[before..][i - before..] == Rest();
        args := Given(args, name, v);
      }
      ArgumentsStop(Rest(), args, scope);
      if i >= |tokens| || !RepoName(args.owner) || !RepoName(args.name) { return None; }
      i := i + 1;
      return Some(args);
    }

    method Directives() returns (ok: bool)
      requires Valid()
      modifies this
      ensures Valid() && old(i) <= i && ok == G.Directives(old(Rest())).Parsed?
      ensures ok ==> i == old(i) + G.Directives(old(Rest())).used
    {
      hide G.Skip, G.Directives;
      ghost var all := Rest();
      while i < |tokens| && tokens[i] == "@"
        invariant old(i) <= i <= |tokens|
        invariant G.Directives(all) == Took(i - old(i), G.Directives(Rest()))
        decreases |tokens| - i
      {
        ghost var before := i;
        DirectivesStep(Rest());
        i := i + 1;
        if i >= |tokens| || (tokens[i] != "include" && tokens[i] != "skip") { return false; }
        i := i + 1;
        assert tokens[before..][2..] == Rest();
        var ok := Skip("(", ")");
        if !ok { return false; }
        assert tokens[before..][i - before..] == Rest();
      }
      DirectivesStop(Rest());
      return true;
    }

    method RepositoryBody() returns (target: Option<string>)
      requires Valid()
      modifies this
      ensures Valid() && old(i) <= i && target.Some? == G.RepositoryBody(old(Rest()), scope).Parsed?
      ensures target.Some? ==> G.RepositoryBody(old(Rest()), scope) == Parsed(target.value, i - old(i))
    {
      hide G.Skip, G.Arguments, G.Directives;
      ghost var all := Rest();
      if i >= |tokens| || tokens[i] != "(" { return None; }
      i := i + 1;
      assert all[1..] == Rest();
      var names := Arguments();
      if names == None { return None; }
      ghost var a := G.Arguments(all[1..], Names("", ""), scope).used;
      assert all[1 + a..] == Rest();
      var ok := Directives();
      if !ok { return None; }
      ghost var d := G.Directives(all[1 + a..]).used;
      assert all[1 + a + d..] == Rest();
      ok := Skip("{", "}");
      if !ok { return None; }
      return Some(LowerText(names.value.owner + "/" + names.value.name));
    }

    /** What follows the name of a root field. */
    method Body(field: string) returns (target: Option<string>)
      requires Valid()
      modifies this
      ensures Valid() && old(i) <= i && target.Some? == G.Body(old(Rest()), field, scope).Parsed?
      ensures target.Some? ==> G.Body(old(Rest()), field, scope) == Parsed(target.value, i - old(i))
    {
      hide G.RepositoryBody, G.Directives;
      if field == "viewer" {
        if i + 2 >= |tokens| || tokens[i] != "{" || tokens[i + 1] != "login" || tokens[i + 2] != "}" { return None; }
        assert Rest()[..3] == [tokens[i], tokens[i + 1], tokens[i + 2]];
        i := i + 3;
        target := Some("");
      } else if field == "repository" {
        target := RepositoryBody();
      } else if field != "__typename" {
        target := None;
      } else {
        var ok := Directives();
        target := if ok then Some("") else None;
      }
    }

    method Head() returns (head: Option<(string, string)>)
      requires Valid()
      modifies this
      ensures Valid() && old(i) <= i && head.Some? == G.Head(old(Rest())).Parsed?
      ensures head.Some? ==> G.Head(old(Rest())) == Parsed(head.value, i - old(i))
    {
      if i >= |tokens| || !IsName(tokens[i]) { return None; }
      var key, field := tokens[i], tokens[i];
      i := i + 1;
      if i < |tokens| && tokens[i] == ":" {
        i := i + 1;
        if i >= |tokens| { return None; }
        field := tokens[i];
        i := i + 1;
      }
      return Some((key, field));
    }

    method Header() returns (name: Option<string>)
      requires Valid()
      modifies this
      ensures Valid() && old(i) <= i && name.Some? == G.Header(old(Rest())).Parsed?
      ensures name.Some? ==> G.Header(old(Rest())) == Parsed(name.value, i - old(i))
    {
      hide G.Skip;
      ghost var all := Rest();
      var operationName := "";
      if i < |tokens| && tokens[i] == "query" {
        i := i + 1;
        if i < |tokens| && IsName(tokens[i]) {
          operationName := tokens[i];
          i := i + 1;
        }
        if i < |tokens| && tokens[i] == "(" {
          assert all[i - old(i)..] == Rest();
          var ok := Skip("(", ")");
          if !ok { return None; }
        }
      }
      return Some(operationName);
    }

    method Fragments() returns (ok: bool)
      requires Valid()
      modifies this
      ensures Valid() && old(i) <= i && ok == FragmentsOk(old(Rest()))
    {
      hide G.Skip;
      ghost var all := Rest();
      while i < |tokens|
        invariant old(i) <= i <= |tokens|
        invariant FragmentsOk(all) == FragmentsOk(Rest())
        decreases |tokens| - i
      {
        ghost var before := Rest();
        if tokens[i] != "fragment" || i + 3 >= |tokens| || !IsName(tokens[i + 1]) || tokens[i + 2] != "on" || !IsName(tokens[i + 3]) {
          return false;
        }
        i := i + 4;
        assert before[4..] == Rest();
        var ok := Skip("{", "}");
        if !ok { return false; }
        assert before[4 + G.Skip(before[4..], "{", "}").used..] == Rest();
      }
      return true;
    }

    /** The root fields up to their closing brace, and where the viewer is among them. */
    method Roots() returns (list: Option<RootList>)
      requires Valid()
      modifies this
      ensures Valid() && list.Some? == G.Roots(old(Rest()), scope, "", false).Parsed?
      ensures list.Some? ==> i == old(i) + G.Roots(old(Rest()), scope, "", false).used && i < |tokens| && tokens[i] == "}"
      ensures list.Some? ==> list.value == Summary(G.Roots(old(Rest()), scope, "", false).value, old(i))
    {
      hide G.FirstRoot, G.Roots, Follows, Target, Flatten, Summary, WithRoot, Prepend;
      ghost var all := Rest();
      ghost var done: seq<Root> := [];
      var found := RootList([], 0, None, 0, 0);
      var repo := "";
      NothingYet(all, scope, old(i));
      while i < |tokens| && tokens[i] != "}"
        invariant old(i) <= i <= |tokens|
        invariant G.Roots(all, scope, "", false) == Prepend(done, i - old(i), G.Roots(Rest(), scope, repo, found.key.Some?))
        invariant found == Summary(done, old(i)) && |Flatten(done)| == i - old(i)
        decreases |tokens| - i
      {
        var start := i;
        RootsStep(Rest(), scope, repo, found.key.Some?);
        PrependEnd(done, start - old(i));
        var root := FirstRoot();
        if root == None || !Follows(root.value, repo, found.key.Some?) { return None; }
        assert tokens[start..][i - start..] == Rest();
        PrependOne(done, start - old(i), root.value, i - start, G.Roots(Rest(), scope, Target(root.value, repo), found.key.Some? || root.value.field == "viewer"));
        WithRootKey(found, root.value, start, i);
        SummaryAdds(done, root.value, old(i));
        repo := Target(root.value, repo);
        found := WithRoot(found, root.value, start, i);
        done := done + [root.value];
      }
      RootsEnd(Rest(), scope, repo, found.key.Some?);
      PrependEnd(done, i - old(i));
      if i >= |tokens| { return None; }
      return Some(found);
    }

    method FirstRoot() returns (root: Option<Root>)
      requires Valid()
      modifies this
      ensures Valid() && old(i) <= i && root.Some? == G.FirstRoot(old(Rest()), scope).Parsed?
      ensures root.Some? ==> G.FirstRoot(old(Rest()), scope) == Parsed(root.value, i - old(i))
      ensures root.Some? ==> |root.value.tokens| == i - old(i)
    {
      hide G.Head, G.Body;
      ghost var all := Rest();
      var start := i;
      var head := Head();
      if head == None { return None; }
      assert all[i - old(i)..] == Rest();
      var target := Body(head.value.1);
      if target == None { return None; }
      assert all[..i - start] == tokens[start..i];
      return Some(Root(head.value.0, head.value.1, target.value, tokens[start..i]));
    }
  }

  /** What the root loop remembers: the keys, the number of repositories, the viewer's key and extent. */
  datatype RootList = RootList(keys: seq<string>, repositories: nat, key: Option<string>, start: nat, end: nat)

  function WithRoot(l: RootList, r: Root, start: nat, end: nat): RootList
  {
    var keyed := l.(keys := l.keys + [r.key], repositories := l.repositories + if r.field == "repository" then 1 else 0);
    if r.field == "viewer" then keyed.(key := Some(r.key), start := start, end := end) else keyed
  }

  function Keys(roots: seq<Root>): (keys: seq<string>)
    ensures |keys| == |roots| && forall i :: 0 <= i < |roots| ==> keys[i] == roots[i].key
  {
    if roots == [] then [] else [roots[0].key] + Keys(roots[1..])
  }

  /** The same, by folding over the roots read. */
  function Summary(roots: seq<Root>, begin: nat): RootList
  {
    if roots == [] then RootList([], 0, None, 0, 0)
    else
      var last := |roots| - 1;
      var start := begin + |Flatten(roots[..last])|;
      WithRoot(Summary(roots[..last], begin), roots[last], start, start + |roots[last].tokens|)
  }

  predicate OneViewer(roots: seq<Root>)
  {
    forall i, j :: 0 <= i < j < |roots| && roots[i].field == "viewer" ==> roots[j].field != "viewer"
  }

  lemma {:induction false} ConsistentHasOneViewer(roots: seq<Root>, repo: string)
    requires Consistent(roots, repo, false)
    ensures OneViewer(roots)
  {
    if roots == [] {
    } else {
      if roots[0].field == "viewer" {
        ConsistentWithoutViewer(roots[1..], repo);
      } else {
        ConsistentHasOneViewer(roots[1..], Target(roots[0], repo));
      }
      forall i, j | 0 <= i < j < |roots| && roots[i].field == "viewer"
        ensures roots[j].field != "viewer"
      {
        assert roots[j] == roots[1..][j - 1] && (i > 0 ==> roots[i] == roots[1..][i - 1]);
      }
    }
  }

  lemma {:induction false} KeysAdd(done: seq<Root>, r: Root)
    ensures Keys(done + [r]) == Keys(done) + [r.key]
  {
    if done == [] {
    } else {
      KeysAdd(done[1..], r);
      assert (done + [r])[1..] == done[1..] + [r];
    }
  }

  /** The fold agrees with the root list it was read from. */
  predicate Describes(l: RootList, roots: seq<Root>, begin: nat)
  {
    var k := ViewerIndex(roots);
    && l.keys == Keys(roots)
    && (l.repositories > 0 <==> HasRepository(roots))
    && (k == |roots| ==> l.key == None && l.start == 0 && l.end == 0)
    && (k < |roots| ==>
          l.key == Some(roots[k].key) && l.start == begin + |Flatten(roots[..k])| && l.end == l.start + |roots[k].tokens|)
  }

  lemma ViewerIndexAdds(done: seq<Root>, r: Root)
    requires OneViewer(done + [r])
    ensures ViewerIndex(done + [r]) == if ViewerIndex(done) < |done| || r.field == "viewer" then ViewerIndex(done) else |done| + 1
  {
    var all := done + [r];
    var k, was := ViewerIndex(all), ViewerIndex(done);
    assert forall j :: 0 <= j < |done| ==> all[j] == done[j];
    assert all[|done|] == r;
    assert was < |done| ==> all[was].field == "viewer";
  }

  lemma NothingSummary(begin: nat)
    ensures Describes(Summary([], begin), [], begin)
  {
  }

  lemma HasAdds(done: seq<Root>, r: Root)
    ensures HasRepository(done + [r]) <==> HasRepository(done) || r.field == "repository"
  {
    if r.field == "repository" { assert r in done + [r]; }
    if q :| q in done && q.field == "repository" { assert q in done + [r]; }
  }

  lemma {:induction false} SummaryDescribes(roots: seq<Root>, begin: nat)
    requires OneViewer(roots)
    ensures Describes(Summary(roots, begin), roots, begin)
  {
    hide Flatten, HasRepository, Keys, ViewerIndex, Summary;
    if roots == [] {
      NothingSummary(begin);
    } else {
      var last := |roots| - 1;
      var done, r := roots[..last], roots[last];
      assert roots == done + [r];
      SummaryDescribes(done, begin);
      SummaryAdds(done, r, begin);
      KeysAdd(done, r);
      ViewerIndexAdds(done, r);
      HasAdds(done, r);
      var k := ViewerIndex(done);
      if k < last { assert roots[..k] == done[..k]; }
    }
  }

  // ------------------------------------------------- the whole read

  /** What the CLI needs to put its own login back. */
  datatype LocalViewer = LocalViewer(key: string, keys: seq<string>, login: string)

  class ReadRequest {
    var query: string
    var operationName: string
    var scope: Scope
    var viewer: Option<LocalViewer>

    constructor (query: string, operationName: string, scope: Scope)
      ensures this.query == query && this.operationName == operationName && this.scope == scope && viewer == None
    {
      this.query, this.operationName, this.scope, viewer := query, operationName, scope, None;
    }
  }

  /** Whether a token may stand at `index` when the viewer spans `start` to `end`. */
  predicate Fine(tokens: seq<string>, index: nat, start: nat, end: nat)
    requires index < |tokens|
  {
    tokens[index] != "mergeStateStatus" && (start <= index < end || !StartsWithViewer(tokens[index]))
  }

  lemma FineIsAllowed(ts: seq<string>, start: nat, end: nat)
    requires start <= end <= |ts|
    ensures (forall i :: 0 <= i < |ts| ==> Fine(ts, i, start, end))
            <==> Plain(ts[..start]) && Plain(ts[end..]) && "mergeStateStatus" !in ts[start..end]
  {
    var (left, mid, right) := (ts[..start], ts[start..end], ts[end..]);
    if forall i :: 0 <= i < |ts| ==> Fine(ts, i, start, end) {
      forall i | 0 <= i < |left| ensures left[i] != "mergeStateStatus" && !StartsWithViewer(left[i]) {
        assert Fine(ts, i, start, end);
      }
      forall i | 0 <= i < |right| ensures right[i] != "mergeStateStatus" && !StartsWithViewer(right[i]) {
        assert Fine(ts, end + i, start, end);
      }
      forall i | 0 <= i < |mid| ensures mid[i] != "mergeStateStatus" {
        assert Fine(ts, start + i, start, end);
      }
    }
    if Plain(ts[..start]) && Plain(ts[end..]) && "mergeStateStatus" !in ts[start..end] {
      forall i | 0 <= i < |ts| ensures Fine(ts, i, start, end) {
        if i < start { assert ts[i] == ts[..start][i]; }
        else if i < end { assert ts[i] == ts[start..end][i - start]; }
        else { assert ts[i] == ts[end..][i - end]; }
      }
    }
  }

  method AllFine(tokens: seq<string>, start: nat, end: nat) returns (ok: bool)
    ensures ok <==> forall i :: 0 <= i < |tokens| ==> Fine(tokens, i, start, end)
  {
    for index := 0 to |tokens|
      invariant forall i :: 0 <= i < index ==> Fine(tokens, i, start, end)
    {
      if !Fine(tokens, index, start, end) { return false; }
    }
    return true;
  }

  method AllDistinct(keys: seq<string>) returns (ok: bool)
    ensures ok <==> Unrepeated(keys)
  {
    var seen: set<string> := {};
    for n := 0 to |keys|
      invariant forall i, j :: 0 <= i < j < n ==> keys[i] != keys[j]
      invariant seen == set i | 0 <= i < n :: keys[i]
    {
      if keys[n] in seen { return false; }
      seen := seen + {keys[n]};
    }
    return true;
  }

  /** The viewer's extent lies within the tokens that were read. */
  lemma ViewerInside(ts: seq<string>, h: nat, scope: Scope)
    requires h < |ts| && G.Roots(ts[h + 1..], scope, "", false).Parsed?
    ensures var p := G.Roots(ts[h + 1..], scope, "", false);
            var k := ViewerIndex(p.value);
            && OneViewer(p.value)
            && (k < |p.value| ==> h + 1 + |Flatten(p.value[..k])| + |p.value[k].tokens| <= |ts|)
  {
    hide G.Roots, Consistent, AllCanonical, Flatten;
    var p := G.Roots(ts[h + 1..], scope, "", false);
    RootsSound(ts[h + 1..], scope, "", false);
    ConsistentHasOneViewer(p.value, "");
    if ViewerIndex(p.value) < |p.value| { FlattenAt(p.value, ViewerIndex(p.value)); }
  }

  lemma AllowedMeans(ts: seq<string>, r: Reading, l: RootList)
    requires r.header < |ts| && Describes(l, r.roots, r.header + 1) && l.end <= |ts|
    ensures Allowed(ts, r)
            <==> (forall i :: 0 <= i < |ts| ==> Fine(ts, i, l.start, l.end)) && (l.key.Some? ==> DistinctKeys(r.roots))
  {
    hide Flatten;
    FineIsAllowed(ts, l.start, l.end);
    if l.key == None {
      assert ts[..0] + ts[0..] == ts && ts[0..] == ts && ts[0..0] == [];
    }
  }

  /** `repositoryGraphQLRead`: accepts exactly the reads of the specification, and takes a viewer
      out of the request. A request that is turned down is left as it was. */
  method RepositoryGraphQLRead(read: ReadRequest) returns (ok: bool)
    modifies read
    ensures read.operationName == old(read.operationName) && read.scope == old(read.scope)
    ensures ok <==> GraphQLTokens.Tokens(old(read.query)).Some?
                    && Read(GraphQLTokens.Tokens(old(read.query)).value, read.operationName, read.scope).Some?
    ensures !ok ==> read.query == old(read.query) && read.viewer == old(read.viewer)
    ensures ok ==>
              var ts := GraphQLTokens.Tokens(old(read.query)).value;
              var r := Read(ts, read.operationName, read.scope).value;
              var k := ViewerIndex(r.roots);
              if k == |r.roots| then read.query == old(read.query) && read.viewer == old(read.viewer)
              else
                && Framed(ts, r) && r.header + 1 + |Flatten(r.roots[..k])| + |r.roots[k].tokens| <= |ts|
                && read.query == GraphQLTokens.Join(Stripped(ts, r))
                && read.viewer == Some(LocalViewer(r.roots[k].key, Keys(r.roots), ""))
  {
    hide Read, Flatten, ViewerIndex, GraphQLTokens.Tokens, GraphQLTokens.Join;
    var found := TokensOf(read.query);
    if found == None { return false; }
    var tokens := found.value;
    var list := ReadTokens(tokens, read.operationName, read.scope);
    if list == None { return false; }
    if list.value.key.Some? {
      read.query := GraphQLTokens.Join(tokens[..list.value.start] + tokens[list.value.end..]);
      read.viewer := Some(LocalViewer(list.value.key.value, list.value.keys, ""));
    }
    return true;
  }

  lemma ReadIsFramed(ts: seq<string>, operationName: string, scope: Scope)
    requires Read(ts, operationName, scope).Some?
    ensures Framed(ts, Read(ts, operationName, scope).value)
  {
    ReadSplits(ts, operationName, scope);
  }

  lemma DistinctMeans(l: RootList, roots: seq<Root>, begin: nat)
    requires Describes(l, roots, begin)
    ensures DistinctKeys(roots) <==> Unrepeated(l.keys)
  {
  }

  /** The scan of the tokens themselves. */
  method ReadTokens(tokens: seq<string>, operationName: string, scope: Scope) returns (list: Option<RootList>)
    ensures list.Some? == Read(tokens, operationName, scope).Some?
    ensures list.Some? ==> Describes(list.value, Read(tokens, operationName, scope).value.roots, Read(tokens, operationName, scope).value.header + 1)
    ensures list.Some? ==> Framed(tokens, Read(tokens, operationName, scope).value) && list.value.start <= list.value.end <= |tokens|
  {
    hide FragmentsOk, Allowed, Describes, Fine, HasRepository, Opening, Framed;
    var reader := new Reader(tokens, scope);
    list := OpeningTokens(reader, operationName);
    if list == None { return None; }
    ghost var r := Opening(tokens, operationName, scope).value;
    if list.value.repositories == 0 { return None; }
    reader.i := reader.i + 1;
    assert reader.Rest() == tokens[r.header + 2 + r.used..];
    var ok := reader.Fragments();
    if !ok { return None; }
    AllowedMeans(tokens, r, list.value);
    DistinctMeans(list.value, r.roots, r.header + 1);
    ok := Passes(tokens, list.value);
    if !ok { return None; }
    ReadIsFramed(tokens, operationName, scope);
  }

  lemma SummaryFits(ts: seq<string>, h: nat, scope: Scope, l: RootList)
    requires h < |ts| && G.Roots(ts[h + 1..], scope, "", false).Parsed?
    requires l == Summary(G.Roots(ts[h + 1..], scope, "", false).value, h + 1)
    ensures var roots := G.Roots(ts[h + 1..], scope, "", false).value;
            && Describes(l, roots, h + 1) && l.start <= l.end <= |ts|
            && (l.repositories > 0 <==> HasRepository(roots))
  {
    hide G.Roots, Summary, Flatten;
    ViewerInside(ts, h, scope);
    SummaryDescribes(G.Roots(ts[h + 1..], scope, "", false).value, h + 1);
  }

  method OpeningTokens(reader: Reader, operationName: string) returns (list: Option<RootList>)
    requires reader.i == 0
    modifies reader
    ensures list.Some? == Opening(reader.tokens, operationName, reader.scope).Some?
    ensures list.Some? ==>
              var r := Opening(reader.tokens, operationName, reader.scope).value;
              && reader.i == r.header + 1 + r.used && reader.i < |reader.tokens|
              && Describes(list.value, r.roots, r.header + 1) && list.value.start <= list.value.end <= |reader.tokens|
              && (list.value.repositories > 0 <==> HasRepository(r.roots))
  {
    hide G.Header, G.Roots, Describes, HasRepository, Summary;
    assert reader.Rest() == reader.tokens;
    var name := reader.Header();
    if name == None { return None; }
    if operationName != "" && operationName != name.value { return None; }
    if reader.i >= |reader.tokens| || reader.tokens[reader.i] != "{" { return None; }
    ghost var h := reader.i;
    reader.i := reader.i + 1;
    assert reader.Rest() == reader.tokens[h + 1..];
    list := reader.Roots();
    if list == None { return None; }
    SummaryFits(reader.tokens, h, reader.scope, list.value);
  }

  /** The checks after the scan. */
  method Passes(tokens: seq<string>, list: RootList) returns (ok: bool)
    ensures ok <==> (forall i :: 0 <= i < |tokens| ==> Fine(tokens, i, list.start, list.end)) && (list.key.Some? ==> Unrepeated(list.keys))
  {
    ok := AllFine(tokens, list.start, list.end);
    if ok && list.key.Some? { ok := AllDistinct(list.keys); }
  }

  predicate Unrepeated(keys: seq<string>)
  {
    forall i, j :: 0 <= i < j < |keys| ==> keys[i] != keys[j]
  }

  method TokensOf(query: string) returns (tokens: Option<seq<string>>)
    ensures tokens == GraphQLTokens.Tokens(query)
  {
    if query == "" || GraphQLTokens.Utf8Size(query) > GraphQLTokens.MAX_BYTES || GraphQLTokens.HasBlockQuote(query) { return None; }
    tokens := GraphQLTokens.Scan(query);
    if tokens == Some([]) { return None; }
  }
}
