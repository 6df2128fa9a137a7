/** The repository read that the CLI recognises, as functions on what is left of its tokens
    (cmd/octopool/gh_graphql_read.go:59-234). */
module GraphQLReads {
  import opened Basics
  import opened GraphQLTokens

  const MAX_DEPTH := 12

  /** Variables that hold text, and the decoding of one JSON string. */
  datatype Scope = Scope(variables: map<string, string>, unquote: string -> Option<string>)

  /** A root field with the tokens it spans. `target` is its repository in lower case, if any. */
  datatype Root = Root(key: string, field: string, target: string, tokens: seq<string>)

  /** A result and the number of tokens it took. */
  datatype Parsed<+T> = Failed | Parsed(value: T, used: nat)

  predicate IsName(token: string)
  {
    token != "" && Letter(token[0]) && forall c :: c in token ==> Letter(c) || Digit(c)
  }

  /** `skip` with `depth` brackets already open. */
  function SkipFrom(ts: seq<string>, depth: nat, open: string, close: string): (p: Parsed<()>)
    ensures p.Parsed? ==> 0 < p.used <= |ts|
  {
    if ts == [] then Failed
    else
      var deeper := if ts[0] == open then depth + 1 else depth;
      if ts[0] == close && deeper <= 1 then if deeper == 1 then Parsed((), 1) else Failed
      else
        var left := if ts[0] == close then deeper - 1 else deeper;
        if left > MAX_DEPTH then Failed
        else match SkipFrom(ts[1..], left, open, close)
             case Failed => Failed
             case Parsed(_, used) => Parsed((), 1 + used)
  }

  function Skip(ts: seq<string>, open: string, close: string): (p: Parsed<()>)
    ensures p.Parsed? ==> 0 < p.used <= |ts|
  {
    if ts == [] || ts[0] != open then Failed else SkipFrom(ts, 0, open, close)
  }

  function Value(ts: seq<string>, scope: Scope): (p: Parsed<string>)
    ensures p.Parsed? ==> 0 < p.used <= |ts|
  {
    if ts == [] then Failed
    else if ts[0] == "$" then
      if |ts| < 2 || ts[1] !in scope.variables then Failed else Parsed(scope.variables[ts[1]], 2)
    else match scope.unquote(ts[0])
         case None => Failed
         case Some(v) => Parsed(v, 1)
  }

  datatype Names = Names(owner: string, name: string)

  predicate RepoChar(c: char)
  {
    Letter(c) || Digit(c) || c == '.' || c == '-'
  }

  predicate RepoName(name: string)
  {
    name != "" && forall c :: c in name ==> RepoChar(c)
  }

  /** Arguments after their opening parenthesis, up to and including the closing one. */
  function Arguments(ts: seq<string>, names: Names, scope: Scope): (p: Parsed<Names>)
    ensures p.Parsed? ==> 0 < p.used <= |ts|
    decreases |ts|
  {
    if ts == [] then Failed
    else if ts[0] == ")" then
      if RepoName(names.owner) && RepoName(names.name) then Parsed(names, 1) else Failed
    else if ts[0] != "owner" && ts[0] != "name" then Failed
    else if (if ts[0] == "owner" then names.owner else names.name) != "" then Failed
    else if |ts| < 2 || ts[1] != ":" then Failed
    else match Value(ts[2..], scope)
         case Failed => Failed
         case Parsed(v, n) =>
           if v == "" || v == "." || v == ".." || '/' in v then Failed
           else match Arguments(ts[2 + n..], if ts[0] == "owner" then names.(owner := v) else names.(name := v), scope)
                case Failed => Failed
                case Parsed(all, m) => Parsed(all, 2 + n + m)
  }

  function Directives(ts: seq<string>): (p: Parsed<()>)
    ensures p.Parsed? ==> p.used <= |ts|
    decreases |ts|
  {
    if ts == [] || ts[0] != "@" then Parsed((), 0)
    else if |ts| < 2 || (ts[1] != "include" && ts[1] != "skip") then Failed
    else match Skip(ts[2..], "(", ")")
         case Failed => Failed
         case Parsed(_, n) =>
           match Directives(ts[2 + n..])
           case Failed => Failed
           case Parsed(_, m) => Parsed((), 2 + n + m)
  }

  function Lower(c: char): char
  {
    if 'A' <= c <= 'Z' then c - 'A' + 'a' else c
  }

  function LowerText(text: string): string
  {
    if text == "" then "" else [Lower(text[0])] + LowerText(text[1..])
  }

  /** The alias and the name of a field. */
  function Head(ts: seq<string>): (p: Parsed<(string, string)>)
    ensures p.Parsed? ==> 0 < p.used <= |ts|
  {
    if ts == [] || !IsName(ts[0]) then Failed
    else if |ts| > 1 && ts[1] == ":" then if |ts| < 3 then Failed else Parsed((ts[0], ts[2]), 3)
    else Parsed((ts[0], ts[0]), 1)
  }

  /** What follows the name of a repository field. */
  function RepositoryBody(ts: seq<string>, scope: Scope): (p: Parsed<string>)
    ensures p.Parsed? ==> 0 < p.used <= |ts|
  {
    if ts == [] || ts[0] != "(" then Failed
    else match Arguments(ts[1..], Names("", ""), scope)
         case Failed => Failed
         case Parsed(names, a) =>
           match Directives(ts[1 + a..])
           case Failed => Failed
           case Parsed(_, d) =>
             match Skip(ts[1 + a + d..], "{", "}")
             case Failed => Failed
             case Parsed(_, b) => Parsed(LowerText(names.owner + "/" + names.name), 1 + a + d + b)
  }

  function Body(ts: seq<string>, field: string, scope: Scope): (p: Parsed<string>)
    ensures p.Parsed? ==> p.used <= |ts|
  {
    if field == "viewer" then if |ts| >= 3 && ts[..3] == ["{", "login", "}"] then Parsed("", 3) else Failed
    else if field == "repository" then RepositoryBody(ts, scope)
    else if field == "__typename" then
      match Directives(ts)
      case Failed => Failed
      case Parsed(_, n) => Parsed("", n)
    else Failed
  }

  function FirstRoot(ts: seq<string>, scope: Scope): (p: Parsed<Root>)
    ensures p.Parsed? ==> 0 < p.used <= |ts| && p.value.tokens == ts[..p.used]
  {
    match Head(ts)
    case Failed => Failed
    case Parsed((key, field), h) =>
      match Body(ts[h..], field, scope)
      case Failed => Failed
      case Parsed(target, b) => Parsed(Root(key, field, target, ts[..h + b]), h + b)
  }

  /** Root fields up to the closing brace. `repo` is the repository seen so far, if any. */
  function Roots(ts: seq<string>, scope: Scope, repo: string, viewer: bool): (p: Parsed<seq<Root>>)
    ensures p.Parsed? ==> p.used < |ts| && ts[p.used] == "}"
    decreases |ts|
  {
    if ts == [] then Failed
    else if ts[0] == "}" then Parsed([], 0)
    else match FirstRoot(ts, scope)
         case Failed => Failed
         case Parsed(root, n) =>
           if !Follows(root, repo, viewer) then Failed
           else match Roots(ts[n..], scope, Target(root, repo), viewer || root.field == "viewer")
                case Failed => Failed
                case Parsed(rest, m) => Parsed([root] + rest, n + m)
  }

  function Prepend(done: seq<Root>, n: nat, p: Parsed<seq<Root>>): Parsed<seq<Root>>
  {
    match p case Failed => Failed case Parsed(v, used) => Parsed(done + v, n + used)
  }

  /** At most one viewer, and every repository the same. */
  predicate Follows(root: Root, repo: string, viewer: bool)
  {
    && !(root.field == "viewer" && viewer)
    && !(root.field == "repository" && repo != "" && repo != root.target)
  }

  function Target(root: Root, repo: string): string
  {
    if root.field == "repository" then root.target else repo
  }

  /** The operation keyword, its name and its variable definitions. */
  function Header(ts: seq<string>): (p: Parsed<string>)
    ensures p.Parsed? ==> p.used <= |ts|
  {
    if ts == [] || ts[0] != "query" then Parsed("", 0)
    else
      var named := |ts| > 1 && IsName(ts[1]);
      var i := if named then 2 else 1;
      var name := if named then ts[1] else "";
      if i < |ts| && ts[i] == "(" then
        match Skip(ts[i..], "(", ")")
        case Failed => Failed
        case Parsed(_, n) => Parsed(name, i + n)
      else Parsed(name, i)
  }

  predicate FragmentsOk(ts: seq<string>)
    decreases |ts|
  {
    ts == [] ||
    (&& |ts| > 3 && ts[0] == "fragment" && IsName(ts[1]) && ts[2] == "on" && IsName(ts[3])
     && Skip(ts[4..], "{", "}").Parsed?
     && FragmentsOk(ts[4 + Skip(ts[4..], "{", "}").used..]))
  }

  /** What a parse gives after `n` tokens that were taken before it. */
  function Took<T>(n: nat, p: Parsed<T>): Parsed<T>
  {
    match p case Failed => Failed case Parsed(v, used) => Parsed(v, n + used)
  }

  predicate StartsWithViewer(token: string)
  {
    |token| >= 6 && token[..6] == "viewer"
  }

  predicate Plain(ts: seq<string>)
  {
    forall i :: 0 <= i < |ts| ==> ts[i] != "mergeStateStatus" && !StartsWithViewer(ts[i])
  }

  function Flatten(roots: seq<Root>): seq<string>
  {
    if roots == [] then [] else roots[0].tokens + Flatten(roots[1..])
  }

  /** The index of the viewer among the roots, or their number. */
  function ViewerIndex(roots: seq<Root>): (k: nat)
    ensures k <= |roots| && (k < |roots| ==> roots[k].field == "viewer")
    ensures forall j :: 0 <= j < k ==> roots[j].field != "viewer"
  {
    if roots == [] || roots[0].field == "viewer" then 0 else 1 + ViewerIndex(roots[1..])
  }

  predicate DistinctKeys(roots: seq<Root>)
  {
    forall i, j :: 0 <= i < j < |roots| ==> roots[i].key != roots[j].key
  }

  predicate HasRepository(roots: seq<Root>)
  {
    exists r :: r in roots && r.field == "repository"
  }

  datatype Reading = Reading(header: nat, roots: seq<Root>, used: nat)

  /** The operation up to its closing brace. */
  function Opening(ts: seq<string>, operationName: string, scope: Scope): (r: Option<Reading>)
    ensures r.Some? ==> r.value.header + 1 + r.value.used < |ts|
  {
    match Header(ts)
    case Failed => None
    case Parsed(name, h) =>
      if (operationName != "" && operationName != name) || h >= |ts| || ts[h] != "{" then None
      else match Roots(ts[h + 1..], scope, "", false)
           case Failed => None
           case Parsed(roots, n) => Some(Reading(h, roots, n))
  }

  /** `repositoryGraphQLRead`: how the tokens split, if the read is accepted. */
  function Read(ts: seq<string>, operationName: string, scope: Scope): Option<Reading>
  {
    match Opening(ts, operationName, scope)
    case None => None
    case Some(r) =>
      if HasRepository(r.roots) && FragmentsOk(ts[r.header + 2 + r.used..]) && Allowed(ts, r) then Some(r) else None
  }

  predicate Framed(ts: seq<string>, r: Reading)
  {
    r.header + 1 + r.used < |ts| && |Flatten(r.roots)| == r.used
  }

  /** The checks that look at every token: none is reserved outside the viewer's own. */
  predicate Allowed(ts: seq<string>, r: Reading)
  {
    var k := ViewerIndex(r.roots);
    if k == |r.roots| then Plain(ts)
    else
      var start := r.header + 1 + |Flatten(r.roots[..k])|;
      var end := start + |r.roots[k].tokens|;
      && end <= |ts| && Plain(ts[..start]) && Plain(ts[end..]) && "mergeStateStatus" !in ts[start..end]
      && DistinctKeys(r.roots)
  }

  /** What is sent upstream in place of a document with a viewer. */
  function Stripped(ts: seq<string>, r: Reading): seq<string>
    requires Framed(ts, r) && ViewerIndex(r.roots) < |r.roots|
    requires r.header + 1 + |Flatten(r.roots[..ViewerIndex(r.roots)])| + |r.roots[ViewerIndex(r.roots)].tokens| <= |ts|
  {
    var k := ViewerIndex(r.roots);
    var start := r.header + 1 + |Flatten(r.roots[..k])|;
    ts[..start] + ts[start + |r.roots[k].tokens|..]
  }
}
