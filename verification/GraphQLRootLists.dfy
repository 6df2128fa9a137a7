/** The root lists that are accepted: sound and complete. */
module GraphQLRootLists {
  import opened Basics
  import opened GraphQLReads
  import opened GraphQLLocality

  /** The root is read back from its own tokens. */
  predicate Canonical(r: Root, scope: Scope)
  {
    FirstRoot(r.tokens + ["}"], scope) == Parsed(r, |r.tokens|)
  }

  predicate AllCanonical(roots: seq<Root>, scope: Scope)
  {
    roots == [] || (Canonical(roots[0], scope) && AllCanonical(roots[1..], scope))
  }

  /** Read from the left, no root is a second viewer or another repository. */
  predicate Consistent(roots: seq<Root>, repo: string, viewer: bool)
  {
    roots == [] ||
    (Follows(roots[0], repo, viewer)
     && Consistent(roots[1..], Target(roots[0], repo), viewer || roots[0].field == "viewer"))
  }

  lemma FirstRootCanonical(ts: seq<string>, scope: Scope)
    requires FirstRoot(ts, scope).Parsed?
    ensures Canonical(FirstRoot(ts, scope).value, scope)
  {
    FirstRootLocal(ts, scope, ["}"]);
  }

  lemma RootsStep(ts: seq<string>, scope: Scope, repo: string, viewer: bool)
    requires ts != [] && ts[0] != "}"
    ensures var first := FirstRoot(ts, scope);
            Roots(ts, scope, repo, viewer)
            == if first.Failed? || !Follows(first.value, repo, viewer) then Failed
               else Prepend([first.value], first.used, Roots(ts[first.used..], scope, Target(first.value, repo), viewer || first.value.field == "viewer"))
  {
    hide FirstRoot, Follows, Target;
  }

  lemma RootsEnd(ts: seq<string>, scope: Scope, repo: string, viewer: bool)
    ensures ts == [] ==> Roots(ts, scope, repo, viewer) == Failed
    ensures ts != [] && ts[0] == "}" ==> Roots(ts, scope, repo, viewer) == Parsed([], 0)
  {
  }

  lemma TakeMore<T>(ts: seq<T>, n: nat, m: nat)
    requires n + m <= |ts|
    ensures ts[..n + m] == ts[..n] + ts[n..][..m]
  {
  }

  lemma FirstRootTokens(ts: seq<string>, scope: Scope)
    requires FirstRoot(ts, scope).Parsed?
    ensures var p := FirstRoot(ts, scope); 0 < p.used <= |ts| && p.value.tokens == ts[..p.used]
  {
  }

  lemma {:induction false} RootsSound(ts: seq<string>, scope: Scope, repo: string, viewer: bool)
    requires Roots(ts, scope, repo, viewer).Parsed?
    ensures var p := Roots(ts, scope, repo, viewer);
            && ts[..p.used] == Flatten(p.value)
            && AllCanonical(p.value, scope) && Consistent(p.value, repo, viewer)
    decreases |ts|
  {
    hide FirstRoot, Canonical, Follows, Target, Roots;
    RootsEnd(ts, scope, repo, viewer);
    if ts != [] && ts[0] != "}" {
      RootsStep(ts, scope, repo, viewer);
      var (root, n) := (FirstRoot(ts, scope).value, FirstRoot(ts, scope).used);
      var after := Roots(ts[n..], scope, Target(root, repo), viewer || root.field == "viewer");
      FirstRootTokens(ts, scope);
      FirstRootCanonical(ts, scope);
      RootsSound(ts[n..], scope, Target(root, repo), viewer || root.field == "viewer");
      TakeMore(ts, n, after.used);
      assert ([root] + after.value)[1..] == after.value;
    }
  }

  lemma CanonicalStarts(r: Root, scope: Scope)
    requires Canonical(r, scope)
    ensures r.tokens != [] && IsName(r.tokens[0]) && r.key == r.tokens[0]
  {
    assert (r.tokens + ["}"])[0] == r.tokens[0];
  }

  lemma NameStops(name: string)
    requires IsName(name)
    ensures name != ":" && name != "@" && name != "}"
  {
  }

  lemma CanonicalBefore(r: Root, scope: Scope, rest: seq<string>)
    requires Canonical(r, scope) && Stops(rest)
    ensures FirstRoot(r.tokens + rest, scope) == Parsed(r, |r.tokens|)
  {
    FirstRootLocal(r.tokens + ["}"], scope, rest);
    assert (r.tokens + ["}"])[..|r.tokens|] == r.tokens;
  }

  lemma FlattenStops(roots: seq<Root>, scope: Scope, tail: seq<string>)
    requires AllCanonical(roots, scope)
    ensures Stops(Flatten(roots) + ["}"] + tail)
  {
    if roots != [] {
      CanonicalStarts(roots[0], scope);
      NameStops(roots[0].tokens[0]);
      assert (Flatten(roots) + ["}"] + tail)[0] == roots[0].tokens[0];
    }
  }

  lemma {:induction false} RootsComplete(roots: seq<Root>, scope: Scope, repo: string, viewer: bool, tail: seq<string>)
    requires AllCanonical(roots, scope) && Consistent(roots, repo, viewer)
    ensures Roots(Flatten(roots) + ["}"] + tail, scope, repo, viewer) == Parsed(roots, |Flatten(roots)|)
  {
    hide FirstRoot, Canonical, Follows, Target, Roots;
    var ts := Flatten(roots) + ["}"] + tail;
    RootsEnd(ts, scope, repo, viewer);
    if roots != [] {
      var root, rest := roots[0], roots[1..];
      var after := Flatten(rest) + ["}"] + tail;
      FlattenStops(rest, scope, tail);
      CanonicalBefore(root, scope, after);
      CanonicalStarts(root, scope);
      NameStops(root.tokens[0]);
      assert ts == root.tokens + after && ts[0] == root.tokens[0];
      assert ts[|root.tokens|..] == after;
      RootsStep(ts, scope, repo, viewer);
      RootsComplete(rest, scope, Target(root, repo), viewer || root.field == "viewer", tail);
      assert [root] + rest == roots;
    }
  }
}
