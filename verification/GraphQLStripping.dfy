/** A read without its viewer is a read of the rest. */
module GraphQLStripping {
  import opened Basics
  import opened GraphQLReads
  import opened GraphQLLocality
  import opened GraphQLRootLists

  lemma CutOut<T>(ts: seq<T>, head: seq<T>, open: T, left: seq<T>, mid: seq<T>, right: seq<T>, close: T, tail: seq<T>)
    requires ts == head + [open] + (left + mid + right) + [close] + tail
    ensures var start := |head| + 1 + |left|;
            && start + |mid| <= |ts|
            && ts[..start] + ts[start + |mid|..] == head + [open] + ((left + right) + [close] + tail)
  {
  }

  lemma SplitAround<T>(ts: seq<T>, h: nat, n: nat, mid: seq<T>, open: T, close: T)
    requires h + 1 + n < |ts| && ts[h] == open && ts[h + 1..][..n] == mid && ts[h + 1..][n] == close
    ensures ts == ts[..h] + [open] + mid + [close] + ts[h + 2 + n..]
  {
  }

  lemma ConsAdds<T>(first: T, rest: seq<T>, right: seq<T>)
    ensures ([first] + rest) + right == [first] + (rest + right)
    ensures (([first] + rest) + right)[1..] == rest + right
  {
  }

  lemma {:induction false} FlattenAdds(left: seq<Root>, right: seq<Root>)
    ensures Flatten(left + right) == Flatten(left) + Flatten(right)
  {
    if left == [] {
      assert left + right == right;
    } else {
      FlattenAdds(left[1..], right);
      assert [left[0]] + left[1..] == left;
      ConsAdds(left[0], left[1..], right);
      assert Flatten(left + right) == left[0].tokens + Flatten(left[1..] + right);
      Regroup(left[0].tokens, Flatten(left[1..]), Flatten(right));
    }
  }

  /** The roots without the one at `k`. */
  function Without(roots: seq<Root>, k: nat): seq<Root>
    requires k < |roots|
  {
    roots[..k] + roots[k + 1..]
  }

  lemma {:induction false} CanonicalWithout(roots: seq<Root>, k: nat, scope: Scope)
    requires k < |roots| && AllCanonical(roots, scope)
    ensures AllCanonical(Without(roots, k), scope)
  {
    hide Canonical;
    if k == 0 {
      assert Without(roots, 0) == roots[1..];
    } else {
      CanonicalWithout(roots[1..], k - 1, scope);
      assert Without(roots, k)[1..] == Without(roots[1..], k - 1);
    }
  }

  lemma {:induction false} ConsistentWithoutViewer(roots: seq<Root>, repo: string)
    requires Consistent(roots, repo, true)
    ensures Consistent(roots, repo, false) && forall r :: r in roots ==> r.field != "viewer"
  {
    if roots != [] { ConsistentWithoutViewer(roots[1..], Target(roots[0], repo)); }
  }

  lemma {:induction false} ConsistentWithout(roots: seq<Root>, repo: string)
    requires Consistent(roots, repo, false) && ViewerIndex(roots) < |roots|
    ensures var rest := Without(roots, ViewerIndex(roots));
            Consistent(rest, repo, false) && forall r :: r in rest ==> r.field != "viewer"
  {
    var k := ViewerIndex(roots);
    if k == 0 {
      ConsistentWithoutViewer(roots[1..], repo);
      assert Without(roots, 0) == roots[1..];
    } else {
      ConsistentWithout(roots[1..], Target(roots[0], repo));
      assert ViewerIndex(roots[1..]) == k - 1;
      assert Without(roots, k) == [roots[0]] + Without(roots[1..], k - 1);
    }
  }

  lemma {:induction false} NoViewer(roots: seq<Root>)
    requires forall r :: r in roots ==> r.field != "viewer"
    ensures ViewerIndex(roots) == |roots|
  {
    if roots != [] { NoViewer(roots[1..]); }
  }

  lemma {:induction false} FlattenAt(roots: seq<Root>, k: nat)
    requires k < |roots|
    ensures Flatten(roots) == Flatten(roots[..k]) + roots[k].tokens + Flatten(roots[k + 1..])
  {
    FlattenAdds(roots[..k], roots[k..]);
    assert roots[..k] + roots[k..] == roots && roots[k..][1..] == roots[k + 1..];
  }

  /** The tokens of an accepted document: header, brace, roots, brace, fragments. */
  lemma ReadSplits(ts: seq<string>, operationName: string, scope: Scope)
    requires Read(ts, operationName, scope).Some?
    ensures var r := Read(ts, operationName, scope).value;
            && Framed(ts, r)
            && ts == ts[..r.header] + ["{"] + Flatten(r.roots) + ["}"] + ts[r.header + 2 + r.used..]
            && AllCanonical(r.roots, scope) && Consistent(r.roots, "", false)
  {
    hide Header, FragmentsOk, Allowed, Consistent, AllCanonical, Roots, Flatten;
    var r := Read(ts, operationName, scope).value;
    var inside := ts[r.header + 1..];
    RootsSound(inside, scope, "", false);
    SplitAround(ts, r.header, r.used, Flatten(r.roots), "{", "}");
  }

  lemma PlainAdds(left: seq<string>, right: seq<string>)
    requires Plain(left) && Plain(right)
    ensures Plain(left + right)
  {
  }

  lemma RepositoryStays(roots: seq<Root>, k: nat)
    requires k < |roots| && roots[k].field == "viewer" && HasRepository(roots)
    ensures HasRepository(Without(roots, k))
  {
    var r :| r in roots && r.field == "repository";
    assert r in Without(roots, k);
  }

  /** A document with the given header, roots and fragments is read as just that. */
  lemma ReadAssembled(head: seq<string>, roots: seq<Root>, fragments: seq<string>, operationName: string, scope: Scope,
                      ts: seq<string>, name: string)
    requires Header(head + ["{"] + ts) == Parsed(name, |head|)
    requires ts == Flatten(roots) + ["}"] + fragments
    requires operationName != "" ==> operationName == name
    requires AllCanonical(roots, scope) && Consistent(roots, "", false)
    requires HasRepository(roots) && FragmentsOk(fragments)
    requires ViewerIndex(roots) == |roots| && Plain(head + ["{"] + ts)
    ensures Read(head + ["{"] + ts, operationName, scope) == Some(Reading(|head|, roots, |Flatten(roots)|))
  {
    hide Header, FragmentsOk, Consistent, AllCanonical, Plain, Roots;
    var whole := head + ["{"] + ts;
    assert whole[|head| + 1..] == ts;
    RootsComplete(roots, scope, "", false, fragments);
    assert whole[|head| + 2 + |Flatten(roots)|..] == fragments;
  }

  lemma AllowedSides(ts: seq<string>, r: Reading)
    requires Allowed(ts, r) && ViewerIndex(r.roots) < |r.roots|
    ensures var start := r.header + 1 + |Flatten(r.roots[..ViewerIndex(r.roots)])|;
            var end := start + |r.roots[ViewerIndex(r.roots)].tokens|;
            end <= |ts| && Plain(ts[..start]) && Plain(ts[end..])
  {
  }

  lemma StrippedShape(ts: seq<string>, operationName: string, scope: Scope)
    requires Read(ts, operationName, scope).Some?
    requires var r := Read(ts, operationName, scope).value; ViewerIndex(r.roots) < |r.roots|
    ensures var r := Read(ts, operationName, scope).value;
            var k := ViewerIndex(r.roots);
            && Framed(ts, r)
            && r.header + 1 + |Flatten(r.roots[..k])| + |r.roots[k].tokens| <= |ts|
            && Stripped(ts, r) == ts[..r.header] + ["{"] + (Flatten(Without(r.roots, k)) + ["}"] + ts[r.header + 2 + r.used..])
            && Plain(Stripped(ts, r))
  {
    hide Plain, Consistent, AllCanonical, Roots, FragmentsOk, Header, Flatten;
    ReadSplits(ts, operationName, scope);
    var r := Read(ts, operationName, scope).value;
    var k := ViewerIndex(r.roots);
    FlattenAt(r.roots, k);
    FlattenAdds(r.roots[..k], r.roots[k + 1..]);
    var start := r.header + 1 + |Flatten(r.roots[..k])|;
    CutOut(ts, ts[..r.header], "{", Flatten(r.roots[..k]), r.roots[k].tokens, Flatten(r.roots[k + 1..]), "}", ts[r.header + 2 + r.used..]);
    AllowedSides(ts, r);
    PlainAdds(ts[..start], ts[start + |r.roots[k].tokens|..]);
  }

  /** The document sent upstream is itself an accepted read: the same header, the same fragments,
      and the same roots but for the viewer, whose absence it does not notice. */
  lemma StrippedReads(ts: seq<string>, operationName: string, scope: Scope)
    requires Read(ts, operationName, scope).Some?
    requires var r := Read(ts, operationName, scope).value; ViewerIndex(r.roots) < |r.roots|
    ensures var r := Read(ts, operationName, scope).value;
            var k := ViewerIndex(r.roots);
            var rest := Without(r.roots, k);
            && Framed(ts, r) && r.header + 1 + |Flatten(r.roots[..k])| + |r.roots[k].tokens| <= |ts|
            && var left := Reading(r.header, rest, |Flatten(rest)|);
            && Read(Stripped(ts, r), operationName, scope) == Some(left)
            && ViewerIndex(rest) == |rest|
            && Prologue(Stripped(ts, r), left) == Prologue(ts, r) && Epilogue(Stripped(ts, r), left) == Epilogue(ts, r)
  {
    hide Plain, Stripped, AllCanonical, Consistent, FragmentsOk, Roots;
    StrippedShape(ts, operationName, scope);
    ReadSplits(ts, operationName, scope);
    var r := Read(ts, operationName, scope).value;
    var k := ViewerIndex(r.roots);
    var rest := Without(r.roots, k);
    var head, fragments := ts[..r.header], ts[r.header + 2 + r.used..];
    var inside := Flatten(rest) + ["}"] + fragments;
    CanonicalWithout(r.roots, k, scope);
    ConsistentWithout(r.roots, "");
    NoViewer(rest);
    RepositoryStays(r.roots, k);
    HeaderLocal(ts, inside);
    assert Header(ts).used == |head|;
    ReadAssembled(head, rest, fragments, operationName, scope, inside, Header(ts).value);
    assert (head + ["{"] + inside)[..r.header] == head;
    assert (head + ["{"] + inside)[r.header + 2 + |Flatten(rest)|..] == fragments;
  }

  /** The operation keyword, its name and its variable definitions. */
  function Prologue(ts: seq<string>, r: Reading): seq<string>
    requires r.header <= |ts|
  {
    ts[..r.header]
  }

  /** The fragments after the operation. */
  function Epilogue(ts: seq<string>, r: Reading): seq<string>
    requires r.header + 2 + r.used <= |ts|
  {
    ts[r.header + 2 + r.used..]
  }
}
