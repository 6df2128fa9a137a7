/** Each part of a repository read is recognised from its own tokens, whatever follows. */
module GraphQLLocality {
  import opened Basics
  import opened GraphQLReads

  lemma {:induction false} SkipFromLocal(ts: seq<string>, depth: nat, open: string, close: string, rest: seq<string>)
    requires SkipFrom(ts, depth, open, close).Parsed?
    ensures var n := SkipFrom(ts, depth, open, close).used;
            SkipFrom(ts[..n] + rest, depth, open, close) == SkipFrom(ts, depth, open, close)
  {
    var n := SkipFrom(ts, depth, open, close).used;
    var cut := ts[..n] + rest;
    assert cut[0] == ts[0];
    var deeper := if ts[0] == open then depth + 1 else depth;
    if !(ts[0] == close && deeper <= 1) {
      var left := if ts[0] == close then deeper - 1 else deeper;
      SkipFromLocal(ts[1..], left, open, close, rest);
      SliceCut(ts, n, rest, 1);
    }
  }

  lemma SkipLocal(ts: seq<string>, open: string, close: string, rest: seq<string>)
    requires Skip(ts, open, close).Parsed?
    ensures Skip(ts[..Skip(ts, open, close).used] + rest, open, close) == Skip(ts, open, close)
  {
    SkipFromLocal(ts, 0, open, close, rest);
  }

  lemma ValueLocal(ts: seq<string>, scope: Scope, n: nat, rest: seq<string>)
    requires Value(ts, scope).Parsed? && Value(ts, scope).used <= n <= |ts|
    ensures Value(ts[..n] + rest, scope) == Value(ts, scope)
  {
    var cut := ts[..n] + rest;
    assert cut[0] == ts[0];
    if ts[0] == "$" { assert cut[1] == ts[1]; }
  }

  function Given(names: Names, which: string, v: string): Names
  {
    if which == "owner" then names.(owner := v) else names.(name := v)
  }

  /** One round of the argument loop. */
  lemma ArgumentsStep(ts: seq<string>, names: Names, scope: Scope)
    requires ts != [] && ts[0] != ")"
    ensures var named := (ts[0] == "owner" || ts[0] == "name") && (if ts[0] == "owner" then names.owner else names.name) == "";
            Arguments(ts, names, scope)
            == if !named || |ts| < 2 || ts[1] != ":" || Value(ts[2..], scope).Failed? then Failed
               else
                 var (v, n) := (Value(ts[2..], scope).value, Value(ts[2..], scope).used);
                 if v == "" || v == "." || v == ".." || '/' in v then Failed
                 else Took(2 + n, Arguments(ts[2 + n..], Given(names, ts[0], v), scope))
  {
    hide Value;
  }

  lemma ArgumentsStop(ts: seq<string>, names: Names, scope: Scope)
    ensures ts == [] ==> Arguments(ts, names, scope) == Failed
    ensures ts != [] && ts[0] == ")" ==>
              Arguments(ts, names, scope) == if RepoName(names.owner) && RepoName(names.name) then Parsed(names, 1) else Failed
  {
  }

  lemma ArgumentsEnd(ts: seq<string>, names: Names, scope: Scope, rest: seq<string>)
    requires Arguments(ts, names, scope).Parsed? && ts[0] == ")"
    ensures Arguments(ts, names, scope).used == 1 && Arguments([")"] + rest, names, scope) == Arguments(ts, names, scope)
  {
  }

  lemma {:induction false} ArgumentsLocal(ts: seq<string>, names: Names, scope: Scope, rest: seq<string>)
    requires Arguments(ts, names, scope).Parsed?
    ensures Arguments(ts[..Arguments(ts, names, scope).used] + rest, names, scope) == Arguments(ts, names, scope)
    decreases |ts|
  {
    hide Value, Arguments;
    var n := Arguments(ts, names, scope).used;
    var cut := ts[..n] + rest;
    if ts[0] == ")" {
      ArgumentsEnd(ts, names, scope, rest);
      assert ts[..1] == [")"];
    } else {
      ArgumentsStep(ts, names, scope);
      var (v, m) := (Value(ts[2..], scope).value, Value(ts[2..], scope).used);
      SliceCut(ts, n, rest, 2);
      ValueLocal(ts[2..], scope, n - 2, rest);
      ArgumentsLocal(ts[2 + m..], Given(names, ts[0], v), scope, rest);
      SliceCut(ts, n, rest, 2 + m);
      assert cut[0] == ts[0] && cut[1] == ts[1];
      ArgumentsStep(cut, names, scope);
    }
  }

  /** The token after a root is never taken for a part of it. */
  predicate Stops(rest: seq<string>)
  {
    rest != [] && rest[0] != ":" && rest[0] != "@"
  }

  lemma PieceCut<T>(ts: seq<T>, n: nat, rest: seq<T>, k: nat, m: nat)
    requires k + m <= n <= |ts|
    ensures (ts[..n] + rest)[k..] == ts[k..][..m] + (ts[k + m..n] + rest)
  {
  }

  /** One round of the directive loop. */
  lemma DirectivesStep(ts: seq<string>)
    requires ts != [] && ts[0] == "@"
    ensures Directives(ts)
            == if |ts| < 2 || (ts[1] != "include" && ts[1] != "skip") || Skip(ts[2..], "(", ")").Failed? then Failed
               else var n := 2 + Skip(ts[2..], "(", ")").used; Took(n, Directives(ts[n..]))
  {
    hide Skip;
  }

  lemma DirectivesStop(ts: seq<string>)
    requires ts == [] || ts[0] != "@"
    ensures Directives(ts) == Parsed((), 0)
  {
  }

  lemma {:induction false} DirectivesLocal(ts: seq<string>, rest: seq<string>)
    requires Directives(ts).Parsed? && (rest == [] || rest[0] != "@")
    ensures Directives(ts[..Directives(ts).used] + rest) == Directives(ts)
    decreases |ts|
  {
    hide Skip, Directives;
    var n := Directives(ts).used;
    var cut := ts[..n] + rest;
    if ts == [] || ts[0] != "@" {
      DirectivesStop(ts);
      assert cut == rest;
      DirectivesStop(rest);
    } else {
      DirectivesStep(ts);
      var s := Skip(ts[2..], "(", ")").used;
      PieceCut(ts, n, rest, 2, s);
      SkipLocal(ts[2..], "(", ")", ts[2 + s..n] + rest);
      DirectivesLocal(ts[2 + s..], rest);
      SliceCut(ts, n, rest, 2 + s);
      assert cut[0] == ts[0] && cut[1] == ts[1];
      DirectivesStep(cut);
    }
  }

  lemma OpensWith(ts: seq<string>, open: string, close: string)
    requires Skip(ts, open, close).Parsed?
    ensures ts != [] && ts[0] == open && Skip(ts, open, close).used > 0
  {
  }

  lemma RepositoryBodyLocal(ts: seq<string>, scope: Scope, rest: seq<string>)
    requires RepositoryBody(ts, scope).Parsed?
    ensures RepositoryBody(ts[..RepositoryBody(ts, scope).used] + rest, scope) == RepositoryBody(ts, scope)
  {
    hide Skip, Arguments, Directives;
    var n := RepositoryBody(ts, scope).used;
    var cut := ts[..n] + rest;
    assert cut[0] == ts[0];
    var a := Arguments(ts[1..], Names("", ""), scope).used;
    PieceCut(ts, n, rest, 1, a);
    ArgumentsLocal(ts[1..], Names("", ""), scope, ts[1 + a..n] + rest);
    var d := Directives(ts[1 + a..]).used;
    PieceCut(ts, n, rest, 1 + a, d);
    var body := ts[1 + a + d..];
    assert body[0] == "{" by { OpensWith(body, "{", "}"); }
    assert (ts[1 + a + d..n] + rest)[0] == body[0];
    DirectivesLocal(ts[1 + a..], ts[1 + a + d..n] + rest);
    var b := Skip(body, "{", "}").used;
    PieceCut(ts, n, rest, 1 + a + d, b);
    SkipLocal(body, "{", "}", ts[n..n] + rest);
  }

  lemma BodyLocal(ts: seq<string>, field: string, scope: Scope, rest: seq<string>)
    requires Body(ts, field, scope).Parsed? && Stops(rest)
    ensures Body(ts[..Body(ts, field, scope).used] + rest, field, scope) == Body(ts, field, scope)
  {
    hide RepositoryBody, Directives;
    var n := Body(ts, field, scope).used;
    if field == "viewer" {
      assert (ts[..n] + rest)[..3] == ts[..3];
    } else if field == "repository" {
      RepositoryBodyLocal(ts, scope, rest);
    } else {
      DirectivesLocal(ts, rest);
    }
  }

  lemma HeadLocal(ts: seq<string>, n: nat, rest: seq<string>)
    requires Head(ts).Parsed? && Head(ts).used <= n <= |ts| && Stops(rest)
    ensures Head(ts[..n] + rest) == Head(ts)
  {
    var cut := ts[..n] + rest;
    assert cut[0] == ts[0];
    if n == 1 { assert cut[1] == rest[0]; } else { assert cut[1] == ts[1]; }
    if n > 2 { assert cut[2] == ts[2]; }
  }

  /** A root is the same root in front of anything that cannot continue it. */
  lemma FirstRootLocal(ts: seq<string>, scope: Scope, rest: seq<string>)
    requires FirstRoot(ts, scope).Parsed? && Stops(rest)
    ensures FirstRoot(ts[..FirstRoot(ts, scope).used] + rest, scope) == FirstRoot(ts, scope)
  {
    hide Head, Body;
    var n, h := FirstRoot(ts, scope).used, Head(ts).used;
    var field := Head(ts).value.1;
    HeadLocal(ts, n, rest);
    SliceCut(ts, n, rest, h);
    BodyLocal(ts[h..], field, scope, rest);
    assert (ts[..n] + rest)[..n] == ts[..n];
  }

  lemma HeaderLocal(ts: seq<string>, rest: seq<string>)
    requires Header(ts).Parsed? && Header(ts).used < |ts| && ts[Header(ts).used] == "{"
    ensures Header(ts[..Header(ts).used] + ["{"] + rest) == Header(ts)
  {
    hide Skip;
    var n := Header(ts).used;
    var cut := ts[..n + 1] + rest;
    assert ts[..n] + ["{"] + rest == cut;
    assert cut[0] == ts[0];
    if ts[0] == "query" {
      assert |ts| > 1 && cut[1] == ts[1];
      var i := if IsName(ts[1]) then 2 else 1;
      assert n >= i && cut[i] == ts[i];
      if ts[i] == "(" {
        PieceCut(ts, n + 1, rest, i, n - i);
        SkipLocal(ts[i..], "(", ")", ts[n..n + 1] + rest);
      }
    }
  }
}
