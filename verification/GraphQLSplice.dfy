/** The local login put back into the answer to a stripped query
    (cmd/octopool/gh_graphql_viewer.go:118-185), and why nobody can tell. */
module GraphQLSplice {
  import opened Basics
  import GraphQLTokens
  import opened GraphQLReads
  import opened GraphQLLocality
  import opened GraphQLRootLists
  import opened GraphQLStripping
  import opened GraphQLReader
  import StrictJson
  import JsonStrings

  /** A member of the `data` object, with the text of its value. */
  datatype Field = Field(key: string, text: string)

  datatype Json = Null | Object(fields: seq<Field>) | Other(text: string)

  /** A top-level member of the response. */
  datatype Entry = Entry(key: string, value: Json)

  /** The fields as a decoder collects them: the last of a repeated key wins. */
  function Values(fields: seq<Field>): map<string, string>
  {
    if fields == [] then map[] else map[fields[0].key := fields[0].text] + Values(fields[1..])
  }

  /** The values in the order of the keys, each once. */
  function Ordered(keys: seq<string>, values: map<string, string>): seq<Field>
  {
    if keys == [] then []
    else if keys[0] in values then [Field(keys[0], values[keys[0]])] + Ordered(keys[1..], values - {keys[0]})
    else Ordered(keys[1..], values)
  }

  function LoginText(login: string): string
  {
    "{\"login\":\"" + JsonStrings.Marshalled(login) + "\"}"
  }

  /** The text is an object with exactly one member, "login", and this login as its string. */
  predicate NamesLogin(text: string, login: string)
  {
    StrictJson.Parse(text, JsonStrings.READER) == Some(StrictJson.Obj([StrictJson.Member("login", StrictJson.Str(login))]))
  }

  lemma LoginIsNamed(login: string)
    ensures NamesLogin(LoginText(login), login)
  {
    hide StrictJson.Parse, JsonStrings.Marshalled;
    JsonStrings.PlainIsMarshalled("login");
    JsonStrings.OneMemberIsRead("login", login);
    assert LoginText(login) == "{" + (JsonStrings.Written("login") + (":" + (JsonStrings.Written(login) + "}")));
  }

  predicate DistinctEntries(entries: seq<Entry>)
  {
    forall i, j :: 0 <= i < j < |entries| ==> entries[i].key != entries[j].key
  }

  /** The index of `data`, or the number of entries. */
  function DataAt(entries: seq<Entry>): (k: nat)
    ensures k <= |entries| && (k < |entries| ==> entries[k].key == "data")
    ensures forall j :: 0 <= j < k ==> entries[j].key != "data"
  {
    if entries == [] || entries[0].key == "data" then 0 else 1 + DataAt(entries[1..])
  }

  /** What `spliceGraphQLViewer` makes of a response. */
  function Spliced(entries: seq<Entry>, viewer: LocalViewer): Option<seq<Entry>>
  {
    var k := DataAt(entries);
    if !DistinctEntries(entries) then None
    else if k == |entries| || entries[k].value.Null? then Some(entries)
    else if !entries[k].value.Object? then None
    else
      var values := Values(entries[k].value.fields);
      if viewer.key in values then None
      else
        var all := values[viewer.key := LoginText(viewer.login)];
        if exists key :: key in all && key !in viewer.keys then None
        else Some(entries[k := Entry("data", Object(Ordered(viewer.keys, all)))])
  }

  lemma {:induction false} DataIsAt(entries: seq<Entry>, k: nat)
    requires DistinctEntries(entries) && k < |entries| && entries[k].key == "data"
    ensures DataAt(entries) == k
  {
    var d := DataAt(entries);
    assert d <= k;
  }

  /** The decoding loop: every key once, and where the data is. */
  method FindData(entries: seq<Entry>) returns (at: Option<nat>)
    ensures at.Some? <==> DistinctEntries(entries)
    ensures at.Some? ==> at.value == DataAt(entries)
  {
    var seen: set<string> := {};
    var data: Option<nat> := None;
    for n := 0 to |entries|
      invariant DistinctEntries(entries[..n]) && seen == set i | 0 <= i < n :: entries[i].key
      invariant data.Some? ==> data.value < n && entries[data.value].key == "data"
      invariant data.None? ==> forall i :: 0 <= i < n ==> entries[i].key != "data"
    {
      if entries[n].key in seen {
        assert forall i :: 0 <= i < n ==> entries[..n][i] == entries[i];
        return None;
      }
      seen := seen + {entries[n].key};
      if entries[n].key == "data" { data := Some(n); }
      assert entries[..n + 1] == entries[..n] + [entries[n]];
    }
    assert entries[..|entries|] == entries;
    if data.Some? {
      DataIsAt(entries, data.value);
      return data;
    }
    return Some(|entries|);
  }

  lemma Gather(out: seq<Field>, f: Field, rest: seq<Field>)
    ensures out + ([f] + rest) == (out + [f]) + rest
  {
  }

  /** The writing loop: takes the values out of the map in the order of the keys. */
  method WriteFields(keys: seq<string>, all: map<string, string>) returns (out: seq<Field>, left: map<string, string>)
    ensures out == Ordered(keys, all)
    ensures left == map[] <==> forall key :: key in all ==> key in keys
  {
    var values := all;
    out := [];
    for n := 0 to |keys|
      invariant out + Ordered(keys[n..], values) == Ordered(keys, all)
      invariant forall key :: key in values <==> key in all && key !in keys[..n]
      invariant forall key :: key in values ==> values[key] == all[key]
    {
      var key := keys[n];
      assert keys[n..][1..] == keys[n + 1..] && keys[n..][0] == key;
      assert keys[..n + 1] == keys[..n] + [key];
      if key in values {
        Gather(out, Field(key, values[key]), Ordered(keys[n + 1..], values - {key}));
        out := out + [Field(key, values[key])];
        values := values - {key};
      }
    }
    assert keys[..|keys|] == keys && keys[|keys|..] == [];
    assert out + [] == out;
    left := values;
  }

  lemma {:induction false} OrderedHolds(keys: seq<string>, m: map<string, string>)
    requires Unrepeated(keys)
    ensures forall key :: key in Values(Ordered(keys, m)) <==> key in m && key in keys
    ensures forall key :: key in Values(Ordered(keys, m)) ==> Values(Ordered(keys, m))[key] == m[key]
    ensures forall f :: f in Ordered(keys, m) ==> f.key in keys
  {
    if keys == [] {
    } else {
      var rest, first := keys[1..], keys[0];
      assert forall i :: 0 <= i < |rest| ==> rest[i] == keys[i + 1];
      assert first !in rest && keys == [first] + rest;
      OrderedHolds(rest, if first in m then m - {first} else m);
      if first in m {
        assert Ordered(keys, m)[1..] == Ordered(rest, m - {first});
      }
    }
  }

  lemma OrderedIsAll(keys: seq<string>, m: map<string, string>)
    requires Unrepeated(keys) && forall key :: key in m ==> key in keys
    ensures Values(Ordered(keys, m)) == m && forall f :: f in Ordered(keys, m) ==> f.key in keys
  {
    OrderedHolds(keys, m);
  }

  /** Whatever came back, a splice that succeeds adds the login and nothing else: every other value is
      upstream's own, every key was asked for, and all other members of the response are untouched. */
  lemma SpliceAddsOnlyTheLogin(entries: seq<Entry>, viewer: LocalViewer)
    requires Unrepeated(viewer.keys) && viewer.key in viewer.keys && Spliced(entries, viewer).Some?
    requires DataAt(entries) < |entries| && entries[DataAt(entries)].value.Object?
    ensures var out := Spliced(entries, viewer).value;
            var k := DataAt(entries);
            && |out| == |entries| && (forall i :: 0 <= i < |out| && i != k ==> out[i] == entries[i])
            && out[k].key == "data" && out[k].value.Object?
            && viewer.key in Values(out[k].value.fields) && NamesLogin(Values(out[k].value.fields)[viewer.key], viewer.login)
            && Values(out[k].value.fields) - {viewer.key} == Values(entries[k].value.fields)
            && viewer.key !in Values(entries[k].value.fields)
            && forall f :: f in out[k].value.fields ==> f.key in viewer.keys
  {
    hide NamesLogin, LoginText, Values, Ordered, DataAt, DistinctEntries;
    var k := DataAt(entries);
    var all := Values(entries[k].value.fields)[viewer.key := LoginText(viewer.login)];
    LoginIsNamed(viewer.login);
    OrderedIsAll(viewer.keys, all);
  }

  method SpliceViewer(entries: seq<Entry>, viewer: LocalViewer) returns (r: Option<seq<Entry>>)
    ensures r == Spliced(entries, viewer)
    ensures var k := DataAt(entries);
            r.Some? && Unrepeated(viewer.keys) && viewer.key in viewer.keys && k < |entries| && entries[k].value.Object? ==>
              && |r.value| == |entries| && r.value[k].value.Object?
              && viewer.key in Values(r.value[k].value.fields)
              && NamesLogin(Values(r.value[k].value.fields)[viewer.key], viewer.login)
  {
    if Unrepeated(viewer.keys) && viewer.key in viewer.keys && Spliced(entries, viewer).Some?
       && DataAt(entries) < |entries| && entries[DataAt(entries)].value.Object? {
      SpliceAddsOnlyTheLogin(entries, viewer);
    }
    hide NamesLogin, LoginText;
    var at := FindData(entries);
    if at == None { return None; }
    var k := at.value;
    if k == |entries| || entries[k].value.Null? { return Some(entries); }
    if !entries[k].value.Object? { return None; }
    var values := Values(entries[k].value.fields);
    if viewer.key in values { return None; }
    var out, left := WriteFields(viewer.keys, values[viewer.key := LoginText(viewer.login)]);
    if left != map[] { return None; }
    return Some(entries[k := Entry("data", Object(out))]);
  }

  // ------------------------------------------------- what a server answers

  /** A root may be left out by `@include` or `@skip`, may fail so that all data is lost, or gives a value. */
  datatype Outcome = Dropped | Fatal | Gives(text: string)

  /** A server sees the operation's header, the fragments after it and one root field. */
  type Server = (seq<string>, seq<string>, Root) -> Outcome

  function FirstFields(root: Root, resolve: Root -> Outcome): seq<Field>
  {
    match resolve(root) case Gives(text) => [Field(root.key, text)] case _ => []
  }

  function Fields(roots: seq<Root>, resolve: Root -> Outcome): seq<Field>
  {
    if roots == [] then [] else FirstFields(roots[0], resolve) + Fields(roots[1..], resolve)
  }

  function Answer(roots: seq<Root>, resolve: Root -> Outcome): Json
  {
    if exists i :: 0 <= i < |roots| && resolve(roots[i]) == Fatal then Null else Object(Fields(roots, resolve))
  }

  /** The data that a server gives for an accepted document whose root keys differ. */
  function Execute(ts: seq<string>, r: Reading, server: Server): Json
    requires r.header + 2 + r.used <= |ts|
  {
    Answer(r.roots, root => server(Prologue(ts, r), Epilogue(ts, r), root))
  }

  function Reply(before: seq<Entry>, data: Json, after: seq<Entry>): seq<Entry>
  {
    before + [Entry("data", data)] + after
  }

  /** The map holds what the root gave, or nothing if it gave nothing. */
  predicate HoldsOne(m: map<string, string>, r: Root, resolve: Root -> Outcome)
  {
    match resolve(r)
    case Gives(text) => r.key in m && m[r.key] == text
    case _ => r.key !in m
  }

  predicate Holds(m: map<string, string>, roots: seq<Root>, resolve: Root -> Outcome)
  {
    forall i :: 0 <= i < |roots| ==> HoldsOne(m, roots[i], resolve)
  }

  lemma {:induction false} OrderedFields(roots: seq<Root>, resolve: Root -> Outcome, m: map<string, string>)
    requires DistinctKeys(roots) && Holds(m, roots, resolve)
    ensures Ordered(Keys(roots), m) == Fields(roots, resolve)
  {
    if roots == [] {
    } else {
      var rest, key := roots[1..], roots[0].key;
      assert Keys(roots)[1..] == Keys(rest);
      assert forall i :: 0 <= i < |rest| ==> rest[i] == roots[i + 1];
      OrderedFields(rest, resolve, if key in m then m - {key} else m);
      match resolve(roots[0])
      case Gives(text) => assert key in m;
      case _ => assert key !in m;
    }
  }

  lemma {:induction false} ValuesOfFields(roots: seq<Root>, resolve: Root -> Outcome)
    requires DistinctKeys(roots)
    ensures Holds(Values(Fields(roots, resolve)), roots, resolve)
    ensures forall key :: key in Values(Fields(roots, resolve)) ==> key in Keys(roots)
  {
    if roots == [] {
    } else {
      var rest, key := roots[1..], roots[0].key;
      var (fields, later) := (Fields(roots, resolve), Fields(rest, resolve));
      assert forall i :: 0 <= i < |rest| ==> rest[i] == roots[i + 1];
      ValuesOfFields(rest, resolve);
      assert Keys(roots) == [key] + Keys(rest);
      assert key !in Keys(rest);
      match resolve(roots[0])
      case Gives(text) =>
        assert fields[1..] == later;
        assert Values(fields) == map[key := text] + Values(later);
      case _ => assert fields == later;
      forall i | 0 <= i < |roots|
        ensures HoldsOne(Values(fields), roots[i], resolve)
      {
        if i > 0 { assert roots[i] == rest[i - 1]; }
      }
    }
  }

  lemma DistinctWithout(roots: seq<Root>, k: nat)
    requires k < |roots| && DistinctKeys(roots)
    ensures DistinctKeys(Without(roots, k)) && roots[k].key !in Keys(Without(roots, k))
  {
    var rest := Without(roots, k);
    assert forall i :: 0 <= i < |rest| ==> rest[i] == roots[if i < k then i else i + 1];
  }

  lemma KeysWithout(roots: seq<Root>, k: nat)
    requires k < |roots|
    ensures forall key :: key in Keys(Without(roots, k)) ==> key in Keys(roots)
    ensures roots[k].key in Keys(roots)
  {
    var rest := Without(roots, k);
    forall key | key in Keys(rest) ensures key in Keys(roots) {
      var j :| 0 <= j < |rest| && Keys(rest)[j] == key;
      assert key == Keys(roots)[if j < k then j else j + 1];
    }
    assert Keys(roots)[k] == roots[k].key;
  }

  lemma HoldsWith(m: map<string, string>, roots: seq<Root>, k: nat, resolve: Root -> Outcome, text: string)
    requires k < |roots| && DistinctKeys(roots) && resolve(roots[k]) == Gives(text)
    requires Holds(m, Without(roots, k), resolve)
    ensures Holds(m[roots[k].key := text], roots, resolve)
  {
    var rest, all := Without(roots, k), m[roots[k].key := text];
    forall i | 0 <= i < |roots| ensures HoldsOne(all, roots[i], resolve) {
      if i != k {
        assert roots[i] == rest[if i < k then i else i - 1];
        assert roots[i].key != roots[k].key;
      }
    }
  }

  /** With the viewer's value added, the upstream values are those of all the roots. */
  lemma ValuesCompleted(roots: seq<Root>, k: nat, resolve: Root -> Outcome, text: string)
    requires k < |roots| && DistinctKeys(roots) && resolve(roots[k]) == Gives(text)
    ensures var m := Values(Fields(Without(roots, k), resolve));
            && roots[k].key !in m && Holds(m[roots[k].key := text], roots, resolve)
            && forall key :: key in m[roots[k].key := text] ==> key in Keys(roots)
  {
    hide Values, Fields, Keys, DistinctKeys, Without, Holds;
    var rest := Without(roots, k);
    DistinctWithout(roots, k);
    ValuesOfFields(rest, resolve);
    KeysWithout(roots, k);
    HoldsWith(Values(Fields(rest, resolve)), roots, k, resolve, text);
  }

  lemma AbortsAlike(roots: seq<Root>, k: nat, resolve: Root -> Outcome)
    requires k < |roots| && resolve(roots[k]).Gives?
    ensures Answer(Without(roots, k), resolve).Null? <==> Answer(roots, resolve).Null?
  {
    var rest := Without(roots, k);
    if i :| 0 <= i < |roots| && resolve(roots[i]) == Fatal {
      assert rest[if i < k then i else i - 1] == roots[i];
    }
    assert forall i :: 0 <= i < |rest| ==> rest[i] == roots[if i < k then i else i + 1];
  }

  lemma ReplyHasData(before: seq<Entry>, data: Json, after: seq<Entry>)
    requires DistinctEntries(Reply(before, Null, after))
    ensures DistinctEntries(Reply(before, data, after)) && DataAt(Reply(before, data, after)) == |before|
    ensures forall other :: Reply(before, data, after)[|before| := Entry("data", other)] == Reply(before, other, after)
  {
    var bare, entries := Reply(before, Null, after), Reply(before, data, after);
    assert forall i :: 0 <= i < |entries| ==> entries[i].key == bare[i].key;
    DataIsAt(entries, |before|);
  }

  lemma ReplyAt(before: seq<Entry>, data: Json, after: seq<Entry>)
    ensures |before| < |Reply(before, data, after)| && Reply(before, data, after)[|before|] == Entry("data", data)
  {
  }

  /** Splicing into an answer to the roots but one gives the answer to all of them. */
  lemma SplicedAnswer(roots: seq<Root>, k: nat, resolve: Root -> Outcome, login: string, before: seq<Entry>, after: seq<Entry>)
    requires k < |roots| && DistinctKeys(roots) && resolve(roots[k]) == Gives(LoginText(login))
    requires DistinctEntries(Reply(before, Null, after))
    ensures Spliced(Reply(before, Answer(Without(roots, k), resolve), after), LocalViewer(roots[k].key, Keys(roots), login))
            == Some(Reply(before, Answer(roots, resolve), after))
  {
    hide Values, Fields, DataAt, DistinctEntries, Ordered, LoginText, Reply;
    var rest := Without(roots, k);
    AbortsAlike(roots, k, resolve);
    ReplyHasData(before, Answer(rest, resolve), after);
    ValuesCompleted(roots, k, resolve, LoginText(login));
    OrderedFields(roots, resolve, Values(Fields(rest, resolve))[roots[k].key := LoginText(login)]);
    ReplyAt(before, Answer(rest, resolve), after);
  }

  lemma StrippedSize(ts: seq<string>, operationName: string, scope: Scope)
    requires Read(ts, operationName, scope).Some?
    ensures Read(ts, operationName, scope).value.header + 2 + Read(ts, operationName, scope).value.used <= |ts|
  {
  }

  lemma ViewerKeysDiffer(ts: seq<string>, operationName: string, scope: Scope)
    requires Read(ts, operationName, scope).Some?
    ensures var roots := Read(ts, operationName, scope).value.roots; ViewerIndex(roots) < |roots| ==> DistinctKeys(roots)
  {
  }

  lemma {:induction false} SameFields(roots: seq<Root>, f: Root -> Outcome, g: Root -> Outcome)
    requires forall i :: 0 <= i < |roots| ==> f(roots[i]) == g(roots[i])
    ensures Fields(roots, f) == Fields(roots, g)
  {
    if roots == [] {
    } else {
      assert forall i :: 0 <= i < |roots[1..]| ==> roots[1..][i] == roots[i + 1];
      SameFields(roots[1..], f, g);
    }
  }

  lemma SameAnswer(roots: seq<Root>, f: Root -> Outcome, g: Root -> Outcome)
    requires forall i :: 0 <= i < |roots| ==> f(roots[i]) == g(roots[i])
    ensures Answer(roots, f) == Answer(roots, g)
  {
    SameFields(roots, f, g);
  }

  /** The same fields in the same order, but for the text of the viewer, which names the login in both. */
  predicate AlikeFields(a: seq<Field>, b: seq<Field>, viewer: LocalViewer)
  {
    && |a| == |b|
    && forall i :: 0 <= i < |a| ==>
         a[i].key == b[i].key
         && (a[i].text == b[i].text || (a[i].key == viewer.key && NamesLogin(a[i].text, viewer.login) && NamesLogin(b[i].text, viewer.login)))
  }

  predicate AlikeData(a: Json, b: Json, viewer: LocalViewer)
  {
    if a.Object? && b.Object? then AlikeFields(a.fields, b.fields, viewer) else a == b
  }

  /** A server that writes the viewer's login as the splice does. */
  function Rewritten(resolve: Root -> Outcome, root: Root, login: string): Root -> Outcome
  {
    other => if other == root then Gives(LoginText(login)) else resolve(other)
  }

  lemma AlikeMore(a: seq<Field>, b: seq<Field>, c: seq<Field>, d: seq<Field>, viewer: LocalViewer)
    requires |a| == |b| <= 1 && AlikeFields(c, d, viewer)
    requires |a| == 1 ==> a[0].key == b[0].key && (a[0].text == b[0].text
                          || (a[0].key == viewer.key && NamesLogin(a[0].text, viewer.login) && NamesLogin(b[0].text, viewer.login)))
    ensures AlikeFields(a + c, b + d, viewer)
  {
    hide NamesLogin;
  }

  lemma {:induction false} FieldsAlike(roots: seq<Root>, resolve: Root -> Outcome, root: Root, viewer: LocalViewer)
    requires resolve(root).Gives? && NamesLogin(resolve(root).text, viewer.login) && root.key == viewer.key
    ensures AlikeFields(Fields(roots, Rewritten(resolve, root, viewer.login)), Fields(roots, resolve), viewer)
  {
    if roots == [] {
    } else {
      hide NamesLogin, LoginText, AlikeFields;
      LoginIsNamed(viewer.login);
      FieldsAlike(roots[1..], resolve, root, viewer);
      var rewritten := Rewritten(resolve, root, viewer.login);
      AlikeMore(FirstFields(roots[0], rewritten), FirstFields(roots[0], resolve), Fields(roots[1..], rewritten), Fields(roots[1..], resolve), viewer);
    }
  }

  lemma AnswersAlike(roots: seq<Root>, resolve: Root -> Outcome, root: Root, viewer: LocalViewer)
    requires resolve(root).Gives? && NamesLogin(resolve(root).text, viewer.login) && root.key == viewer.key
    ensures AlikeData(Answer(roots, Rewritten(resolve, root, viewer.login)), Answer(roots, resolve), viewer)
  {
    hide NamesLogin, LoginText, AlikeFields;
    FieldsAlike(roots, resolve, root, viewer);
    var rewritten := Rewritten(resolve, root, viewer.login);
    assert forall i :: 0 <= i < |roots| ==> (rewritten(roots[i]) == Fatal <==> resolve(roots[i]) == Fatal);
  }

  /** Without the viewer's root the two servers answer alike. */
  lemma RewrittenWithout(roots: seq<Root>, k: nat, resolve: Root -> Outcome, login: string)
    requires k < |roots| && DistinctKeys(roots)
    ensures Answer(Without(roots, k), Rewritten(resolve, roots[k], login)) == Answer(Without(roots, k), resolve)
  {
    hide LoginText;
    var rest := Without(roots, k);
    forall i | 0 <= i < |rest| ensures rest[i] != roots[k] { assert rest[i] == roots[if i < k then i else i + 1]; }
    SameAnswer(rest, Rewritten(resolve, roots[k], login), resolve);
  }

  /** Splicing into an answer to the roots but one gives the answer to all of them, whatever way of writing the
      viewer the server has. */
  lemma SplicedAlike(roots: seq<Root>, k: nat, resolve: Root -> Outcome, login: string, before: seq<Entry>, after: seq<Entry>)
    requires k < |roots| && DistinctKeys(roots) && resolve(roots[k]).Gives? && NamesLogin(resolve(roots[k]).text, login)
    requires DistinctEntries(Reply(before, Null, after))
    ensures var viewer := LocalViewer(roots[k].key, Keys(roots), login);
            var out := Spliced(Reply(before, Answer(Without(roots, k), resolve), after), viewer);
            && out.Some? && |before| < |out.value| && out.value == Reply(before, out.value[|before|].value, after)
            && AlikeData(out.value[|before|].value, Answer(roots, resolve), viewer)
  {
    hide Spliced, DistinctEntries, DistinctKeys, Answer, LoginText, NamesLogin, AlikeData, Keys, Without, Reply;
    var rewritten, viewer := Rewritten(resolve, roots[k], login), LocalViewer(roots[k].key, Keys(roots), login);
    RewrittenWithout(roots, k, resolve, login);
    SplicedAnswer(roots, k, rewritten, login, before, after);
    AnswersAlike(roots, resolve, roots[k], viewer);
    ReplyAt(before, Answer(roots, rewritten), after);
  }

  lemma AllWholeCut(ts: seq<string>, start: nat, end: nat)
    requires start <= end <= |ts| && GraphQLTokens.AllWhole(ts)
    ensures GraphQLTokens.AllWhole(ts[..start] + ts[end..])
  {
    hide GraphQLTokens.AllWhole;
    assert ts == ts[..start] + ts[start..] && ts[start..] == ts[start..end] + ts[end..];
    GraphQLTokens.AllWholeSplits(ts[..start], ts[start..]);
    GraphQLTokens.AllWholeSplits(ts[start..end], ts[end..]);
    GraphQLTokens.AllWholeSplits(ts[..start], ts[end..]);
  }

  lemma StrippedLexes(query: string, operationName: string, scope: Scope)
    requires GraphQLTokens.Tokens(query).Some?
    requires var ts := GraphQLTokens.Tokens(query).value;
             Read(ts, operationName, scope).Some?
             && var roots := Read(ts, operationName, scope).value.roots; ViewerIndex(roots) < |roots|
    ensures var ts := GraphQLTokens.Tokens(query).value;
            var r := Read(ts, operationName, scope).value;
            && Framed(ts, r)
            && r.header + 1 + |Flatten(r.roots[..ViewerIndex(r.roots)])| + |r.roots[ViewerIndex(r.roots)].tokens| <= |ts|
            && GraphQLTokens.Lex(GraphQLTokens.Join(Stripped(ts, r)), GraphQLTokens.MAX_TOKENS) == Some(Stripped(ts, r))
  {
    hide Read, GraphQLTokens.Lex, Flatten, GraphQLTokens.AllWhole;
    var ts := GraphQLTokens.Tokens(query).value;
    var r := Read(ts, operationName, scope).value;
    var k := ViewerIndex(r.roots);
    StrippedReads(ts, operationName, scope);
    GraphQLTokens.LexedAreWhole(query, GraphQLTokens.MAX_TOKENS);
    GraphQLTokens.LexedFit(query, GraphQLTokens.MAX_TOKENS);
    var start := r.header + 1 + |Flatten(r.roots[..k])|;
    var end := start + |r.roots[k].tokens|;
    AllWholeCut(ts, start, end);
    GraphQLTokens.JoinLexes(Stripped(ts, r), GraphQLTokens.MAX_TOKENS);
  }

  /** For every accepted query with a viewer, the text sent upstream in its place reads as the same
      query without the viewer; and whatever a server answers, the spliced response is the response
      it would have given to the query as written: the same members in the same order, each with the text that
      the server gave, but for the viewer, whose text names the same login in both. */
  lemma StripPreservesMeaning(query: string, operationName: string, scope: Scope, server: Server, login: string,
                              before: seq<Entry>, after: seq<Entry>)
    requires GraphQLTokens.Tokens(query).Some?
    requires Read(GraphQLTokens.Tokens(query).value, operationName, scope).Some?
    requires var ts := GraphQLTokens.Tokens(query).value;
             var r := Read(ts, operationName, scope).value;
             var k := ViewerIndex(r.roots);
             && k < |r.roots| && r.header + 2 + r.used <= |ts|
             && var viewer := server(Prologue(ts, r), Epilogue(ts, r), r.roots[k]);
             && viewer.Gives? && NamesLogin(viewer.text, login)
    requires DistinctEntries(Reply(before, Null, after))
    ensures var ts := GraphQLTokens.Tokens(query).value;
            var r := Read(ts, operationName, scope).value;
            var k := ViewerIndex(r.roots);
            && Framed(ts, r) && r.header + 1 + |Flatten(r.roots[..k])| + |r.roots[k].tokens| <= |ts|
            && var sent := Stripped(ts, r);
            && GraphQLTokens.Lex(GraphQLTokens.Join(sent), GraphQLTokens.MAX_TOKENS) == Some(sent)
            && Read(sent, operationName, scope).Some?
            && var r' := Read(sent, operationName, scope).value;
            && r'.header + 2 + r'.used <= |sent|
            && var viewer := LocalViewer(r.roots[k].key, Keys(r.roots), login);
            && var out := Spliced(Reply(before, Execute(sent, r', server), after), viewer);
            && out.Some? && |before| < |out.value| && out.value == Reply(before, out.value[|before|].value, after)
            && AlikeData(out.value[|before|].value, Execute(ts, r, server), viewer)
  {
    hide Read, Spliced, DistinctEntries, Reply, Answer, Flatten, Stripped, NamesLogin, AlikeData, GraphQLTokens.Tokens, GraphQLTokens.Lex;
    var ts := GraphQLTokens.Tokens(query).value;
    var r := Read(ts, operationName, scope).value;
    var k := ViewerIndex(r.roots);
    StrippedReads(ts, operationName, scope);
    StrippedLexes(query, operationName, scope);
    ViewerKeysDiffer(ts, operationName, scope);
    var sent := Stripped(ts, r);
    var r' := Read(sent, operationName, scope).value;
    StrippedSize(sent, operationName, scope);
    var resolve := root => server(Prologue(ts, r), Epilogue(ts, r), root);
    SplicedAlike(r.roots, k, resolve, login, before, after);
    SameAnswer(r'.roots, resolve, root => server(Prologue(sent, r'), Epilogue(sent, r'), root));
    SameAnswer(r.roots, resolve, root => server(Prologue(ts, r), Epilogue(ts, r), root));
  }

  // ------------------------------------------------- any answer at all
}
