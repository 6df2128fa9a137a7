/** The grammar that the policy parser accepts (src/string-rewrite-json.ts:15-92), as a correspondence
    between texts and syntax trees. */
module StrictJson {
  import opened Basics
  import GraphQLTokens

  const MAX_DEPTH := 8

  /** `JSON.parse` on one string literal, and `Number` on one number: None if it throws or is refused. */
  datatype Codec = Codec(decode: string -> Option<string>, number: string -> Option<real>)

  datatype Member = Member(key: string, value: Value)

  datatype Value = Null | Bool(b: bool) | Num(n: real) | Str(s: string) | Arr(items: seq<Value>) | Obj(members: seq<Member>)

  /** A text as it is written. Gaps are white space; `gap` is that between empty brackets. */
  datatype Tree =
    | Literal(value: Value)
    | Number(raw: string)
    | Quote(raw: string)
    | List(gap: string, items: seq<Item>)
    | Table(gap: string, entries: seq<Entry>)

  datatype Item = Item(before: string, tree: Tree, after: string)

  datatype Entry = Entry(before: string, key: string, colon: string, between: string, tree: Tree, after: string)

  predicate Space(c: char)
  {
    c == ' ' || c == '\t' || c == '\r' || c == '\n'
  }

  predicate Gap(text: string)
  {
    forall i :: 0 <= i < |text| ==> Space(text[i])
  }

  /** How much white space a text starts with. */
  function Lead(s: string): (n: nat)
    ensures n <= |s| && Gap(s[..n]) && (n < |s| ==> !Space(s[n]))
  {
    if s != "" && Space(s[0]) then
      var n := 1 + Lead(s[1..]);
      assert s[..n] == [s[0]] + s[1..][..n - 1];
      n
    else 0
  }

  function Skip(s: string): (r: string)
    ensures |r| <= |s| && (r != "" ==> !Space(r[0]))
  {
    s[Lead(s)..]
  }

  /** The rest of a string literal after its opening quote, up to its closing one, or 0. */
  function Quoted(q: string): (n: nat)
    ensures n <= |q|
  {
    if q == "" then 0
    else if q[0] == '"' then 1
    else
      var step := if q[0] == '\\' then 2 else 1;
      if |q| < step || Quoted(q[step..]) == 0 then 0 else step + Quoted(q[step..])
  }

  /** `0|[1-9][0-9]*` and what may follow it. */
  function UnsignedRun(q: string): (n: nat)
    ensures n <= |q|
  {
    if q == "" || !GraphQLTokens.Digit(q[0]) then 0
    else
      var whole := if q[0] == '0' then 1 else GraphQLTokens.DigitRun(q);
      whole + GraphQLTokens.TailRun(q[whole..])
  }

  function NumberRun(q: string): (n: nat)
    ensures n <= |q|
  {
    if q != "" && q[0] == '-' then if UnsignedRun(q[1..]) == 0 then 0 else 1 + UnsignedRun(q[1..]) else UnsignedRun(q)
  }

  function LiteralText(v: Value): string
  {
    match v case Bool(true) => "true" case Bool(false) => "false" case _ => "null"
  }

  predicate Starts(s: string, prefix: string)
  {
    |s| >= |prefix| && s[..|prefix|] == prefix
  }

  // ------------------------------------------------- printing

  function Print(t: Tree): string
    decreases t
  {
    match t
    case Literal(v) => LiteralText(v)
    case Number(raw) => raw
    case Quote(raw) => raw
    case List(gap, items) => "[" + (if items == [] then gap + "]" else PrintItems(items))
    case Table(gap, entries) => "{" + (if entries == [] then gap + "}" else PrintEntries(entries))
  }

  /** Items with what separates them, and the closing bracket. */
  function PrintItems(items: seq<Item>): string
    decreases items
  {
    if items == [] then "]"
    else items[0].before + (Print(items[0].tree) + (items[0].after + (if |items| == 1 then "]" else "," + PrintItems(items[1..]))))
  }

  function PrintEntries(entries: seq<Entry>): string
    decreases entries
  {
    if entries == [] then "}"
    else
      var e := entries[0];
      e.before + (e.key + (e.colon + (":" + (e.between + (Print(e.tree) + (e.after + (if |entries| == 1 then "}" else "," + PrintEntries(entries[1..]))))))))
  }

  // ------------------------------------------------- what may be written

  predicate Literally(v: Value) { v.Null? || v.Bool? }

  predicate IsQuote(raw: string, codec: Codec)
  {
    |raw| >= 2 && raw[0] == '"' && Quoted(raw[1..]) == |raw| - 1 && codec.decode(raw).Some?
  }

  /** A tree that the grammar allows at this depth: no deeper than eight, and no key twice. */
  predicate Fits(t: Tree, depth: nat, codec: Codec)
    decreases t
  {
    && depth <= MAX_DEPTH
    && match t
       case Literal(v) => Literally(v)
       case Number(raw) => raw != "" && NumberRun(raw) == |raw| && codec.number(raw).Some?
       case Quote(raw) => IsQuote(raw, codec)
       case List(gap, items) => Gap(gap) && (items != [] ==> gap == "") && ItemsFit(items, depth + 1, codec)
       case Table(gap, entries) => Gap(gap) && (entries != [] ==> gap == "") && EntriesFit(entries, depth + 1, {}, codec)
  }

  predicate ItemsFit(items: seq<Item>, depth: nat, codec: Codec)
    decreases items
  {
    items == [] || (Gap(items[0].before) && Gap(items[0].after) && Fits(items[0].tree, depth, codec) && ItemsFit(items[1..], depth, codec))
  }

  predicate EntriesFit(entries: seq<Entry>, depth: nat, keys: set<string>, codec: Codec)
    decreases entries
  {
    entries == [] ||
    (var e := entries[0];
     && Gap(e.before) && Gap(e.colon) && Gap(e.between) && Gap(e.after)
     && IsQuote(e.key, codec) && codec.decode(e.key).value !in keys
     && Fits(e.tree, depth, codec) && EntriesFit(entries[1..], depth, keys + {codec.decode(e.key).value}, codec))
  }

  // ------------------------------------------------- reading

  datatype Read<+T> = Failed | Took(value: T, rest: string)

  /** A value, from its first character on. */
  function ReadValue(s: string, depth: nat, codec: Codec): (r: Read<Tree>)
    ensures r.Took? ==> |r.rest| < |s|
    decreases |s|, 0
  {
    if depth > MAX_DEPTH || s == "" then Failed
    else if s[0] == '"' then
      (match ReadQuote(s, codec) case Failed => Failed case Took(raw, rest) => Took(Quote(raw), rest))
    else if s[0] == '[' then
      var inside := Skip(s[1..]);
      if inside != "" && inside[0] == ']' then Took(List(s[1..][..Lead(s[1..])], []), inside[1..])
      else (match ReadItems(s[1..], depth + 1, codec) case Failed => Failed case Took(items, rest) => Took(List("", items), rest))
    else if s[0] == '{' then
      var inside := Skip(s[1..]);
      if inside != "" && inside[0] == '}' then Took(Table(s[1..][..Lead(s[1..])], []), inside[1..])
      else (match ReadEntries(s[1..], depth + 1, {}, codec) case Failed => Failed case Took(entries, rest) => Took(Table("", entries), rest))
    else ReadWord(s, codec)
  }

  function ReadQuote(s: string, codec: Codec): (r: Read<string>)
    ensures r.Took? ==> |r.rest| < |s|
  {
    if s == "" || s[0] != '"' || Quoted(s[1..]) == 0 then Failed
    else
      var n := 1 + Quoted(s[1..]);
      if codec.decode(s[..n]).None? then Failed else Took(s[..n], s[n..])
  }

  function ReadWord(s: string, codec: Codec): (r: Read<Tree>)
    ensures r.Took? ==> |r.rest| < |s|
  {
    if Starts(s, "true") then Took(Literal(Bool(true)), s[4..])
    else if Starts(s, "false") then Took(Literal(Bool(false)), s[5..])
    else if Starts(s, "null") then Took(Literal(Null), s[4..])
    else
      var n := NumberRun(s);
      if n == 0 || codec.number(s[..n]).None? then Failed else Took(Number(s[..n]), s[n..])
  }

  /** Items after an opening bracket or a comma, and the closing bracket. */
  function ReadItems(s: string, depth: nat, codec: Codec): (r: Read<seq<Item>>)
    ensures r.Took? ==> |r.rest| < |s|
    decreases |s|, 2
  {
    match ReadItem(s, depth, codec)
    case Failed => Failed
    case Took(item, rest) => AfterItem(item, rest, depth, codec)
  }

  function ReadItem(s: string, depth: nat, codec: Codec): (r: Read<Item>)
    ensures r.Took? ==> |r.rest| < |s|
    decreases |s|, 1
  {
    match ReadValue(Skip(s), depth, codec)
    case Failed => Failed
    case Took(t, rest) => Took(Item(s[..Lead(s)], t, rest[..Lead(rest)]), Skip(rest))
  }

  function AfterItem(item: Item, rest: string, depth: nat, codec: Codec): (r: Read<seq<Item>>)
    ensures r.Took? ==> |r.rest| < |rest|
    decreases |rest|, 3
  {
    if rest == "" then Failed
    else if rest[0] == ']' then Took([item], rest[1..])
    else if rest[0] == ',' then
      (match ReadItems(rest[1..], depth, codec) case Failed => Failed case Took(items, last) => Took([item] + items, last))
    else Failed
  }

  function ReadEntries(s: string, depth: nat, keys: set<string>, codec: Codec): (r: Read<seq<Entry>>)
    ensures r.Took? ==> |r.rest| < |s|
    decreases |s|, 2
  {
    match ReadEntry(s, depth, keys, codec)
    case Failed => Failed
    case Took(entry, rest) =>
      if codec.decode(entry.key).None? then Failed
      else AfterEntry(entry, rest, depth, keys + {codec.decode(entry.key).value}, codec)
  }

  /** A key that is new, a colon and a value. */
  function ReadEntry(s: string, depth: nat, keys: set<string>, codec: Codec): (r: Read<Entry>)
    ensures r.Took? ==> |r.rest| < |s|
    decreases |s|, 1
  {
    match ReadQuote(Skip(s), codec)
    case Failed => Failed
    case Took(key, rest) =>
      if codec.decode(key).None? || codec.decode(key).value in keys || Skip(rest) == "" || Skip(rest)[0] != ':' then Failed
      else
        var tail := Skip(rest)[1..];
        match ReadValue(Skip(tail), depth, codec)
        case Failed => Failed
        case Took(t, last) =>
          Took(Entry(s[..Lead(s)], key, rest[..Lead(rest)], tail[..Lead(tail)], t, last[..Lead(last)]), Skip(last))
  }

  function AfterEntry(entry: Entry, rest: string, depth: nat, keys: set<string>, codec: Codec): (r: Read<seq<Entry>>)
    ensures r.Took? ==> |r.rest| < |rest|
    decreases |rest|, 3
  {
    if rest == "" then Failed
    else if rest[0] == '}' then Took([entry], rest[1..])
    else if rest[0] == ',' then
      (match ReadEntries(rest[1..], depth, keys, codec) case Failed => Failed case Took(entries, last) => Took([entry] + entries, last))
    else Failed
  }

  // ------------------------------------------------- values

  function ValueOf(t: Tree, codec: Codec): Value
    decreases t
  {
    match t
    case Literal(v) => v
    case Number(raw) => (match codec.number(raw) case Some(n) => Num(n) case None => Null)
    case Quote(raw) => (match codec.decode(raw) case Some(s) => Str(s) case None => Null)
    case List(_, items) => Arr(ItemValues(items, codec))
    case Table(_, entries) => Obj(EntryMembers(entries, codec))
  }

  function ItemValues(items: seq<Item>, codec: Codec): seq<Value>
    decreases items
  {
    if items == [] then [] else [ValueOf(items[0].tree, codec)] + ItemValues(items[1..], codec)
  }

  function EntryMembers(entries: seq<Entry>, codec: Codec): seq<Member>
    decreases entries
  {
    if entries == [] then []
    else [Member(match codec.decode(entries[0].key) case Some(s) => s case None => "", ValueOf(entries[0].tree, codec))]
         + EntryMembers(entries[1..], codec)
  }

  /** `parseStringRewriteJSON`: None where the original throws. */
  function Parse(text: string, codec: Codec): Option<Value>
  {
    match ReadValue(Skip(text), 0, codec)
    case Failed => None
    case Took(t, rest) => if Skip(rest) == "" then Some(ValueOf(t, codec)) else None
  }

  /** Nested at most `room` levels below itself, and no object with a key twice, at any level. */
  predicate Strict(v: Value, room: int)
    decreases v
  {
    && room >= 0
    && match v
       case Arr(items) => AllStrict(items, room - 1)
       case Obj(members) => MembersStrict(members, {}, room - 1)
       case _ => true
  }

  predicate AllStrict(items: seq<Value>, room: int)
    decreases items
  {
    items == [] || (Strict(items[0], room) && AllStrict(items[1..], room))
  }

  predicate MembersStrict(members: seq<Member>, keys: set<string>, room: int)
    decreases members
  {
    members == [] ||
    (members[0].key !in keys && Strict(members[0].value, room) && MembersStrict(members[1..], keys + {members[0].key}, room))
  }
}
