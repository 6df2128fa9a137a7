/** The policy parser itself: a position that moves over the text (src/string-rewrite-json.ts:17-91). */
module JsonParser {
  import opened Basics
  import opened StrictJson

  lemma QuotedStep(q: string)
    requires q != ""
    ensures Quoted(q) == if q[0] == '"' then 1
                         else
                           var step := if q[0] == '\\' then 2 else 1;
                           if |q| < step then 0 else Longer(step, Quoted(q[step..]))
  {
  }

  lemma NotQuoted(q: string)
    ensures q == "" ==> Quoted(q) == 0
  {
  }

  lemma NoItems(s: string, depth: nat, codec: Codec)
    ensures ReadItems(s, depth, codec) == MoreItems([], ReadItems(s, depth, codec)) && ItemValues([], codec) == []
  {
    hide ReadItems;
    var r := ReadItems(s, depth, codec);
    if r.Took? { assert [] + r.value == r.value; }
  }

  lemma NoEntries(s: string, depth: nat, codec: Codec)
    ensures ReadEntries(s, depth, {}, codec) == MoreEntries([], ReadEntries(s, depth, {}, codec)) && EntryMembers([], codec) == []
  {
    hide ReadEntries;
    var r := ReadEntries(s, depth, {}, codec);
    if r.Took? { assert [] + r.value == r.value; }
  }

  lemma SkipTwice(s: string)
    ensures Skip(Skip(s)) == Skip(s)
  {
  }

  lemma NotAQuote(s: string, codec: Codec)
    requires s == "" || s[0] != '"'
    ensures ReadQuote(s, codec).Failed?
  {
  }

  /** White space after the bracket belongs to the first item. */
  lemma ItemsAfterGap(s: string, depth: nat, codec: Codec)
    ensures var (whole, bare) := (ReadItems(s, depth, codec), ReadItems(Skip(s), depth, codec));
            if bare.Failed? then whole.Failed?
            else whole.Took? && whole.rest == bare.rest && ItemValues(whole.value, codec) == ItemValues(bare.value, codec)
  {
    hide ReadValue;
    SkipTwice(s);
  }

  lemma EntriesAfterGap(s: string, depth: nat, codec: Codec)
    ensures var (whole, bare) := (ReadEntries(s, depth, {}, codec), ReadEntries(Skip(s), depth, {}, codec));
            if bare.Failed? then whole.Failed?
            else whole.Took? && whole.rest == bare.rest && EntryMembers(whole.value, codec) == EntryMembers(bare.value, codec)
  {
    hide ReadValue, ReadQuote;
    SkipTwice(s);
  }

  lemma ItemsStep(s: string, depth: nat, done: seq<Item>, codec: Codec)
    ensures var read := ReadValue(Skip(s), depth, codec);
            if read.Failed? then MoreItems(done, ReadItems(s, depth, codec)) == Failed
            else
              var item := Item(s[..Lead(s)], read.value, read.rest[..Lead(read.rest)]);
              ReadItems(s, depth, codec) == AfterItem(item, Skip(read.rest), depth, codec)
  {
    hide ReadValue, Lead, Skip;
  }

  lemma AfterItemStep(item: Item, rest: string, depth: nat, done: seq<Item>, codec: Codec)
    ensures var after := MoreItems(done, AfterItem(item, rest, depth, codec));
            && (rest == "" || (rest[0] != ',' && rest[0] != ']') ==> after == Failed)
            && (rest != "" && rest[0] == ']' ==> after == Took(done + [item], rest[1..]))
            && (rest != "" && rest[0] == ',' ==> after == MoreItems(done + [item], ReadItems(rest[1..], depth, codec)))
  {
    hide ReadItems;
    if rest != "" && rest[0] == ',' && ReadItems(rest[1..], depth, codec).Took? {
      var items := ReadItems(rest[1..], depth, codec).value;
      assert done + ([item] + items) == (done + [item]) + items;
    }
  }

  lemma {:induction false} ItemValuesAdd(done: seq<Item>, item: Item, codec: Codec)
    ensures ItemValues(done + [item], codec) == ItemValues(done, codec) + [ValueOf(item.tree, codec)]
  {
    hide ValueOf;
    if done != [] {
      ItemValuesAdd(done[1..], item, codec);
      assert (done + [item])[1..] == done[1..] + [item];
    }
  }

  lemma EntriesStep(s: string, depth: nat, keys: set<string>, done: seq<Entry>, codec: Codec)
    ensures var read := ReadEntry(s, depth, keys, codec);
            && (read.Failed? ==> MoreEntries(done, ReadEntries(s, depth, keys, codec)) == Failed)
            && (read.Took? && codec.decode(read.value.key).Some? ==>
                  ReadEntries(s, depth, keys, codec)
                  == AfterEntry(read.value, read.rest, depth, keys + {codec.decode(read.value.key).value}, codec))
  {
    hide ReadEntry;
  }

  lemma AfterEntryStep(entry: Entry, rest: string, depth: nat, keys: set<string>, done: seq<Entry>, codec: Codec)
    ensures var after := MoreEntries(done, AfterEntry(entry, rest, depth, keys, codec));
            && (rest == "" || (rest[0] != ',' && rest[0] != '}') ==> after == Failed)
            && (rest != "" && rest[0] == '}' ==> after == Took(done + [entry], rest[1..]))
            && (rest != "" && rest[0] == ',' ==> after == MoreEntries(done + [entry], ReadEntries(rest[1..], depth, keys, codec)))
  {
    hide ReadEntries;
    if rest != "" && rest[0] == ',' && ReadEntries(rest[1..], depth, keys, codec).Took? {
      var entries := ReadEntries(rest[1..], depth, keys, codec).value;
      assert done + ([entry] + entries) == (done + [entry]) + entries;
    }
  }

  lemma {:induction false} EntryMembersAdd(done: seq<Entry>, entry: Entry, codec: Codec)
    requires codec.decode(entry.key).Some?
    ensures EntryMembers(done + [entry], codec)
            == EntryMembers(done, codec) + [Member(codec.decode(entry.key).value, ValueOf(entry.tree, codec))]
  {
    hide ValueOf;
    if done != [] {
      EntryMembersAdd(done[1..], entry, codec);
      assert (done + [entry])[1..] == done[1..] + [entry];
    }
  }

  class JsonParser {
    const text: string
    const codec: Codec
    var position: nat

    ghost predicate Valid()
      reads this
    {
      position <= |text|
    }

    ghost function Rest(): string
      requires Valid()
      reads this
    {
      text[position..]
    }

    constructor (text: string, codec: Codec)
      ensures Valid() && this.text == text && this.codec == codec && position == 0
    {
      this.text, this.codec, position := text, codec, 0;
    }

    method Whitespace()
      requires Valid()
      modifies this
      ensures Valid() && position >= old(position) && Rest() == Skip(old(Rest()))
    {
      while position < |text| && Space(text[position])
        invariant old(position) <= position <= |text| && Skip(Rest()) == Skip(old(Rest()))
      {
        assert Rest()[1..] == text[position + 1..];
        position := position + 1;
      }
    }

    /** A string literal from its opening quote on. */
    method String() returns (value: Option<string>)
      requires Valid() && position < |text| && text[position] == '"'
      modifies this
      ensures Valid() && position > old(position)
      ensures var read := ReadQuote(old(Rest()), codec);
              if value.None? then read.Failed?
              else read.Took? && codec.decode(read.value) == value && Rest() == read.rest
    {
      hide Quoted;
      var start := position;
      position := position + 1;
      ghost var inside := text[position..];
      assert text[start..][1..] == inside;
      while position < |text|
        invariant start < position <= |text|
        invariant Quoted(inside) == Longer(position - start - 1, Quoted(text[position..]))
        decreases |text| - position
      {
        var c := text[position];
        ghost var here := position;
        QuotedStep(text[here..]);
        position := position + 1;
        if c == '\\' {
          if position == |text| { return None; }
          position := position + 1;
          assert text[here..][2..] == text[position..];
        } else if c == '"' {
          assert text[start..][..position - start] == text[start..position];
          assert text[start..][position - start..] == text[position..];
          value := codec.decode(text[start..position]);
          return;
        } else {
          assert text[here..][1..] == text[position..];
        }
      }
      NotQuoted(text[position..]);
      return None;
    }

    /** A value, after any white space before it. */
    method Value(depth: nat) returns (value: Option<Value>)
      requires Valid()
      modifies this
      ensures Valid() && position >= old(position)
      ensures var read := ReadValue(Skip(old(Rest())), depth, codec);
              if value.None? then read.Failed?
              else read.Took? && value.value == ValueOf(read.value, codec) && Rest() == read.rest && position > old(position)
      decreases |text| - position, 1
    {
      hide ReadQuote, ReadItems, ReadEntries, ReadWord, Skip, Quoted;
      if depth > MAX_DEPTH { return None; }
      Whitespace();
      ghost var s := Rest();
      if position == |text| { return None; }
      var c := text[position];
      if c == '"' {
        var quote := String();
        if quote == None { return None; }
        return Some(Str(quote.value));
      }
      if c == '[' || c == '{' {
        var start := position;
        position := position + 1;
        ghost var inside := Rest();
        assert inside == s[1..];
        Whitespace();
        assert Skip(Rest()) == Rest() by { SkipTwice(inside); }
        var closing := if c == '{' then '}' else ']';
        if position < |text| && text[position] == closing {
          position := position + 1;
          value := Some(if c == '{' then Obj([]) else Arr([]));
          assert Rest() == Skip(inside)[1..];
          return;
        }
        if c == '[' {
          ItemsAfterGap(inside, depth + 1, codec);
          var items := Items(depth + 1);
          if items == None { return None; }
          return Some(Arr(items.value));
        }
        EntriesAfterGap(inside, depth + 1, codec);
        var members := Members(depth + 1);
        if members == None { return None; }
        return Some(Obj(members.value));
      }
      value := Word();
    }

    /** A literal or a number. */
    method Word() returns (value: Option<Value>)
      requires Valid()
      modifies this
      ensures Valid() && position >= old(position)
      ensures var read := ReadWord(old(Rest()), codec);
              if value.None? then read.Failed?
              else read.Took? && value.value == ValueOf(read.value, codec) && Rest() == read.rest && position > old(position)
    {
      ghost var s := Rest();
      if Starts(text[position..], "true") {
        position := position + 4;
        assert Rest() == s[4..];
        return Some(Bool(true));
      }
      if Starts(text[position..], "false") {
        position := position + 5;
        assert Rest() == s[5..];
        return Some(Bool(false));
      }
      if Starts(text[position..], "null") {
        position := position + 4;
        assert Rest() == s[4..];
        return Some(Null);
      }
      var n := NumberRun(text[position..]);
      if n == 0 { return None; }
      var parsed := codec.number(text[position..][..n]);
      if parsed == None { return None; }
      position := position + n;
      assert Rest() == s[n..];
      return Some(Num(parsed.value));
    }

    /** The items of an array that is not empty, and its closing bracket. */
    method Items(depth: nat) returns (items: Option<seq<Value>>)
      requires Valid()
      modifies this
      ensures Valid() && position >= old(position)
      ensures var read := ReadItems(old(Rest()), depth, codec);
              if items.None? then read.Failed?
              else read.Took? && items.value == ItemValues(read.value, codec) && Rest() == read.rest && position > old(position)
      decreases |text| - position, 2
    {
      hide ReadValue, ReadItems, Lead, Skip, ItemValues;
      var elements: seq<Value> := [];
      ghost var done: seq<Item> := [];
      NoItems(Rest(), depth, codec);
      while true
        invariant old(position) <= position <= |text|
        invariant ReadItems(old(Rest()), depth, codec) == MoreItems(done, ReadItems(Rest(), depth, codec))
        invariant elements == ItemValues(done, codec)
        decreases |text| - position
      {
        ghost var s := Rest();
        var value := Value(depth);
        ItemsStep(s, depth, done, codec);
        if value == None { return None; }
        elements := elements + [value.value];
        ghost var read := ReadValue(Skip(s), depth, codec);
        Whitespace();
        ghost var item := Item(s[..Lead(s)], read.value, read.rest[..Lead(read.rest)]);
        AfterItemStep(item, Rest(), depth, done, codec);
        ItemValuesAdd(done, item, codec);
        done := done + [item];
        if position == |text| || text[position] != ',' { break; }
        position := position + 1;
        assert Rest() == Skip(read.rest)[1..];
      }
      if position == |text| || text[position] != ']' { return None; }
      ghost var last := Rest();
      position := position + 1;
      assert Rest() == last[1..];
      return Some(elements);
    }

    /** The members of an object that is not empty, and its closing brace. */
    method Members(depth: nat) returns (members: Option<seq<Member>>)
      requires Valid()
      modifies this
      ensures Valid() && position >= old(position)
      ensures var read := ReadEntries(old(Rest()), depth, {}, codec);
              if members.None? then read.Failed?
              else read.Took? && members.value == EntryMembers(read.value, codec) && Rest() == read.rest && position > old(position)
      decreases |text| - position, 2
    {
      hide ReadValue, ReadQuote, ReadEntries, ReadEntry, Lead, Skip, EntryMembers;
      var found: seq<Member> := [];
      var keys: set<string> := {};
      ghost var done: seq<Entry> := [];
      NoEntries(Rest(), depth, codec);
      while true
        invariant old(position) <= position <= |text|
        invariant ReadEntries(old(Rest()), depth, {}, codec) == MoreEntries(done, ReadEntries(Rest(), depth, keys, codec))
        invariant found == EntryMembers(done, codec)
        decreases |text| - position
      {
        ghost var s := Rest();
        EntriesStep(s, depth, keys, done, codec);
        var member := OneMember(depth, keys);
        if member == None { return None; }
        ghost var entry := ReadEntry(s, depth, keys, codec).value;
        found := found + [member.value];
        keys := keys + {member.value.key};
        AfterEntryStep(entry, Rest(), depth, keys, done, codec);
        EntryMembersAdd(done, entry, codec);
        done := done + [entry];
        if position == |text| || text[position] != ',' { break; }
        ghost var last := Rest();
        position := position + 1;
        assert Rest() == last[1..];
      }
      if position == |text| || text[position] != '}' { return None; }
      ghost var last := Rest();
      position := position + 1;
      assert Rest() == last[1..];
      return Some(found);
    }

    /** A key that is new, a colon, a value, and the white space around them. */
    method OneMember(depth: nat, keys: set<string>) returns (member: Option<Member>)
      requires Valid()
      modifies this
      ensures Valid() && position >= old(position)
      ensures var read := ReadEntry(old(Rest()), depth, keys, codec);
              if member.None? then read.Failed?
              else
                && read.Took? && codec.decode(read.value.key) == Some(member.value.key) && member.value.key !in keys
                && member.value.value == ValueOf(read.value.tree, codec) && Rest() == read.rest && position > old(position)
      decreases |text| - position, 1
    {
      hide ReadValue, ReadQuote, Lead, Skip, Quoted;
      ghost var s := Rest();
      Whitespace();
      if position == |text| || text[position] != '"' {
        NotAQuote(Rest(), codec);
        return None;
      }
      var key := String();
      if key == None || key.value in keys { return None; }
      Whitespace();
      if position == |text| || text[position] != ':' { return None; }
      ghost var colon := Rest();
      position := position + 1;
      assert Rest() == colon[1..];
      var value := Value(depth);
      if value == None { return None; }
      Whitespace();
      return Some(Member(key.value, value.value));
    }
  }

  method ParseStringRewriteJSON(text: string, codec: Codec) returns (value: Option<Value>)
    ensures value == Parse(text, codec)
  {
    hide ReadValue, Skip, ValueOf;
    var parser := new JsonParser(text, codec);
    assert parser.Rest() == text;
    value := parser.Value(0);
    if value == None { return None; }
    parser.Whitespace();
    if parser.position != |text| { return None; }
  }

  // ------------------------------------------------- one round of each loop

  /** The length of a literal whose first `n` characters are read, if the rest closes it. */
  function Longer(n: nat, rest: nat): nat
  {
    if rest == 0 then 0 else n + rest
  }

  function MoreItems(done: seq<Item>, r: Read<seq<Item>>): Read<seq<Item>>
  {
    match r case Failed => Failed case Took(items, rest) => Took(done + items, rest)
  }

  function MoreEntries(done: seq<Entry>, r: Read<seq<Entry>>): Read<seq<Entry>>
  {
    match r case Failed => Failed case Took(entries, rest) => Took(done + entries, rest)
  }
}
