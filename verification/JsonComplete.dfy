/** What is written is read: every printing of a tree that fits is read as that tree. */
module JsonComplete {
  import opened Basics
  import opened StrictJson
  import opened JsonSound
  import GraphQLTokens

  /** How the text of a value may start. */
  predicate Opens(text: string)
  {
    text != "" && !Space(text[0]) && text[0] != ']' && text[0] != '}' && text[0] != ',' && text[0] != ':'
  }

  lemma TreesOpen(t: Tree, depth: nat, codec: Codec)
    requires Fits(t, depth, codec)
    ensures Opens(Print(t))
  {
  }

  lemma OpensBefore(text: string, rest: string)
    requires Opens(text)
    ensures Opens(text + rest) && (text + rest)[0] == text[0]
  {
  }

  lemma {:induction false} GapSkips(gap: string, rest: string)
    requires Gap(gap) && (rest == "" || !Space(rest[0]))
    ensures Lead(gap + rest) == |gap| && Skip(gap + rest) == rest && (gap + rest)[..|gap|] == gap
  {
    if gap == "" {
      assert gap + rest == rest;
    } else {
      assert Gap(gap[1..]);
      GapSkips(gap[1..], rest);
      assert (gap + rest)[1..] == gap[1..] + rest;
    }
  }

  lemma GapNotNumeric(gap: string, rest: string)
    requires Gap(gap) && GraphQLTokens.NotNumeric(rest)
    ensures GraphQLTokens.NotNumeric(gap + rest)
  {
    if gap == "" { assert gap + rest == rest; } else { assert Space(gap[0]) && (gap + rest)[0] == gap[0]; }
  }

  lemma CompleteQuote(raw: string, rest: string, codec: Codec)
    requires IsQuote(raw, codec)
    ensures ReadQuote(raw + rest, codec) == Took(raw, rest)
  {
    QuotedStops(raw[1..], rest);
    assert raw[1..][..|raw| - 1] == raw[1..];
    assert (raw + rest)[1..] == raw[1..] + rest;
    assert (raw + rest)[..|raw|] == raw && (raw + rest)[|raw|..] == rest;
  }

  lemma CompleteLiteral(v: Value, rest: string, codec: Codec)
    requires Literally(v)
    ensures ReadWord(LiteralText(v) + rest, codec) == Took(Literal(v), rest)
  {
    var text := LiteralText(v);
    assert (text + rest)[..|text|] == text && (text + rest)[|text|..] == rest;
    assert (text + rest)[0] == text[0];
    if v == Bool(false) { assert (text + rest)[..4] != "true"; }
    if v == Null { assert (text + rest)[..4] != "true" && (|text + rest| >= 5 ==> (text + rest)[..5][0] == 'n'); }
  }

  lemma NotAWord(s: string)
    requires s != "" && (s[0] == '-' || GraphQLTokens.Digit(s[0]))
    ensures !Starts(s, "true") && !Starts(s, "false") && !Starts(s, "null")
  {
    if |s| >= 4 { assert s[..4][0] == s[0]; }
    if |s| >= 5 { assert s[..5][0] == s[0]; }
  }

  lemma CompleteNumber(raw: string, rest: string, codec: Codec)
    requires raw != "" && NumberRun(raw) == |raw| && codec.number(raw).Some? && GraphQLTokens.NotNumeric(rest)
    ensures ReadWord(raw + rest, codec) == Took(Number(raw), rest)
  {
    var s := raw + rest;
    NumberRunStops(raw, rest);
    assert raw[..|raw|] == raw;
    assert s[..|raw|] == raw && s[|raw|..] == rest && s[0] == raw[0];
    NotAWord(s);
  }

  lemma NumberOpens(raw: string)
    requires raw != "" && NumberRun(raw) == |raw|
    ensures raw[0] == '-' || GraphQLTokens.Digit(raw[0])
  {
  }

  lemma QuoteOpens(raw: string, codec: Codec)
    requires IsQuote(raw, codec)
    ensures raw != "" && raw[0] == '"'
  {
  }

  lemma CompleteAtom(t: Tree, depth: nat, rest: string, codec: Codec)
    requires Fits(t, depth, codec) && GraphQLTokens.NotNumeric(rest) && !t.List? && !t.Table?
    ensures ReadValue(Print(t) + rest, depth, codec) == Took(t, rest)
  {
    hide ReadWord, ReadQuote, IsQuote, NumberRun;
    var s := Print(t) + rest;
    match t
    case Literal(v) => CompleteLiteral(v, rest, codec); assert s[0] == LiteralText(v)[0];
    case Number(raw) => CompleteNumber(raw, rest, codec); NumberOpens(raw); assert s[0] == raw[0];
    case Quote(raw) => CompleteQuote(raw, rest, codec); QuoteOpens(raw, codec); assert s[0] == raw[0];
  }

  lemma Opened(open: char, inside: string)
    ensures ([open] + inside)[0] == open && ([open] + inside)[1..] == inside
  {
  }

  lemma Empties(open: char, close: char, gap: string, rest: string)
    requires Gap(gap) && !Space(close)
    ensures var s := [open] + (gap + ([close] + rest));
            && s[0] == open && s[1..] == gap + ([close] + rest)
            && Skip(s[1..]) == [close] + rest && s[1..][..Lead(s[1..])] == gap && Skip(s[1..])[1..] == rest
  {
    Opened(open, gap + ([close] + rest));
    GapSkips(gap, [close] + rest);
  }

  lemma CompleteEmpty(t: Tree, depth: nat, rest: string, codec: Codec)
    requires Fits(t, depth, codec) && (t.List? || t.Table?) && (t.List? ==> t.items == []) && (t.Table? ==> t.entries == [])
    ensures ReadValue(Print(t) + rest, depth, codec) == Took(t, rest)
  {
    hide Lead, Skip, ReadItems, ReadEntries;
    var (open, close) := if t.List? then ('[', ']') else ('{', '}');
    Closed([open], t.gap, [close], rest);
    Empties(open, close, t.gap, rest);
  }

  lemma CompleteBrackets(t: Tree, depth: nat, rest: string, codec: Codec)
    requires Fits(t, depth, codec) && (t.List? || t.Table?)
    requires t.List? ==> t.items != [] && ReadItems(PrintItems(t.items) + rest, depth + 1, codec) == Took(t.items, rest)
                         && Skip(PrintItems(t.items) + rest) != "" && Skip(PrintItems(t.items) + rest)[0] != ']'
    requires t.Table? ==> t.entries != [] && ReadEntries(PrintEntries(t.entries) + rest, depth + 1, {}, codec) == Took(t.entries, rest)
                          && Skip(PrintEntries(t.entries) + rest) != "" && Skip(PrintEntries(t.entries) + rest)[0] != '}'
    ensures ReadValue(Print(t) + rest, depth, codec) == Took(t, rest)
  {
    hide ReadItems, ReadEntries, PrintItems, PrintEntries, ItemsFit, EntriesFit, Lead, Skip, Gap;
    if t.List? {
      Regroup("[", PrintItems(t.items), rest);
      Opened('[', PrintItems(t.items) + rest);
    } else {
      Regroup("{", PrintEntries(t.entries), rest);
      Opened('{', PrintEntries(t.entries) + rest);
    }
  }

  lemma {:induction false} CompleteValue(t: Tree, depth: nat, rest: string, codec: Codec)
    requires Fits(t, depth, codec) && GraphQLTokens.NotNumeric(rest)
    ensures ReadValue(Print(t) + rest, depth, codec) == Took(t, rest)
    decreases t
  {
    hide ReadValue, Print, PrintItems, PrintEntries, ReadItems, ReadEntries, ItemsFit, EntriesFit, Skip;
    match t
    case List(gap, items) =>
      if items == [] {
        CompleteEmpty(t, depth, rest, codec);
      } else {
        CompleteItems(items, depth + 1, rest, codec);
        CompleteBrackets(t, depth, rest, codec);
      }
    case Table(gap, entries) =>
      if entries == [] {
        CompleteEmpty(t, depth, rest, codec);
      } else {
        CompleteEntries(entries, depth + 1, {}, rest, codec);
        CompleteBrackets(t, depth, rest, codec);
      }
    case _ => CompleteAtom(t, depth, rest, codec);
  }

  lemma {:induction false} CompleteItem(item: Item, depth: nat, tail: string, codec: Codec)
    requires Gap(item.before) && Gap(item.after) && Fits(item.tree, depth, codec)
    requires tail != "" && !Space(tail[0]) && GraphQLTokens.NotNumeric(tail)
    ensures ReadItem(item.before + (Print(item.tree) + (item.after + tail)), depth, codec) == Took(item, tail)
    ensures var s := Skip(item.before + (Print(item.tree) + (item.after + tail))); s != "" && s[0] != ']'
    decreases item, 0
  {
    hide ReadValue, Print, Fits, Lead;
    TreesOpen(item.tree, depth, codec);
    OpensBefore(Print(item.tree), item.after + tail);
    GapSkips(item.before, Print(item.tree) + (item.after + tail));
    GapNotNumeric(item.after, tail);
    CompleteValue(item.tree, depth, item.after + tail, codec);
    GapSkips(item.after, tail);
  }

  lemma {:induction false} CompleteItems(items: seq<Item>, depth: nat, rest: string, codec: Codec)
    requires items != [] && ItemsFit(items, depth, codec)
    ensures ReadItems(PrintItems(items) + rest, depth, codec) == Took(items, rest)
    ensures Skip(PrintItems(items) + rest) != "" && Skip(PrintItems(items) + rest)[0] != ']'
    decreases items
  {
    hide ReadItem, Print, PrintItems, Fits, Lead, Skip, Gap;
    var item := items[0];
    assert items == [item] + items[1..];
    if |items| == 1 {
      ItemPrinted(item, rest);
      assert items == [item];
      Opened(']', rest);
      CompleteItem(item, depth, "]" + rest, codec);
    } else {
      ItemsPrinted(item, items[1..], rest);
      CompleteItems(items[1..], depth, rest, codec);
      var tail := PrintItems(items[1..]) + rest;
      Opened(',', tail);
      CompleteItem(item, depth, "," + tail, codec);
    }
  }

  lemma {:induction false} CompleteEntry(e: Entry, depth: nat, keys: set<string>, tail: string, codec: Codec)
    requires Gap(e.before) && Gap(e.colon) && Gap(e.between) && Gap(e.after)
    requires IsQuote(e.key, codec) && codec.decode(e.key).Some? && codec.decode(e.key).value !in keys && Fits(e.tree, depth, codec)
    requires tail != "" && !Space(tail[0]) && GraphQLTokens.NotNumeric(tail)
    ensures var s := e.before + (e.key + (e.colon + (":" + (e.between + (Print(e.tree) + (e.after + tail))))));
            ReadEntry(s, depth, keys, codec) == Took(e, tail) && Skip(s) != "" && Skip(s)[0] != '}'
    decreases e, 0
  {
    hide ReadValue, ReadQuote, Print, Fits, Lead;
    QuoteOpens(e.key, codec);
    hide IsQuote;
    var value := Print(e.tree) + (e.after + tail);
    var last := ":" + (e.between + value);
    assert (e.key + (e.colon + last))[0] == '"';
    GapSkips(e.before, e.key + (e.colon + last));
    CompleteQuote(e.key, e.colon + last, codec);
    Opened(':', e.between + value);
    GapSkips(e.colon, last);
    TreesOpen(e.tree, depth, codec);
    OpensBefore(Print(e.tree), e.after + tail);
    GapSkips(e.between, value);
    GapNotNumeric(e.after, tail);
    CompleteValue(e.tree, depth, e.after + tail, codec);
    GapSkips(e.after, tail);
  }

  lemma QuoteDecodes(raw: string, codec: Codec)
    requires IsQuote(raw, codec)
    ensures codec.decode(raw).Some?
  {
  }

  lemma {:induction false} CompleteEntries(entries: seq<Entry>, depth: nat, keys: set<string>, rest: string, codec: Codec)
    requires entries != [] && EntriesFit(entries, depth, keys, codec)
    ensures ReadEntries(PrintEntries(entries) + rest, depth, keys, codec) == Took(entries, rest)
    ensures Skip(PrintEntries(entries) + rest) != "" && Skip(PrintEntries(entries) + rest)[0] != '}'
    decreases entries
  {
    hide ReadEntry, Print, PrintEntries, Fits, Lead, Skip, Gap;
    var e := entries[0];
    assert entries == [e] + entries[1..];
    QuoteDecodes(e.key, codec);
    hide IsQuote;
    if |entries| == 1 {
      EntryPrinted(e, rest);
      assert entries == [e];
      Opened('}', rest);
      CompleteEntry(e, depth, keys, "}" + rest, codec);
    } else {
      EntriesPrinted(e, entries[1..], rest);
      CompleteEntries(entries[1..], depth, keys + {codec.decode(e.key).value}, rest, codec);
      var tail := PrintEntries(entries[1..]) + rest;
      Opened(',', tail);
      CompleteEntry(e, depth, keys, "," + tail, codec);
    }
  }
}
