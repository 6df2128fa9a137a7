/** What the policy grammar reads is what was written: a text that is read prints the tree that is read. */
module JsonSound {
  import opened Basics
  import opened StrictJson
  import GraphQLTokens

  lemma Split(s: string, n: nat)
    requires n <= |s|
    ensures s[..n] + s[n..] == s
  {
  }

  lemma Nest4<T>(a: seq<T>, b: seq<T>, c: seq<T>, d: seq<T>, r: seq<T>)
    ensures (a + (b + (c + d))) + r == a + (b + (c + (d + r)))
  {
    Regroup(c, d, r);
    Regroup(b, c + d, r);
    Regroup(a, b + (c + d), r);
  }

  lemma Nest8<T>(a: seq<T>, b: seq<T>, c: seq<T>, d: seq<T>, e: seq<T>, f: seq<T>, g: seq<T>, h: seq<T>, r: seq<T>)
    ensures (a + (b + (c + (d + (e + (f + (g + h))))))) + r == a + (b + (c + (d + (e + (f + (g + (h + r)))))))
  {
    Nest4(e, f, g, h, r);
    Nest4(a, b, c, d + (e + (f + (g + h))), r);
    Regroup(d, e + (f + (g + h)), r);
  }

  lemma Leading(s: string)
    ensures s == s[..Lead(s)] + Skip(s) && Gap(s[..Lead(s)])
  {
  }

  /** Items, and what is printed for them before the rest of a text. */
  lemma ItemsPrinted(item: Item, items: seq<Item>, rest: string)
    requires items != []
    ensures PrintItems([item]) + rest == item.before + (Print(item.tree) + (item.after + ("]" + rest)))
    ensures PrintItems([item] + items) + rest == item.before + (Print(item.tree) + (item.after + ("," + (PrintItems(items) + rest))))
  {
    Nest4(item.before, Print(item.tree), item.after, "]", rest);
    assert ([item] + items)[1..] == items;
    Nest4(item.before, Print(item.tree), item.after, "," + PrintItems(items), rest);
    Regroup(",", PrintItems(items), rest);
  }

  lemma ItemPrinted(item: Item, rest: string)
    ensures PrintItems([item]) + rest == item.before + (Print(item.tree) + (item.after + ("]" + rest)))
  {
    Nest4(item.before, Print(item.tree), item.after, "]", rest);
  }

  lemma EntryPrinted(e: Entry, rest: string)
    ensures PrintEntries([e]) + rest
            == e.before + (e.key + (e.colon + (":" + (e.between + (Print(e.tree) + (e.after + ("}" + rest)))))))
  {
    Nest8(e.before, e.key, e.colon, ":", e.between, Print(e.tree), e.after, "}", rest);
  }

  lemma EntriesPrinted(e: Entry, entries: seq<Entry>, rest: string)
    requires entries != []
    ensures PrintEntries([e] + entries) + rest
            == e.before + (e.key + (e.colon + (":" + (e.between + (Print(e.tree) + (e.after + ("," + (PrintEntries(entries) + rest))))))))
  {
    assert ([e] + entries)[1..] == entries;
    Nest8(e.before, e.key, e.colon, ":", e.between, Print(e.tree), e.after, "," + PrintEntries(entries), rest);
    Regroup(",", PrintEntries(entries), rest);
  }

  lemma FirstIs(s: string, c: char)
    requires s != "" && s[0] == c
    ensures s == [c] + s[1..]
  {
  }

  lemma Closed(open: string, gap: string, close: string, rest: string)
    ensures (open + (gap + close)) + rest == open + (gap + (close + rest))
  {
    Regroup(gap, close, rest);
    Regroup(open, gap + close, rest);
  }

  lemma {:induction false} QuotedStops(q: string, rest: string)
    requires Quoted(q) > 0
    ensures Quoted(q[..Quoted(q)] + rest) == Quoted(q)
    decreases |q|
  {
    var n := Quoted(q);
    var cut := q[..n] + rest;
    assert cut[0] == q[0];
    if q[0] != '"' {
      var step := if q[0] == '\\' then 2 else 1;
      QuotedStops(q[step..], rest);
      SliceCut(q, n, rest, step);
    }
  }

  lemma SoundQuote(s: string, codec: Codec)
    requires ReadQuote(s, codec).Took?
    ensures var r := ReadQuote(s, codec); s == r.value + r.rest && IsQuote(r.value, codec)
  {
    var n := 1 + Quoted(s[1..]);
    Split(s, n);
    QuotedStops(s[1..], "");
    assert s[..n][1..] == s[1..][..n - 1];
    assert s[1..][..n - 1] + "" == s[1..][..n - 1];
  }

  lemma DigitsStop(q: string, n: nat, rest: string, whole: nat)
    requires whole == GraphQLTokens.DigitRun(q) <= n <= |q| && GraphQLTokens.NotNumeric(rest)
    ensures GraphQLTokens.DigitRun(q[..n] + rest) == whole
  {
    GraphQLTokens.DigitRunCut(q, n, rest);
  }

  lemma UnsignedRunStops(q: string, rest: string)
    requires UnsignedRun(q) > 0 && GraphQLTokens.NotNumeric(rest)
    ensures UnsignedRun(q[..UnsignedRun(q)] + rest) == UnsignedRun(q)
  {
    var n := UnsignedRun(q);
    var cut := q[..n] + rest;
    var whole := if q[0] == '0' then 1 else GraphQLTokens.DigitRun(q);
    assert cut[0] == q[0];
    GraphQLTokens.TailRunStops(q[whole..], rest);
    SliceCut(q, n, rest, whole);
    if q[0] != '0' { DigitsStop(q, n, rest, whole); }
  }

  lemma NumberRunStops(q: string, rest: string)
    requires NumberRun(q) > 0 && GraphQLTokens.NotNumeric(rest)
    ensures NumberRun(q[..NumberRun(q)] + rest) == NumberRun(q)
  {
    hide UnsignedRun;
    var n := NumberRun(q);
    var cut := q[..n] + rest;
    assert cut[0] == q[0];
    if q[0] == '-' {
      UnsignedRunStops(q[1..], rest);
      SliceCut(q, n, rest, 1);
    } else {
      UnsignedRunStops(q, rest);
    }
  }

  lemma SoundWord(s: string, depth: nat, codec: Codec)
    requires ReadWord(s, codec).Took? && depth <= MAX_DEPTH
    ensures var r := ReadWord(s, codec); s == Print(r.value) + r.rest && Fits(r.value, depth, codec)
  {
    if Starts(s, "true") {
      Split(s, 4);
    } else if Starts(s, "false") {
      Split(s, 5);
    } else if Starts(s, "null") {
      Split(s, 4);
    } else {
      var n := NumberRun(s);
      Split(s, n);
      NumberRunStops(s, "");
      assert s[..n] + "" == s[..n];
    }
  }

  lemma {:induction false} SoundValue(s: string, depth: nat, codec: Codec)
    requires ReadValue(s, depth, codec).Took?
    ensures var r := ReadValue(s, depth, codec); s == Print(r.value) + r.rest && Fits(r.value, depth, codec)
    decreases |s|, 0
  {
    hide ReadWord, ReadQuote, ReadItems, ReadEntries, Lead, PrintItems, PrintEntries, IsQuote;
    var r := ReadValue(s, depth, codec);
    if s[0] == '"' {
      SoundQuote(s, codec);
    } else if s[0] == '[' {
      FirstIs(s, '[');
      var inside := Skip(s[1..]);
      Leading(s[1..]);
      if inside != "" && inside[0] == ']' {
        FirstIs(inside, ']');
        Closed("[", s[1..][..Lead(s[1..])], "]", inside[1..]);
      } else {
        SoundItems(s[1..], depth + 1, codec);
        Regroup("[", PrintItems(r.value.items), r.rest);
      }
    } else if s[0] == '{' {
      FirstIs(s, '{');
      var inside := Skip(s[1..]);
      Leading(s[1..]);
      if inside != "" && inside[0] == '}' {
        FirstIs(inside, '}');
        Closed("{", s[1..][..Lead(s[1..])], "}", inside[1..]);
      } else {
        SoundEntries(s[1..], depth + 1, {}, codec);
        Regroup("{", PrintEntries(r.value.entries), r.rest);
      }
    } else {
      SoundWord(s, depth, codec);
    }
  }

  lemma {:induction false} SoundItems(s: string, depth: nat, codec: Codec)
    requires ReadItems(s, depth, codec).Took?
    ensures var r := ReadItems(s, depth, codec);
            r.value != [] && s == PrintItems(r.value) + r.rest && ItemsFit(r.value, depth, codec)
    decreases |s|, 2
  {
    hide ReadItem, ReadValue, Print, PrintItems, Fits, Lead, Gap;
    var (item, rest) := (ReadItem(s, depth, codec).value, ReadItem(s, depth, codec).rest);
    SoundItem(s, depth, codec);
    if rest[0] == ']' {
      FirstIs(rest, ']');
      ItemPrinted(item, rest[1..]);
    } else {
      FirstIs(rest, ',');
      SoundItems(rest[1..], depth, codec);
      var more := ReadItems(rest[1..], depth, codec);
      ItemsPrinted(item, more.value, more.rest);
      assert ([item] + more.value)[1..] == more.value;
    }
  }

  lemma {:induction false} SoundItem(s: string, depth: nat, codec: Codec)
    requires ReadItem(s, depth, codec).Took?
    ensures var r := ReadItem(s, depth, codec);
            && s == r.value.before + (Print(r.value.tree) + (r.value.after + r.rest))
            && Gap(r.value.before) && Gap(r.value.after) && Fits(r.value.tree, depth, codec)
    decreases |s|, 1
  {
    hide ReadValue, Print, Fits, Lead;
    Leading(s);
    SoundValue(Skip(s), depth, codec);
    Leading(ReadValue(Skip(s), depth, codec).rest);
  }

  lemma {:induction false} SoundEntries(s: string, depth: nat, keys: set<string>, codec: Codec)
    requires ReadEntries(s, depth, keys, codec).Took?
    ensures var r := ReadEntries(s, depth, keys, codec);
            r.value != [] && s == PrintEntries(r.value) + r.rest && EntriesFit(r.value, depth, keys, codec)
    decreases |s|, 2
  {
    hide ReadEntry, ReadValue, Print, PrintEntries, Fits, Lead, Gap, IsQuote;
    var (entry, rest) := (ReadEntry(s, depth, keys, codec).value, ReadEntry(s, depth, keys, codec).rest);
    SoundEntry(s, depth, keys, codec);
    if rest[0] == '}' {
      FirstIs(rest, '}');
      EntryPrinted(entry, rest[1..]);
    } else {
      FirstIs(rest, ',');
      var names := keys + {codec.decode(entry.key).value};
      SoundEntries(rest[1..], depth, names, codec);
      var more := ReadEntries(rest[1..], depth, names, codec);
      EntriesPrinted(entry, more.value, more.rest);
      assert ([entry] + more.value)[1..] == more.value;
    }
  }

  lemma {:induction false} SoundEntry(s: string, depth: nat, keys: set<string>, codec: Codec)
    requires ReadEntry(s, depth, keys, codec).Took?
    ensures var r := ReadEntry(s, depth, keys, codec);
            var e := r.value;
            && s == e.before + (e.key + (e.colon + (":" + (e.between + (Print(e.tree) + (e.after + r.rest))))))
            && Gap(e.before) && Gap(e.colon) && Gap(e.between) && Gap(e.after)
            && IsQuote(e.key, codec) && codec.decode(e.key).Some? && codec.decode(e.key).value !in keys && Fits(e.tree, depth, codec)
    decreases |s|, 1
  {
    hide ReadValue, ReadQuote, Print, Fits, Lead;
    Leading(s);
    SoundQuote(Skip(s), codec);
    var rest := ReadQuote(Skip(s), codec).rest;
    Leading(rest);
    FirstIs(Skip(rest), ':');
    var tail := Skip(rest)[1..];
    Leading(tail);
    SoundValue(Skip(tail), depth, codec);
    Leading(ReadValue(Skip(tail), depth, codec).rest);
  }
}
