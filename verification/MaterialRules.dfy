/** Rule material is whatever the policy parser reads as a rule object, wherever it stands in a text
    (src/string-rewrite-material.ts:12-66). */
module MaterialRules {
  import opened Basics
  import opened StrictJson
  import opened RewriteMaterial
  import JsonRoundTrip
  import GraphQLTokens

  // ------------------------------------------------- the scan of one brace, over a text

  function Through(c: Candidate, text: string): Option<Candidate>
    decreases |text|
  {
    if text == "" then Some(c) else if Closes(c, text[0]) then None else Through(Moved(c, text[0]), text[1..])
  }

  lemma {:induction false} ThroughAdds(c: Candidate, left: string, right: string)
    requires Through(c, left).Some?
    ensures Through(c, left + right) == Through(Through(c, left).value, right)
    decreases |left|
  {
    if left == "" {
      assert left + right == right;
    } else {
      assert (left + right)[0] == left[0] && (left + right)[1..] == left[1..] + right;
      ThroughAdds(Moved(c, left[0]), left[1..], right);
    }
  }

  lemma {:induction false} ThroughStops(c: Candidate, left: string, right: string)
    requires Through(c, left) == None
    ensures Through(c, left + right) == None
    decreases |left|
  {
    assert (left + right)[0] == left[0] && (left + right)[1..] == left[1..] + right;
    if !Closes(c, left[0]) { ThroughStops(Moved(c, left[0]), left[1..], right); }
  }

  lemma ThroughOne(c: Candidate, ch: char)
    ensures Through(c, [ch]) == if Closes(c, ch) then None else Some(Moved(c, ch))
  {
    assert [ch][1..] == "";
  }

  lemma {:induction false} ScanIsThrough(input: string, start: nat, end: nat)
    requires start < end <= |input|
    ensures Scan(input, start, end) == Through(Candidate(start, 1, false, false), input[start + 1..end])
    decreases end
  {
    var born := Candidate(start, 1, false, false);
    if end == start + 1 {
      assert input[start + 1..end] == "";
    } else {
      hide Through, Moved, Closes;
      ScanIsThrough(input, start, end - 1);
      var before := input[start + 1..end - 1];
      assert input[start + 1..end] == before + [input[end - 1]];
      if Through(born, before).Some? {
        ThroughAdds(born, before, [input[end - 1]]);
        ThroughOne(Through(born, before).value, input[end - 1]);
      } else {
        ThroughStops(born, before, [input[end - 1]]);
      }
    }
  }

  // ------------------------------------------------- what a printed value does to it

  predicate Outside(c: Candidate)
  {
    !c.inString && !c.escaped && c.depth >= 1
  }

  /** Neither a brace nor a quote. */
  predicate Quiet(text: string)
  {
    forall i :: 0 <= i < |text| ==> text[i] != '{' && text[i] != '}' && text[i] != '"'
  }

  /** The text leaves the scan as it was. */
  predicate Keeps(c: Candidate, text: string)
  {
    Through(c, text) == Some(c)
  }

  lemma {:induction false} QuietKeeps(c: Candidate, text: string)
    requires Outside(c) && Quiet(text)
    ensures Keeps(c, text)
  {
    if text == "" {
    } else {
      assert forall i :: 0 <= i < |text[1..]| ==> text[1..][i] == text[i + 1];
      QuietKeeps(c, text[1..]);
    }
  }

  lemma KeepsAdds(c: Candidate, left: string, right: string)
    requires Keeps(c, left)
    ensures Through(c, left + right) == Through(c, right)
  {
    ThroughAdds(c, left, right);
  }

  lemma QuietAdds(left: string, right: string)
    requires Quiet(left) && Quiet(right)
    ensures Quiet(left + right)
  {
  }

  lemma {:induction false} DigitsAreQuiet(q: string)
    ensures Quiet(q[..GraphQLTokens.DigitRun(q)])
  {
    if GraphQLTokens.DigitRun(q) > 0 {
      DigitsAreQuiet(q[1..]);
      QuietAdds(q[..1], q[1..][..GraphQLTokens.DigitRun(q[1..])]);
      assert q[..GraphQLTokens.DigitRun(q)] == q[..1] + q[1..][..GraphQLTokens.DigitRun(q[1..])];
    }
  }

  lemma FractionIsQuiet(q: string)
    ensures Quiet(q[..GraphQLTokens.FractionRun(q)])
  {
    if GraphQLTokens.FractionRun(q) > 0 {
      DigitsAreQuiet(q[1..]);
      var n := GraphQLTokens.DigitRun(q[1..]);
      assert q[..1 + n] == q[..1] + q[1..][..n];
      QuietAdds(q[..1], q[1..][..n]);
    }
  }

  lemma ExponentIsQuiet(q: string)
    ensures Quiet(q[..GraphQLTokens.ExponentRun(q)])
  {
    if GraphQLTokens.ExponentRun(q) > 0 {
      var sign := GraphQLTokens.SignRun(q);
      DigitsAreQuiet(q[sign..]);
      var n := GraphQLTokens.DigitRun(q[sign..]);
      assert q[..sign + n] == q[..sign] + q[sign..][..n];
      QuietAdds(q[..sign], q[sign..][..n]);
    }
  }

  lemma TailIsQuiet(q: string)
    ensures Quiet(q[..GraphQLTokens.TailRun(q)])
  {
    var f := GraphQLTokens.FractionRun(q);
    FractionIsQuiet(q);
    ExponentIsQuiet(q[f..]);
    var e := GraphQLTokens.ExponentRun(q[f..]);
    assert q[..f + e] == q[..f] + q[f..][..e];
    QuietAdds(q[..f], q[f..][..e]);
  }

  lemma QuietParts(q: string, n: nat, m: nat)
    requires n + m <= |q| && Quiet(q[..n]) && Quiet(q[n..][..m])
    ensures Quiet(q[..n + m])
  {
    QuietAdds(q[..n], q[n..][..m]);
    assert q[..n + m] == q[..n] + q[n..][..m];
  }

  lemma UnsignedIsQuiet(q: string)
    ensures Quiet(q[..UnsignedRun(q)])
  {
    if UnsignedRun(q) > 0 {
      hide GraphQLTokens.TailRun, GraphQLTokens.DigitRun;
      DigitsAreQuiet(q);
      var whole := if q[0] == '0' then 1 else GraphQLTokens.DigitRun(q);
      assert Quiet(q[..whole]);
      TailIsQuiet(q[whole..]);
      QuietParts(q, whole, GraphQLTokens.TailRun(q[whole..]));
    }
  }

  lemma NumberIsQuiet(raw: string)
    requires raw != "" && NumberRun(raw) == |raw|
    ensures Quiet(raw)
  {
    if raw[0] == '-' {
      UnsignedIsQuiet(raw[1..]);
      assert raw == raw[..1] + raw[1..][..UnsignedRun(raw[1..])];
      QuietAdds(raw[..1], raw[1..][..UnsignedRun(raw[1..])]);
    } else {
      UnsignedIsQuiet(raw);
      assert raw[..|raw|] == raw;
    }
  }

  /** From inside a string to its end. */
  lemma {:induction false} QuotedKeeps(c: Candidate, q: string)
    requires Outside(c) && Quoted(q) == |q| > 0
    ensures Through(c.(inString := true), q) == Some(c)
    decreases |q|
  {
    var inside := c.(inString := true);
    if q[0] == '"' {
      ThroughOne(inside, '"');
      assert q == ['"'];
    } else if q[0] == '\\' {
      QuotedKeeps(c, q[2..]);
      assert q[1..][1..] == q[2..];
      assert Through(inside.(escaped := true), q[1..]) == Through(inside, q[2..]);
    } else {
      QuotedKeeps(c, q[1..]);
    }
  }

  lemma StringKeeps(c: Candidate, raw: string, codec: Codec)
    requires Outside(c) && IsQuote(raw, codec)
    ensures Keeps(c, raw)
  {
    QuotedKeeps(c, raw[1..]);
  }

  lemma GapKeeps(c: Candidate, gap: string)
    requires Outside(c) && Gap(gap)
    ensures Keeps(c, gap)
  {
    QuietKeeps(c, gap);
  }

  /** All but the last of these characters keep the scan; the last is a closing brace. */
  predicate EndsIn(c: Candidate, text: string)
  {
    text != "" && text[|text| - 1] == '}' && Keeps(c, text[..|text| - 1])
  }

  lemma KeepsThenEnds(c: Candidate, left: string, right: string)
    requires Keeps(c, left) && EndsIn(c, right)
    ensures EndsIn(c, left + right)
  {
    var text := left + right;
    assert text[..|text| - 1] == left + right[..|right| - 1];
    KeepsAdds(c, left, right[..|right| - 1]);
  }

  lemma KeepsThenKeeps(c: Candidate, left: string, right: string)
    requires Keeps(c, left) && Keeps(c, right)
    ensures Keeps(c, left + right)
  {
    KeepsAdds(c, left, right);
  }

  /** An object inside: its braces are counted and cancel out. */
  lemma BracesKeep(c: Candidate, text: string)
    requires Outside(c) && EndsIn(c.(depth := c.depth + 1), text)
    ensures Keeps(c, "{" + text)
  {
    var deeper := c.(depth := c.depth + 1);
    var body := text[..|text| - 1];
    assert text == body + "}";
    ThroughAdds(deeper, body, "}");
    ThroughOne(deeper, '}');
    assert ("{" + text)[1..] == text;
  }

  lemma {:induction false} PrintedKeeps(c: Candidate, t: Tree, depth: nat, codec: Codec)
    requires Outside(c) && Fits(t, depth, codec)
    ensures Keeps(c, Print(t))
    decreases t
  {
    hide Keeps, Through;
    match t
    case Literal(v) => QuietKeeps(c, LiteralText(v));
    case Number(raw) =>
      NumberIsQuiet(raw);
      QuietKeeps(c, raw);
    case Quote(raw) => StringKeeps(c, raw, codec);
    case List(gap, items) =>
      QuietKeeps(c, "[");
      if items == [] {
        GapKeeps(c, gap);
        QuietKeeps(c, "]");
        KeepsThenKeeps(c, gap, "]");
        KeepsThenKeeps(c, "[", gap + "]");
      } else {
        ItemsKeep(c, items, depth + 1, codec);
        KeepsThenKeeps(c, "[", PrintItems(items));
      }
    case Table(gap, entries) =>
      TableEnds(c.(depth := c.depth + 1), gap, entries, depth, codec);
      BracesKeep(c, if entries == [] then gap + "}" else PrintEntries(entries));
  }

  lemma NothingKeeps(c: Candidate)
    ensures EndsIn(c, "}")
  {
    assert "}"[..0] == "";
  }

  lemma {:induction false} TableEnds(c: Candidate, gap: string, entries: seq<Entry>, depth: nat, codec: Codec)
    requires Outside(c) && Fits(Table(gap, entries), depth, codec)
    ensures EndsIn(c, if entries == [] then gap + "}" else PrintEntries(entries))
    decreases entries, 1
  {
    hide Keeps, Through;
    if entries == [] {
      NothingKeeps(c);
      GapKeeps(c, gap);
      KeepsThenEnds(c, gap, "}");
    } else {
      EntriesEnd(c, entries, depth + 1, {}, codec);
    }
  }

  lemma {:induction false} ItemsKeep(c: Candidate, items: seq<Item>, depth: nat, codec: Codec)
    requires Outside(c) && items != [] && ItemsFit(items, depth, codec)
    ensures Keeps(c, PrintItems(items))
    decreases items
  {
    hide Keeps, Through;
    var item := items[0];
    GapKeeps(c, item.before);
    GapKeeps(c, item.after);
    PrintedKeeps(c, item.tree, depth, codec);
    var last := if |items| == 1 then "]" else "," + PrintItems(items[1..]);
    if |items| == 1 {
      QuietKeeps(c, "]");
    } else {
      QuietKeeps(c, ",");
      ItemsKeep(c, items[1..], depth, codec);
      KeepsThenKeeps(c, ",", PrintItems(items[1..]));
    }
    KeepsThenKeeps(c, item.after, last);
    KeepsThenKeeps(c, Print(item.tree), item.after + last);
    KeepsThenKeeps(c, item.before, Print(item.tree) + (item.after + last));
  }

  lemma {:induction false} EntriesEnd(c: Candidate, entries: seq<Entry>, depth: nat, keys: set<string>, codec: Codec)
    requires Outside(c) && entries != [] && EntriesFit(entries, depth, keys, codec)
    ensures EndsIn(c, PrintEntries(entries))
    decreases entries, 0
  {
    hide Keeps, Through, EndsIn;
    var e := entries[0];
    GapKeeps(c, e.before);
    GapKeeps(c, e.colon);
    GapKeeps(c, e.between);
    GapKeeps(c, e.after);
    QuietKeeps(c, ":");
    StringKeeps(c, e.key, codec);
    PrintedKeeps(c, e.tree, depth, codec);
    var last := if |entries| == 1 then "}" else "," + PrintEntries(entries[1..]);
    if |entries| == 1 {
      NothingKeeps(c);
    } else {
      QuietKeeps(c, ",");
      EntriesEnd(c, entries[1..], depth, keys + {codec.decode(e.key).value}, codec);
      KeepsThenEnds(c, ",", PrintEntries(entries[1..]));
    }
    KeepsThenEnds(c, e.after, last);
    KeepsThenEnds(c, Print(e.tree), e.after + last);
    KeepsThenEnds(c, e.between, Print(e.tree) + (e.after + last));
    KeepsThenEnds(c, ":", e.between + (Print(e.tree) + (e.after + last)));
    KeepsThenEnds(c, e.colon, ":" + (e.between + (Print(e.tree) + (e.after + last))));
    KeepsThenEnds(c, e.key, e.colon + (":" + (e.between + (Print(e.tree) + (e.after + last)))));
    KeepsThenEnds(c, e.before, e.key + (e.colon + (":" + (e.between + (Print(e.tree) + (e.after + last))))));
  }

  // ------------------------------------------------- rules in a text

  /** The policy parser reads the text as an object with just a listed pattern and a replacement. */
  ghost predicate ReadsAsRule(text: string, patterns: set<string>, codec: Codec)
  {
    exists p, r ::
      && p in patterns
      && (Parse(text, codec) == Some(Obj([Member("pattern", Str(p)), Member("replacement", Str(r))]))
          || Parse(text, codec) == Some(Obj([Member("replacement", Str(r)), Member("pattern", Str(p))])))
  }

  lemma RuleMeans(text: string, patterns: set<string>, codec: Codec)
    ensures IsRule(text, patterns, codec) <==> ReadsAsRule(text, patterns, codec)
  {
    hide Parse;
    var v := Parse(text, codec);
    if v.Some? && v.value.Obj? && |v.value.members| == 2 {
      var (a, b) := (v.value.members[0], v.value.members[1]);
      assert v.value.members == [a, b];
      TwoMembers(a, b, v.value.members, patterns);
    }
    if p, r :| p in patterns && Parse(text, codec) == Some(Obj([Member("pattern", Str(p)), Member("replacement", Str(r))])) {
      TwoMembers(Member("pattern", Str(p)), Member("replacement", Str(r)), v.value.members, patterns);
    }
    if p, r :| p in patterns && Parse(text, codec) == Some(Obj([Member("replacement", Str(r)), Member("pattern", Str(p))])) {
      TwoMembers(Member("replacement", Str(r)), Member("pattern", Str(p)), v.value.members, patterns);
    }
  }

  lemma TablePrinted(t: Tree)
    requires t.Table?
    ensures Print(t) == "{" + if t.entries == [] then t.gap + "}" else PrintEntries(t.entries)
  {
  }

  lemma SubSlice(s: string, a: nat, n: nat, i: nat, j: nat)
    requires a + n <= |s| && i <= j <= n
    ensures s[a..a + n][i..j] == s[a + i..a + j]
  {
    var part := s[a..a + n];
    assert part[i..j] == s[a + i..a + j] by {
      assert |part[i..j]| == |s[a + i..a + j]|;
      assert forall k :: 0 <= k < j - i ==> part[i..j][k] == part[i + k] == s[a + i + k] == s[a + i..a + j][k];
    }
  }

  lemma EndIsBalanced(input: string, start: nat, inside: string)
    requires start + 1 + |inside| <= |input| && input[start..start + 1 + |inside|] == "{" + inside
    requires EndsIn(Candidate(start, 1, false, false), inside)
    ensures Balanced(input, start, start + |inside|)
  {
    hide Through, Scan;
    var born, part, last := Candidate(start, 1, false, false), input[start..start + 1 + |inside|], start + |inside|;
    assert input[start] == part[0] && input[last] == part[|inside|] == '}';
    SubSlice(input, start, 1 + |inside|, 1, |inside|);
    assert part[1..|inside|] == inside[..|inside| - 1];
    ScanIsThrough(input, start, last);
    assert Scan(input, start, last) == Some(born) && Closes(born, '}');
  }

  /** An object that is printed from a brace on is what the scan of that brace finds. */
  lemma PrintedIsBalanced(input: string, start: nat, t: Tree, codec: Codec)
    requires t.Table? && Fits(t, 0, codec)
    requires start + |Print(t)| <= |input| && input[start..start + |Print(t)|] == Print(t)
    ensures |Print(t)| >= 2 && Balanced(input, start, start + |Print(t)| - 1)
  {
    hide Print, Through, Scan;
    var inside := if t.entries == [] then t.gap + "}" else PrintEntries(t.entries);
    TableEnds(Candidate(start, 1, false, false), t.gap, t.entries, 0, codec);
    TablePrinted(t);
    EndIsBalanced(input, start, inside);
  }

  lemma NoGapFirst(gap: string, rest: string)
    requires Gap(gap) && gap + rest != "" && !Space((gap + rest)[0])
    ensures gap == ""
  {
  }

  /** Only an object is printed with a brace first. */
  lemma StartsWithBrace(t: Tree, codec: Codec)
    requires Fits(t, 0, codec)
    ensures Print(t) != "" && (Print(t)[0] == '{' <==> t.Table?)
  {
    match t
    case Number(raw) => NumberIsQuiet(raw);
    case Literal(v) =>
      assert LiteralText(v) != "" && LiteralText(v)[0] != '{';
    case _ =>
  }

  /** An object that is read from a text that begins with its brace is the start of that text. */
  lemma ReadIsPrinted(text: string, codec: Codec) returns (t: Tree)
    requires text != "" && text[0] == '{' && Parse(text, codec).Some?
    ensures t.Table? && Fits(t, 0, codec) && |Print(t)| <= |text| && text[..|Print(t)|] == Print(t)
    ensures Parse(Print(t), codec) == Parse(text, codec)
  {
    var before, after;
    before, t, after := JsonRoundTrip.AcceptedIsPrinting(text, codec);
    NoGapFirst(before, Print(t) + after);
    assert "" + (Print(t) + after) == Print(t) + after;
    StartsWithBrace(t, codec);
    assert Print(t) != "" && text[0] == Print(t)[0];
    JsonRoundTrip.PrintingsAreRead("", t, "", codec);
    assert "" + (Print(t) + "") == Print(t);
  }

  lemma BalancedStarts(input: string, start: nat, last: nat)
    requires Balanced(input, start, last)
    ensures start < last < |input| && input[start] == '{'
  {
  }

  lemma RuleIsFound(input: string, i: nat, j: nat, patterns: set<string>, codec: Codec)
    requires i < j <= |input| && input[i] == '{' && ReadsAsRule(input[i..j], patterns, codec)
    ensures RuleWithin(input, |input|, patterns, codec)
  {
    hide Parse, Balanced, Print, Fits, IsRule;
    var text := input[i..j];
    var t := ReadIsPrinted(text, codec);
    assert input[i..i + |Print(t)|] == text[..|Print(t)|];
    PrintedIsBalanced(input, i, t, codec);
    assert ReadsAsRule(Print(t), patterns, codec);
    RuleMeans(Print(t), patterns, codec);
    var last := i + |Print(t)| - 1;
    assert input[i..last + 1] == Print(t);
  }

  /** There is rule material in a text exactly if some part of it that begins with a brace is read as a rule: whatever
      stands around it, and whatever brackets, braces and quotes are inside. */
  lemma MaterialExactly(input: string, patterns: set<string>, codec: Codec)
    ensures RuleWithin(input, |input|, patterns, codec)
            <==> exists i: nat, j: nat :: i < j <= |input| && input[i] == '{' && ReadsAsRule(input[i..j], patterns, codec)
  {
    hide Parse, Scan, Closes, ReadsAsRule, Print, Fits, IsRule;
    if start: nat, last: nat :| last < |input| && Balanced(input, start, last) && IsRule(input[start..last + 1], patterns, codec) {
      RuleMeans(input[start..last + 1], patterns, codec);
      BalancedStarts(input, start, last);
      assert start < last + 1 <= |input| && input[start] == '{' && ReadsAsRule(input[start..last + 1], patterns, codec);
    }
    if i: nat, j: nat :| i < j <= |input| && input[i] == '{' && ReadsAsRule(input[i..j], patterns, codec) {
      RuleIsFound(input, i, j, patterns, codec);
    }
  }
}
