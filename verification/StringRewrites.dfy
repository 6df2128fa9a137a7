/** Rewriting a text by a list of rules (src/string-rewrites.ts:101-163). */
module StringRewrites {
  import opened Basics
  import opened GraphQLTokens
  import StrictJson
  import RewriteMaterial

  const CONTENT_BYTES := 1_048_576
  const CHUNKS := 1_024

  datatype Span = Span(start: nat, end: nat)

  /** A compiled rule: `find` gives the first match at or after a position. */
  datatype Rule = Rule(pattern: string, replacement: string, find: (string, nat) -> Option<Span>)

  /** A span that the loop goes on from: not empty, and not before what is already copied. */
  predicate Usable(text: string, offset: nat, span: Span)
  {
    offset <= span.start < span.end <= |text|
  }

  /** The plain meaning of a rule: every match, from the left and without overlaps, is replaced. */
  function Replaced(text: string, rule: Rule, offset: nat): string
    requires offset <= |text|
    decreases |text| - offset
  {
    match rule.find(text, offset)
    case None => text[offset..]
    case Some(span) =>
      if Usable(text, offset, span) then text[offset..span.start] + rule.replacement + Replaced(text, rule, span.end)
      else text[offset..]
  }

  /** The same with the count of matches so far; None where the original denies. */
  function Pass(text: string, rule: Rule, offset: nat, matches: nat): Option<(string, nat)>
    requires offset <= |text|
    decreases |text| - offset
  {
    match rule.find(text, offset)
    case None => Some((text[offset..], matches))
    case Some(span) =>
      if matches + 1 > CONTENT_BYTES || !Usable(text, offset, span) then None
      else Behind(text[offset..span.start] + rule.replacement, Pass(text, rule, span.end, matches + 1))
  }

  function Behind(prefix: string, r: Option<(string, nat)>): Option<(string, nat)>
  {
    match r case None => None case Some((s, m)) => Some((prefix + s, m))
  }

  function Bounded(r: Option<(string, nat)>): Option<(string, nat)>
  {
    if r.Some? && Utf8Size(r.value.0) <= CONTENT_BYTES then r else None
  }

  function AllPasses(text: string, rules: seq<Rule>, matches: nat): Option<(string, nat)>
    decreases |rules|
  {
    if rules == [] then Some((text, matches))
    else match Bounded(Pass(text, rules[0], 0, matches))
         case None => None
         case Some((next, m)) => AllPasses(next, rules[1..], m)
  }

  function AllReplaced(text: string, rules: seq<Rule>): string
    decreases |rules|
  {
    if rules == [] then text else AllReplaced(Replaced(text, rules[0], 0), rules[1..])
  }

  function Patterns(rules: seq<Rule>): set<string>
  {
    set i | 0 <= i < |rules| :: rules[i].pattern
  }

  ghost predicate Material(text: string, rules: seq<Rule>, codec: StrictJson.Codec)
  {
    && Patterns(rules) != {}
    && (RewriteMaterial.RuleWithin(text, |text|, Patterns(rules), codec) || RewriteMaterial.Braces(text) > RewriteMaterial.CANDIDATE_LIMIT)
  }

  predicate Matches(text: string, rules: seq<Rule>)
  {
    exists i :: 0 <= i < |rules| && rules[i].find(text, 0).Some?
  }

  /** What `rewriteString` returns, or None if it denies. */
  ghost function Rewritten(input: string, rules: seq<Rule>, codec: StrictJson.Codec): Option<string>
  {
    if Utf8Size(input) > CONTENT_BYTES || Material(input, rules, codec) then None
    else match AllPasses(input, rules, 0)
         case None => None
         case Some((output, _)) => if Material(output, rules, codec) || Matches(output, rules) then None else Some(output)
  }

  // ------------------------------------------------- the loops

  lemma {:induction false} SizeAdds(left: string, right: string)
    ensures Utf8Size(left + right) == Utf8Size(left) + Utf8Size(right)
  {
    if left == "" {
      assert left + right == right;
    } else {
      SizeAdds(left[1..], right);
      assert (left + right)[1..] == left[1..] + right;
    }
  }

  function Joined(chunks: seq<string>): string
  {
    if chunks == [] then "" else Joined(chunks[..|chunks| - 1]) + chunks[|chunks| - 1]
  }

  /** What has been copied, in whole and in chunks that are not joined yet. */
  datatype Copied = Copied(next: string, chunks: seq<string>, size: nat)

  function Text(c: Copied): string
  {
    c.next + Joined(c.chunks)
  }

  lemma ChunkAdds(c: Copied, text: string)
    ensures c.next + Joined(c.chunks + [text]) == Text(c) + text
  {
    assert (c.chunks + [text])[..|c.chunks|] == c.chunks;
    assert c.next + (Joined(c.chunks) + text) == (c.next + Joined(c.chunks)) + text;
  }

  /** `append`: None if the text grows beyond the limit. */
  method Append(c: Copied, text: string) returns (r: Option<Copied>)
    requires c.size == Utf8Size(Text(c)) <= CONTENT_BYTES
    ensures r.Some? <==> Utf8Size(Text(c) + text) <= CONTENT_BYTES
    ensures r.Some? ==> Text(r.value) == Text(c) + text && r.value.size == Utf8Size(Text(r.value)) && |r.value.chunks| < CHUNKS
  {
    SizeAdds(Text(c), text);
    var size := c.size + Utf8Size(text);
    if size > CONTENT_BYTES { return None; }
    var chunks := c.chunks + [text];
    ChunkAdds(c, text);
    if |chunks| >= CHUNKS {
      assert c.next + Joined(chunks) + "" == Text(c) + text;
      return Some(Copied(c.next + Joined(chunks), [], size));
    }
    return Some(Copied(c.next, chunks, size));
  }

  lemma TooLong(prefix: string, r: Option<(string, nat)>)
    requires Utf8Size(prefix) > CONTENT_BYTES
    ensures Bounded(Behind(prefix, r)) == None
  {
    if r.Some? { SizeAdds(prefix, r.value.0); }
  }

  lemma BehindTwice(a: string, b: string, r: Option<(string, nat)>)
    ensures Behind(a, Behind(b, r)) == Behind(a + b, r)
  {
    if r.Some? { assert a + (b + r.value.0) == (a + b) + r.value.0; }
  }

  lemma Nothing()
    ensures Text(Copied("", [], 0)) == "" && Utf8Size("") == 0
  {
  }

  lemma BehindNothing(r: Option<(string, nat)>)
    ensures Behind("", r) == r
  {
    if r.Some? { assert "" + r.value.0 == r.value.0; }
  }

  /** One rule, with its chunks and its limits, is the plain replacement or a denial. */
  method ApplyRule(output: string, rule: Rule, before: nat) returns (r: Option<(string, nat)>)
    ensures r == Bounded(Pass(output, rule, 0, before))
  {
    hide Utf8Size, Joined;
    var matches: nat, offset: nat := before, 0;
    var c := Copied("", [], 0);
    assert Text(c) == "" && Utf8Size("") == 0 by { Nothing(); }
    ghost var whole := Pass(output, rule, 0, before);
    assert Behind("", whole) == whole by { BehindNothing(whole); }
    while true
      invariant offset <= |output| && c.size == Utf8Size(Text(c)) <= CONTENT_BYTES
      invariant whole == Behind(Text(c), Pass(output, rule, offset, matches))
      decreases |output| - offset
    {
      var found := rule.find(output, offset);
      if found == None { break; }
      var span := found.value;
      matches := matches + 1;
      if matches > CONTENT_BYTES || !Usable(output, offset, span) { return None; }
      ghost var (piece, rest) := (output[offset..span.start], Pass(output, rule, span.end, matches));
      assert whole == Behind(Text(c), Behind(piece + rule.replacement, rest));
      BehindTwice(Text(c), piece + rule.replacement, rest);
      BehindTwice(Text(c) + piece, rule.replacement, rest);
      assert Text(c) + (piece + rule.replacement) == (Text(c) + piece) + rule.replacement;
      var kept := Append(c, output[offset..span.start]);
      if kept == None {
        TooLong(Text(c) + piece, Behind(rule.replacement, rest));
        return None;
      }
      var replaced := Append(kept.value, rule.replacement);
      if replaced == None {
        TooLong(Text(c) + piece + rule.replacement, rest);
        return None;
      }
      c := replaced.value;
      offset := span.end;
    }
    var last := Append(c, output[offset..]);
    assert whole == Some((Text(c) + output[offset..], matches));
    if last == None { return None; }
    return Some((last.value.next + Joined(last.value.chunks), matches));
  }

  method AssertNoStringRewriteMatch(input: string, rules: seq<Rule>) returns (ok: bool)
    ensures ok <==> Utf8Size(input) <= CONTENT_BYTES && !Matches(input, rules)
  {
    if Utf8Size(input) > CONTENT_BYTES { return false; }
    for n := 0 to |rules|
      invariant forall i :: 0 <= i < n ==> rules[i].find(input, 0).None?
    {
      if rules[n].find(input, 0).Some? { return false; }
    }
    return true;
  }

  method RewriteString(input: string, rules: seq<Rule>, codec: StrictJson.Codec) returns (output: Option<string>)
    ensures output == Rewritten(input, rules, codec)
  {
    hide Utf8Size, Pass, RewriteMaterial.RuleWithin, RewriteMaterial.Braces;
    if Utf8Size(input) > CONTENT_BYTES { return None; }
    var material := RewriteMaterial.ContainsRuleMaterial(input, Patterns(rules), codec);
    if material { return None; }
    var text, matches: nat := input, 0;
    for n := 0 to |rules|
      invariant AllPasses(input, rules, 0) == AllPasses(text, rules[n..], matches)
      invariant Utf8Size(text) <= CONTENT_BYTES
    {
      assert rules[n..][0] == rules[n] && rules[n..][1..] == rules[n + 1..];
      var next := ApplyRule(text, rules[n], matches);
      if next == None { return None; }
      text, matches := next.value.0, next.value.1;
    }
    material := RewriteMaterial.ContainsRuleMaterial(text, Patterns(rules), codec);
    if material { return None; }
    var clean := AssertNoStringRewriteMatch(text, rules);
    if !clean { return None; }
    return Some(text);
  }

  // ------------------------------------------------- what a rewriting promises

  lemma {:induction false} PassIsReplacement(text: string, rule: Rule, offset: nat, matches: nat)
    requires offset <= |text| && Pass(text, rule, offset, matches).Some?
    ensures Pass(text, rule, offset, matches).value.0 == Replaced(text, rule, offset)
    decreases |text| - offset
  {
    match rule.find(text, offset)
    case None =>
    case Some(span) => PassIsReplacement(text, rule, span.end, matches + 1);
  }

  lemma {:induction false} PassesAreReplacements(text: string, rules: seq<Rule>, matches: nat)
    requires AllPasses(text, rules, matches).Some? && Utf8Size(text) <= CONTENT_BYTES
    ensures AllPasses(text, rules, matches).value.0 == AllReplaced(text, rules)
    ensures Utf8Size(AllPasses(text, rules, matches).value.0) <= CONTENT_BYTES
    decreases |rules|
  {
    hide Utf8Size;
    if rules != [] {
      PassIsReplacement(text, rules[0], 0, matches);
      var next := Pass(text, rules[0], 0, matches).value;
      PassesAreReplacements(next.0, rules[1..], next.1);
    }
  }

  lemma {:induction false} NoMatchNoChange(text: string, rules: seq<Rule>, matches: nat)
    requires Utf8Size(text) <= CONTENT_BYTES && !Matches(text, rules)
    ensures AllPasses(text, rules, matches) == Some((text, matches))
    decreases |rules|
  {
    hide Utf8Size;
    if rules != [] {
      assert rules[0].find(text, 0).None? && text[0..] == text;
      assert forall i :: 0 <= i < |rules[1..]| ==> rules[1..][i] == rules[i + 1];
      NoMatchNoChange(text, rules[1..], matches);
    }
  }

  /** Whatever is returned is the plain replacement by each rule in turn, within the limit; no rule
      matches it and it holds no rule material; and rewriting it again returns it unchanged. */
  lemma RewritingIsSettled(input: string, rules: seq<Rule>, codec: StrictJson.Codec)
    requires Rewritten(input, rules, codec).Some?
    ensures var output := Rewritten(input, rules, codec).value;
            && output == AllReplaced(input, rules) && Utf8Size(output) <= CONTENT_BYTES
            && !Matches(output, rules) && !Material(output, rules, codec)
            && Rewritten(output, rules, codec) == Some(output)
  {
    hide Utf8Size, Material, AllPasses;
    PassesAreReplacements(input, rules, 0);
    NoMatchNoChange(Rewritten(input, rules, codec).value, rules, 0);
  }
}
