/** Which texts are rewritten, and to what, by the matches themselves (src/string-rewrites.ts:111-163). */
module StringRewriteRules {
  import opened Basics
  import opened GraphQLTokens
  import StrictJson
  import RewriteMaterial
  import MaterialRules
  import opened StringRewrites

  /** All matches of a rule from a place on: each is the first at or after the end of the one before it, holds
      something, and lies behind it in the text; after the last there is none. */
  ghost predicate FoundFrom(text: string, rule: Rule, offset: nat, spans: seq<Span>)
    decreases |spans|
  {
    if spans == [] then rule.find(text, offset) == None
    else
      && rule.find(text, offset) == Some(spans[0])
      && offset <= spans[0].start < spans[0].end <= |text|
      && FoundFrom(text, rule, spans[0].end, spans[1..])
  }

  /** The text between the matches and after the last, with the replacement in place of each. */
  function Woven(text: string, offset: nat, spans: seq<Span>, replacement: string): string
    decreases |spans|
  {
    if offset > |text| then ""
    else if spans == [] then text[offset..]
    else (if offset <= spans[0].start <= |text| then text[offset..spans[0].start] else "")
         + replacement + Woven(text, spans[0].end, spans[1..], replacement)
  }

  lemma {:induction false} PassFound(text: string, rule: Rule, offset: nat, matches: nat) returns (spans: seq<Span>)
    requires offset <= |text| && Pass(text, rule, offset, matches).Some?
    ensures FoundFrom(text, rule, offset, spans)
    ensures Pass(text, rule, offset, matches) == Some((Woven(text, offset, spans, rule.replacement), matches + |spans|))
    ensures spans != [] ==> matches + |spans| <= 1_048_576
    decreases |text| - offset
  {
    match rule.find(text, offset)
    case None => spans := [];
    case Some(span) =>
      var later := PassFound(text, rule, span.end, matches + 1);
      spans := [span] + later;
      assert spans[1..] == later;
  }

  lemma {:induction false} FoundPasses(text: string, rule: Rule, offset: nat, matches: nat, spans: seq<Span>)
    requires offset <= |text| && FoundFrom(text, rule, offset, spans) && (spans != [] ==> matches + |spans| <= 1_048_576)
    ensures Pass(text, rule, offset, matches) == Some((Woven(text, offset, spans, rule.replacement), matches + |spans|))
    decreases |spans|
  {
    if spans == [] {
    } else {
      FoundPasses(text, rule, spans[0].end, matches + 1, spans[1..]);
    }
  }

  /** One rule turns one text into the next: all its matches are replaced, neither text is over a mebibyte, and
      with those so far there are no more matches than that. */
  ghost predicate TurnsInto(text: string, rule: Rule, next: string, before: nat, after: nat)
  {
    exists spans ::
      && FoundFrom(text, rule, 0, spans) && next == Woven(text, 0, spans, rule.replacement)
      && after == before + |spans| && (spans != [] ==> after <= 1_048_576) && Utf8Size(next) <= 1_048_576
  }

  lemma PassExactly(text: string, rule: Rule, next: string, before: nat, after: nat)
    ensures Bounded(Pass(text, rule, 0, before)) == Some((next, after)) <==> TurnsInto(text, rule, next, before, after)
  {
    hide Utf8Size;
    if Bounded(Pass(text, rule, 0, before)) == Some((next, after)) {
      var spans := PassFound(text, rule, 0, before);
      assert FoundFrom(text, rule, 0, spans);
    }
    if TurnsInto(text, rule, next, before, after) {
      var spans :| FoundFrom(text, rule, 0, spans) && next == Woven(text, 0, spans, rule.replacement)
                   && after == before + |spans| && (spans != [] ==> after <= 1_048_576);
      FoundPasses(text, rule, 0, before, spans);
    }
  }

  /** The rules turn the first of these texts into the last, each the next. */
  ghost predicate Stages(rules: seq<Rule>, texts: seq<string>, counts: seq<nat>)
  {
    && |texts| == |counts| == |rules| + 1
    && forall i :: 0 <= i < |rules| ==> Turned(rules, texts, counts, i)
  }

  ghost predicate Turned(rules: seq<Rule>, texts: seq<string>, counts: seq<nat>, i: nat)
    requires i < |rules| && |texts| == |counts| == |rules| + 1
  {
    TurnsInto(texts[i], rules[i], texts[i + 1], counts[i], counts[i + 1])
  }

  lemma {:induction false} PassesFound(text: string, rules: seq<Rule>, matches: nat) returns (texts: seq<string>, counts: seq<nat>)
    requires AllPasses(text, rules, matches).Some?
    ensures Stages(rules, texts, counts) && texts[0] == text && counts[0] == matches
    ensures AllPasses(text, rules, matches) == Some((texts[|rules|], counts[|rules|]))
    decreases |rules|
  {
    hide Utf8Size, Pass, TurnsInto;
    if rules == [] {
      texts, counts := [text], [matches];
    } else {
      var (next, m) := Bounded(Pass(text, rules[0], 0, matches)).value;
      PassExactly(text, rules[0], next, matches, m);
      var more, later := PassesFound(next, rules[1..], m);
      texts, counts := [text] + more, [matches] + later;
      forall i | 0 <= i < |rules| ensures Turned(rules, texts, counts, i) {
        if i > 0 { assert Turned(rules[1..], more, later, i - 1); }
      }
    }
  }

  lemma {:induction false} FoundPassesAll(rules: seq<Rule>, texts: seq<string>, counts: seq<nat>)
    requires Stages(rules, texts, counts)
    ensures AllPasses(texts[0], rules, counts[0]) == Some((texts[|rules|], counts[|rules|]))
    decreases |rules|
  {
    hide Utf8Size, Pass, TurnsInto;
    if rules == [] {
    } else {
      assert Turned(rules, texts, counts, 0);
      PassExactly(texts[0], rules[0], texts[1], counts[0], counts[1]);
      forall i | 0 <= i < |rules[1..]| ensures Turned(rules[1..], texts[1..], counts[1..], i) {
        assert Turned(rules, texts, counts, i + 1);
      }
      FoundPassesAll(rules[1..], texts[1..], counts[1..]);
    }
  }

  ghost predicate ArePatterns(patterns: set<string>, rules: seq<Rule>)
  {
    forall p :: p in patterns <==> exists i :: 0 <= i < |rules| && rules[i].pattern == p
  }

  /** Some part of the text that begins with a brace is read by the policy parser as a rule object with the pattern of
      one of the rules; or there are more opening braces than are looked at. */
  ghost predicate HoldsMaterial(text: string, rules: seq<Rule>, codec: StrictJson.Codec)
  {
    && rules != []
    && (|set k | 0 <= k < |text| && text[k] == '{'| > 4_096
        || exists patterns: set<string>, i: nat, j: nat ::
             ArePatterns(patterns, rules) && i < j <= |text| && text[i] == '{' && MaterialRules.ReadsAsRule(text[i..j], patterns, codec))
  }

  lemma {:induction false} BracesAreCounted(text: string)
    ensures RewriteMaterial.Braces(text) == |set k | 0 <= k < |text| && text[k] == '{'|
  {
    var all := set k | 0 <= k < |text| && text[k] == '{';
    if text == "" {
      assert all == {};
    } else {
      var last, before := |text| - 1, text[..|text| - 1];
      var earlier := set k | 0 <= k < |before| && before[k] == '{';
      BracesAreCounted(before);
      assert all == if text[last] == '{' then earlier + {last} else earlier;
    }
  }

  lemma MaterialMeans(text: string, rules: seq<Rule>, codec: StrictJson.Codec)
    ensures Material(text, rules, codec) <==> HoldsMaterial(text, rules, codec)
  {
    hide RewriteMaterial.RuleWithin, RewriteMaterial.Braces, MaterialRules.ReadsAsRule;
    var patterns := Patterns(rules);
    BracesAreCounted(text);
    MaterialRules.MaterialExactly(text, patterns, codec);
    assert ArePatterns(patterns, rules);
    if rules != [] { assert rules[0].pattern in patterns; }
    forall other: set<string> | ArePatterns(other, rules) ensures other == patterns {
      assert forall p :: p in other <==> p in patterns;
    }
  }

  /** A text is rewritten exactly if it is within a mebibyte, holds no rule material, and the rules turn it, one
      after another, into a text that holds none either and that no rule matches; that is what it is rewritten to. */
  lemma RewrittenExactly(input: string, rules: seq<Rule>, codec: StrictJson.Codec, output: string)
    ensures Rewritten(input, rules, codec) == Some(output)
            <==> && Utf8Size(input) <= 1_048_576 && !HoldsMaterial(input, rules, codec)
                 && (exists texts, counts :: Stages(rules, texts, counts) && texts[0] == input && counts[0] == 0 && texts[|rules|] == output)
                 && !HoldsMaterial(output, rules, codec) && forall i :: 0 <= i < |rules| ==> rules[i].find(output, 0) == None
  {
    hide Utf8Size, Material, HoldsMaterial, AllPasses;
    MaterialMeans(input, rules, codec);
    MaterialMeans(output, rules, codec);
    if AllPasses(input, rules, 0).Some? { var texts, counts := PassesFound(input, rules, 0); }
    if texts, counts :| Stages(rules, texts, counts) && texts[0] == input && counts[0] == 0 && texts[|rules|] == output {
      FoundPassesAll(rules, texts, counts);
    }
  }
}
