/** Rule material in a text: one pass with many candidates (src/string-rewrite-material.ts:15-66). */
module RewriteMaterial {
  import opened Basics
  import opened StrictJson
  import JsonParser

  const CANDIDATE_LIMIT := 128 * 32

  /** An opening brace and the state of a scan of its own from there. */
  datatype Candidate = Candidate(start: nat, depth: int, inString: bool, escaped: bool)

  /** The character closes the candidate. */
  predicate Closes(c: Candidate, ch: char)
  {
    !c.inString && ch == '}' && c.depth == 1
  }

  function Moved(c: Candidate, ch: char): Candidate
  {
    if c.inString then
      if c.escaped then c.(escaped := false)
      else if ch == '\\' then c.(escaped := true)
      else if ch == '"' then c.(inString := false) else c
    else if ch == '"' then c.(inString := true)
    else if ch == '{' then c.(depth := c.depth + 1)
    else if ch == '}' then c.(depth := c.depth - 1)
    else c
  }

  /** A brace scanned on its own up to `end`: its state there, or None once it has been closed. */
  function Scan(input: string, start: nat, end: nat): (c: Option<Candidate>)
    requires start < end <= |input|
    ensures c.Some? ==> c.value.start == start
    decreases end
  {
    if end == start + 1 then Some(Candidate(start, 1, false, false))
    else match Scan(input, start, end - 1)
         case None => None
         case Some(c) => if Closes(c, input[end - 1]) then None else Some(Moved(c, input[end - 1]))
  }

  /** The brace at `start` is first balanced by the one at `last`. */
  predicate Balanced(input: string, start: nat, last: nat)
  {
    start < last < |input| && input[start] == '{' && Scan(input, start, last).Some? && Closes(Scan(input, start, last).value, input[last])
  }

  /** A rule object with a listed pattern. */
  predicate IsRule(text: string, patterns: set<string>, codec: Codec)
  {
    var v := Parse(text, codec);
    && v.Some? && v.value.Obj? && |v.value.members| == 2
    && (exists i :: 0 <= i < 2 && v.value.members[i].key == "pattern" && v.value.members[i].value.Str? && v.value.members[i].value.s in patterns)
    && (exists i :: 0 <= i < 2 && v.value.members[i].key == "replacement" && v.value.members[i].value.Str?)
  }

  /** A brace that, scanned on its own to its balancing one, is such an object. */
  ghost predicate RuleWithin(input: string, end: nat, patterns: set<string>, codec: Codec)
  {
    exists start: nat, last: nat :: last < end && Balanced(input, start, last) && IsRule(input[start..last + 1], patterns, codec)
  }

  function Braces(input: string): (n: nat)
    ensures n <= |input|
  {
    if input == "" then 0 else Braces(input[..|input| - 1]) + if input[|input| - 1] == '{' then 1 else 0
  }

  lemma {:induction false} BracesGrow(input: string, n: nat)
    requires n <= |input|
    ensures Braces(input[..n]) <= Braces(input)
  {
    if n < |input| {
      BracesGrow(input[..|input| - 1], n);
      assert input[..|input| - 1][..n] == input[..n];
    } else {
      assert input[..n] == input;
    }
  }

  /** The candidates are the braces before `end` that are still open there. */
  ghost predicate Live(input: string, active: seq<Candidate>, end: nat)
    requires end <= |input|
  {
    && (forall k :: 0 <= k < |active| ==>
          active[k].start < end && input[active[k].start] == '{' && Scan(input, active[k].start, end) == Some(active[k]))
    && (forall start: nat :: start < end && input[start] == '{' && Scan(input, start, end).Some? ==> Scan(input, start, end).value in active)
  }

  predicate MovesTo(active: seq<Candidate>, i: nat, ch: char, c: Candidate)
  {
    i < |active| && !Closes(active[i], ch) && c == Moved(active[i], ch)
  }

  predicate HasOrigin(active: seq<Candidate>, k: nat, ch: char, c: Candidate)
  {
    exists i: nat :: i < k && MovesTo(active, i, ch, c)
  }

  /** Those of the first `k` candidates that the character does not close have moved on. */
  ghost predicate Half(input: string, active: seq<Candidate>, next: seq<Candidate>, k: nat, ch: char)
    requires k <= |active|
  {
    && (forall c :: c in next ==> HasOrigin(active, k, ch, c))
    && (forall i :: 0 <= i < k && !Closes(active[i], ch) ==> Moved(active[i], ch) in next)
  }

  lemma HalfGrows(input: string, active: seq<Candidate>, next: seq<Candidate>, k: nat, ch: char)
    requires k < |active| && Half(input, active, next, k, ch)
    ensures Half(input, active, if Closes(active[k], ch) then next else next + [Moved(active[k], ch)], k + 1, ch)
  {
    var grown := if Closes(active[k], ch) then next else next + [Moved(active[k], ch)];
    forall c | c in grown ensures HasOrigin(active, k + 1, ch, c) {
      if c in next {
        var i: nat :| i < k && MovesTo(active, i, ch, c);
        assert i < k + 1 && MovesTo(active, i, ch, c);
      } else {
        assert MovesTo(active, k, ch, c);
      }
    }
    forall i | 0 <= i < k + 1 && !Closes(active[i], ch) ensures Moved(active[i], ch) in grown {
      if i < k { assert Moved(active[i], ch) in next; } else { assert grown[|next|] == Moved(active[k], ch); }
    }
  }

  /** After all candidates have moved, and a new one for an opening brace. */
  lemma LiveMoves(input: string, active: seq<Candidate>, next: seq<Candidate>, end: nat)
    requires end < |input| && Live(input, active, end) && Half(input, active, next, |active|, input[end])
    ensures Live(input, if input[end] == '{' then next + [Candidate(end, 1, false, false)] else next, end + 1)
  {
    var ch := input[end];
    var born := Candidate(end, 1, false, false);
    var after := if ch == '{' then next + [born] else next;
    forall k | 0 <= k < |after|
      ensures after[k].start < end + 1 && input[after[k].start] == '{' && Scan(input, after[k].start, end + 1) == Some(after[k])
    {
      if k < |next| {
        assert after[k] == next[k];
        assert next[k] in next;
        var i: nat :| i < |active| && MovesTo(active, i, ch, next[k]);
      }
    }
    forall start: nat | start < end + 1 && input[start] == '{' && Scan(input, start, end + 1).Some?
      ensures Scan(input, start, end + 1).value in after
    {
      if start < end {
        var c := Scan(input, start, end).value;
        var i :| 0 <= i < |active| && active[i] == c;
        assert Moved(active[i], ch) in next;
      } else {
        assert after[|next|] == born;
      }
    }
  }

  /** If no candidate that the character closes is a rule, none ends there. */
  lemma NothingEndsHere(input: string, active: seq<Candidate>, end: nat, patterns: set<string>, codec: Codec)
    requires end < |input| && Live(input, active, end) && !RuleWithin(input, end, patterns, codec)
    requires forall i :: 0 <= i < |active| && Closes(active[i], input[end]) ==> !IsRule(input[active[i].start..end + 1], patterns, codec)
    ensures !RuleWithin(input, end + 1, patterns, codec)
  {
    hide IsRule;
    forall start: nat, last: nat | last < end + 1 && Balanced(input, start, last)
      ensures !IsRule(input[start..last + 1], patterns, codec)
    {
      if last == end {
        var i :| 0 <= i < |active| && active[i] == Scan(input, start, end).value;
      }
    }
  }

  lemma RuleEndsHere(input: string, active: seq<Candidate>, i: nat, end: nat, patterns: set<string>, codec: Codec)
    requires end < |input| && Live(input, active, end) && i < |active|
    requires Closes(active[i], input[end]) && active[i].start < end && IsRule(input[active[i].start..end + 1], patterns, codec)
    ensures RuleWithin(input, |input|, patterns, codec)
  {
    hide IsRule;
    assert Balanced(input, active[i].start, end);
  }

  lemma TwoMembers(a: Member, b: Member, members: seq<Member>, patterns: set<string>)
    requires members == [a, b]
    ensures (exists i :: 0 <= i < 2 && members[i].key == "pattern" && members[i].value.Str? && members[i].value.s in patterns)
            <==> (a.key == "pattern" && a.value.Str? && a.value.s in patterns) || (b.key == "pattern" && b.value.Str? && b.value.s in patterns)
    ensures (exists i :: 0 <= i < 2 && members[i].key == "replacement" && members[i].value.Str?)
            <==> (a.key == "replacement" && a.value.Str?) || (b.key == "replacement" && b.value.Str?)
  {
    assert members[0] == a && members[1] == b;
  }

  /** The parse of a candidate: prose and malformed JSON are no rules. */
  method Recognize(text: string, patterns: set<string>, codec: Codec) returns (found: bool)
    ensures found <==> IsRule(text, patterns, codec)
  {
    var rule := JsonParser.ParseStringRewriteJSON(text, codec);
    if rule == None || !rule.value.Obj? || |rule.value.members| != 2 { return false; }
    var (a, b) := (rule.value.members[0], rule.value.members[1]);
    if a.key == "pattern" && b.key == "replacement" {
      found := a.value.Str? && b.value.Str? && a.value.s in patterns;
    } else if b.key == "pattern" && a.key == "replacement" {
      found := a.value.Str? && b.value.Str? && b.value.s in patterns;
    } else {
      found := false;
    }
    TwoMembers(a, b, rule.value.members, patterns);
  }

  lemma Begin(input: string, patterns: set<string>, codec: Codec)
    ensures Live(input, [], 0) && !RuleWithin(input, 0, patterns, codec) && Braces(input[..0]) == 0
  {
  }

  lemma BracesStep(input: string, n: nat)
    requires n < |input|
    ensures Braces(input[..n + 1]) == Braces(input[..n]) + if input[n] == '{' then 1 else 0
  {
    assert input[..n + 1][..n] == input[..n];
  }

  /** The one pass finds exactly what a search from every brace finds, or has too many braces to try. */
  method ContainsRuleMaterial(input: string, patterns: set<string>, codec: Codec) returns (found: bool)
    ensures found <==> patterns != {} && (RuleWithin(input, |input|, patterns, codec) || Braces(input) > CANDIDATE_LIMIT)
  {
    hide IsRule, Braces, RuleWithin, Live, Half, Moved, Closes;
    if |patterns| == 0 { return false; }
    var active: seq<Candidate> := [];
    var attempts := 0;
    Begin(input, patterns, codec);
    for index := 0 to |input|
      invariant Live(input, active, index) && !RuleWithin(input, index, patterns, codec)
      invariant attempts == Braces(input[..index]) && |active| <= attempts <= CANDIDATE_LIMIT
    {
      var ch := input[index];
      var hit, next := MoveAll(input, active, index, patterns, codec);
      if hit { return true; }
      LiveMoves(input, active, next, index);
      NothingEndsHere(input, active, index, patterns, codec);
      BracesStep(input, index);
      active := next;
      if ch == '{' {
        attempts := attempts + 1;
        if attempts > CANDIDATE_LIMIT || |active| >= CANDIDATE_LIMIT {
          BracesGrow(input, index + 1);
          return true;
        }
        active := active + [Candidate(index, 1, false, false)];
      }
    }
    assert input[..|input|] == input;
    return false;
  }

  lemma NothingMoved(input: string, active: seq<Candidate>, ch: char)
    ensures Half(input, active, [], 0, ch)
  {
  }

  /** The inner loop: a character given to every candidate, and those it closes parsed. */
  method MoveAll(input: string, active: seq<Candidate>, index: nat, patterns: set<string>, codec: Codec)
    returns (hit: bool, next: seq<Candidate>)
    requires index < |input| && Live(input, active, index)
    ensures hit ==> RuleWithin(input, |input|, patterns, codec)
    ensures !hit ==> Half(input, active, next, |active|, input[index]) && |next| <= |active|
    ensures !hit ==> forall i :: 0 <= i < |active| && Closes(active[i], input[index]) ==>
                       active[i].start < index && !IsRule(input[active[i].start..index + 1], patterns, codec)
  {
    hide IsRule, Half, RuleWithin;
    var ch := input[index];
    next := [];
    assert Half(input, active, [], 0, ch) by { NothingMoved(input, active, ch); }
    for k := 0 to |active|
      invariant Half(input, active, next, k, ch) && |next| <= k
      invariant forall i :: 0 <= i < k && Closes(active[i], ch) ==>
                  active[i].start < index && !IsRule(input[active[i].start..index + 1], patterns, codec)
    {
      var candidate := active[k];
      HalfGrows(input, active, next, k, ch);
      if Closes(candidate, ch) {
        var rule := Recognize(input[candidate.start..index + 1], patterns, codec);
        if rule {
          RuleEndsHere(input, active, k, index, patterns, codec);
          return true, [];
        }
      } else {
        next := next + [Moved(candidate, ch)];
      }
    }
    return false, next;
  }
}
