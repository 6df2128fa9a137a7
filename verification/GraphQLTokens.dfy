/** The token recogniser of the CLI's GraphQL reads (cmd/octopool/gh_graphql_read.go:20-57). */
module GraphQLTokens {
  import opened Basics

  const MAX_BYTES := 16_384
  const MAX_TOKENS := 4_000

  predicate Letter(c: char) { 'a' <= c <= 'z' || 'A' <= c <= 'Z' || c == '_' }

  predicate Digit(c: char) { '0' <= c <= '9' }

  predicate Blank(c: char) { c == ' ' || c == '\t' || c == '\r' || c == '\n' || c == ',' || c == '\U{feff}' }

  predicate Mark(c: char)
  {
    c == '!' || c == '$' || c == '(' || c == ')' || c == ':' || c == '{' || c == '}' || c == '[' || c == ']' || c == '@' || c == '='
  }

  /** The length of the longest prefix of name characters. */
  function NameRun(q: string): (n: nat)
    ensures n <= |q|
  {
    if |q| > 0 && (Letter(q[0]) || Digit(q[0])) then 1 + NameRun(q[1..]) else 0
  }

  function DigitRun(q: string): (n: nat)
    ensures n <= |q|
  {
    if |q| > 0 && Digit(q[0]) then 1 + DigitRun(q[1..]) else 0
  }

  /** `(?:\.[0-9]+)?` */
  function FractionRun(q: string): (n: nat)
    ensures n <= |q|
  {
    if |q| > 1 && q[0] == '.' && Digit(q[1]) then 1 + DigitRun(q[1..]) else 0
  }

  function SignRun(q: string): (n: nat)
    requires |q| > 0
    ensures 1 <= n <= 2 && (n == 2 ==> |q| > 1)
  {
    if |q| > 1 && (q[1] == '+' || q[1] == '-') then 2 else 1
  }

  /** `(?:[eE][+-]?[0-9]+)?` */
  function ExponentRun(q: string): (n: nat)
    ensures n <= |q|
  {
    if |q| == 0 || (q[0] != 'e' && q[0] != 'E') then 0
    else
      var sign := SignRun(q);
      if DigitRun(q[sign..]) == 0 then 0 else sign + DigitRun(q[sign..])
  }

  /** The part of a number from its decimal point on. */
  function TailRun(q: string): (n: nat)
    ensures n <= |q|
  {
    FractionRun(q) + ExponentRun(q[FractionRun(q)..])
  }

  /** What follows the sign of a number: its digits and its tail. */
  function UnsignedRun(q: string): (n: nat)
    ensures n <= |q|
  {
    if DigitRun(q) == 0 then 0 else DigitRun(q) + TailRun(q[DigitRun(q)..])
  }

  function NumberRun(q: string): (n: nat)
    ensures n <= |q|
  {
    if |q| > 0 && q[0] == '-' then if UnsignedRun(q[1..]) == 0 then 0 else 1 + UnsignedRun(q[1..])
    else UnsignedRun(q)
  }

  /** The rest of a string after its opening quote, up to its closing one, or 0. */
  function StringRun(q: string): (n: nat)
    ensures n <= |q|
  {
    if |q| == 0 then 0
    else if q[0] == '"' then 1
    else if q[0] == '\\' then
      if |q| < 2 || q[1] == '\n' then 0
      else if StringRun(q[2..]) == 0 then 0 else 2 + StringRun(q[2..])
    else if q[0] == '\r' || q[0] == '\n' then 0
    else if StringRun(q[1..]) == 0 then 0 else 1 + StringRun(q[1..])
  }

  /** The length of the token at the start of `q`, or 0 if none starts there. The alternatives
      of the pattern differ in their first character. */
  function TokenRun(q: string): (n: nat)
    ensures n <= |q|
  {
    if |q| == 0 then 0
    else if Letter(q[0]) then NameRun(q)
    else if Digit(q[0]) || q[0] == '-' then NumberRun(q)
    else if q[0] == '"' then if StringRun(q[1..]) == 0 then 0 else 1 + StringRun(q[1..])
    else if Mark(q[0]) then 1
    else if |q| >= 3 && q[..3] == "..." then 3
    else 0
  }

  function BlankRun(q: string): (n: nat)
    ensures n <= |q| && (n < |q| ==> !Blank(q[n]))
  {
    if |q| > 0 && Blank(q[0]) then 1 + BlankRun(q[1..]) else 0
  }

  /** A comment up to and including its line feed. */
  function CommentRun(q: string): (n: nat)
    ensures n <= |q| && (|q| > 0 ==> n > 0)
  {
    if |q| == 0 then 0 else if q[0] == '\n' then 1 else 1 + CommentRun(q[1..])
  }

  predicate Banned(token: string)
  {
    token == "mutation" || token == "subscription" || token == "rateLimit" || token == "__schema" || token == "__type"
  }

  /** What comes first in a text: nothing, something to skip, a token, or neither. */
  datatype Piece = End | Skip(rest: string) | Token(token: string, rest: string) | Bad

  function First(query: string): (p: Piece)
    ensures p.Skip? || p.Token? ==> |p.rest| < |query|
  {
    if query == "" then End
    else if Blank(query[0]) then Skip(query[BlankRun(query)..])
    else if query[0] == '#' then Skip(query[CommentRun(query)..])
    else
      var n := TokenRun(query);
      if n == 0 || Banned(query[..n]) then Bad else Token(query[..n], query[n..])
  }

  function Cons(token: string, rest: Option<seq<string>>): Option<seq<string>>
  {
    match rest case None => None case Some(tokens) => Some([token] + tokens)
  }

  /** The tokens of `query`, with room for `room` more. */
  function Lex(query: string, room: nat): Option<seq<string>>
    decreases |query|
  {
    match First(query)
    case End => Some([])
    case Skip(rest) => Lex(rest, room)
    case Bad => None
    case Token(token, rest) => if room == 0 then None else Cons(token, Lex(rest, room - 1))
  }

  /** Bytes of the UTF-8 form. */
  function Utf8Size(text: string): nat
  {
    if text == "" then 0
    else (if text[0] < '\U{80}' then 1 else if text[0] < '\U{800}' then 2 else if text[0] < '\U{10000}' then 3 else 4)
         + Utf8Size(text[1..])
  }

  predicate HasBlockQuote(text: string)
  {
    |text| >= 3 && (text[..3] == "\"\"\"" || HasBlockQuote(text[1..]))
  }

  function Tokens(query: string): Option<seq<string>>
  {
    if query == "" || Utf8Size(query) > MAX_BYTES || HasBlockQuote(query) then None
    else match Lex(query, MAX_TOKENS)
         case None => None
         case Some(tokens) => if tokens == [] then None else Some(tokens)
  }

  function After(found: seq<string>, rest: Option<seq<string>>): Option<seq<string>>
  {
    match rest case None => None case Some(tokens) => Some(found + tokens)
  }

  lemma AfterOneMore(found: seq<string>, token: string, rest: Option<seq<string>>)
    ensures After(found, Cons(token, rest)) == After(found + [token], rest)
  {
    if rest.Some? { assert found + ([token] + rest.value) == (found + [token]) + rest.value; }
  }

  /** The loop of `graphQLReadTokens`, past the checks on the whole text. */
  method Scan(text: string) returns (tokens: Option<seq<string>>)
    ensures tokens == Lex(text, MAX_TOKENS)
  {
    var query, found := text, [];
    ghost var room: nat := MAX_TOKENS;
    assert forall rest: seq<string> :: [] + rest == rest;
    while |query| > 0
      invariant |found| + room == MAX_TOKENS
      invariant Lex(text, MAX_TOKENS) == After(found, Lex(query, room))
      decreases |query|
    {
      var piece := First(query);
      match piece {
        case Skip(rest) => query := rest;
        case Bad => return None;
        case Token(token, rest) =>
          if |found| + 1 > MAX_TOKENS { return None; }
          AfterOneMore(found, token, Lex(rest, room - 1));
          query, found, room := rest, found + [token], room - 1;
      }
    }
    assert found + [] == found;
    return Some(found);
  }

  // ------------------------------------------------- joined tokens are read back

  /** A token on its own, which a space or the end of the text delimits. */
  predicate Whole(token: string)
  {
    |token| > 0 && TokenRun(token) == |token| && !Blank(token[0]) && token[0] != '#' && !Banned(token)
  }

  predicate AllWhole(tokens: seq<string>)
  {
    tokens == [] || (Whole(tokens[0]) && AllWhole(tokens[1..]))
  }

  lemma {:induction false} AllWholeSplits(left: seq<string>, right: seq<string>)
    ensures AllWhole(left + right) <==> AllWhole(left) && AllWhole(right)
  {
    if left == [] {
      assert left + right == right;
    } else {
      AllWholeSplits(left[1..], right);
      assert (left + right)[1..] == left[1..] + right;
    }
  }

  lemma {:induction false} NameRunStops(q: string, rest: string)
    ensures NameRun(q[..NameRun(q)]) == NameRun(q)
    ensures NameRun(q[..NameRun(q)] + " " + rest) == NameRun(q)
  {
    var n := NameRun(q);
    if n > 0 {
      NameRunStops(q[1..], rest);
      assert q[..n][1..] == q[1..][..n - 1];
      assert (q[..n] + " " + rest)[1..] == q[1..][..n - 1] + " " + rest;
    }
  }

  lemma {:induction false} DigitRunCut(q: string, n: nat, rest: string)
    requires DigitRun(q) <= n <= |q|
    requires rest == "" || !Digit(rest[0])
    ensures DigitRun(q[..n] + rest) == DigitRun(q)
  {
    var cut := q[..n] + rest;
    if DigitRun(q) > 0 {
      DigitRunCut(q[1..], n - 1, rest);
      assert cut[1..] == q[1..][..n - 1] + rest;
    } else if n > 0 {
      assert cut[0] == q[0];
    }
  }

  predicate Quiet(rest: string)
  {
    rest == "" || rest[0] == ' '
  }

  /** What follows cannot be read as more of a number. */
  predicate NotNumeric(rest: string)
  {
    rest == "" || (!Digit(rest[0]) && rest[0] != '.' && rest[0] != 'e' && rest[0] != 'E' && rest[0] != '+' && rest[0] != '-')
  }

  lemma FractionRunCut(q: string, n: nat, rest: string)
    requires FractionRun(q) <= n <= |q| && NotNumeric(rest)
    ensures FractionRun(q[..n] + rest) == FractionRun(q)
  {
    var cut := q[..n] + rest;
    if FractionRun(q) > 0 {
      DigitRunCut(q[1..], n - 1, rest);
      assert cut[1..] == q[1..][..n - 1] + rest;
    } else if n > 1 {
      assert cut[0] == q[0] && cut[1] == q[1];
    }
  }

  lemma {:induction false} DigitRunShorter(q: string, n: nat, rest: string)
    requires n <= |q| && NotNumeric(rest)
    ensures DigitRun(q[..n] + rest) <= DigitRun(q)
  {
    var cut := q[..n] + rest;
    if n > 0 && Digit(q[0]) {
      DigitRunShorter(q[1..], n - 1, rest);
      assert cut[1..] == q[1..][..n - 1] + rest;
    } else if n > 0 {
      assert cut[0] == q[0];
    }
  }

  lemma ExponentRunCut(q: string, n: nat, rest: string)
    requires ExponentRun(q) <= n <= |q| && NotNumeric(rest)
    ensures ExponentRun(q[..n] + rest) == ExponentRun(q)
  {
    var cut := q[..n] + rest;
    if n > 0 && (q[0] == 'e' || q[0] == 'E') {
      var sign := SignRun(q);
      if sign <= n {
        SliceCut(q, n, rest, sign);
        DigitRunShorter(q[sign..], n - sign, rest);
        if DigitRun(q[sign..]) > 0 { DigitRunCut(q[sign..], n - sign, rest); }
      } else {
        assert cut[1..] == rest;
      }
    }
  }

  lemma TailRunStops(q: string, rest: string)
    requires NotNumeric(rest)
    ensures TailRun(q[..TailRun(q)] + rest) == TailRun(q)
  {
    var n, k := TailRun(q), FractionRun(q);
    FractionRunCut(q, n, rest);
    SliceCut(q, n, rest, k);
    ExponentRunCut(q[k..], n - k, rest);
  }

  lemma UnsignedRunStops(q: string, rest: string)
    requires NotNumeric(rest)
    ensures UnsignedRun(q[..UnsignedRun(q)] + rest) == UnsignedRun(q)
  {
    var n, whole := UnsignedRun(q), DigitRun(q);
    if whole == 0 {
      assert q[..0] + rest == rest;
    } else {
      DigitRunCut(q, n, rest);
      SliceCut(q, n, rest, whole);
      TailRunStops(q[whole..], rest);
    }
  }

  lemma NumberRunStops(q: string, rest: string)
    requires NotNumeric(rest) && NumberRun(q) > 0
    ensures NumberRun(q[..NumberRun(q)] + rest) == NumberRun(q)
  {
    var n := NumberRun(q);
    if q[0] == '-' {
      SliceCut(q, n, rest, 1);
      UnsignedRunStops(q[1..], rest);
    } else {
      UnsignedRunStops(q, rest);
    }
  }

  lemma {:induction false} StringRunStops(q: string, rest: string)
    requires StringRun(q) > 0
    ensures StringRun(q[..StringRun(q)] + rest) == StringRun(q)
    decreases |q|
  {
    var n := StringRun(q);
    var cut := q[..n] + rest;
    assert cut[0] == q[0];
    if q[0] == '"' {
    } else if q[0] == '\\' {
      StringRunStops(q[2..], rest);
      assert cut[1] == q[1] && cut[2..] == q[2..][..n - 2] + rest;
    } else {
      StringRunStops(q[1..], rest);
      assert cut[1..] == q[1..][..n - 1] + rest;
    }
  }

  /** A token that was found in a text is found again in front of a space, or of nothing. */
  lemma TokenRunStops(q: string, rest: string)
    requires TokenRun(q) > 0 && Quiet(rest)
    ensures TokenRun(q[..TokenRun(q)] + rest) == TokenRun(q)
  {
    var n := TokenRun(q);
    var cut := q[..n] + rest;
    assert cut[0] == q[0];
    if Letter(q[0]) {
      if rest == "" {
        NameRunStops(q, "");
        assert cut == q[..n];
      } else {
        NameRunStops(q, rest[1..]);
        assert cut == q[..n] + " " + rest[1..];
      }
    } else if Digit(q[0]) || q[0] == '-' {
      NumberRunStops(q, rest);
    } else if q[0] == '"' {
      StringRunStops(q[1..], rest);
      assert cut[1..] == q[1..][..n - 1] + rest;
    } else if !Mark(q[0]) {
      assert cut[..3] == q[..3];
    }
  }

  lemma WholeCons(token: string, tokens: seq<string>)
    requires Whole(token) && AllWhole(tokens)
    ensures AllWhole([token] + tokens)
  {
    assert ([token] + tokens)[1..] == tokens;
  }

  lemma FirstIsWhole(q: string)
    requires First(q).Token?
    ensures Whole(First(q).token)
  {
    TokenRunStops(q, "");
    assert q[..TokenRun(q)] + "" == q[..TokenRun(q)];
  }

  lemma {:induction false} LexedAreWhole(query: string, room: nat)
    requires Lex(query, room).Some?
    ensures AllWhole(Lex(query, room).value)
    decreases |query|
  {
    hide Whole, First;
    match First(query)
    case End =>
    case Skip(rest) => LexedAreWhole(rest, room);
    case Token(token, rest) =>
      FirstIsWhole(query);
      LexedAreWhole(rest, room - 1);
      WholeCons(token, Lex(rest, room - 1).value);
  }

  lemma {:induction false} LexedFit(query: string, room: nat)
    requires Lex(query, room).Some?
    ensures |Lex(query, room).value| <= room
    decreases |query|
  {
    hide First;
    match First(query)
    case End =>
    case Skip(rest) => LexedFit(rest, room);
    case Token(token, rest) => LexedFit(rest, room - 1);
  }

  function Join(tokens: seq<string>): string
  {
    if |tokens| == 0 then "" else if |tokens| == 1 then tokens[0] else tokens[0] + " " + Join(tokens[1..])
  }

  function Joined(tokens: seq<string>): string
  {
    if tokens == [] then "" else " " + Join(tokens)
  }

  lemma FirstOfJoin(t: string, after: string)
    requires Whole(t) && Quiet(after)
    ensures First(t + after) == Token(t, after)
  {
    TokenRunStops(t, after);
    assert t[..|t|] == t;
    assert (t + after)[..|t|] == t && (t + after)[|t|..] == after;
  }

  lemma FirstOfSpace(text: string)
    requires text == "" || !Blank(text[0])
    ensures First(" " + text) == Skip(text)
  {
    assert (" " + text)[1..] == text;
    assert BlankRun(text) == 0;
    assert BlankRun(" " + text) == 1;
  }

  lemma LexJoined(t: string, after: string, room: nat)
    requires Whole(t) && Quiet(after) && room > 0
    ensures Lex(t + after, room) == Cons(t, Lex(after, room - 1))
    ensures Lex(" " + (t + after), room) == Lex(t + after, room)
  {
    FirstOfJoin(t, after);
    FirstOfSpace(t + after);
  }

  ghost predicate ReadsAs(text: string, room: nat, tokens: seq<string>)
  {
    Lex(text, room) == Some(tokens)
  }

  lemma NothingReads(room: nat)
    ensures ReadsAs("", room, [])
  {
  }

  lemma ReadsOneMore(t: string, after: string, room: nat, tokens: seq<string>)
    requires Whole(t) && Quiet(after) && room > 0 && ReadsAs(after, room - 1, tokens)
    ensures ReadsAs(t + after, room, [t] + tokens)
    ensures ReadsAs(" " + (t + after), room, [t] + tokens)
  {
    LexJoined(t, after, room);
  }

  lemma JoinedShape(tokens: seq<string>)
    requires tokens != []
    ensures Join(tokens) == tokens[0] + Joined(tokens[1..])
    ensures Joined(tokens) == " " + (tokens[0] + Joined(tokens[1..]))
    ensures Quiet(Joined(tokens[1..]))
    ensures [tokens[0]] + tokens[1..] == tokens
  {
    if |tokens| == 1 {
      assert tokens[1..] == [];
      assert tokens[0] + "" == tokens[0];
    }
  }

  lemma {:induction false} JoinedReads(tokens: seq<string>, room: nat)
    requires |tokens| <= room && AllWhole(tokens)
    ensures ReadsAs(Joined(tokens), room, tokens)
  {
    hide Lex;
    if tokens == [] {
      NothingReads(room);
    } else {
      JoinedReads(tokens[1..], room - 1);
      JoinedShape(tokens);
      ReadsOneMore(tokens[0], Joined(tokens[1..]), room, tokens[1..]);
    }
  }

  /** Any selection of tokens, joined with spaces, is read back as exactly those tokens. */
  lemma JoinLexes(tokens: seq<string>, room: nat)
    requires |tokens| <= room && AllWhole(tokens)
    ensures Lex(Join(tokens), room) == Some(tokens)
  {
    hide First;
    if tokens == [] {
      NothingReads(room);
    } else {
      JoinedReads(tokens[1..], room - 1);
      JoinedShape(tokens);
      ReadsOneMore(tokens[0], Joined(tokens[1..]), room, tokens[1..]);
    }
  }
}
