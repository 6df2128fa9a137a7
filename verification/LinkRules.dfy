/** What may stand in an entry of a link header without separating it (cmd/octopool/gh_api_pagination.go:188-224,
    sections 3 of RFC 8288 and 5.6.4 of RFC 9110). */
module LinkRules {
  import opened Basics
  import opened Cutting
  import opened LinkHeaders

  /** A target between angle brackets, a quoted string with its escapes, or plain text. */
  datatype Piece = Target(uri: string) | Quoted(chars: seq<Char>) | Plain(text: string)

  /** A character of a quoted string, as it stands or behind a backslash. */
  datatype Char = Itself(c: char) | Escaped(c: char)

  predicate WellFormed(p: Piece)
  {
    match p
    case Target(uri) => forall i :: 0 <= i < |uri| ==> uri[i] != '>' && uri[i] != '"'
    case Quoted(chars) => forall i :: 0 <= i < |chars| ==> chars[i].Itself? ==> chars[i].c != '"' && chars[i].c != '\\'
    case Plain(text) => forall i :: 0 <= i < |text| ==> text[i] !in "<>\","
  }

  function Chars(chars: seq<Char>): string
  {
    if chars == [] then "" else (if chars[0].Itself? then [chars[0].c] else ['\\', chars[0].c]) + Chars(chars[1..])
  }

  function Text(p: Piece): string
  {
    match p
    case Target(uri) => "<" + uri + ">"
    case Quoted(chars) => "\"" + Chars(chars) + "\""
    case Plain(text) => text
  }

  function Texts(pieces: seq<Piece>): string
  {
    if pieces == [] then "" else Text(pieces[0]) + Texts(pieces[1..])
  }

  const ANGLE := State(true, false, false)
  const QUOTE := State(false, true, false)

  predicate Solid(text: string, from: State, to: State)
  {
    Passes(text, from, to, Advance, OUTSIDE)
  }

  lemma OneChar(c: char, from: State)
    requires !(c == ',' && from == OUTSIDE)
    ensures Solid([c], from, Advance(from, c))
  {
    OnePasses(c, from, Advance, OUTSIDE);
  }

  lemma SolidAdds(left: string, right: string, from: State, mid: State, to: State)
    requires Solid(left, from, mid) && Solid(right, mid, to)
    ensures Solid(left + right, from, to)
  {
    PassesAdd(left, right, from, mid, to, Advance, OUTSIDE);
  }

  lemma {:induction false} AngleIsSolid(uri: string)
    requires forall i :: 0 <= i < |uri| ==> uri[i] != '>' && uri[i] != '"'
    ensures Solid(uri, ANGLE, ANGLE)
  {
    if uri == "" {
    } else {
      AngleIsSolid(uri[1..]);
      FirstPasses(uri, ANGLE, ANGLE, Advance, OUTSIDE);
    }
  }

  lemma {:induction false} PlainIsSolid(text: string)
    requires forall i :: 0 <= i < |text| ==> text[i] !in "<>\","
    ensures Solid(text, OUTSIDE, OUTSIDE)
  {
    if text == "" {
    } else {
      PlainIsSolid(text[1..]);
      FirstPasses(text, OUTSIDE, OUTSIDE, Advance, OUTSIDE);
    }
  }

  lemma {:induction false} QuoteIsSolid(chars: seq<Char>)
    requires forall i :: 0 <= i < |chars| ==> chars[i].Itself? ==> chars[i].c != '"' && chars[i].c != '\\'
    ensures Solid(Chars(chars), QUOTE, QUOTE)
  {
    if chars == [] {
    } else {
      var c := chars[0].c;
      QuoteIsSolid(chars[1..]);
      if chars[0].Itself? {
        OneChar(c, QUOTE);
        SolidAdds([c], Chars(chars[1..]), QUOTE, QUOTE, QUOTE);
      } else {
        var after := State(false, true, true);
        OneChar('\\', QUOTE);
        OneChar(c, after);
        SolidAdds(['\\'], [c], QUOTE, after, QUOTE);
        assert ['\\'] + [c] == ['\\', c];
        SolidAdds(['\\', c], Chars(chars[1..]), QUOTE, QUOTE, QUOTE);
      }
    }
  }

  lemma PieceIsSolid(p: Piece)
    requires WellFormed(p)
    ensures Solid(Text(p), OUTSIDE, OUTSIDE)
  {
    hide Solid;
    match p
    case Target(uri) =>
      OneChar('<', OUTSIDE);
      AngleIsSolid(uri);
      OneChar('>', ANGLE);
      SolidAdds("<", uri, OUTSIDE, ANGLE, ANGLE);
      SolidAdds("<" + uri, ">", OUTSIDE, ANGLE, OUTSIDE);
    case Quoted(chars) =>
      OneChar('"', OUTSIDE);
      QuoteIsSolid(chars);
      OneChar('"', QUOTE);
      SolidAdds("\"", Chars(chars), OUTSIDE, QUOTE, QUOTE);
      SolidAdds("\"" + Chars(chars), "\"", OUTSIDE, QUOTE, OUTSIDE);
    case Plain(text) => PlainIsSolid(text);
  }

  lemma {:induction false} PiecesAreSolid(pieces: seq<Piece>)
    requires forall p :: p in pieces ==> WellFormed(p)
    ensures Solid(Texts(pieces), OUTSIDE, OUTSIDE)
  {
    hide WellFormed;
    if pieces == [] {
    } else {
      hide Solid;
      assert pieces[0] in pieces && forall p :: p in pieces[1..] ==> p in pieces;
      PieceIsSolid(pieces[0]);
      PiecesAreSolid(pieces[1..]);
      SolidAdds(Text(pieces[0]), Texts(pieces[1..]), OUTSIDE, OUTSIDE, OUTSIDE);
    }
  }

  /** A list of entries, each of targets, quoted strings and plain text without commas, and without space at its
      ends: whatever stands between the brackets and quotes, splitting the header that lists them gives back each. */
  lemma WrittenEntriesAreSplit(entries: seq<seq<Piece>>, texts: seq<string>)
    requires entries != [] && |texts| == |entries|
    requires forall i :: 0 <= i < |entries| ==> texts[i] == Texts(entries[i]) && Trim(texts[i]) == texts[i]
    requires forall i, p :: 0 <= i < |entries| && p in entries[i] ==> WellFormed(p)
    ensures TrimAll(Cut(Joined(texts), OUTSIDE, Advance, OUTSIDE)) == texts
  {
    hide WellFormed, Cut, Trim, Texts;
    forall e | e in texts ensures Entry(e) {
      var i :| 0 <= i < |texts| && texts[i] == e;
      PiecesAreSolid(entries[i]);
    }
    SplitGivesBackEntries(texts);
  }
}
