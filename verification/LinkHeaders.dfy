/** `splitRelayLinkHeader` (cmd/octopool/gh_api_pagination.go:188-224). */
module LinkHeaders {
  import opened Cutting

  /** Inside `<...>`, inside quotes, and after a backslash there. */
  datatype State = State(angle: bool, quote: bool, escaped: bool)

  const OUTSIDE := State(false, false, false)

  function Advance(s: State, c: char): State
  {
    if s.quote then
      if s.escaped then s.(escaped := false)
      else if c == '\\' then s.(escaped := true)
      else if c == '"' then s.(quote := false) else s
    else if c == '<' then s.(angle := true)
    else if c == '>' then s.(angle := false)
    else if c == '"' then s.(quote := true) else s
  }

  function TrimAll(pieces: seq<string>): (r: seq<string>)
    ensures |r| == |pieces| && forall i :: 0 <= i < |r| ==> r[i] == Trim(pieces[i])
  {
    if pieces == [] then [] else [Trim(pieces[0])] + TrimAll(pieces[1..])
  }

  /** The entries so far, then those of the rest, of which `open` is already read. */
  function Resumed(entries: seq<string>, open: string, rest: seq<string>): seq<string>
    requires rest != []
  {
    entries + [Trim(open + rest[0])] + TrimAll(rest[1..])
  }

  lemma ResumedStart(header: string)
    ensures var whole := Cut(header, OUTSIDE, Advance, OUTSIDE);
            header[0..] == header && TrimAll(whole) == Resumed([], header[0..0], whole)
  {
    var whole := Cut(header, OUTSIDE, Advance, OUTSIDE);
    assert "" + whole[0] == whole[0];
  }

  lemma ResumedEnd(header: string, start: nat, entries: seq<string>, s: State)
    requires start <= |header|
    ensures Resumed(entries, header[start..|header|], Cut(header[|header|..], s, Advance, OUTSIDE)) == entries + [Trim(header[start..])]
  {
    assert header[start..|header|] + "" == header[start..];
  }

  /** One character: it separates two entries, or it belongs to the one that is open. */
  lemma StepResumes(header: string, start: nat, index: nat, entries: seq<string>, s: State)
    requires start <= index < |header|
    ensures var c := header[index];
            var next := Cut(header[index + 1..], Advance(s, c), Advance, OUTSIDE);
            Resumed(entries, header[start..index], Cut(header[index..], s, Advance, OUTSIDE))
            == if c == ',' && s == OUTSIDE then Resumed(entries + [Trim(header[start..index])], header[index + 1..index + 1], next)
               else Resumed(entries, header[start..index + 1], next)
  {
    var c := header[index];
    var next := Cut(header[index + 1..], Advance(s, c), Advance, OUTSIDE);
    assert header[index..][0] == c && header[index..][1..] == header[index + 1..];
    if c == ',' && s == OUTSIDE {
      assert ([""] + next)[1..] == next;
      assert header[start..index] + "" == header[start..index];
      assert header[index + 1..index + 1] + next[0] == next[0];
      assert TrimAll(next) == [Trim(next[0])] + TrimAll(next[1..]);
    } else {
      assert header[start..index] + ([c] + next[0]) == header[start..index + 1] + next[0];
    }
  }

  method SplitRelayLinkHeader(header: string) returns (entries: seq<string>)
    ensures entries == TrimAll(Cut(header, OUTSIDE, Advance, OUTSIDE))
  {
    hide Cut, TrimAll, Resumed, Trim;
    entries := [];
    var start := 0;
    var inAngle, inQuote, escaped := false, false, false;
    ResumedStart(header);
    for index := 0 to |header|
      invariant 0 <= start <= index && (escaped ==> inQuote)
      invariant TrimAll(Cut(header, OUTSIDE, Advance, OUTSIDE))
             == Resumed(entries, header[start..index], Cut(header[index..], State(inAngle, inQuote, escaped), Advance, OUTSIDE))
    {
      var character := header[index];
      StepResumes(header, start, index, entries, State(inAngle, inQuote, escaped));
      if inQuote {
        if escaped {
          escaped := false;
        } else if character == '\\' {
          escaped := true;
        } else if character == '"' {
          inQuote := false;
        }
      } else if character == '<' {
        inAngle := true;
      } else if character == '>' {
        inAngle := false;
      } else if character == '"' {
        inQuote := true;
      } else if character == ',' && !inAngle {
        entries := entries + [Trim(header[start..index])];
        start := index + 1;
      }
    }
    ResumedEnd(header, start, entries, State(inAngle, inQuote, escaped));
    entries := entries + [Trim(header[start..])];
  }

  /** An entry as it is written: nothing in it separates, it closes what it opens, and it has no space at its ends. */
  predicate Entry(text: string)
  {
    && End(text, OUTSIDE, Advance) == OUTSIDE && Cut(text, OUTSIDE, Advance, OUTSIDE) == [text] && Trim(text) == text
  }

  function Joined(entries: seq<string>): string
  {
    if |entries| == 0 then "" else if |entries| == 1 then entries[0] else entries[0] + ", " + Joined(entries[1..])
  }

  lemma SpaceAfterComma(text: string)
    ensures Cut(" " + text, OUTSIDE, Advance, OUTSIDE)
            == [" " + Cut(text, OUTSIDE, Advance, OUTSIDE)[0]] + Cut(text, OUTSIDE, Advance, OUTSIDE)[1..]
  {
    assert (" " + text)[1..] == text;
  }

  lemma TrimSpace(text: string)
    ensures Trim(" " + text) == Trim(text)
  {
    assert (" " + text)[1..] == text;
  }

  lemma CommaSpace(a: string, b: string)
    ensures a + ", " + b == a + "," + (" " + b)
  {
    assert ", " == "," + " ";
  }

  lemma JoinedMore(entries: seq<string>)
    requires entries != []
    ensures Joined(entries) == if |entries| == 1 then entries[0] else entries[0] + "," + (" " + Joined(entries[1..]))
  {
    if |entries| > 1 {
      var rest := Joined(entries[1..]);
      assert Joined(entries) == entries[0] + ", " + rest;
      CommaSpace(entries[0], rest);
    }
  }

  lemma TrimOne(e: string)
    ensures TrimAll([e]) == [Trim(e)]
  {
  }

  /** The space after a comma is trimmed from the piece that it starts. */
  lemma TrimMore(e: string, pieces: seq<string>)
    requires pieces != []
    ensures TrimAll([e] + ([" " + pieces[0]] + pieces[1..])) == [Trim(e)] + TrimAll(pieces)
  {
    var spaced := [" " + pieces[0]] + pieces[1..];
    TrimSpace(pieces[0]);
    assert ([e] + spaced)[1..] == spaced && spaced[1..] == pieces[1..];
  }

  /** Splitting a header gives back the entries it was joined from, whatever commas their targets and
      quoted parameters hold. */
  lemma {:induction false} SplitGivesBackEntries(entries: seq<string>)
    requires entries != [] && forall e :: e in entries ==> Entry(e)
    ensures TrimAll(Cut(Joined(entries), OUTSIDE, Advance, OUTSIDE)) == entries
  {
    hide Cut, End, TrimAll, Trim, Joined;
    assert Entry(entries[0]);
    JoinedMore(entries);
    assert entries == [entries[0]] + entries[1..];
    if |entries| == 1 {
      TrimOne(entries[0]);
    } else {
      var rest := Joined(entries[1..]);
      assert forall e :: e in entries[1..] ==> e in entries;
      SplitGivesBackEntries(entries[1..]);
      CutAtComma(entries[0], " " + rest, OUTSIDE, Advance, OUTSIDE);
      SpaceAfterComma(rest);
      TrimMore(entries[0], Cut(rest, OUTSIDE, Advance, OUTSIDE));
    }
  }
}
