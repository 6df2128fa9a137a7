/** The listings that are accepted: exactly those that are printed as one, and none the start of another. */
module GitListings {
  import opened Basics
  import opened GraphQLReads
  import opened GitRefs

  // ------------------------------------------------- listings as they are written

  /** A packet: its length in digits of either case, and its payload. */
  datatype Line = Line(digits: string, payload: string)

  predicate GoodLine(l: Line)
  {
    |l.digits| == 4 && HexText(l.digits) && Length(l.digits) == |l.payload| + 4 <= MAX_PACKET
  }

  function Raw(lines: seq<Line>): string
  {
    if lines == [] then "0000" else lines[0].digits + (lines[0].payload + Raw(lines[1..]))
  }

  function Listing(service: Line, lines: seq<Line>): string
  {
    service.digits + (service.payload + ("0000" + Raw(lines)))
  }

  /** The refs of the lines, from those already found: None if a line is not a ref, or a name comes twice. */
  function Collected(lines: seq<Line>, first: bool, refs: Refs): Option<Refs>
  {
    if lines == [] then if |refs| > 0 then Some(refs) else None
    else match PayloadRef(lines[0].payload, first)
         case None => None
         case Some(ref) =>
           if ref.name == "HEAD" then Collected(lines[1..], false, refs)
           else if ref.name in refs then None
           else Collected(lines[1..], false, refs[ref.name := LowerText(ref.id)])
  }

  predicate AllGood(lines: seq<Line>)
  {
    lines == [] || (GoodLine(lines[0]) && AllGood(lines[1..]))
  }

  lemma LineIsNext(l: Line, rest: string)
    requires GoodLine(l)
    ensures Next(l.digits + (l.payload + rest)) == Data(l.payload, rest)
  {
    var s := l.digits + (l.payload + rest);
    assert s[..4] == l.digits;
    assert s[4..|l.payload| + 4] == l.payload && s[|l.payload| + 4..] == rest;
  }

  lemma FlushIsNext(rest: string)
    ensures Next("0000" + rest) == Flush(rest)
  {
    var s := "0000" + rest;
    assert s[..4] == "0000" && s[4..] == rest;
    assert HexText("0000") && Length("0000") == 0;
  }

  lemma ZeroIsZeros(text: string)
    requires |text| == 4 && HexText(text) && Length(text) == 0
    ensures text == "0000"
  {
    assert forall i :: 0 <= i < 4 ==> HexValue(text[i]) == 0;
  }

  lemma {:induction false} LinesAreRead(lines: seq<Line>, first: bool, refs: Refs)
    requires AllGood(lines)
    ensures RefsFrom(Raw(lines), first, refs) == Collected(lines, first, refs)
  {
    hide Next, PayloadRef, GoodLine;
    if lines == [] {
      FlushIsNext("");
      assert "0000" + "" == "0000";
    } else {
      LineIsNext(lines[0], Raw(lines[1..]));
      match PayloadRef(lines[0].payload, first)
      case None =>
      case Some(ref) =>
        LinesAreRead(lines[1..], false, if ref.name == "HEAD" then refs else refs[ref.name := LowerText(ref.id)]);
    }
  }

  /** A service packet, a flush, the ref packets and a final flush are read as the refs collected from them. */
  lemma ListingsAreRead(service: Line, lines: seq<Line>)
    requires GoodLine(service) && ServicePayload(service.payload) && AllGood(lines)
    ensures Parse(Listing(service, lines)) == Collected(lines, true, map[])
  {
    hide Next, RefsFrom, GoodLine, ServicePayload, Collected;
    LineIsNext(service, "0000" + Raw(lines));
    FlushIsNext(Raw(lines));
    LinesAreRead(lines, true, map[]);
  }

  lemma NextIsLine(s: string)
    requires Next(s).Data?
    ensures var l := Line(s[..4], Next(s).payload); GoodLine(l) && s == l.digits + (l.payload + Next(s).rest)
  {
    var n := Length(s[..4]);
    assert s == s[..4] + (s[4..n] + s[n..]);
  }

  lemma NextIsFlush(s: string)
    requires Next(s).Flush?
    ensures s == "0000" + Next(s).rest
  {
    ZeroIsZeros(s[..4]);
  }

  lemma {:induction false} RefsWereLines(s: string, first: bool, refs: Refs) returns (lines: seq<Line>)
    requires RefsFrom(s, first, refs).Some?
    ensures AllGood(lines) && s == Raw(lines) && Collected(lines, first, refs) == RefsFrom(s, first, refs)
    decreases |s|
  {
    hide Next, PayloadRef, GoodLine;
    match Next(s)
    case Flush(rest) =>
      NextIsFlush(s);
      assert "0000" + "" == "0000";
      lines := [];
    case Data(payload, rest) =>
      NextIsLine(s);
      var ref := PayloadRef(payload, first).value;
      var more := RefsWereLines(rest, false, if ref.name == "HEAD" then refs else refs[ref.name := LowerText(ref.id)]);
      var line := Line(s[..4], payload);
      lines := [line] + more;
      assert lines[1..] == more;
  }

  /** Whatever is accepted is such a listing. */
  lemma AcceptedIsListing(body: string) returns (service: Line, lines: seq<Line>)
    requires Parse(body).Some?
    ensures GoodLine(service) && ServicePayload(service.payload) && AllGood(lines) && body == Listing(service, lines)
    ensures Collected(lines, true, map[]) == Parse(body)
  {
    hide Next, RefsFrom, GoodLine, ServicePayload, Collected;
    NextIsLine(body);
    var rest := Next(body).rest;
    NextIsFlush(rest);
    service := Line(body[..4], Next(body).payload);
    lines := RefsWereLines(Next(rest).rest, true, map[]);
  }

  // ------------------------------------------------- no listing is the start of another

  lemma NextExtends(s: string, more: string)
    requires !Next(s).Malformed?
    ensures Next(s + more) == (match Next(s) case Flush(rest) => Flush(rest + more) case Data(p, rest) => Data(p, rest + more))
  {
    var all := s + more;
    assert all[..4] == s[..4];
    var n := Length(s[..4]);
    if n == 0 {
      assert all[4..] == s[4..] + more;
    } else {
      assert all[4..n] == s[4..n] && all[n..] == s[n..] + more;
    }
  }

  lemma {:induction false} RefsNotExtended(s: string, more: string, first: bool, refs: Refs)
    requires RefsFrom(s, first, refs).Some? && more != ""
    ensures RefsFrom(s + more, first, refs) == None
    decreases |s|
  {
    hide Next, PayloadRef;
    NextExtends(s, more);
    match Next(s)
    case Flush(rest) => assert rest + more != "";
    case Data(payload, rest) =>
      var ref := PayloadRef(payload, first).value;
      RefsNotExtended(rest, more, false, if ref.name == "HEAD" then refs else refs[ref.name := LowerText(ref.id)]);
  }

  /** No accepted listing is accepted when it is cut short or continued. */
  lemma NoProperPrefix(body: string, more: string)
    requires Parse(body).Some? && more != ""
    ensures Parse(body + more) == None
  {
    hide Next, RefsFrom, ServicePayload;
    NextExtends(body, more);
    var rest := Next(body).rest;
    NextExtends(rest, more);
    RefsNotExtended(Next(rest).rest, more, true, map[]);
  }
}
