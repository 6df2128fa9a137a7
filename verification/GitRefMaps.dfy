/** A ref map, printed as a listing and read again. */
module GitRefMaps {
  import opened Basics
  import opened GraphQLReads
  import opened GitRefs
  import opened GitListings

  function Digit16(v: nat): (c: char)
    requires v < 16
    ensures HexDigit(c) && HexValue(c) == v
  {
    if v < 10 then '0' + v as char else 'a' + (v - 10) as char
  }

  function LengthText(n: nat): (text: string)
    requires n < 65_536
    ensures |text| == 4 && HexText(text) && Length(text) == n
  {
    var a := n / 16;
    var b := a / 16;
    [Digit16(b / 16), Digit16(b % 16), Digit16(a % 16), Digit16(n % 16)]
  }

  predicate Printable(r: Ref)
  {
    && IsId(r.id) && IsRefName(r.name) && r.name != "HEAD" && '\0' !in r.name
  }

  /** The payload of a ref: capabilities follow a null byte, on the first line only. */
  function Payload(r: Ref, capabilities: Option<string>): string
  {
    r.id + (" " + r.name) + (if capabilities.Some? then "\0" + capabilities.value else "") + "\n"
  }

  function Printed(refs: seq<Ref>, capabilities: Option<string>): seq<Line>
    requires forall i :: 0 <= i < |refs| ==> |Payload(refs[i], if i == 0 then capabilities else None)| + 4 <= MAX_PACKET
  {
    if refs == [] then []
    else
      var payload := Payload(refs[0], capabilities);
      assert forall i :: 0 <= i < |refs| - 1 ==> refs[1..][i] == refs[i + 1];
      [Line(LengthText(|payload| + 4), payload)] + Printed(refs[1..], None)
  }

  function RefMap(refs: seq<Ref>, found: Refs): Refs
  {
    if refs == [] then found else RefMap(refs[1..], found[refs[0].name := LowerText(refs[0].id)])
  }

  lemma {:induction false} IndexAt(s: string, t: string, c: char)
    requires c !in s
    ensures IndexOf(s + ([c] + t), c) == |s| && IndexOf(s, c) == |s|
  {
    var all := s + ([c] + t);
    if s != "" {
      assert all[0] == s[0] && all[1..] == s[1..] + ([c] + t);
      assert s[0] in s && forall d :: d in s[1..] ==> d in s;
      IndexAt(s[1..], t, c);
    }
  }

  lemma LineIsRead(r: Ref)
    requires Printable(r)
    ensures LineRef(r.id + (" " + r.name)) == Some(r)
    ensures '\0' !in r.id + (" " + r.name)
  {
    forall c | c in r.id ensures HexDigit(c) {
      var i :| 0 <= i < |r.id| && r.id[i] == c;
    }
    var line := r.id + (" " + r.name);
    IndexAt(r.id, r.name, ' ');
    assert [' '] == " ";
    assert line[..|r.id|] == r.id && line[|r.id| + 1..] == r.name;
  }

  lemma PayloadIsRead(r: Ref, capabilities: Option<string>)
    requires Printable(r)
    ensures PayloadRef(Payload(r, capabilities), capabilities.Some?) == Some(r)
    ensures capabilities.None? ==> PayloadRef(Payload(r, capabilities), true) == Some(r)
  {
    hide LineRef, IsId, IsRefName;
    var line := r.id + (" " + r.name);
    var record := line + if capabilities.Some? then "\0" + capabilities.value else "";
    LineIsRead(r);
    assert WithoutNewline(record + "\n") == record;
    if capabilities.Some? {
      IndexAt(line, capabilities.value, '\0');
      assert ['\0'] == "\0";
      assert record[..|line|] == line;
    } else {
      assert record == line;
      IndexAt(line, "", '\0');
      assert line[..|line|] == line;
    }
  }

  predicate DistinctNames(refs: seq<Ref>, found: Refs)
  {
    refs == [] || (refs[0].name !in found && DistinctNames(refs[1..], found[refs[0].name := LowerText(refs[0].id)]))
  }

  lemma NotHead(r: Ref)
    requires Printable(r)
    ensures r.name != "HEAD"
  {
  }

  lemma FirstOrNot(r: Ref, capabilities: Option<string>, first: bool)
    requires Printable(r) && (capabilities.Some? ==> first)
    ensures PayloadRef(Payload(r, capabilities), first) == Some(r)
  {
    PayloadIsRead(r, capabilities);
  }

  lemma {:induction false} PrintedIsCollected(refs: seq<Ref>, capabilities: Option<string>, first: bool, found: Refs)
    requires forall i :: 0 <= i < |refs| ==> |Payload(refs[i], if i == 0 then capabilities else None)| + 4 <= MAX_PACKET
    requires (forall i :: 0 <= i < |refs| ==> Printable(refs[i])) && DistinctNames(refs, found)
    requires capabilities.Some? ==> first
    requires |found| + |refs| > 0
    ensures AllGood(Printed(refs, capabilities)) && Collected(Printed(refs, capabilities), first, found) == Some(RefMap(refs, found))
  {
    hide PayloadRef, Payload, LowerText, Printable;
    if refs != [] {
      var r, rest := refs[0], refs[1..];
      var grown := found[r.name := LowerText(r.id)];
      assert forall i :: 0 <= i < |rest| ==> rest[i] == refs[i + 1];
      NotHead(r);
      PayloadIsRead(r, capabilities);
      FirstOrNot(r, capabilities, first);
      assert r.name in grown && |grown| > 0;
      PrintedIsCollected(rest, None, false, grown);
      assert Printed(refs, capabilities)[1..] == Printed(rest, None);
    }
  }

  /** Any ref map that is not empty, printed as a listing in any order with capabilities on the first
      line only, is read back as that map with its ids in lower case. */
  lemma PrintedRefsAreRead(refs: seq<Ref>, capabilities: Option<string>)
    requires refs != [] && DistinctNames(refs, map[]) && forall i :: 0 <= i < |refs| ==> Printable(refs[i])
    requires forall i :: 0 <= i < |refs| ==> |Payload(refs[i], if i == 0 then capabilities else None)| + 4 <= MAX_PACKET
    ensures var service := Line("001e", "# service=git-upload-pack\n");
            Parse(Listing(service, Printed(refs, capabilities))) == Some(RefMap(refs, map[]))
  {
    var service := Line("001e", "# service=git-upload-pack\n");
    assert GoodLine(service) by { assert HexText("001e") && Length("001e") == 30; }
    PrintedIsCollected(refs, capabilities, true, map[]);
    ListingsAreRead(service, Printed(refs, capabilities));
  }
}
