/** Listings of Git refs (src/github-git.ts:6-67). A character stands for a byte, and payloads
    are taken as they are. */
module GitRefs {
  import opened Basics
  import opened GraphQLReads

  const MAX_PACKET := 65_520

  predicate HexDigit(c: char)
  {
    '0' <= c <= '9' || 'a' <= c <= 'f' || 'A' <= c <= 'F'
  }

  function HexValue(c: char): (v: nat)
    requires HexDigit(c)
    ensures v < 16
  {
    if c <= '9' then (c - '0') as int else if c <= 'F' then (c - 'A') as int + 10 else (c - 'a') as int + 10
  }

  predicate HexText(text: string)
  {
    forall i :: 0 <= i < |text| ==> HexDigit(text[i])
  }

  /** The length that four hexadecimal digits spell. */
  function Length(text: string): (n: nat)
    requires |text| == 4 && HexText(text)
    ensures n < 65_536
  {
    ((HexValue(text[0]) * 16 + HexValue(text[1])) * 16 + HexValue(text[2])) * 16 + HexValue(text[3])
  }

  /** What comes next: a flush, a payload, or neither. */
  datatype Packet = Flush(rest: string) | Data(payload: string, rest: string) | Malformed

  function Next(s: string): (p: Packet)
    ensures !p.Malformed? ==> |p.rest| < |s|
  {
    if |s| < 4 || !HexText(s[..4]) then Malformed
    else
      var n := Length(s[..4]);
      if n == 0 then Flush(s[4..])
      else if n < 4 || n > MAX_PACKET || n > |s| then Malformed
      else Data(s[4..n], s[n..])
  }

  predicate White(c: char)
  {
    c == ' ' || '\t' <= c <= '\r'
  }

  predicate IsId(id: string)
  {
    (|id| == 40 || |id| == 64) && HexText(id)
  }

  predicate IsRefName(name: string)
  {
    name == "HEAD" || (|name| > 5 && name[..5] == "refs/" && forall i :: 5 <= i < |name| ==> !White(name[i]))
  }

  /** The first position of a character, or the length. */
  function IndexOf(s: string, c: char): (n: nat)
    ensures n <= |s| && (n < |s| ==> s[n] == c) && c !in s[..n]
  {
    if s == "" || s[0] == c then 0
    else
      var n := 1 + IndexOf(s[1..], c);
      assert s[..n] == [s[0]] + s[1..][..n - 1];
      n
  }

  function WithoutNewline(payload: string): string
  {
    if payload != "" && payload[|payload| - 1] == '\n' then payload[..|payload| - 1] else payload
  }

  datatype Ref = Ref(name: string, id: string)

  /** The line before the capabilities: an id, a space and a name. */
  function LineRef(line: string): Option<Ref>
  {
    var n := IndexOf(line, ' ');
    if n < |line| && IsId(line[..n]) && IsRefName(line[n + 1..]) then Some(Ref(line[n + 1..], line[..n])) else None
  }

  /** The ref of a payload; only the first may carry capabilities. */
  function PayloadRef(payload: string, first: bool): Option<Ref>
  {
    var record := WithoutNewline(payload);
    var n := IndexOf(record, '\0');
    if n < |record| && !first then None else LineRef(record[..n])
  }

  type Refs = map<string, string>

  predicate ServicePayload(payload: string)
  {
    payload == "# service=git-upload-pack" || payload == "# service=git-upload-pack\n"
  }

  /** The refs after those already found, up to the flush that ends the listing and the text. */
  function RefsFrom(s: string, first: bool, refs: Refs): Option<Refs>
    decreases |s|
  {
    match Next(s)
    case Malformed => None
    case Flush(rest) => if |refs| > 0 && rest == "" then Some(refs) else None
    case Data(payload, rest) =>
      match PayloadRef(payload, first)
      case None => None
      case Some(ref) =>
        if ref.name == "HEAD" then RefsFrom(rest, false, refs)
        else if ref.name in refs then None
        else RefsFrom(rest, false, refs[ref.name := LowerText(ref.id)])
  }

  function AfterHeader(s: string): Option<Refs>
  {
    match Next(s) case Flush(rest) => RefsFrom(rest, true, map[]) case _ => None
  }

  /** `parseGitUploadPackAdvertisement` */
  function Parse(body: string): Option<Refs>
  {
    match Next(body) case Data(payload, rest) => (if ServicePayload(payload) then AfterHeader(rest) else None) case _ => None
  }

  datatype Phase = Service | HeaderFlush | InRefs

  lemma NothingLeft(s: string, first: bool, refs: Refs)
    ensures s == "" ==> Parse(s) == None && AfterHeader(s) == None && RefsFrom(s, first, refs) == None
  {
  }

  lemma NextRest(body: string, offset: nat)
    requires offset <= |body|
    ensures var p := Next(body[offset..]); !p.Malformed? ==> p.rest == body[|body| - |p.rest|..] && |body| - |p.rest| > offset
  {
    var s := body[offset..];
    var p := Next(s);
    if !p.Malformed? {
      var n := |s| - |p.rest|;
      assert p.rest == s[n..] == body[offset + n..];
    }
  }

  method ParseGitUploadPackAdvertisement(body: string) returns (found: Option<Refs>)
    ensures found == Parse(body)
  {
    hide Next, PayloadRef, ServicePayload;
    var refs: Refs := map[];
    var offset: nat := 0;
    var phase := Service;
    var firstRef := true;
    assert body[0..] == body;
    while offset < |body|
      invariant offset <= |body|
      invariant Parse(body) == match phase
                               case Service => if offset == 0 && refs == map[] && firstRef then Parse(body[offset..]) else None
                               case HeaderFlush => if refs == map[] && firstRef then AfterHeader(body[offset..]) else None
                               case InRefs => RefsFrom(body[offset..], firstRef, refs)
      invariant phase != InRefs ==> refs == map[] && firstRef
      invariant phase == Service ==> offset == 0
      decreases |body| - offset
    {
      var packet := PacketAt(body, offset);
      NextRest(body, offset);
      if packet.Malformed? { return None; }
      var next := |body| - |packet.rest|;
      assert body[next..] == packet.rest;
      if packet.Flush? {
        if phase == HeaderFlush {
          phase, offset := InRefs, next;
          continue;
        }
        return if phase == InRefs && |refs| > 0 && next == |body| then Some(refs) else None;
      }
      if phase == HeaderFlush { return None; }
      offset := next;
      if phase == Service {
        if !ServicePayload(packet.payload) { return None; }
        phase := HeaderFlush;
        continue;
      }
      var ref := PayloadRef(packet.payload, firstRef);
      if ref == None { return None; }
      firstRef := false;
      if ref.value.name == "HEAD" { continue; }
      if ref.value.name in refs { return None; }
      refs := refs[ref.value.name := LowerText(ref.value.id)];
    }
    NothingLeft(body[offset..], firstRef, refs);
    return None;
  }

  /** The packet at an offset, read from the whole body. */
  method PacketAt(body: string, offset: nat) returns (p: Packet)
    requires offset <= |body|
    ensures p == Next(body[offset..])
  {
    var s := body[offset..];
    if offset + 4 > |body| || !HexText(body[offset..offset + 4]) {
      assert |s| >= 4 ==> s[..4] == body[offset..offset + 4];
      return Malformed;
    }
    assert s[..4] == body[offset..offset + 4];
    var length := Length(body[offset..offset + 4]);
    if length == 0 {
      assert s[4..] == body[offset + 4..];
      return Flush(body[offset + 4..]);
    }
    if length < 4 || length > MAX_PACKET || offset + length > |body| { return Malformed; }
    assert s[4..length] == body[offset + 4..offset + length] && s[length..] == body[offset + length..];
    return Data(body[offset + 4..offset + length], body[offset + length..]);
  }
}
