/** Names packed for node ids (src/github-git.ts:163-174). */
module MessagePack {
  import opened Basics

  type Byte = b: int | 0 <= b < 256

  /** `messagePackString`, of the bytes of a name: a short form, one with a 16-bit length, or none. The
      bits of the short prefix are apart, so it is a sum. */
  function Packed(bytes: seq<Byte>): Option<seq<Byte>>
  {
    if |bytes| <= 31 then Some([0xa0 + |bytes|] + bytes)
    else if |bytes| <= 0xffff then Some([0xda, |bytes| / 256, |bytes| % 256] + bytes)
    else None
  }

  /** A reader of the format: the string at the start, and the rest. */
  function Unpacked(s: seq<Byte>): Option<(seq<Byte>, seq<Byte>)>
  {
    if |s| > 0 && 0xa0 <= s[0] < 0xc0 then
      var prefix: int := s[0];
      var n := prefix - 0xa0;
      if |s| < 1 + n then None else Some((s[1..1 + n], s[1 + n..]))
    else if |s| > 2 && s[0] == 0xda then
      var (high: int, low: int) := (s[1], s[2]);
      var n := high * 256 + low;
      if |s| < 3 + n then None else Some((s[3..3 + n], s[3 + n..]))
    else None
  }

  /** What is packed is unpacked again, with whatever follows it left over. */
  lemma PackedIsUnpacked(bytes: seq<Byte>, rest: seq<Byte>)
    requires |bytes| <= 0xffff
    ensures Packed(bytes).Some? && Unpacked(Packed(bytes).value + rest) == Some((bytes, rest))
  {
    var s := Packed(bytes).value + rest;
    var k := |s| - |bytes| - |rest|;
    assert s[k..k + |bytes|] == bytes && s[k + |bytes|..] == rest;
    if |bytes| > 31 { assert s[0] == 0xda && s[1] == |bytes| / 256 && s[2] == |bytes| % 256; }
  }

  /** A byte 101xxxxx with the length in its last five bits; or 0xda and the length in two bytes, the greater first. */
  predicate Heads(head: seq<Byte>, length: nat)
  {
    if length < 32 then |head| == 1 && Number(head[0]) / 32 == 5 && Number(head[0]) % 32 == length
    else |head| == 3 && Number(head[0]) == 218 && Number(head[1]) * 256 + Number(head[2]) == length
  }

  function Number(b: Byte): int
  {
    b
  }

  /** A name has the shorter head that holds its length, and is not packed if none does. */
  lemma PackedIsShortest(bytes: seq<Byte>, packed: seq<Byte>)
    ensures Packed(bytes) == Some(packed) <==> exists head :: Heads(head, |bytes|) && packed == head + bytes
  {
    if Packed(bytes) == Some(packed) {
      var n := if |bytes| < 32 then 1 else 3;
      assert packed == packed[..n] + bytes && Heads(packed[..n], |bytes|);
    }
    if head :| Heads(head, |bytes|) && packed == head + bytes {
      assert head == if |bytes| < 32 then [0xa0 + |bytes|] else [0xda, |bytes| / 256, |bytes| % 256];
    }
  }
}
