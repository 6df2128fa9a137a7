/** Text as `encoding/json` writes it into a string literal, and as a JSON reader takes it out again
    (section 7 of RFC 8259). */
module JsonStrings {
  import opened Basics
  import opened StrictJson
  import JsonRoundTrip

  // ------------------------------------------------- writing

  function Hex(n: nat): char
    requires n < 16
  {
    "0123456789abcdef"[n]
  }

  function Digits(n: nat): string
  {
    [Hex(n / 16 / 16 / 16 % 16), Hex(n / 16 / 16 % 16), Hex(n / 16 % 16), Hex(n % 16)]
  }

  /** What `json.Marshal` makes of a character: HTML and line separators are escaped as well. */
  function Escaped(c: char): string
  {
    var n := c as int;
    if c == '"' || c == '\\' then ['\\', c]
    else if n == 8 then "\\b"
    else if n == 12 then "\\f"
    else if c == '\n' then "\\n"
    else if c == '\r' then "\\r"
    else if c == '\t' then "\\t"
    else if n < 32 || c in "<>&" || n == 0x2028 || n == 0x2029 then
      "\\u" + Digits(n)
    else [c]
  }

  function Marshalled(text: string): string
  {
    if text == "" then "" else Escaped(text[0]) + Marshalled(text[1..])
  }

  // ------------------------------------------------- reading

  function Digit(c: char): Option<nat>
  {
    if '0' <= c <= '9' then Some(c as int - '0' as int)
    else if 'a' <= c <= 'f' then Some(c as int - 'a' as int + 10)
    else if 'A' <= c <= 'F' then Some(c as int - 'A' as int + 10)
    else None
  }

  /** The number that four hexadecimal digits name. */
  function Named(s: string): Option<nat>
    requires |s| >= 4
  {
    var (a, b, c, d) := (Digit(s[0]), Digit(s[1]), Digit(s[2]), Digit(s[3]));
    if a.None? || b.None? || c.None? || d.None? then None
    else Some(((a.value * 16 + b.value) * 16 + c.value) * 16 + d.value)
  }

  /** The character after a backslash and one more, of those that are escaped by a letter or by themselves. */
  function Short(c: char): Option<char>
  {
    match c
    case '"' => Some('"')
    case '\\' => Some('\\')
    case '/' => Some('/')
    case 'b' => Some(8 as char)
    case 'f' => Some(12 as char)
    case 'n' => Some(10 as char)
    case 'r' => Some(13 as char)
    case 't' => Some(9 as char)
    case _ => None
  }

  /** The first character that is written, and how much is written for it. */
  function FirstOf(s: string): Option<(char, nat)>
    requires s != ""
  {
    if s[0] == '"' || s[0] < ' ' then None
    else if s[0] != '\\' then Some((s[0], 1))
    else if |s| < 2 then None
    else if s[1] == 'u' then
      if |s| < 6 || Named(s[2..]).None? || 0xD800 <= Named(s[2..]).value < 0xE000 || Named(s[2..]).value >= 0x10000 then None
      else Some((Named(s[2..]).value as char, 6))
    else match Short(s[1]) case Some(c) => Some((c, 2)) case None => None
  }

  /** The text that stands between the quotes of a literal. */
  function Unescaped(s: string): Option<string>
    decreases |s|
  {
    if s == "" then Some("")
    else match FirstOf(s)
         case None => None
         case Some((c, n)) =>
           if n == 0 || n > |s| then None
           else match Unescaped(s[n..]) case None => None case Some(rest) => Some([c] + rest)
  }

  function Decoded(raw: string): Option<string>
  {
    if |raw| < 2 || raw[0] != '"' || raw[|raw| - 1] != '"' then None else Unescaped(raw[1..|raw| - 1])
  }

  /** A reader of string literals; no number is read by it. */
  const READER := Codec(raw => Decoded(raw), raw => None)

  // ------------------------------------------------- what is written is read

  lemma HexIsRead(n: nat)
    requires n < 16
    ensures Digit(Hex(n)) == Some(n) && Hex(n) != '"' && Hex(n) != '\\'
  {
  }

  lemma DigitsAreFour(n: nat)
    ensures |Digits(n)| == 4
  {
  }

  lemma DigitsName(n: nat, rest: string)
    requires n < 0x10000
    ensures Named(Digits(n) + rest) == Some(n)
  {
    hide Hex, Digit;
    HexIsRead(n / 16 / 16 / 16 % 16);
    HexIsRead(n / 16 / 16 % 16);
    HexIsRead(n / 16 % 16);
    HexIsRead(n % 16);
    assert n / 16 / 16 / 16 < 16;
  }

  lemma EscapedIsRead(c: char, rest: string)
    ensures 0 < |Escaped(c)| && FirstOf(Escaped(c) + rest) == Some((c, |Escaped(c)|))
  {
    hide Named, Digits, Hex;
    var n := c as int;
    DigitsAreFour(n);
    if |Escaped(c)| > 2 {
      DigitsName(n, rest);
      assert (Escaped(c) + rest)[2..] == Digits(n) + rest;
    }
  }

  lemma {:induction false} MarshalledIsRead(text: string)
    ensures Unescaped(Marshalled(text)) == Some(text)
  {
    if text == "" {
    } else {
      hide Escaped, FirstOf;
      var rest := Marshalled(text[1..]);
      EscapedIsRead(text[0], rest);
      MarshalledIsRead(text[1..]);
      assert (Escaped(text[0]) + rest)[|Escaped(text[0])|..] == rest;
      assert [text[0]] + text[1..] == text;
    }
  }

  lemma OneQuoted(c: char, rest: string)
    requires c != '"' && c != '\\'
    ensures Quoted([c] + rest) == if Quoted(rest) == 0 then 0 else 1 + Quoted(rest)
  {
    assert ([c] + rest)[1..] == rest;
  }

  lemma TwoQuoted(c: char, rest: string)
    ensures Quoted(['\\', c] + rest) == if Quoted(rest) == 0 then 0 else 2 + Quoted(rest)
  {
    assert (['\\', c] + rest)[2..] == rest;
  }

  lemma DigitsAreQuoted(n: nat, rest: string)
    requires Quoted(rest) > 0
    ensures Quoted("\\u" + Digits(n) + rest) == 6 + Quoted(rest)
  {
    hide Quoted;
    var (h, i, j, k) := (Digits(n)[0], Digits(n)[1], Digits(n)[2], Digits(n)[3]);
    HexIsRead(n / 16 / 16 / 16 % 16);
    HexIsRead(n / 16 / 16 % 16);
    HexIsRead(n / 16 % 16);
    HexIsRead(n % 16);
    OneQuoted(k, rest);
    OneQuoted(j, [k] + rest);
    OneQuoted(i, [j] + ([k] + rest));
    OneQuoted(h, [i] + ([j] + ([k] + rest)));
    TwoQuoted('u', [h] + ([i] + ([j] + ([k] + rest))));
    assert "\\u" + Digits(n) + rest == ['\\', 'u'] + ([h] + ([i] + ([j] + ([k] + rest))));
  }

  /** An escape never ends a literal. */
  lemma EscapedIsQuoted(c: char, rest: string)
    requires Quoted(rest) > 0
    ensures Quoted(Escaped(c) + rest) == |Escaped(c)| + Quoted(rest)
  {
    hide Quoted, Digits;
    var n := c as int;
    DigitsAreFour(n);
    if |Escaped(c)| > 2 {
      DigitsAreQuoted(n, rest);
    } else if |Escaped(c)| == 2 {
      TwoQuoted(Escaped(c)[1], rest);
      assert Escaped(c) == ['\\', Escaped(c)[1]];
    } else {
      OneQuoted(c, rest);
    }
  }

  lemma {:induction false} MarshalledIsQuoted(text: string)
    ensures Quoted(Marshalled(text) + "\"") == |Marshalled(text)| + 1
  {
    if text == "" {
      assert Marshalled(text) + "\"" == "\"";
    } else {
      hide Escaped, Quoted;
      MarshalledIsQuoted(text[1..]);
      EscapedIsQuoted(text[0], Marshalled(text[1..]) + "\"");
      Regroup(Escaped(text[0]), Marshalled(text[1..]), "\"");
    }
  }

  /** A marshalled text between quotes is one literal, and is read as that text. */
  lemma LiteralIsRead(text: string)
    ensures var raw := "\"" + Marshalled(text) + "\""; IsQuote(raw, READER) && READER.decode(raw) == Some(text)
  {
    hide Quoted, Marshalled, Unescaped;
    var raw := "\"" + Marshalled(text) + "\"";
    assert raw[1..] == Marshalled(text) + "\"" && raw[1..|raw| - 1] == Marshalled(text);
    MarshalledIsQuoted(text);
    MarshalledIsRead(text);
  }

  // ------------------------------------------------- an object with one member

  function Written(text: string): string
  {
    "\"" + Marshalled(text) + "\""
  }

  function OneMember(name: string, text: string): Tree
  {
    Table("", [Entry("", Written(name), "", "", Quote(Written(text)), "")])
  }

  lemma Nothing(s: string)
    ensures "" + s == s && s + "" == s
  {
  }

  lemma OneMemberPrinted(name: string, text: string)
    ensures Print(OneMember(name, text)) == "{" + (Written(name) + (":" + (Written(text) + "}")))
  {
    hide Written;
    var e := Entry("", Written(name), "", "", Quote(Written(text)), "");
    assert PrintEntries([e]) == e.before + (e.key + (e.colon + (":" + (e.between + (Print(e.tree) + (e.after + "}"))))));
    Nothing("}");
    Nothing(Written(text) + "}");
    Nothing(":" + (Written(text) + "}"));
    Nothing(Written(name) + (":" + (Written(text) + "}")));
  }

  lemma WrittenIsRead(text: string)
    ensures IsQuote(Written(text), READER) && READER.decode(Written(text)) == Some(text)
  {
    LiteralIsRead(text);
  }

  lemma OneMemberFits(name: string, text: string)
    ensures Fits(OneMember(name, text), 0, READER)
    ensures ValueOf(OneMember(name, text), READER) == Obj([Member(name, Str(text))])
  {
    hide IsQuote, Written, Decoded;
    var e := Entry("", Written(name), "", "", Quote(Written(text)), "");
    WrittenIsRead(name);
    WrittenIsRead(text);
    assert Fits(e.tree, 1, READER) && EntriesFit([e], 1, {}, READER);
    assert ValueOf(e.tree, READER) == Str(text);
    assert EntryMembers([e], READER) == [Member(name, Str(text))] + EntryMembers([], READER);
  }

  /** An object that is written with one marshalled name and one marshalled text is read as just that. */
  lemma OneMemberIsRead(name: string, text: string)
    ensures Parse("{" + (Written(name) + (":" + (Written(text) + "}"))), READER) == Some(Obj([Member(name, Str(text))]))
  {
    hide Parse, Print, Fits, ValueOf, Written, OneMember;
    var t := OneMember(name, text);
    OneMemberPrinted(name, text);
    OneMemberFits(name, text);
    Nothing(Print(t));
    JsonRoundTrip.PrintingsAreRead("", t, "", READER);
  }

  predicate Plain(c: char)
  {
    ' ' <= c <= '~' && c !in "\"\\<>&"
  }

  lemma PlainIsEscaped(c: char)
    requires Plain(c)
    ensures Escaped(c) == [c]
  {
  }

  lemma {:induction false} PlainIsMarshalled(text: string)
    requires forall i :: 0 <= i < |text| ==> Plain(text[i])
    ensures Marshalled(text) == text
  {
    if text == "" {
    } else {
      hide Escaped;
      PlainIsEscaped(text[0]);
      PlainIsMarshalled(text[1..]);
      assert [text[0]] + text[1..] == text;
    }
  }
}
