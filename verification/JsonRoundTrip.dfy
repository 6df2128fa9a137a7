/** Texts and values of the strict JSON of policies, both ways (src/string-rewrite-json.ts:15-92). */
module JsonRoundTrip {
  import opened Basics
  import opened StrictJson
  import opened JsonSound
  import opened JsonComplete
  import GraphQLTokens

  lemma {:induction false} FitsIsStrict(t: Tree, depth: nat, codec: Codec)
    requires Fits(t, depth, codec)
    ensures Strict(ValueOf(t, codec), MAX_DEPTH - depth)
    decreases t
  {
    match t
    case List(_, items) => ItemsAreStrict(items, depth + 1, codec);
    case Table(_, entries) => EntriesAreStrict(entries, depth + 1, {}, codec);
    case _ =>
  }

  lemma {:induction false} ItemsAreStrict(items: seq<Item>, depth: nat, codec: Codec)
    requires ItemsFit(items, depth, codec)
    ensures AllStrict(ItemValues(items, codec), MAX_DEPTH - depth)
    decreases items
  {
    if items == [] {
    } else {
      FitsIsStrict(items[0].tree, depth, codec);
      ItemsAreStrict(items[1..], depth, codec);
      assert ItemValues(items, codec)[1..] == ItemValues(items[1..], codec);
    }
  }

  lemma {:induction false} EntriesAreStrict(entries: seq<Entry>, depth: nat, keys: set<string>, codec: Codec)
    requires EntriesFit(entries, depth, keys, codec)
    ensures MembersStrict(EntryMembers(entries, codec), keys, MAX_DEPTH - depth)
    decreases entries
  {
    if entries == [] {
    } else {
      FitsIsStrict(entries[0].tree, depth, codec);
      QuoteDecodes(entries[0].key, codec);
      hide IsQuote, Gap;
      EntriesAreStrict(entries[1..], depth, keys + {codec.decode(entries[0].key).value}, codec);
      assert EntryMembers(entries, codec)[1..] == EntryMembers(entries[1..], codec);
    }
  }

  /** Any printing, with any white space wherever it is allowed, of a tree that fits is read as its value. */
  lemma PrintingsAreRead(before: string, t: Tree, after: string, codec: Codec)
    requires Gap(before) && Gap(after) && Fits(t, 0, codec)
    ensures Parse(before + (Print(t) + after), codec) == Some(ValueOf(t, codec))
  {
    hide ReadValue, Print, Fits, Lead, ValueOf;
    TreesOpen(t, 0, codec);
    OpensBefore(Print(t), after);
    GapSkips(before, Print(t) + after);
    assert after + "" == after;
    GapNotNumeric(after, "");
    CompleteValue(t, 0, after, codec);
    GapSkips(after, "");
  }

  /** Every text that is accepted is such a printing, and its value has no key twice at any level. */
  lemma AcceptedIsPrinting(text: string, codec: Codec) returns (before: string, t: Tree, after: string)
    requires Parse(text, codec).Some?
    ensures Gap(before) && Gap(after) && Fits(t, 0, codec) && text == before + (Print(t) + after)
    ensures Parse(text, codec) == Some(ValueOf(t, codec)) && Strict(ValueOf(t, codec), MAX_DEPTH)
  {
    hide ReadValue, Print, Fits, Lead, ValueOf, Strict;
    Leading(text);
    SoundValue(Skip(text), 0, codec);
    before, t := text[..Lead(text)], ReadValue(Skip(text), 0, codec).value;
    after := ReadValue(Skip(text), 0, codec).rest;
    Leading(after);
    assert after[..Lead(after)] + "" == after[..Lead(after)];
    FitsIsStrict(t, 0, codec);
  }

  /** Ways to write strings and numbers that are read back. */
  datatype Writer = Writer(quote: string -> string, digits: real -> string)

  ghost predicate Inverse(w: Writer, codec: Codec)
  {
    && (forall s: string :: IsQuote(w.quote(s), codec) && codec.decode(w.quote(s)) == Some(s))
    && (forall n: real :: w.digits(n) != "" && NumberRun(w.digits(n)) == |w.digits(n)| && codec.number(w.digits(n)) == Some(n))
  }

  function Rendered(v: Value, w: Writer): Tree
    decreases v
  {
    match v
    case Num(n) => Number(w.digits(n))
    case Str(s) => Quote(w.quote(s))
    case Arr(items) => List("", RenderedItems(items, w))
    case Obj(members) => Table("", RenderedMembers(members, w))
    case _ => Literal(v)
  }

  function RenderedItems(items: seq<Value>, w: Writer): seq<Item>
    decreases items
  {
    if items == [] then [] else [Item("", Rendered(items[0], w), "")] + RenderedItems(items[1..], w)
  }

  function RenderedMembers(members: seq<Member>, w: Writer): seq<Entry>
    decreases members
  {
    if members == [] then []
    else [Entry("", w.quote(members[0].key), "", "", Rendered(members[0].value, w), "")] + RenderedMembers(members[1..], w)
  }

  lemma {:induction false} RenderedFits(v: Value, depth: nat, w: Writer, codec: Codec)
    requires Strict(v, MAX_DEPTH - depth) && Inverse(w, codec)
    ensures Fits(Rendered(v, w), depth, codec) && ValueOf(Rendered(v, w), codec) == v
    decreases v
  {
    match v
    case Arr(items) => RenderedItemsFit(items, depth + 1, w, codec);
    case Obj(members) => RenderedMembersFit(members, {}, depth + 1, w, codec);
    case _ =>
  }

  lemma {:induction false} RenderedItemsFit(items: seq<Value>, depth: nat, w: Writer, codec: Codec)
    requires AllStrict(items, MAX_DEPTH - depth) && Inverse(w, codec)
    ensures ItemsFit(RenderedItems(items, w), depth, codec) && ItemValues(RenderedItems(items, w), codec) == items
    decreases items
  {
    if items == [] {
    } else {
      RenderedFits(items[0], depth, w, codec);
      RenderedItemsFit(items[1..], depth, w, codec);
      assert RenderedItems(items, w)[1..] == RenderedItems(items[1..], w);
    }
  }

  lemma {:induction false} RenderedMembersFit(members: seq<Member>, keys: set<string>, depth: nat, w: Writer, codec: Codec)
    requires MembersStrict(members, keys, MAX_DEPTH - depth) && Inverse(w, codec)
    ensures EntriesFit(RenderedMembers(members, w), depth, keys, codec) && EntryMembers(RenderedMembers(members, w), codec) == members
    decreases members
  {
    if members == [] {
    } else {
      RenderedFits(members[0].value, depth, w, codec);
      RenderedMembersFit(members[1..], keys + {members[0].key}, depth, w, codec);
      assert RenderedMembers(members, w)[1..] == RenderedMembers(members[1..], w);
    }
  }

  /** A value with distinct keys, nested at most eight deep, is read back from its text. */
  lemma RoundTrip(v: Value, w: Writer, codec: Codec)
    requires Strict(v, MAX_DEPTH) && Inverse(w, codec)
    ensures Parse(Print(Rendered(v, w)), codec) == Some(v)
  {
    RenderedFits(v, 0, w, codec);
    PrintingsAreRead("", Rendered(v, w), "", codec);
    var text := Print(Rendered(v, w));
    assert "" + (text + "") == text;
  }
}
