/** The elements of merged pages are the values that were written on them, whatever those hold
    (cmd/octopool/gh_api_pagination.go:409-441). */
module MergedArrayRules {
  import opened Basics
  import opened Cutting
  import opened MergedArrays
  import J = StrictJson

  function Level(depth: int): State
  {
    State(depth, false, false)
  }

  predicate Solid(text: string, from: State, to: State)
  {
    Passes(text, from, to, Advance, TOP)
  }

  lemma OneChar(c: char, from: State)
    requires !(c == ',' && from == TOP)
    ensures Solid([c], from, Advance(from, c))
  {
    OnePasses(c, from, Advance, TOP);
  }

  lemma SolidAdds(left: string, right: string, from: State, mid: State, to: State)
    requires Solid(left, from, mid) && Solid(right, mid, to)
    ensures Solid(left + right, from, to)
  {
    PassesAdd(left, right, from, mid, to, Advance, TOP);
  }

  /** Neither a bracket, a quote nor a comma. */
  predicate Quiet(text: string)
  {
    forall i :: 0 <= i < |text| ==> text[i] !in "[]{}\","
  }

  /** A value as any JSON writer writes it: strings end where they are closed, numbers and the space between tokens
      are quiet, and brackets are closed. How deep it goes, and what its keys are, does not matter. */
  predicate Written(t: J.Tree)
    decreases t
  {
    match t
    case Literal(v) => v.Null? || v.Bool?
    case Number(raw) => raw != "" && Quiet(raw)
    case Quote(raw) => IsString(raw)
    case List(gap, items) => J.Gap(gap) && ItemsWritten(items)
    case Table(gap, entries) => J.Gap(gap) && EntriesWritten(entries)
  }

  predicate IsString(raw: string)
  {
    |raw| >= 2 && raw[0] == '"' && J.Quoted(raw[1..]) == |raw| - 1
  }

  predicate ItemsWritten(items: seq<J.Item>)
    decreases items
  {
    items == [] || (J.Gap(items[0].before) && J.Gap(items[0].after) && Written(items[0].tree) && ItemsWritten(items[1..]))
  }

  predicate EntriesWritten(entries: seq<J.Entry>)
    decreases entries
  {
    entries == [] ||
    (J.Gap(entries[0].before) && IsString(entries[0].key) && J.Gap(entries[0].colon) && J.Gap(entries[0].between)
     && Written(entries[0].tree) && J.Gap(entries[0].after) && EntriesWritten(entries[1..]))
  }

  lemma {:induction false} QuietIsSolid(text: string, depth: int)
    requires Quiet(text)
    ensures Solid(text, Level(depth), Level(depth))
  {
    if text == "" {
    } else {
      assert forall i :: 0 <= i < |text[1..]| ==> text[1..][i] == text[i + 1];
      QuietIsSolid(text[1..], depth);
      FirstPasses(text, Level(depth), Level(depth), Advance, TOP);
    }
  }

  lemma GapIsSolid(gap: string, depth: int)
    requires J.Gap(gap)
    ensures Solid(gap, Level(depth), Level(depth))
  {
    hide Solid;
    QuietIsSolid(gap, depth);
  }

  /** From inside a string to its end. */
  lemma {:induction false} QuotedIsSolid(q: string, depth: int)
    requires J.Quoted(q) == |q| > 0
    ensures Solid(q, State(depth, true, false), Level(depth))
    decreases |q|
  {
    var inside := State(depth, true, false);
    if q[0] == '"' {
      assert q == ['"'];
      OneChar('"', inside);
    } else if q[0] == '\\' {
      var escaped := State(depth, true, true);
      QuotedIsSolid(q[2..], depth);
      assert q[1..][1..] == q[2..];
      FirstPasses(q[1..], escaped, Level(depth), Advance, TOP);
      FirstPasses(q, inside, Level(depth), Advance, TOP);
    } else {
      QuotedIsSolid(q[1..], depth);
      FirstPasses(q, inside, Level(depth), Advance, TOP);
    }
  }

  lemma StringIsSolid(raw: string, depth: int)
    requires IsString(raw)
    ensures Solid(raw, Level(depth), Level(depth))
  {
    QuotedIsSolid(raw[1..], depth);
    FirstPasses(raw, Level(depth), Level(depth), Advance, TOP);
  }

  /** Three parts one after another. */
  lemma InTurn(a: string, b: string, c: string, at: State, to: State)
    requires Solid(a, at, at) && Solid(b, at, at) && Solid(c, at, to)
    ensures Solid(a + (b + c), at, to)
  {
    hide Solid;
    SolidAdds(b, c, at, at, to);
    SolidAdds(a, b + c, at, at, to);
  }

  lemma LiteralIsSolid(v: J.Value, depth: nat)
    requires v.Null? || v.Bool?
    ensures Solid(J.LiteralText(v), Level(depth), Level(depth))
  {
    hide Solid;
    QuietIsSolid(J.LiteralText(v), depth);
  }

  lemma {:induction false} WrittenIsSolid(t: J.Tree, depth: nat)
    requires Written(t)
    ensures Solid(J.Print(t), Level(depth), Level(depth))
    decreases t
  {
    hide Solid;
    match t
    case Literal(v) => LiteralIsSolid(v, depth);
    case Number(raw) => QuietIsSolid(raw, depth);
    case Quote(raw) => StringIsSolid(raw, depth);
    case List(gap, items) =>
      OneChar('[', Level(depth));
      OneChar(']', Level(depth + 1));
      if items == [] {
        GapIsSolid(gap, depth + 1);
        SolidAdds(gap, "]", Level(depth + 1), Level(depth + 1), Level(depth));
        SolidAdds("[", gap + "]", Level(depth), Level(depth + 1), Level(depth));
      } else {
        ItemsAreSolid(items, depth);
        SolidAdds("[", J.PrintItems(items), Level(depth), Level(depth + 1), Level(depth));
      }
    case Table(gap, entries) =>
      OneChar('{', Level(depth));
      OneChar('}', Level(depth + 1));
      if entries == [] {
        GapIsSolid(gap, depth + 1);
        SolidAdds(gap, "}", Level(depth + 1), Level(depth + 1), Level(depth));
        SolidAdds("{", gap + "}", Level(depth), Level(depth + 1), Level(depth));
      } else {
        EntriesAreSolid(entries, depth);
        SolidAdds("{", J.PrintEntries(entries), Level(depth), Level(depth + 1), Level(depth));
      }
  }

  lemma {:induction false} ItemsAreSolid(items: seq<J.Item>, depth: nat)
    requires items != [] && ItemsWritten(items)
    ensures Solid(J.PrintItems(items), Level(depth + 1), Level(depth))
    decreases items
  {
    hide Solid;
    var (item, at) := (items[0], Level(depth + 1));
    GapIsSolid(item.before, depth + 1);
    GapIsSolid(item.after, depth + 1);
    WrittenIsSolid(item.tree, depth + 1);
    if |items| == 1 {
      OneChar(']', at);
      SolidAdds(item.after, "]", at, at, Level(depth));
      InTurn(item.before, J.Print(item.tree), item.after + "]", at, Level(depth));
    } else {
      OneChar(',', at);
      ItemsAreSolid(items[1..], depth);
      SolidAdds(",", J.PrintItems(items[1..]), at, at, Level(depth));
      SolidAdds(item.after, "," + J.PrintItems(items[1..]), at, at, Level(depth));
      InTurn(item.before, J.Print(item.tree), item.after + ("," + J.PrintItems(items[1..])), at, Level(depth));
    }
  }

  lemma {:induction false} EntriesAreSolid(entries: seq<J.Entry>, depth: nat)
    requires entries != [] && EntriesWritten(entries)
    ensures Solid(J.PrintEntries(entries), Level(depth + 1), Level(depth))
    decreases entries
  {
    hide Solid;
    var (e, at, end) := (entries[0], Level(depth + 1), Level(depth));
    GapIsSolid(e.before, depth + 1);
    GapIsSolid(e.colon, depth + 1);
    GapIsSolid(e.between, depth + 1);
    GapIsSolid(e.after, depth + 1);
    StringIsSolid(e.key, depth + 1);
    OneChar(':', at);
    WrittenIsSolid(e.tree, depth + 1);
    var last := if |entries| == 1 then "}" else "," + J.PrintEntries(entries[1..]);
    if |entries| == 1 {
      OneChar('}', at);
    } else {
      OneChar(',', at);
      EntriesAreSolid(entries[1..], depth);
      SolidAdds(",", J.PrintEntries(entries[1..]), at, at, end);
    }
    SolidAdds(e.after, last, at, at, end);
    InTurn(e.between, J.Print(e.tree), e.after + last, at, end);
    InTurn(e.colon, ":", e.between + (J.Print(e.tree) + (e.after + last)), at, end);
    InTurn(e.before, e.key, e.colon + (":" + (e.between + (J.Print(e.tree) + (e.after + last)))), at, end);
  }

  // ------------------------------------------------- a page of values

  /** The values of a page, with commas between them. */
  function Listed(values: seq<J.Tree>): string
  {
    if values == [] then "" else if |values| == 1 then J.Print(values[0]) else J.Print(values[0]) + "," + Listed(values[1..])
  }

  function Texts(values: seq<J.Tree>): seq<string>
  {
    if values == [] then [] else [J.Print(values[0])] + Texts(values[1..])
  }

  /** Nothing that is written is empty, or begins or ends with space. */
  predicate Tight(text: string)
  {
    text != "" && !Space(text[0]) && !Space(text[|text| - 1])
  }

  lemma {:induction false} ListedIsCut(values: seq<J.Tree>)
    requires values != [] && forall v :: v in values ==> Written(v)
    ensures Cut(Listed(values), TOP, Advance, TOP) == Texts(values) && End(Listed(values), TOP, Advance) == TOP
  {
    hide Written;
    assert values[0] in values && forall v :: v in values[1..] ==> v in values;
    WrittenIsSolid(values[0], 0);
    if |values| == 1 {
      assert Texts(values) == [J.Print(values[0])] + Texts([]);
    } else {
      ListedIsCut(values[1..]);
      CutAtComma(J.Print(values[0]), Listed(values[1..]), TOP, Advance, TOP);
      EndAtComma(J.Print(values[0]), Listed(values[1..]));
    }
  }

  lemma {:induction false} ListedIsTight(values: seq<J.Tree>)
    requires values != [] && forall v :: v in values ==> Tight(J.Print(v))
    ensures Tight(Listed(values))
  {
    assert values[0] in values && forall v :: v in values[1..] ==> v in values;
    if |values| > 1 {
      ListedIsTight(values[1..]);
      var text, rest := Listed(values), Listed(values[1..]);
      assert text[0] == J.Print(values[0])[0] && text[|text| - 1] == rest[|rest| - 1];
    }
  }

  /** A page: its values between brackets, and any space around them. */
  predicate IsPage(body: string, values: seq<J.Tree>)
  {
    && Trim(body) == "[" + Listed(values) + "]"
    && forall v :: v in values ==> Written(v) && Tight(J.Print(v))
  }

  lemma TightStays(text: string)
    requires Tight(text)
    ensures Trim(text) == text && text != ""
  {
    TrimmedStays(text);
  }

  lemma NothingInside()
    ensures Trim("") == "" && End("", TOP, Advance) == TOP
  {
  }

  lemma PageElements(body: string, values: seq<J.Tree>)
    requires IsPage(body, values)
    ensures IsArray(body) && Balanced(body) && Elements(body) == Texts(values)
  {
    hide Written, Tight, Cut, End;
    var inner := Listed(values);
    var t := Trim(body);
    assert t[1..|t| - 1] == inner;
    if values == [] {
      NothingInside();
    } else {
      ListedIsCut(values);
      ListedIsTight(values);
      TightStays(inner);
    }
  }

  /** The values of all pages, one page after another. */
  function AllTexts(pages: seq<seq<J.Tree>>): seq<string>
  {
    if pages == [] then [] else AllTexts(pages[..|pages| - 1]) + Texts(pages[|pages| - 1])
  }

  lemma {:induction false} PagesElements(bodies: seq<string>, pages: seq<seq<J.Tree>>)
    requires |bodies| == |pages| && forall i :: 0 <= i < |bodies| ==> IsPage(bodies[i], pages[i])
    ensures forall b :: b in bodies ==> IsArray(b) && Balanced(b)
    ensures AllElements(bodies) == AllTexts(pages)
  {
    hide IsPage, IsArray, Balanced, Elements, Texts;
    forall b | b in bodies ensures IsArray(b) && Balanced(b) {
      var i :| 0 <= i < |bodies| && bodies[i] == b;
      PageElements(bodies[i], pages[i]);
    }
    if bodies == [] {
    } else {
      var last := |bodies| - 1;
      PageElements(bodies[last], pages[last]);
      assert forall i :: 0 <= i < last ==> bodies[..last][i] == bodies[i] && pages[..last][i] == pages[i];
      PagesElements(bodies[..last], pages[..last]);
    }
  }

  /** Pages of written values, whatever brackets, quotes and commas those hold: all are arrays, and the merged text
      is one array whose elements are just those values, page after page, each with the text it was written as. */
  lemma PagesAreMerged(bodies: seq<string>, pages: seq<seq<J.Tree>>)
    requires |bodies| == |pages| && forall i :: 0 <= i < |bodies| ==> IsPage(bodies[i], pages[i])
    ensures forall b :: b in bodies ==> IsArray(b)
    ensures var whole := "[" + Merged(bodies) + "]"; IsArray(whole) && Elements(whole) == AllTexts(pages)
  {
    PagesElements(bodies, pages);
    MergingConcatenates(bodies);
  }
}
