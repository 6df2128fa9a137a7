/** Texts that are cut at commas (cmd/octopool/gh_api_pagination.go:188-224,415-441): a scanner decides
    which commas separate. */
module Cutting {

  predicate Space(c: char)
  {
    c == ' ' || '\t' <= c <= '\r' || c == '\U{85}' || c == '\U{A0}'
  }

  function TrimLeft(text: string): (t: string)
    ensures t != "" ==> !Space(t[0])
  {
    if text != "" && Space(text[0]) then TrimLeft(text[1..]) else text
  }

  function TrimRight(text: string): (t: string)
    ensures |t| <= |text| && t == text[..|t|]
    ensures t != "" ==> !Space(t[|t| - 1])
  {
    if text != "" && Space(text[|text| - 1]) then TrimRight(text[..|text| - 1]) else text
  }

  function Trim(text: string): (t: string)
    ensures t != "" ==> !Space(t[0]) && !Space(t[|t| - 1])
  {
    TrimRight(TrimLeft(text))
  }

  lemma TrimmedStays(text: string)
    requires text != "" ==> !Space(text[0]) && !Space(text[|text| - 1])
    ensures Trim(text) == text
  {
  }

  /** The state after a text. */
  function End<S>(text: string, s: S, advance: (S, char) -> S): S
  {
    if text == "" then s else End(text[1..], advance(s, text[0]), advance)
  }

  /** The pieces of a text between the commas met in state `top`. */
  function Cut<S(==)>(text: string, s: S, advance: (S, char) -> S, top: S): (pieces: seq<string>)
    ensures pieces != []
  {
    if text == "" then [""]
    else
      var rest := Cut(text[1..], advance(s, text[0]), advance, top);
      if text[0] == ',' && s == top then [""] + rest else [[text[0]] + rest[0]] + rest[1..]
  }

  lemma Front(left: string, right: string)
    requires left != ""
    ensures (left + "," + right)[0] == left[0] && (left + "," + right)[1..] == left[1..] + "," + right
  {
  }

  lemma HeadAndTail<T>(some: seq<T>, more: seq<T>, first: T)
    requires some != []
    ensures (some + more)[0] == some[0] && (some + more)[1..] == some[1..] + more
    ensures ([first] + some) + more == [first] + (some + more)
    ensures ([first] + some[1..]) + more == [first] + (some[1..] + more)
  {
  }

  /** A text that ends in the top state is cut from what follows a comma after it. */
  lemma {:induction false} CutAtComma<S>(left: string, right: string, s: S, advance: (S, char) -> S, top: S)
    requires End(left, s, advance) == top && advance(top, ',') == top
    ensures Cut(left + "," + right, s, advance, top) == Cut(left, s, advance, top) + Cut(right, top, advance, top)
  {
    if left == "" {
      assert (left + "," + right)[1..] == right;
    } else {
      Front(left, right);
      CutAtComma(left[1..], right, advance(s, left[0]), advance, top);
      var (some, more) := (Cut(left[1..], advance(s, left[0]), advance, top), Cut(right, top, advance, top));
      HeadAndTail(some, more, "");
      HeadAndTail(some, more, [left[0]] + some[0]);
    }
  }

  lemma {:induction false} EndAdds<S>(left: string, right: string, s: S, advance: (S, char) -> S)
    ensures End(left + right, s, advance) == End(right, End(left, s, advance), advance)
  {
    if left == "" {
      assert left + right == right;
    } else {
      assert (left + right)[1..] == left[1..] + right;
      EndAdds(left[1..], right, advance(s, left[0]), advance);
    }
  }

  /** From one state the text leads to the other, and is not cut on the way. */
  predicate Passes<S(==)>(text: string, from: S, to: S, advance: (S, char) -> S, top: S)
  {
    End(text, from, advance) == to && Cut(text, from, advance, top) == [text]
  }

  lemma OnePasses<S>(c: char, from: S, advance: (S, char) -> S, top: S)
    requires !(c == ',' && from == top)
    ensures Passes([c], from, advance(from, c), advance, top)
  {
    assert [c][1..] == "" && [c] + "" == [c];
    assert Cut("", advance(from, c), advance, top) == [""];
  }

  lemma RestPasses<S>(text: string, from: S, to: S, advance: (S, char) -> S, top: S)
    requires text != "" && Passes(text, from, to, advance, top)
    ensures Passes(text[1..], advance(from, text[0]), to, advance, top) && !(text[0] == ',' && from == top)
  {
    var rest := Cut(text[1..], advance(from, text[0]), advance, top);
    assert |[""] + rest| >= 2;
    var joined := [[text[0]] + rest[0]] + rest[1..];
    assert joined[0] == [text[0]] + rest[0] && |joined| == |rest|;
    assert ([text[0]] + rest[0])[1..] == rest[0];
  }

  lemma FirstPasses<S>(text: string, from: S, to: S, advance: (S, char) -> S, top: S)
    requires text != "" && Passes(text[1..], advance(from, text[0]), to, advance, top) && !(text[0] == ',' && from == top)
    ensures Passes(text, from, to, advance, top)
  {
    assert [text[0]] + text[1..] == text;
  }

  lemma {:induction false} PassesAdd<S>(left: string, right: string, from: S, mid: S, to: S, advance: (S, char) -> S, top: S)
    requires Passes(left, from, mid, advance, top) && Passes(right, mid, to, advance, top)
    ensures Passes(left + right, from, to, advance, top)
    decreases |left|
  {
    if left == "" {
      assert left + right == right;
    } else {
      RestPasses(left, from, mid, advance, top);
      PassesAdd(left[1..], right, advance(from, left[0]), mid, to, advance, top);
      assert (left + right)[0] == left[0] && (left + right)[1..] == left[1..] + right;
      FirstPasses(left + right, from, to, advance, top);
    }
  }
}
