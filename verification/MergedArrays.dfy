/** `mergedArrayPages` (cmd/octopool/gh_api_pagination.go:415-441). */
module MergedArrays {
  import opened Cutting

  /** The nesting of brackets, and inside strings. */
  datatype State = State(depth: int, quote: bool, escaped: bool)

  const TOP := State(0, false, false)

  function Advance(s: State, c: char): State
  {
    if s.quote then
      if s.escaped then s.(escaped := false)
      else if c == '\\' then s.(escaped := true)
      else if c == '"' then s.(quote := false) else s
    else if c == '"' then s.(quote := true)
    else if c == '[' || c == '{' then s.(depth := s.depth + 1)
    else if c == ']' || c == '}' then s.(depth := s.depth - 1)
    else s
  }

  predicate IsArray(body: string)
  {
    var t := Trim(body);
    |t| >= 2 && t[0] == '[' && t[|t| - 1] == ']'
  }

  function Interior(body: string): string
    requires IsArray(body)
  {
    Trim(Trim(body)[1..|Trim(body)| - 1])
  }

  /** The texts of the elements of an array. */
  function Elements(body: string): seq<string>
    requires IsArray(body)
  {
    if Interior(body) == "" then [] else Cut(Interior(body), TOP, Advance, TOP)
  }

  /** Its brackets and quotes are balanced, as those of any JSON array are. */
  predicate Balanced(body: string)
    requires IsArray(body)
  {
    End(Interior(body), TOP, Advance) == TOP
  }

  function AllElements(bodies: seq<string>): seq<string>
    requires forall b :: b in bodies ==> IsArray(b)
  {
    if bodies == [] then [] else AllElements(bodies[..|bodies| - 1]) + Elements(bodies[|bodies| - 1])
  }

  /** The interiors that hold something, joined with commas. */
  function Merged(bodies: seq<string>): string
    requires forall b :: b in bodies ==> IsArray(b)
  {
    if bodies == [] then ""
    else
      Comma(Merged(bodies[..|bodies| - 1]), Interior(bodies[|bodies| - 1]))
  }

  function Commas(interiors: seq<string>): string
  {
    if interiors == [] then ""
    else if |interiors| == 1 then interiors[0]
    else Commas(interiors[..|interiors| - 1]) + "," + interiors[|interiors| - 1]
  }

  lemma {:induction false} CommasAdd(interiors: seq<string>, t: string)
    requires forall s :: s in interiors ==> s != ""
    ensures Commas(interiors + [t]) == if interiors == [] then t else Commas(interiors) + "," + t
    ensures Commas(interiors) == "" <==> interiors == []
  {
    assert (interiors + [t])[..|interiors|] == interiors;
    if interiors != [] { assert interiors[|interiors| - 1] in interiors; }
  }

  method MergedArrayPages(bodies: seq<string>) returns (ok: bool, output: string)
    ensures ok <==> forall b :: b in bodies ==> IsArray(b)
    ensures ok ==> output == "[" + Merged(bodies) + "]"
  {
    hide Commas, Interior, Trim;
    var interiors: seq<string> := [];
    assert Commas([]) == "" by { CommasAdd([], ""); }
    for n := 0 to |bodies|
      invariant forall i :: 0 <= i < n ==> IsArray(bodies[i])
      invariant forall b :: b in bodies[..n] ==> IsArray(b)
      invariant Commas(interiors) == Merged(bodies[..n]) && forall t :: t in interiors ==> t != ""
    {
      if !IsArray(bodies[n]) {
        assert bodies[n] in bodies;
        return false, "";
      }
      var interior := Interior(bodies[n]);
      assert bodies[..n + 1] == bodies[..n] + [bodies[n]];
      assert bodies[..n + 1][..n] == bodies[..n];
      CommasAdd(interiors, interior);
      if |interior| > 0 { interiors := interiors + [interior]; }
    }
    assert bodies[..|bodies|] == bodies;
    output := "[";
    for n := 0 to |interiors|
      invariant output == "[" + Commas(interiors[..n])
    {
      assert forall t :: t in interiors[..n] ==> t in interiors;
      CommasAdd(interiors[..n], interiors[n]);
      assert interiors[..n + 1] == interiors[..n] + [interiors[n]];
      if n > 0 { output := output + ","; }
      output := output + interiors[n];
    }
    assert interiors[..|interiors|] == interiors;
    return true, output + "]";
  }

  /** A text between the brackets of a balanced array, without space around it. */
  predicate Inside(t: string)
  {
    End(t, TOP, Advance) == TOP && (t != "" ==> !Space(t[0]) && !Space(t[|t| - 1]))
  }

  function Pieces(t: string): seq<string>
  {
    if t == "" then [] else Cut(t, TOP, Advance, TOP)
  }

  function Comma(m: string, t: string): string
  {
    if t == "" then m else if m == "" then t else m + "," + t
  }

  lemma EndAtComma(m: string, t: string)
    requires End(m, TOP, Advance) == TOP && End(t, TOP, Advance) == TOP
    ensures End(m + "," + t, TOP, Advance) == TOP
  {
    EndAdds(m, "," + t, TOP, Advance);
    assert ("," + t)[1..] == t;
    assert m + "," + t == m + ("," + t);
  }

  lemma CommaAdds(m: string, t: string)
    requires Inside(m) && Inside(t)
    ensures Inside(Comma(m, t)) && Pieces(Comma(m, t)) == Pieces(m) + Pieces(t)
  {
    if m != "" && t != "" {
      hide End, Cut;
      CutAtComma(m, t, TOP, Advance, TOP);
      EndAtComma(m, t);
    }
  }

  lemma Empty()
    ensures Inside("") && Pieces("") == []
  {
  }

  lemma LastInside(body: string)
    requires IsArray(body) && Balanced(body)
    ensures Inside(Interior(body)) && Elements(body) == Pieces(Interior(body))
  {
  }

  lemma {:induction false} MergedEnds(bodies: seq<string>)
    requires forall b :: b in bodies ==> IsArray(b) && Balanced(b)
    ensures Inside(Merged(bodies)) && AllElements(bodies) == Pieces(Merged(bodies))
  {
    hide Cut, End, Comma, Inside, Pieces;
    if bodies == [] {
      Empty();
    } else {
      var most, last := bodies[..|bodies| - 1], bodies[|bodies| - 1];
      assert last in bodies && forall b :: b in most ==> b in bodies;
      MergedEnds(most);
      LastInside(last);
      CommaAdds(Merged(most), Interior(last));
    }
  }

  /** The merged text is one array whose elements are those of the pages, in order. */
  lemma MergingConcatenates(bodies: seq<string>)
    requires forall b :: b in bodies ==> IsArray(b) && Balanced(b)
    ensures var whole := "[" + Merged(bodies) + "]";
            IsArray(whole) && Elements(whole) == AllElements(bodies)
  {
    MergedEnds(bodies);
    var m := Merged(bodies);
    var whole := "[" + m + "]";
    TrimmedStays(whole);
    assert whole[1..|whole| - 1] == m;
    TrimmedStays(m);
  }
}
