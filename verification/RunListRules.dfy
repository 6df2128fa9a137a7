/** Which runs a filtered run list serves, on the runs' own fields and places, and which requests have a
    superset at all (src/run-list-superset.ts:17-137). */
module RunListRules {
  import opened Basics
  import opened RunLists

  /** What the client asked for: the branch, and the status as either of the two fields that say it. */
  predicate Asked(run: Run, branch: Option<string>, status: Option<string>)
  {
    && run.Run?
    && (branch.Some? ==> run.branch == branch.value)
    && (status.Some? ==> status.value in {run.status, run.conclusion})
  }

  /** The places are in order, hold runs that were asked for, and skip none: up to `end`, or up to the last
      place if there are `limit` of them. */
  ghost predicate Picks(runs: seq<Run>, places: seq<nat>, branch: Option<string>, status: Option<string>, limit: nat)
  {
    && |places| <= limit
    && (forall i :: 0 <= i < |places| ==> places[i] < |runs| && Asked(runs[places[i]], branch, status))
    && (forall i, j :: 0 <= i < j < |places| ==> places[i] < places[j])
    && forall k: nat :: k < |runs| && Asked(runs[k], branch, status) && k !in places ==>
         |places| == limit && forall i :: 0 <= i < |places| ==> places[i] < k
  }

  predicate At(runs: seq<Run>, places: seq<nat>, served: seq<Run>)
  {
    |served| == |places| && forall i :: 0 <= i < |places| ==> places[i] < |runs| && served[i] == runs[places[i]]
  }

  lemma FilterOne(run: Run, v: View)
    ensures Filter([run], v) == if Asked(run, v.branch, v.status) then [run] else []
  {
    assert [run][1..] == [];
  }

  lemma {:induction false} FilterPicks(runs: seq<Run>, v: View) returns (places: seq<nat>)
    ensures At(runs, places, Filter(runs, v))
    ensures forall i :: 0 <= i < |places| ==> Asked(runs[places[i]], v.branch, v.status)
    ensures forall i, j :: 0 <= i < j < |places| ==> places[i] < places[j]
    ensures forall k: nat :: k < |runs| && Asked(runs[k], v.branch, v.status) ==> k in places
  {
    if runs == [] {
      places := [];
    } else {
      var last, before := |runs| - 1, runs[..|runs| - 1];
      var earlier := FilterPicks(before, v);
      assert runs == before + [runs[last]];
      FilterAdds(before, [runs[last]], v);
      FilterOne(runs[last], v);
      if Asked(runs[last], v.branch, v.status) {
        places := earlier + [last];
      } else {
        places := earlier;
      }
    }
  }

  lemma InPrefix<T>(s: seq<T>, n: nat, j: nat)
    requires n <= |s| && j < |s|
    ensures j < n ==> s[j] in s[..n]
  {
    if j < n { assert s[..n][j] == s[j]; }
  }

  /** What is served of a list are its first runs that were asked for, as many as the limit allows. */
  lemma ServedArePicked(runs: seq<Run>, v: View) returns (places: seq<nat>)
    ensures Picks(runs, places, v.branch, v.status, v.limit) && At(runs, places, Served(runs, v))
  {
    var all := FilterPicks(runs, v);
    places := if |all| <= v.limit then all else all[..v.limit];
    forall k: nat | k < |runs| && Asked(runs[k], v.branch, v.status) && k !in places
      ensures |places| == v.limit && forall i :: 0 <= i < |places| ==> places[i] < k
    {
      var j :| 0 <= j < |all| && all[j] == k;
      InPrefix(all, |places|, j);
    }
  }

  /** A page is underfilled exactly when something is filtered for and fewer runs are served than were wanted. */
  lemma UnderfilledMeans(runs: seq<Run>, v: View)
    ensures Underfilled(runs, v) <==> (v.branch.Some? || v.status.Some?) && |Served(runs, v)| < v.limit
  {
  }

  /** A size that a client may give. */
  predicate Size(p: Parameter)
  {
    p == Missing || (p.Number? && 1 <= p.value <= 100)
  }

  /** How many runs the client gets: the limit it gave, else its page size, else thirty, within its page size
      and a hundred. */
  predicate Wanted(r: Request, n: nat)
  {
    var limit := if r.limit.Number? then r.limit.value else if r.perPage.Number? then r.perPage.value else 30;
    var page := if r.perPage.Number? then r.perPage.value else 100;
    n <= limit && n <= page && (n == limit || n == page)
  }

  /** A plain request of sizes from 1 to 100 and a known status has a view, and no other: with what it filters
      for, with as many runs as are wanted, on a page of 25 if that holds as many, and otherwise, for lists of
      all workflows only, on a page of a hundred. */
  lemma ViewExactly(r: Request, v: View)
    ensures SupersetView(r) == Some(v)
            <==> && r.plain && Size(r.perPage) && Size(r.limit) && (r.status.Some? ==> Supported(r.status.value))
                 && v.branch == r.branch && v.status == r.status && Wanted(r, v.limit)
                 && if v.limit <= 25 then v.pageSize == 25 else r.kind == AllRuns && v.pageSize == 100
  {
  }

  /** The exact request asks for a page of what the client gave, never for fewer runs than it wants. */
  lemma ExactPageMeans(r: Request)
    requires r.plain && Size(r.perPage) && Size(r.limit)
    ensures ExactPageSize(r) == if r.perPage.Number? then r.perPage.value else if r.limit.Number? then r.limit.value else 30
    ensures forall n: nat :: Wanted(r, n) ==> n <= ExactPageSize(r)
  {
  }

  /** A page of a hundred stands for one of 25 exactly when it has 25 runs, or has all there are and says so. */
  lemma ProjectedExactly(page: Page, cut: Page)
    ensures Projected(page) == Some(cut)
            <==> && (|page.runs| >= 25 || (page.total == Some(|page.runs|) && !page.link))
                 && cut.runs == (if |page.runs| <= 25 then page.runs else page.runs[..25])
                 && cut.total == page.total && cut.link == page.link
  {
    assert page.runs[..|page.runs|] == page.runs;
  }
}
