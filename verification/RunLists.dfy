/** Filtered run lists served from one wider cached page (src/run-list-superset.ts:63-196). */
module RunLists {
  import opened Basics

  const PUBLIC_PAGE_SIZE := 25
  const MAX_PAGE_SIZE := 100
  const DEFAULT_PAGE_SIZE := 30

  /** A run, or an element that is not an object. */
  datatype Run = Run(branch: string, status: string, conclusion: string, id: nat) | Junk

  /** A query parameter: missing, not a positive integer, or one. */
  datatype Parameter = Missing | Bad | Number(value: nat)

  datatype Kind = AllRuns | WorkflowRuns

  /** `plain`: the shape header is there, the page is the first and no other parameter is given. */
  datatype Request = Request(kind: Kind, plain: bool, branch: Option<string>, status: Option<string>,
                             perPage: Parameter, limit: Parameter)

  datatype View = View(branch: Option<string>, status: Option<string>, limit: nat, pageSize: nat)

  predicate Supported(status: string)
  {
    status in {"completed", "action_required", "cancelled", "failure", "neutral", "skipped", "stale", "startup_failure",
               "success", "timed_out", "in_progress", "queued", "requested", "waiting", "pending"}
  }

  /** `boundedPageSize` in its strict form. */
  function Bounded(p: Parameter): Option<nat>
  {
    if p.Number? && 1 <= p.value <= MAX_PAGE_SIZE then Some(p.value) else None
  }

  function Capped(p: Parameter): Option<nat>
  {
    if p.Number? && p.value >= 1 then Some(Min(p.value, MAX_PAGE_SIZE)) else None
  }

  function OrElse(o: Option<nat>, d: nat): nat
  {
    match o case Some(v) => v case None => d
  }

  /** `runListSupersetView` */
  function SupersetView(r: Request): Option<View>
  {
    var perPage, limit := Bounded(r.perPage), Bounded(r.limit);
    if !r.plain then None
    else if (r.perPage != Missing && perPage.None?) || (r.limit != Missing && limit.None?) then None
    else if r.status.Some? && !Supported(r.status.value) then None
    else
      var requested := Min(OrElse(perPage, MAX_PAGE_SIZE), OrElse(limit, OrElse(perPage, DEFAULT_PAGE_SIZE)));
      if requested <= PUBLIC_PAGE_SIZE then Some(View(r.branch, r.status, requested, PUBLIC_PAGE_SIZE))
      else if r.kind == AllRuns then Some(View(r.branch, r.status, requested, MAX_PAGE_SIZE))
      else None
  }

  /** The page size of `exactRunListRequest`; GitHub's default if neither parameter is given. */
  function ExactPageSize(r: Request): nat
  {
    if r.perPage == Missing && Capped(r.limit).Some? then Capped(r.limit).value
    else OrElse(Bounded(r.perPage), DEFAULT_PAGE_SIZE)
  }

  predicate Filters(v: View)
  {
    v.branch.Some? || v.status.Some?
  }

  predicate Matches(run: Run, v: View)
  {
    && run.Run?
    && (v.branch.Some? ==> run.branch == v.branch.value)
    && (v.status.Some? ==> run.status == v.status.value || run.conclusion == v.status.value)
  }

  function Filter(runs: seq<Run>, v: View): (r: seq<Run>)
    ensures |r| <= |runs|
  {
    if runs == [] then []
    else (if Matches(runs[0], v) then [runs[0]] else []) + Filter(runs[1..], v)
  }

  function First<T>(s: seq<T>, n: nat): (r: seq<T>)
    ensures |r| == Min(|s|, n)
  {
    if n <= |s| then s[..n] else s
  }

  /** `filterRunListSuperset`: the runs that the client gets. */
  function Served(runs: seq<Run>, v: View): seq<Run>
  {
    First(Filter(runs, v), v.limit)
  }

  predicate Underfilled(runs: seq<Run>, v: View)
  {
    Filters(v) && |Filter(runs, v)| < v.limit
  }

  lemma {:induction false} FilterAdds(left: seq<Run>, right: seq<Run>, v: View)
    ensures Filter(left + right, v) == Filter(left, v) + Filter(right, v)
  {
    if left == [] {
      assert left + right == right;
    } else {
      assert (left + right)[1..] == left[1..] + right;
      FilterAdds(left[1..], right, v);
    }
  }

  predicate AllRecords(runs: seq<Run>)
  {
    forall i :: 0 <= i < |runs| ==> runs[i].Run?
  }

  lemma {:induction false} UnfilteredKeepsAll(runs: seq<Run>, v: View)
    requires !Filters(v) && AllRecords(runs)
    ensures Filter(runs, v) == runs
  {
    if runs == [] {
    } else {
      UnfilteredKeepsAll(runs[1..], v);
    }
  }

  lemma ViewFitsPage(r: Request)
    requires SupersetView(r).Some?
    ensures var v := SupersetView(r).value; 1 <= v.limit <= v.pageSize <= MAX_PAGE_SIZE && v.limit <= ExactPageSize(r)
  {
  }

  lemma PrefixServes(runs: seq<Run>, more: seq<Run>, v: View)
    requires |Filter(runs, v)| >= v.limit || more == []
    ensures Served(runs + more, v) == Served(runs, v)
  {
    FilterAdds(runs, more, v);
    if more == [] { assert runs + more == runs; }
  }

  /** Whenever the cached page is the start of the upstream list and does not leave the view underfilled,
      what is served from it is what filtering the whole list and limiting it would give. */
  lemma ServedEqualsDirectRead(r: Request, all: seq<Run>)
    requires SupersetView(r).Some? && AllRecords(all)
    ensures var v := SupersetView(r).value;
            var page := First(all, v.pageSize);
            !Underfilled(page, v) ==> Served(page, v) == Served(all, v)
  {
    var v := SupersetView(r).value;
    var page := First(all, v.pageSize);
    ViewFitsPage(r);
    assert all == page + all[|page|..];
    if !Underfilled(page, v) {
      if !Filters(v) { UnfilteredKeepsAll(page, v); }
      PrefixServes(page, all[|page|..], v);
    }
  }

  lemma {:induction false} FilteredMatch(runs: seq<Run>, v: View)
    ensures forall i :: 0 <= i < |Filter(runs, v)| ==> Matches(Filter(runs, v)[i], v)
  {
    if runs != [] { FilteredMatch(runs[1..], v); }
  }

  lemma {:induction false} MatchingStay(runs: seq<Run>, v: View)
    requires forall i :: 0 <= i < |runs| ==> Matches(runs[i], v)
    ensures Filter(runs, v) == runs
  {
    if runs != [] { MatchingStay(runs[1..], v); }
  }

  /** An exact answer is served as the same list. */
  lemma ExactEqualsDirectRead(r: Request, all: seq<Run>)
    requires SupersetView(r).Some?
    ensures var v := SupersetView(r).value; Served(First(Filter(all, v), ExactPageSize(r)), v) == Served(all, v)
  {
    var v := SupersetView(r).value;
    var answer := First(Filter(all, v), ExactPageSize(r));
    ViewFitsPage(r);
    FilteredMatch(all, v);
    MatchingStay(answer, v);
  }

  // ------------------------------------------------- a larger cached page

  /** A cached page of run lists: its runs, the total if it is a number, and whether it has links. */
  datatype Page = Page(runs: seq<Run>, total: Option<int>, link: bool)

  /** `projectLargerRunListPage` */
  function Projected(page: Page): Option<Page>
  {
    if |page.runs| < PUBLIC_PAGE_SIZE && (page.total != Some(|page.runs|) || page.link) then None
    else Some(page.(runs := First(page.runs, PUBLIC_PAGE_SIZE)))
  }

  /** Cutting the page of 100 to 25 gives the page of 25, with its total: it is underfilled exactly when
      that page is, and otherwise serves what the direct read would. */
  lemma ProjectionIsTheSmallPage(r: Request, all: seq<Run>, page: Page)
    requires SupersetView(r).Some? && SupersetView(r).value.pageSize == PUBLIC_PAGE_SIZE && AllRecords(all)
    requires page.runs == First(all, MAX_PAGE_SIZE) && Projected(page).Some?
    ensures var v, cut := SupersetView(r).value, Projected(page).value;
            && cut.runs == First(all, PUBLIC_PAGE_SIZE) && cut.total == page.total
            && (Underfilled(cut.runs, v) <==> Underfilled(First(all, v.pageSize), v))
            && (!Underfilled(cut.runs, v) ==> Served(cut.runs, v) == Served(all, v))
  {
    ServedEqualsDirectRead(r, all);
  }

  /** Filtering before or after the cut differs only past the 25th run: the one is the start of the other. */
  lemma ProjectionCommutes(page: Page, v: View)
    requires Projected(page).Some?
    ensures Filter(Projected(page).value.runs, v) == First(Filter(page.runs, v), |Filter(Projected(page).value.runs, v)|)
  {
    var cut := First(page.runs, PUBLIC_PAGE_SIZE);
    assert page.runs == cut + page.runs[|cut|..];
    FilterAdds(cut, page.runs[|cut|..], v);
  }
}
