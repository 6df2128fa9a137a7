/** When the jobs of a run are completed, and with what, on the pages themselves (src/run-jobs-superset.ts:215-396). */
module RunJobRules {
  import opened Basics
  import opened RunJobs

  /** A page that must have more after it: a full one, of a total within three pages. */
  predicate NeedsMore(r: Response)
  {
    && 200 <= r.status <= 299 && r.jobs.Some? && |r.jobs.value| == 100
    && r.total.Some? && 100 < r.total.value <= 300
  }

  /** Two pages in all, or three. */
  function Pages(total: int): nat
  {
    if total <= 200 then 2 else 3
  }

  /** The page is what the total says that page `p` must be. */
  predicate Fits(f: Fetch, total: int, p: nat)
  {
    && f.Got? && 200 <= f.response.status <= 299 && f.response.total == Some(total) && f.response.jobs.Some?
    && |f.response.jobs.value| == if total < p * 100 then total - (p - 1) * 100 else 100
  }

  /** The page before `p` does not end the links. */
  predicate PointsOn(first: Response, fetch: nat -> Fetch, p: nat)
  {
    if p == 2 then first.link != OtherLinks else fetch(2).Got? && fetch(2).response.link != OtherLinks
  }

  /** No answer came, or one of a server that is out of order. */
  predicate OutOfReach(f: Fetch)
  {
    f == TransportFails || (f.Got? && (f.response.status == 500 || 502 <= f.response.status <= 504 || 520 <= f.response.status <= 524))
  }

  /** Page `p` is asked for. */
  predicate Asked(first: Response, fetch: nat -> Fetch, total: int, p: nat)
  {
    && 2 <= p <= Pages(total) && PointsOn(first, fetch, p)
    && (p == 3 ==> first.link != OtherLinks && Fits(fetch(2), total, 2))
  }

  /** All pages fit and are joined. */
  ghost predicate AllFit(first: Response, fetch: nat -> Fetch, total: int)
  {
    && (forall p :: 2 <= p <= Pages(total) ==> Asked(first, fetch, total, p) && Fits(fetch(p), total, p))
    && fetch(Pages(total)).Got? && fetch(Pages(total)).response.link != NextLink
  }

  /** The jobs of all pages in order. */
  predicate AllJobs(first: Response, fetch: nat -> Fetch, total: int, jobs: seq<Job>)
    requires first.jobs.Some?
  {
    && fetch(2).Got? && fetch(2).response.jobs.Some?
    && if total <= 200 then jobs == first.jobs.value + fetch(2).response.jobs.value
       else fetch(3).Got? && fetch(3).response.jobs.Some?
            && jobs == first.jobs.value + fetch(2).response.jobs.value + fetch(3).response.jobs.value
  }

  lemma FillableMeans(r: Response)
    ensures Fillable(r) <==> NeedsMore(r)
    ensures NeedsMore(r) ==> PageCount(r.total.value) == Pages(r.total.value)
  {
  }

  lemma AgreesMeans(f: Fetch, total: int, p: nat)
    requires 100 < total <= 300 && 2 <= p <= Pages(total)
    ensures Agrees(f, total, (p - 1) * MAX_PAGE_SIZE) <==> Fits(f, total, p)
    ensures Unreached(f) <==> OutOfReach(f)
    ensures Fits(f, total, p) ==> !OutOfReach(f)
  {
  }

  lemma ConsistentToTwo(first: Response, fetch: nat -> Fetch)
    requires NeedsMore(first) && Fillable(first)
    ensures Consistent(first, fetch, 2) <==> Fits(fetch(2), first.total.value, 2) && first.link != OtherLinks
  {
    hide Agrees, Fits;
    AgreesMeans(fetch(2), first.total.value, 2);
    assert PageAt(first, fetch, 1) == first;
  }

  lemma BreaksMeans(first: Response, fetch: nat -> Fetch)
    requires NeedsMore(first) && Fillable(first)
    ensures Breaks(first, fetch)
            <==> exists p: nat :: 2 <= p <= 3 && Asked(first, fetch, first.total.value, p) && OutOfReach(fetch(p))
  {
    hide Agrees, Unreached, OutOfReach, Fillable;
    var total := first.total.value;
    FillableMeans(first);
    AgreesMeans(fetch(2), total, 2);
    assert BreaksAt(first, fetch, 2) <==> Asked(first, fetch, total, 2) && OutOfReach(fetch(2));
    if Pages(total) == 3 {
      AgreesMeans(fetch(3), total, 3);
      ConsistentToTwo(first, fetch);
      assert fetch(2).Got? ==> PageAt(first, fetch, 2) == fetch(2).response;
      assert BreaksAt(first, fetch, 3) <==> Asked(first, fetch, total, 3) && OutOfReach(fetch(3));
    }
  }

  lemma ConsistentToThree(first: Response, fetch: nat -> Fetch)
    requires NeedsMore(first) && Fillable(first) && Pages(first.total.value) == 3
    ensures Consistent(first, fetch, 3)
            <==> && Fits(fetch(2), first.total.value, 2) && first.link != OtherLinks
                 && Fits(fetch(3), first.total.value, 3) && fetch(2).response.link != OtherLinks
  {
    hide Agrees;
    AgreesMeans(fetch(2), first.total.value, 2);
    AgreesMeans(fetch(3), first.total.value, 3);
    assert PageAt(first, fetch, 1) == first;
    assert fetch(2).Got? ==> PageAt(first, fetch, 2) == fetch(2).response;
  }

  lemma MergeableMeans(first: Response, fetch: nat -> Fetch)
    requires NeedsMore(first) && Fillable(first)
    ensures Mergeable(first, fetch) <==> AllFit(first, fetch, first.total.value)
  {
    hide Agrees, Consistent, Fillable;
    var total := first.total.value;
    FillableMeans(first);
    ConsistentToTwo(first, fetch);
    if Pages(total) == 3 {
      ConsistentToThree(first, fetch);
      if AllFit(first, fetch, total) { assert Asked(first, fetch, total, 3) && Asked(first, fetch, total, 2) && Fits(fetch(2), total, 2) && Fits(fetch(3), total, 3); }
    } else if AllFit(first, fetch, total) {
      assert Asked(first, fetch, total, 2) && Fits(fetch(2), total, 2);
    }
  }

  lemma MergedMeans(first: Response, fetch: nat -> Fetch, r: Response)
    requires NeedsMore(first) && Fillable(first) && Mergeable(first, fetch)
    ensures Merged(first, fetch, r)
            <==> && r.status == first.status && r.total == first.total && r.link == NoLink
                 && r.jobs.Some? && AllJobs(first, fetch, first.total.value, r.jobs.value)
  {
    var total := first.total.value;
    FillableMeans(first);
    AgreesMeans(fetch(2), total, 2);
    assert Agrees(fetch(2), total, (2 - 1) * MAX_PAGE_SIZE);
    assert Gathered(first, fetch, 1) == first.jobs.value;
    assert Gathered(first, fetch, 2) == first.jobs.value + fetch(2).response.jobs.value;
    if total > 200 {
      AgreesMeans(fetch(3), total, 3);
      assert Agrees(fetch(3), total, (3 - 1) * MAX_PAGE_SIZE);
      assert Gathered(first, fetch, 3) == Gathered(first, fetch, 2) + fetch(3).response.jobs.value;
    }
  }

  /** A first page that needs no more, or cannot be completed, is left as it is. One whose later pages all fit
      becomes all their jobs. A page that is asked for and out of reach is an error, whatever comes after it. */
  lemma CompletionExactly(first: Response, fetch: nat -> Fetch, outcome: Outcome)
    ensures Completes(first, fetch, outcome)
            <==> if !NeedsMore(first) then outcome == Done(first)
                 else if exists p: nat :: 2 <= p <= 3 && Asked(first, fetch, first.total.value, p) && OutOfReach(fetch(p)) then outcome == Unavailable
                 else
                   && outcome.Done?
                   && if AllFit(first, fetch, first.total.value) then
                        && outcome.response.status == first.status && outcome.response.total == first.total && outcome.response.link == NoLink
                        && outcome.response.jobs.Some? && AllJobs(first, fetch, first.total.value, outcome.response.jobs.value)
                      else outcome.response == first
  {
    hide Breaks, Mergeable, Merged, AllFit, AllJobs, Asked, OutOfReach;
    FillableMeans(first);
    if NeedsMore(first) {
      BreaksMeans(first, fetch);
      MergeableMeans(first, fetch);
      if outcome.Done? && Mergeable(first, fetch) { MergedMeans(first, fetch, outcome.response); }
    }
  }

  /** What counts as complete: the total is the number of jobs, at most 300, and no link points on. */
  lemma CompleteMeans(r: Response)
    ensures !Incomplete(r) <==> r.jobs.Some? ==> r.total == Some(|r.jobs.value|) && |r.jobs.value| <= 300 && r.link != NextLink
  {
  }

  /** The pages that a client can ask for: sizes from 1 to 100, thirty if none is given, and places that can be counted. */
  lemma ViewExactly(page: nat, perPage: Option<nat>, v: View)
    ensures PageView(page, perPage) == Some(v)
            <==> && page >= 1 && 1 <= v.limit <= 100 && v.limit == (if perPage.Some? then perPage.value else 30)
                 && v.offset == (page - 1) * v.limit
                 && (page == 1 || (page <= 9007199254740991 && page * v.limit <= 9007199254740991))
  {
  }

  /** A view of a list leaves all else of the answer, and takes its links. */
  lemma CutMeans(r: Response, v: View)
    requires r.jobs.Some?
    ensures var cut := Cut(r, v);
            && cut.status == r.status && cut.total == r.total && cut.link == NoLink
            && cut.jobs.Some?
            && |cut.jobs.value| == (if |r.jobs.value| <= v.offset then 0
                                    else if |r.jobs.value| - v.offset <= v.limit then |r.jobs.value| - v.offset else v.limit)
            && (forall i :: 0 <= i < |cut.jobs.value| ==> cut.jobs.value[i] == r.jobs.value[v.offset + i])
  {
  }
}
