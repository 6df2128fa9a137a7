/** The jobs of a run gathered from pages of a hundred (src/run-jobs-superset.ts:215-396). */
module RunJobs {
  import opened Basics

  const MAX_PAGE_SIZE: nat := 100
  const MAX_API_JOBS := 300
  const DEFAULT_PAGE_SIZE: nat := 30
  const MAX_SAFE_INTEGER := 9007199254740991

  type Job = string

  datatype Link = NoLink | OtherLinks | NextLink

  /** `total` is the count if it is a safe integer; `jobs` the array if there is one. */
  datatype Response = Response(status: nat, jobs: Option<seq<Job>>, total: Option<int>, link: Link)

  datatype Fetch = TransportFails | Fails | Nothing | Got(response: Response)

  /** The response that goes on, or the error that asks for a retry. */
  datatype Outcome = Unavailable | Done(response: Response)

  predicate Succeeded(r: Response) { 200 <= r.status < 300 }

  predicate Transient(status: nat)
  {
    status in {500, 502, 503, 504, 520, 521, 522, 523, 524}
  }

  /** `runJobsSupersetIncomplete`, of a relay with a superset view. */
  predicate Incomplete(r: Response)
  {
    r.jobs.Some?
    && (r.total.None? || r.total.value < 0 || r.total.value > MAX_API_JOBS || r.total.value != |r.jobs.value| || r.link.NextLink?)
  }

  /** More pages are worth fetching: the first is full and the total is within bounds. */
  predicate Fillable(r: Response)
  {
    Succeeded(r) && r.jobs.Some? && r.total.Some?
    && |r.jobs.value| < r.total.value <= MAX_API_JOBS && |r.jobs.value| == MAX_PAGE_SIZE
  }

  function PageCount(total: nat): nat
  {
    (total + MAX_PAGE_SIZE - 1) / MAX_PAGE_SIZE
  }

  /** A later page that agrees with the total and has the length it must have. */
  predicate Agrees(f: Fetch, total: int, sofar: nat)
  {
    f.Got? && Succeeded(f.response) && f.response.total == Some(total) && f.response.jobs.Some?
    && |f.response.jobs.value| == Min(MAX_PAGE_SIZE, total - sofar)
  }

  /** The jobs of the first page and of pages 2 to n. */
  function Gathered(first: Response, fetch: nat -> Fetch, n: nat): seq<Job>
    requires first.jobs.Some? && forall p: nat :: 2 <= p <= n ==> fetch(p).Got? && fetch(p).response.jobs.Some?
  {
    if n <= 1 then first.jobs.value else Gathered(first, fetch, n - 1) + fetch(n).response.jobs.value
  }

  /** The page before which the loop stands. */
  function PageAt(first: Response, fetch: nat -> Fetch, n: nat): Response
    requires forall p: nat :: 2 <= p <= n ==> fetch(p).Got?
  {
    if n <= 1 then first else fetch(n).response
  }

  /** Every page says the same total and has its full length, and links only end at the last. */
  predicate Consistent(first: Response, fetch: nat -> Fetch, n: nat)
    requires Fillable(first)
  {
    && (forall p: nat :: 2 <= p <= n ==> Agrees(fetch(p), first.total.value, (p - 1) * MAX_PAGE_SIZE))
    && (forall p: nat :: 1 <= p < n ==> !PageAt(first, fetch, p).link.OtherLinks?)
  }

  predicate Unreached(f: Fetch)
  {
    f.TransportFails? || (f.Got? && Transient(f.response.status))
  }

  /** The pages before `p` agree and point on, and page `p` cannot be reached. */
  predicate BreaksAt(first: Response, fetch: nat -> Fetch, p: nat)
    requires Fillable(first) && p >= 2
  {
    Consistent(first, fetch, p - 1) && !PageAt(first, fetch, p - 1).link.OtherLinks? && Unreached(fetch(p))
  }

  predicate Breaks(first: Response, fetch: nat -> Fetch)
    requires Fillable(first)
  {
    exists p: nat :: 2 <= p <= PageCount(first.total.value) && BreaksAt(first, fetch, p)
  }

  /** What completing a first page comes to: that page, the merge of all pages, or an error. */
  predicate Completes(first: Response, fetch: nat -> Fetch, outcome: Outcome)
  {
    if !Fillable(first) then outcome == Done(first)
    else if Breaks(first, fetch) then outcome == Unavailable
    else outcome.Done? && if Mergeable(first, fetch) then Merged(first, fetch, outcome.response) else outcome.response == first
  }

  /** A page that disagrees, or a link that does not point on, ends the reading with the first page. */
  lemma EndsAt(first: Response, fetch: nat -> Fetch, p: nat)
    requires Fillable(first) && 2 <= p <= PageCount(first.total.value) && Consistent(first, fetch, p - 1)
    requires PageAt(first, fetch, p - 1).link.OtherLinks?
             || (!Agrees(fetch(p), first.total.value, (p - 1) * MAX_PAGE_SIZE) && !Unreached(fetch(p)))
    ensures !Breaks(first, fetch) && !Mergeable(first, fetch)
  {
    forall q: nat | 2 <= q <= PageCount(first.total.value) ensures !BreaksAt(first, fetch, q) {
      if q < p { assert Agrees(fetch(q), first.total.value, (q - 1) * MAX_PAGE_SIZE); }
    }
  }

  lemma MergeableNeverBreaks(first: Response, fetch: nat -> Fetch)
    requires Fillable(first) && Consistent(first, fetch, PageCount(first.total.value))
    ensures !Breaks(first, fetch)
  {
    forall q: nat | 2 <= q <= PageCount(first.total.value) ensures !BreaksAt(first, fetch, q) {
      assert Agrees(fetch(q), first.total.value, (q - 1) * MAX_PAGE_SIZE);
    }
  }

  method CompleteRunJobsSuperset(first: Response, fetch: nat -> Fetch) returns (outcome: Outcome)
    ensures Completes(first, fetch, outcome)
  {
    if !Succeeded(first) || first.jobs.None? { return Done(first); }
    if first.total.None? || first.total.value <= |first.jobs.value| || first.total.value > MAX_API_JOBS
       || |first.jobs.value| != MAX_PAGE_SIZE {
      return Done(first);
    }
    var total := first.total.value;
    var jobs := first.jobs.value;
    var pageCount := PageCount(total);
    var last := first;
    for page := 2 to pageCount + 1
      invariant Consistent(first, fetch, page - 1)
      invariant jobs == Gathered(first, fetch, page - 1) && last == PageAt(first, fetch, page - 1)
      invariant |jobs| == Min(total, (page - 1) * MAX_PAGE_SIZE)
    {
      if last.link.OtherLinks? {
        EndsAt(first, fetch, page);
        return Done(first);
      }
      var next := fetch(page);
      assert Unreached(next) ==> BreaksAt(first, fetch, page);
      if next.TransportFails? { return Unavailable; }
      if next.Fails? {
        EndsAt(first, fetch, page);
        return Done(first);
      }
      if next.Got? && Transient(next.response.status) { return Unavailable; }
      if !next.Got? || !Succeeded(next.response) || next.response.total != Some(total) || next.response.jobs.None?
         || |next.response.jobs.value| != Min(MAX_PAGE_SIZE, total - |jobs|) {
        EndsAt(first, fetch, page);
        return Done(first);
      }
      jobs := jobs + next.response.jobs.value;
      last := next.response;
    }
    MergeableNeverBreaks(first, fetch);
    if |jobs| != total || last.link.NextLink? { return Done(first); }
    return Done(first.(jobs := Some(jobs), total := Some(total), link := NoLink));
  }

  /** All pages agree and the last does not point on. */
  predicate Mergeable(first: Response, fetch: nat -> Fetch)
    requires Fillable(first)
  {
    Consistent(first, fetch, PageCount(first.total.value)) && !PageAt(first, fetch, PageCount(first.total.value)).link.NextLink?
  }

  predicate Merged(first: Response, fetch: nat -> Fetch, r: Response)
  {
    && Fillable(first) && Mergeable(first, fetch)
    && r == first.(jobs := Some(Gathered(first, fetch, PageCount(first.total.value))), link := NoLink)
  }

  lemma {:induction false} GatheredLength(first: Response, fetch: nat -> Fetch, n: nat)
    requires Fillable(first) && Consistent(first, fetch, n) && 1 <= n <= PageCount(first.total.value)
    ensures |Gathered(first, fetch, n)| == Min(first.total.value, n * MAX_PAGE_SIZE)
  {
    if n > 1 {
      GatheredLength(first, fetch, n - 1);
      assert Agrees(fetch(n), first.total.value, (n - 1) * MAX_PAGE_SIZE);
    }
  }

  /** Whatever the upstream does meanwhile: a merged result holds as many jobs as every page said there
      are and counts as complete, and a first page that had to be merged but was not counts as incomplete. */
  lemma OnlyWholeAggregatesPass(first: Response, fetch: nat -> Fetch, r: Response)
    requires Fillable(first)
    ensures Merged(first, fetch, r) ==> !Incomplete(r) && r.total == Some(|r.jobs.value|)
                                        && forall p: nat :: 2 <= p <= PageCount(first.total.value) ==> fetch(p).Got? && fetch(p).response.total == r.total
    ensures r == first ==> Incomplete(r)
  {
    if Merged(first, fetch, r) {
      var n := PageCount(first.total.value);
      GatheredLength(first, fetch, n);
      forall p: nat | 2 <= p <= n ensures fetch(p).Got? && fetch(p).response.total == r.total {
        assert Agrees(fetch(p), first.total.value, (p - 1) * MAX_PAGE_SIZE);
      }
    }
  }

  // ------------------------------------------------- pages cut from the aggregate

  /** `slice` as the original has it: bounds beyond the end are cut. */
  function Slice<T>(s: seq<T>, from: nat, to: nat): seq<T>
    requires from <= to
  {
    s[Min(from, |s|)..Min(to, |s|)]
  }

  /** Page `p` of size `size` as the upstream gives it. */
  function UpstreamPage(all: seq<Job>, p: nat, size: nat): seq<Job>
    requires p >= 1
  {
    Slice(all, (p - 1) * size, p * size)
  }

  /** A fixed list of jobs, given in pages of a hundred with its length, and links that point on as long as there is more. */
  predicate HonestPage(all: seq<Job>, p: nat, r: Response)
    requires p >= 1
  {
    && r.status == 200 && r.jobs == Some(UpstreamPage(all, p, MAX_PAGE_SIZE)) && r.total == Some(|all|)
    && (r.link.NextLink? ==> p * MAX_PAGE_SIZE < |all|) && (r.link.OtherLinks? ==> p * MAX_PAGE_SIZE >= |all|)
  }

  ghost predicate Honest(all: seq<Job>, first: Response, fetch: nat -> Fetch)
  {
    HonestPage(all, 1, first) && forall p: nat :: p >= 2 ==> fetch(p).Got? && HonestPage(all, p, fetch(p).response)
  }

  lemma {:induction false} GatheredIsPrefix(all: seq<Job>, first: Response, fetch: nat -> Fetch, n: nat)
    requires Honest(all, first, fetch) && n >= 1
    ensures Gathered(first, fetch, n) == Slice(all, 0, n * MAX_PAGE_SIZE)
  {
    if n > 1 {
      GatheredIsPrefix(all, first, fetch, n - 1);
      assert HonestPage(all, n, fetch(n).response);
    }
  }

  lemma HonestIsMergeable(all: seq<Job>, first: Response, fetch: nat -> Fetch)
    requires Honest(all, first, fetch) && MAX_PAGE_SIZE < |all| <= MAX_API_JOBS
    ensures Fillable(first) && Mergeable(first, fetch)
  {
    var n := PageCount(|all|);
    forall p: nat | 2 <= p <= n ensures Agrees(fetch(p), |all|, (p - 1) * MAX_PAGE_SIZE) {
      assert HonestPage(all, p, fetch(p).response);
    }
    forall p: nat | 1 <= p < n ensures !PageAt(first, fetch, p).link.OtherLinks? {
      if p > 1 { assert HonestPage(all, p, fetch(p).response); }
    }
    assert HonestPage(all, n, fetch(n).response);
  }

  lemma HonestPagesAreReached(all: seq<Job>, first: Response, fetch: nat -> Fetch, p: nat)
    requires Honest(all, first, fetch) && p >= 2
    ensures !Unreached(fetch(p))
  {
    assert HonestPage(all, p, fetch(p).response);
  }

  /** The aggregate of a fixed list is the list: the superset is completed without an error, and whole. */
  lemma AggregateIsTheList(all: seq<Job>, first: Response, fetch: nat -> Fetch, outcome: Outcome)
    requires Honest(all, first, fetch) && |all| <= MAX_API_JOBS
    requires Completes(first, fetch, outcome)
    ensures outcome.Done? && outcome.response.jobs == Some(all) && outcome.response.total == Some(|all|)
    ensures !Incomplete(outcome.response)
  {
    if |all| > MAX_PAGE_SIZE {
      HonestIsMergeable(all, first, fetch);
      var n := PageCount(|all|);
      forall p: nat | 2 <= p <= n ensures !Unreached(fetch(p)) { HonestPagesAreReached(all, first, fetch, p); }
      assert n * MAX_PAGE_SIZE >= |all| && n >= 1;
      GatheredIsPrefix(all, first, fetch, n);
      assert Slice(all, 0, n * MAX_PAGE_SIZE) == all;
    } else {
      assert !Fillable(first);
      assert UpstreamPage(all, 1, MAX_PAGE_SIZE) == all;
    }
  }

  datatype View = View(limit: nat, offset: nat)

  /** The view of the first page: `runJobsSupersetView`, of a size that is given as an integer. */
  function FirstPageView(perPage: Option<nat>): Option<View>
  {
    match perPage
    case None => Some(View(DEFAULT_PAGE_SIZE, 0))
    case Some(size) => if 1 <= size <= MAX_PAGE_SIZE then Some(View(size, 0)) else None
  }

  /** The view of a later page: `cachedRunJobsPageView`, of a page number that is given as an integer. */
  function CachedPageView(page: nat, perPage: Option<nat>): Option<View>
  {
    var view := FirstPageView(perPage);
    if page <= 1 || page > MAX_SAFE_INTEGER || view.None? || page * view.value.limit > MAX_SAFE_INTEGER then None
    else Some(view.value.(offset := (page - 1) * view.value.limit))
  }

  function PageView(page: nat, perPage: Option<nat>): Option<View>
  {
    if page == 1 then FirstPageView(perPage) else CachedPageView(page, perPage)
  }

  /** `filterRunJobsSuperset` */
  function Cut(r: Response, v: View): Response
  {
    if r.jobs.None? then r else r.(jobs := Some(Slice(r.jobs.value, v.offset, v.offset + v.limit)), link := NoLink)
  }

  /** A page cut from the aggregate of a fixed list is the page that the upstream would have given. */
  lemma CutEqualsUpstreamPage(all: seq<Job>, first: Response, fetch: nat -> Fetch, outcome: Outcome, page: nat, perPage: Option<nat>)
    requires Honest(all, first, fetch) && |all| <= MAX_API_JOBS
    requires Completes(first, fetch, outcome) && PageView(page, perPage).Some?
    ensures outcome.Done?
    ensures var v := PageView(page, perPage).value;
            Cut(outcome.response, v).jobs == Some(UpstreamPage(all, page, v.limit)) && Cut(outcome.response, v).total == Some(|all|)
  {
    AggregateIsTheList(all, first, fetch, outcome);
    var v := PageView(page, perPage).value;
    assert v.offset + v.limit == page * v.limit;
  }

  /** The jobs of the pages 1 to n as a client is served them. */
  function ServedPages(r: Response, perPage: Option<nat>, n: nat): seq<Job>
  {
    if n == 0 then []
    else
      ServedPages(r, perPage, n - 1) +
      match PageView(n, perPage)
      case None => []
      case Some(v) => if Cut(r, v).jobs.Some? then Cut(r, v).jobs.value else []
  }

  lemma EarlierPageView(perPage: Option<nat>, n: nat)
    requires n >= 1 && PageView(n, perPage).Some?
    ensures PageView(n, perPage).value.limit >= 1
    ensures n > 1 ==> PageView(n - 1, perPage).Some? && PageView(n - 1, perPage).value.limit == PageView(n, perPage).value.limit
  {
    var limit := FirstPageView(perPage).value.limit;
    assert n * limit == (n - 1) * limit + limit;
  }

  lemma PagesMeet(all: seq<Job>, n: nat, size: nat)
    requires n >= 1
    ensures Slice(all, 0, (n - 1) * size) + UpstreamPage(all, n, size) == Slice(all, 0, n * size)
    ensures |all| <= n * size ==> Slice(all, 0, n * size) == all
  {
    assert n * size == (n - 1) * size + size;
  }

  lemma FirstSlice(all: seq<Job>, size: nat)
    ensures Slice(all, 0, (1 - 1) * size) == []
  {
  }

  /** The pages of any one size that are served, one after another, are the list, each job once: none is
      lost or repeated where one page ends and the next begins. */
  lemma {:induction false} PagesCoverTheList(all: seq<Job>, first: Response, fetch: nat -> Fetch, outcome: Outcome, perPage: Option<nat>, n: nat)
    requires Honest(all, first, fetch) && |all| <= MAX_API_JOBS
    requires Completes(first, fetch, outcome) && n >= 1 && PageView(n, perPage).Some?
    ensures outcome.Done?
    ensures var size := PageView(n, perPage).value.limit;
            && ServedPages(outcome.response, perPage, n) == Slice(all, 0, n * size)
            && (|all| <= n * size ==> ServedPages(outcome.response, perPage, n) == all)
  {
    hide Honest, Completes, PageView, Cut, Slice, UpstreamPage;
    var size := PageView(n, perPage).value.limit;
    CutEqualsUpstreamPage(all, first, fetch, outcome, n, perPage);
    EarlierPageView(perPage, n);
    PagesMeet(all, n, size);
    if n == 1 {
      FirstSlice(all, size);
    } else {
      PagesCoverTheList(all, first, fetch, outcome, perPage, n - 1);
    }
  }
}
