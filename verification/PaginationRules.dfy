/** Which paginated reads succeed, on the pages and links themselves
    (cmd/octopool/gh_api_pagination.go:35-147,247-331). */
module PaginationRules {
  import opened Basics
  import opened Pagination

  // ------------------------------------------------- pages with links

  /** The request that the link of a page asks for: on the same path as it stands, and elsewhere only if it names
      a page, which is then asked for of the request that was made. */
  predicate LeadsTo(q: Query, link: Link, next: Query)
  {
    && link.NextPage?
    && match link.target
       case SamePath(query) => next == query
       case OnlyPage(page) => page >= 1 && next == Query(q.perPage, Number(page), q.rest)
       case Unfollowable => false
  }

  /** Each of these requests is answered by one of these pages, whose link leads to the next; the last page is
      the first whose link does not lead on. */
  ghost predicate LinkedPages(respond: Query -> Response, queries: seq<Query>, pages: seq<Page>)
  {
    && |queries| == |pages| >= 1
    && (forall i :: 0 <= i < |pages| ==> respond(queries[i]) == Success(pages[i]))
    && (forall i :: 0 <= i < |pages| - 1 ==> LeadsTo(queries[i], pages[i].link, queries[i + 1]))
    && pages[|pages| - 1].link == LastPage
  }

  /** Every answer is a page with a link, or none. */
  ghost predicate AllLinked(respond: Query -> Response)
  {
    forall q :: respond(q).Success? ==> !respond(q).page.link.NoLink?
  }

  lemma FollowedMeans(q: Query, target: Target, next: Query)
    ensures Followed(q, target) == Some(next) <==> LeadsTo(q, NextPage(target), next)
  {
  }

  lemma {:induction false} LinkedReadFound(respond: Query -> Response, q: Query, count: Count, index: nat, before: seq<Page>)
    returns (queries: seq<Query>, pages: seq<Page>)
    requires AllLinked(respond) && index <= MAX_PAGES && Read(respond, q, count, false, index, before).Written?
    ensures LinkedPages(respond, queries, pages) && queries[0] == q && |pages| <= MAX_PAGES - index
    ensures Read(respond, q, count, false, index, before) == Written(before + pages)
    decreases MAX_PAGES - index
  {
    var page := respond(q).page;
    if page.link.LastPage? {
      queries, pages := [q], [page];
    } else {
      var next := Followed(q, page.link.target).value;
      FollowedMeans(q, page.link.target, next);
      var later, more := LinkedReadFound(respond, next, count, index + 1, before + [page]);
      queries, pages := [q] + later, [page] + more;
      Regroup(before, [page], more);
    }
  }

  lemma {:induction false} LinkedReadFollows(respond: Query -> Response, count: Count, index: nat, before: seq<Page>, queries: seq<Query>, pages: seq<Page>)
    requires LinkedPages(respond, queries, pages) && index + |pages| <= MAX_PAGES
    ensures Read(respond, queries[0], count, false, index, before) == Written(before + pages)
    decreases |pages|
  {
    var page := pages[0];
    if |pages| == 1 {
      assert pages == [page];
    } else {
      assert LeadsTo(queries[0], pages[0].link, queries[0 + 1]);
      FollowedMeans(queries[0], page.link.target, queries[1]);
      assert LinkedPages(respond, queries[1..], pages[1..]);
      LinkedReadFollows(respond, count, index + 1, before + [page], queries[1..], pages[1..]);
      Regroup(before, [page], pages[1..]);
      assert [page] + pages[1..] == pages;
    }
  }

  /** Where every page has a link, a read writes pages exactly if the links lead to a last page within ten, and
      then it writes those pages, each of them, empty or not. */
  lemma LinkedReadExactly(respond: Query -> Response, request: Query, pages: seq<Page>)
    requires AllLinked(respond)
    ensures var q := Prepared(request);
            Read(respond, q, Initial(q, false), false, 0, []) == Written(pages)
            <==> exists queries :: LinkedPages(respond, queries, pages) && queries[0] == q && |pages| <= 10
  {
    var q := Prepared(request);
    var count := Initial(q, false);
    if Read(respond, q, count, false, 0, []) == Written(pages) {
      var queries, found := LinkedReadFound(respond, q, count, 0, []);
      assert [] + found == found;
      assert LinkedPages(respond, queries, pages) && queries[0] == q;
    }
    if queries :| LinkedPages(respond, queries, pages) && queries[0] == q && |pages| <= 10 {
      LinkedReadFollows(respond, count, 0, [], queries, pages);
      assert [] + pages == pages;
    }
  }

  // ------------------------------------------------- lists with their total

  /** One kind of list with one total throughout. */
  predicate OneTotal(pages: seq<Page>, key: string, total: nat)
  {
    forall i :: 0 <= i < |pages| ==> pages[i].shape == Counted(key, total)
  }

  /** What the count of a list remembers is what every page said that was written. */
  ghost predicate Remembers(count: Count, pages: seq<Page>, suite: bool)
  {
    && (suite ==> count.key == Some("check_runs"))
    && (count.total.Some? ==> count.key.Some? && OneTotal(pages, count.key.value, count.total.value))
    && (count.total.None? ==> pages == [])
  }

  lemma CountRemembers(page: Page, perPage: nat, count: Count, pages: seq<Page>, emit: bool)
    requires Remembers(count, pages, true) && HasNext(page, perPage, count).Some?
    ensures var (more, after) := HasNext(page, perPage, count).value;
            && Remembers(after, Kept(pages, page, emit), true) && after.total.Some?
            && after.items == count.items + |page.items|
            && (if more then page.items != [] && after.items < after.total.value
                else after.items == after.total.value || (page.items == [] && after.items >= after.total.value))
  {
  }

  lemma NoItems()
    ensures Items([]) == []
  {
  }

  lemma {:induction false} SuiteRemembers(respond: Query -> Response, q: Query, count: Count, index: nat, pages: seq<Page>, skipped: nat)
    returns (total: nat)
    requires index <= MAX_PAGES && Remembers(count, pages, true) && Read(respond, q, count, true, index, pages).Written?
    requires count.items == skipped + |Items(pages)|
    requires pages == [] || (count.total.Some? && count.items < count.total.value)
    ensures var written := Read(respond, q, count, true, index, pages).pages;
            && OneTotal(written, "check_runs", total)
            && (skipped + |Items(written)| == total || (Items(written) == [] && skipped >= total))
    decreases MAX_PAGES - index
  {
    hide Items;
    var page := respond(q).page;
    var (more, after) := HasNext(page, q.perPage.value, count).value;
    total := after.total.value;
    match TurnFor(page, q, count, true, index)
    case Last(emit) =>
      CountRemembers(page, q.perPage.value, count, pages, emit);
      ItemsKept(pages, page, emit);
      NoItems();
    case Next(next, _, emit) =>
      CountRemembers(page, q.perPage.value, count, pages, emit);
      ItemsKept(pages, page, emit);
      total := SuiteRemembers(respond, next, after, index + 1, Kept(pages, page, emit), skipped);
  }

  /** Whatever the upstream does meanwhile, the check runs of a suite are written only as a whole: every page
      that is written told the same total, and they hold that many with those before the first page; or there
      are none from there on. */
  lemma SuitesAreWhole(respond: Query -> Response, request: Query) returns (total: nat)
    requires var q := Prepared(request); Numbered(q) && Read(respond, q, Initial(q, true), true, 0, []).Written?
    ensures var q := Prepared(request);
            var written := Read(respond, q, Initial(q, true), true, 0, []).pages;
            var skipped := (q.page.value - 1) * q.perPage.value;
            && OneTotal(written, "check_runs", total)
            && (skipped + |Items(written)| == total || (Items(written) == [] && skipped >= total))
  {
    var q := Prepared(request);
    NoItems();
    total := SuiteRemembers(respond, q, Initial(q, true), 0, [], (q.page.value - 1) * q.perPage.value);
  }

  // ------------------------------------------------- pages without links

  lemma {:induction false} EmptyIsDropped(respond: Query -> Response, q: Query, count: Count, suite: bool, index: nat, pages: seq<Page>)
    requires index <= MAX_PAGES && Read(respond, q, count, suite, index, pages).Written?
    requires forall query :: respond(query).Success? ==> respond(query).page.link.NoLink?
    requires (index == 0 <==> pages == []) && forall i :: 0 < i < |pages| ==> pages[i].items != []
    ensures forall i :: 0 < i < |Read(respond, q, count, suite, index, pages).pages|
              ==> Read(respond, q, count, suite, index, pages).pages[i].items != []
    decreases MAX_PAGES - index
  {
    match TurnFor(respond(q).page, q, count, suite, index)
    case Next(next, after, emit) => EmptyIsDropped(respond, next, after, suite, index + 1, Kept(pages, respond(q).page, emit));
    case _ =>
  }

  /** Without links, an empty page is written only if it is the first: a probe past the end leaves no trace. */
  lemma ProbesLeaveNoTrace(respond: Query -> Response, request: Query, suite: bool)
    requires forall query :: respond(query).Success? ==> respond(query).page.link.NoLink?
    requires var q := Prepared(request); Read(respond, q, Initial(q, suite), suite, 0, []).Written?
    ensures var q := Prepared(request);
            var written := Read(respond, q, Initial(q, suite), suite, 0, []).pages;
            forall i :: 0 < i < |written| ==> written[i].items != []
  {
    var q := Prepared(request);
    EmptyIsDropped(respond, q, Initial(q, suite), suite, 0, []);
  }

  /** An endpoint that only ever gives lists of one kind with their total, full pages up to the last: without
      links, or for the check runs of a suite with links that lead on just as long as there is more. */
  ghost predicate CountedLists(e: Endpoint, key: string, suite: bool)
  {
    && e.dense
    && forall q: Query ::
         && e.respond(q).Success? && e.respond(q).page.shape == Counted(key, |e.all|)
         && e.respond(q).page.json && e.respond(q).page.decodable
         && (Numbered(q) && Sized(q) ==>
               && |e.respond(q).page.items| == Min(q.perPage.value, |e.all| - Position(e, q))
               && (e.respond(q).page.link == NoLink || (suite && LeadsOn(q, e.respond(q).page.link, e.at(q), |e.all|))))
  }

  predicate LeadsOn(q: Query, link: Link, at: nat, total: nat)
    requires Numbered(q)
  {
    link == if at + q.perPage.value < total then NextPage(SamePath(q.(page := Number(q.page.value + 1)))) else LastPage
  }

  lemma CountedPage(e: Endpoint, key: string, suite: bool, q: Query)
    requires Honest(e) && CountedLists(e, key, suite) && Numbered(q) && Sized(q)
    ensures e.respond(q).Success?
    ensures var (page, next) := (e.respond(q).page, q.(page := Number(q.page.value + 1)));
            && page.shape == Counted(key, |e.all|) && page.json && page.decodable
            && (page.link == NoLink || (suite && LeadsOn(q, page.link, e.at(q), |e.all|)))
            && |page.items| == Min(q.perPage.value, |e.all| - Min(e.at(q), |e.all|))
            && e.at(next) == e.at(q) + q.perPage.value && Numbered(next) && Sized(next)
  {
    var next := q.(page := Number(q.page.value + 1));
    assert (next.page.value - 1) * q.perPage.value == (q.page.value - 1) * q.perPage.value + q.perPage.value;
  }

  lemma CountedTurn(page: Page, key: string, total: nat, q: Query, count: Count, suite: bool, index: nat)
    requires Numbered(q) && index < MAX_PAGES && page.shape == Counted(key, total) && page.json && page.decodable
    requires page.link == NoLink || (suite && LeadsOn(q, page.link, count.items, total))
    requires (count.key.Some? ==> count.key.value == key) && (count.total.Some? ==> count.total.value == total)
    requires |page.items| == Min(q.perPage.value, total - Min(count.items, total))
    ensures var items := count.items + |page.items|;
            var emit := !page.link.NoLink? || page.items != [] || index == 0;
            TurnFor(page, q, count, suite, index)
            == if items >= total then Last(emit)
               else if index == MAX_PAGES - 1 then Stop(Fallback(Exhausted))
               else Next(q.(page := Number(q.page.value + 1)), Count(Some(key), items, Some(total)), emit)
  {
  }

  /** One fetch of such a list. */
  lemma CountedStep(respond: Query -> Response, key: string, total: nat, q: Query, count: Count, suite: bool, index: nat, pages: seq<Page>)
    requires Numbered(q) && index < MAX_PAGES && respond(q).Success?
    requires var page := respond(q).page;
             page.shape == Counted(key, total) && page.json && page.decodable
             && (page.link == NoLink || (suite && LeadsOn(q, page.link, count.items, total)))
    requires (count.key.Some? ==> count.key.value == key) && (count.total.Some? ==> count.total.value == total)
    requires |respond(q).page.items| == Min(q.perPage.value, total - Min(count.items, total))
    ensures var page := respond(q).page;
            var items := count.items + |page.items|;
            var kept := Kept(pages, page, !page.link.NoLink? || page.items != [] || index == 0);
            Read(respond, q, count, suite, index, pages)
            == if items >= total then Written(kept)
               else if index == MAX_PAGES - 1 then Fallback(Exhausted)
               else Read(respond, q.(page := Number(q.page.value + 1)), Count(Some(key), items, Some(total)), suite, index + 1, kept)
  {
    hide Kept, TurnFor, LeadsOn;
    CountedTurn(respond(q).page, key, total, q, count, suite, index);
  }

  /** As many items as so many full pages hold. */
  function Held(pages: nat, size: nat): nat
  {
    pages * size
  }

  lemma OneMore(pages: nat, size: nat)
    requires pages >= 1
    ensures Held(pages, size) == Held(pages - 1, size) + size && Held(0, size) == 0
  {
    assert pages * size == (pages - 1) * size + size;
  }

  /** One fetch, by the places where its page and the next begin. */
  lemma CountedOnce(e: Endpoint, key: string, q: Query, count: Count, suite: bool, left: nat, pages: seq<Page>)
    returns (next: Query, after: Count, kept: seq<Page>)
    requires Honest(e) && CountedLists(e, key, suite) && Numbered(q) && Sized(q) && 1 <= left <= MAX_PAGES
    requires count.items == e.at(q) && (count.key.Some? ==> count.key.value == key) && (count.total.Some? ==> count.total.value == |e.all|)
    ensures Numbered(next) && Sized(next) && next.perPage == q.perPage && e.at(next) == e.at(q) + q.perPage.value
    ensures after == Count(Some(key), e.at(next), Some(|e.all|))
    ensures var outcome := Read(e.respond, q, count, suite, MAX_PAGES - left, pages);
            if |e.all| <= e.at(next) then outcome.Written?
            else if left == 1 then !outcome.Written?
            else outcome == Read(e.respond, next, after, suite, MAX_PAGES - (left - 1), kept)
  {
    hide Honest, CountedLists, Kept, Position, LeadsOn, Read;
    CountedPage(e, key, suite, q);
    var page, index := e.respond(q).page, MAX_PAGES - left;
    CountedStep(e.respond, key, |e.all|, q, count, suite, index, pages);
    assert e.at(q) + |page.items| < |e.all| ==> |page.items| == q.perPage.value;
    next := q.(page := Number(q.page.value + 1));
    after := Count(Some(key), e.at(next), Some(|e.all|));
    kept := Kept(pages, page, !page.link.NoLink? || page.items != [] || index == 0);
  }

  lemma {:induction false} CountedReadFits(e: Endpoint, key: string, q: Query, count: Count, suite: bool, left: nat, pages: seq<Page>)
    requires Honest(e) && CountedLists(e, key, suite) && Numbered(q) && Sized(q) && 1 <= left <= MAX_PAGES
    requires count.items == e.at(q) && (count.key.Some? ==> count.key.value == key) && (count.total.Some? ==> count.total.value == |e.all|)
    ensures Read(e.respond, q, count, suite, MAX_PAGES - left, pages).Written? <==> |e.all| <= e.at(q) + Held(left, q.perPage.value)
    decreases left
  {
    hide Held, Honest, CountedLists, Read;
    var next, after, kept := CountedOnce(e, key, q, count, suite, left, pages);
    OneMore(left, q.perPage.value);
    if |e.all| > e.at(next) && left > 1 {
      CountedReadFits(e, key, next, after, suite, left - 1, kept);
    }
  }

  /** Of lists with their total it succeeds exactly when they end within ten pages: the total tells so, and no
      probe is needed past a last page that is full. */
  lemma CountedReadExactly(e: Endpoint, key: string, request: Query, suite: bool)
    requires Honest(e) && CountedLists(e, key, suite) && Numbered(Prepared(request)) && (suite ==> key == "check_runs")
    ensures var q := Prepared(request);
            Read(e.respond, q, Initial(q, suite), suite, 0, []).Written?
            <==> |e.all| <= (q.page.value - 1) * q.perPage.value + 10 * q.perPage.value
  {
    PreparedIsSized(request);
    CountedReadFits(e, key, Prepared(request), Initial(Prepared(request), suite), suite, 10, []);
  }

  // ------------------------------------------------- what ends a read without pages

  /** What the read comes to at one response, where it does not go on and nothing is written: an error where
      nothing was read, its body where the upstream refused, and the tool's own way of asking where it cannot be
      told whether there is more, or there is too much. */
  lemma EndsWithoutPages(respond: Query -> Response, q: Query, count: Count, suite: bool, index: nat, pages: seq<Page>)
    requires index < 10
    ensures var outcome := Read(respond, q, count, suite, index, pages);
            match respond(q)
            case Unreachable => outcome == Failed
            case Refused(status) => outcome == ErrorBody(status)
            case Success(page) =>
              && (!page.decodable && (suite || (page.link == NoLink && page.json && Numbered(q))) ==> outcome == Failed)
              && (page.decodable && page.link == NoLink && (!page.json || !Numbered(q)) ==> outcome == Fallback(ShapeUnsupported))
              && (page.decodable && page.link == NoLink && page.shape == Opaque ==> outcome == Fallback(ShapeUnsupported))
              && (!suite && page.link.NextPage? ==>
                    && (index == 9 ==> outcome == Fallback(Exhausted))
                    && (index < 9 && (forall next :: !LeadsTo(q, page.link, next)) ==> outcome == Fallback(LinkUnfollowable)))
  {
    if respond(q).Success? && respond(q).page.link.NextPage? {
      var page := respond(q).page;
      forall next ensures Followed(q, page.link.target) == Some(next) <==> LeadsTo(q, page.link, next) {
        FollowedMeans(q, page.link.target, next);
      }
    }
  }
}
