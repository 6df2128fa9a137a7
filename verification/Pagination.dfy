/** Paginated reads of the CLI (cmd/octopool/gh_api_pagination.go:21-147,247-331). */
module Pagination {
  import opened Basics

  const PAGE_SIZE := 100
  const MAX_PAGES := 10

  /** An element of the collection. */
  type Item = string

  /** A query parameter that holds a positive integer, another value, or nothing. */
  datatype Parameter = Absent | Invalid | Number(value: nat)

  datatype Query = Query(perPage: Parameter, page: Parameter, rest: string)

  predicate Positive(p: Parameter)
  {
    p.Number? && p.value > 0
  }

  /** Both parameters are usable, so that pages can be counted. */
  predicate Numbered(q: Query)
  {
    Positive(q.perPage) && Positive(q.page)
  }

  /** A `next` link: a request on the same path, or one that is elsewhere but names a page, or neither. */
  datatype Target = SamePath(query: Query) | OnlyPage(page: nat) | Unfollowable

  datatype Link = NoLink | LastPage | NextPage(target: Target)

  /** What a body lets the reader infer: a plain array, a list with its total, or nothing. */
  datatype Shape = Plain | Counted(key: string, total: nat) | Opaque

  datatype Page = Page(items: seq<Item>, shape: Shape, link: Link, json: bool, decodable: bool)

  datatype Response = Unreachable | Refused(status: nat) | Success(page: Page)

  datatype Reason = ShapeUnsupported | Incomplete | Exhausted | LinkUnfollowable

  /** Either all pages are written at once, or an error body, or none of them. */
  datatype Outcome = Written(pages: seq<Page>) | ErrorBody(status: nat) | Fallback(reason: Reason) | Failed

  datatype Count = Count(key: Option<string>, items: nat, total: Option<nat>)

  /** `relayPageHasNext`: whether pages remain, and the count after this one; None if it cannot tell. */
  function HasNext(page: Page, perPage: nat, count: Count): Option<(bool, Count)>
  {
    if !page.decodable then None
    else match page.shape
         case Opaque => None
         case Plain => if count.key.Some? then None else Some((|page.items| == perPage, count))
         case Counted(key, total) =>
           var items := count.items + |page.items|;
           if (count.total.Some? && count.total.value != total) || (count.key.Some? && count.key.value != key) then None
           else if (page.items != [] && items > total) || (page.items == [] && items < total) then None
           else Some((items < total && page.items != [], Count(Some(key), items, Some(total))))
  }

  /** The request that a link leads to. */
  function Followed(q: Query, target: Target): Option<Query>
  {
    match target
    case SamePath(query) => Some(query)
    case OnlyPage(page) => if page > 0 then Some(q.(page := Number(page))) else None
    case Unfollowable => None
  }

  /** How the loop goes on after a response. */
  datatype Turn = Stop(outcome: Outcome) | Last(emit: bool) | Next(query: Query, count: Count, emit: bool)

  function Linked(page: Page, q: Query, count: Count, index: nat): Turn
    requires !page.link.NoLink?
  {
    if page.link.LastPage? then Last(true)
    else if index == MAX_PAGES - 1 then Stop(Fallback(Exhausted))
    else match Followed(q, page.link.target)
         case Some(next) => Next(next, count, true)
         case None => Stop(Fallback(LinkUnfollowable))
  }

  function Unlinked(page: Page, q: Query, more: bool, count: Count, index: nat): Turn
    requires Numbered(q)
  {
    var emit := page.items != [] || index == 0;
    if !more then Last(emit)
    else if index == MAX_PAGES - 1 then Stop(Fallback(Exhausted))
    else Next(q.(page := Number(q.page.value + 1)), count, emit)
  }

  function TurnFor(page: Page, q: Query, count: Count, suite: bool, index: nat): Turn
  {
    if suite then
      if !page.decodable then Stop(Failed)
      else if !Numbered(q) then Stop(Fallback(ShapeUnsupported))
      else match HasNext(page, q.perPage.value, count)
           case None => Stop(Fallback(ShapeUnsupported))
           case Some((more, after)) =>
             if !page.link.NoLink? then
               if more != page.link.NextPage? then Stop(Fallback(Incomplete)) else Linked(page, q, after, index)
             else if !page.json then Stop(Fallback(ShapeUnsupported))
             else Unlinked(page, q, more, after, index)
    else if !page.link.NoLink? then Linked(page, q, count, index)
    else if !page.json || !Numbered(q) then Stop(Fallback(ShapeUnsupported))
    else if !page.decodable then Stop(Failed)
    else match HasNext(page, q.perPage.value, count)
         case None => Stop(Fallback(ShapeUnsupported))
         case Some((more, after)) => Unlinked(page, q, more, after, index)
  }

  function Kept(pages: seq<Page>, page: Page, emit: bool): seq<Page>
  {
    if emit then pages + [page] else pages
  }

  /** The read from its `index`-th fetch on. */
  function Read(respond: Query -> Response, q: Query, count: Count, suite: bool, index: nat, pages: seq<Page>): Outcome
    requires index <= MAX_PAGES
    decreases MAX_PAGES - index
  {
    if index == MAX_PAGES then Fallback(Exhausted)
    else match respond(q)
         case Unreachable => Failed
         case Refused(status) => ErrorBody(status)
         case Success(page) =>
           match TurnFor(page, q, count, suite, index)
           case Stop(outcome) => outcome
           case Last(emit) => Written(Kept(pages, page, emit))
           case Next(next, after, emit) => Read(respond, next, after, suite, index + 1, Kept(pages, page, emit))
  }

  /** `prepareGHAPIPagination` */
  function Prepared(q: Query): Query
  {
    Query(if q.perPage.Absent? || (Positive(q.perPage) && q.perPage.value > PAGE_SIZE) then Number(PAGE_SIZE) else q.perPage,
          if q.page.Absent? then Number(1) else q.page,
          q.rest)
  }

  /** Totals cover the whole collection, so the items before the first page count as read. */
  function Initial(q: Query, suite: bool): Count
  {
    Count(if suite then Some("check_runs") else None,
          if Numbered(q) then (q.page.value - 1) * q.perPage.value else 0,
          None)
  }

  method RelayPaginatedGHAPI(respond: Query -> Response, request: Query, suite: bool) returns (outcome: Outcome, fetches: nat)
    ensures outcome == Read(respond, Prepared(request), Initial(Prepared(request), suite), suite, 0, [])
    ensures fetches <= MAX_PAGES
  {
    var q := Prepared(request);
    var count := Initial(q, suite);
    ghost var first := count;
    var pages: seq<Page> := [];
    fetches := 0;
    for index := 0 to MAX_PAGES
      invariant fetches == index
      invariant Read(respond, Prepared(request), first, suite, 0, []) == Read(respond, q, count, suite, index, pages)
    {
      var response := respond(q);
      fetches := fetches + 1;
      if response.Unreachable? { return Failed, fetches; }
      if response.Refused? { return ErrorBody(response.status), fetches; }
      var page := response.page;
      var more := false;
      if suite {
        if !page.decodable { return Failed, fetches; }
        if !Numbered(q) { return Fallback(ShapeUnsupported), fetches; }
        var inferred := HasNext(page, q.perPage.value, count);
        if inferred == None { return Fallback(ShapeUnsupported), fetches; }
        more, count := inferred.value.0, inferred.value.1;
      }
      if !page.link.NoLink? {
        if suite && more != page.link.NextPage? { return Fallback(Incomplete), fetches; }
        pages := pages + [page];
        if page.link.LastPage? { return Written(pages), fetches; }
        if index == MAX_PAGES - 1 { return Fallback(Exhausted), fetches; }
        var next := Followed(q, page.link.target);
        if next == None { return Fallback(LinkUnfollowable), fetches; }
        q := next.value;
      } else {
        if !page.json || !Numbered(q) { return Fallback(ShapeUnsupported), fetches; }
        if !page.decodable { return Failed, fetches; }
        if !suite {
          var inferred := HasNext(page, q.perPage.value, count);
          if inferred == None { return Fallback(ShapeUnsupported), fetches; }
          more, count := inferred.value.0, inferred.value.1;
        }
        if page.items != [] || index == 0 { pages := pages + [page]; }
        if !more { return Written(pages), fetches; }
        if index == MAX_PAGES - 1 { return Fallback(Exhausted), fetches; }
        q := q.(page := Number(q.page.value + 1));
      }
    }
    return Fallback(Exhausted), fetches;
  }

  // ------------------------------------------------- a fixed collection upstream

  /** A collection, how it answers, and the position that each request starts at. `dense`: pages are
      of equal size, as those of lists with a total are. */
  datatype Endpoint = Endpoint(all: seq<Item>, respond: Query -> Response, at: Query -> nat, dense: bool)

  function Position(e: Endpoint, q: Query): (p: nat)
    ensures p <= |e.all|
  {
    Min(e.at(q), |e.all|)
  }

  predicate Sized(q: Query)
  {
    Numbered(q) ==> q.perPage.value <= PAGE_SIZE
  }

  /** A page holds the items from its position; without links it is full unless it is the last. */
  predicate HonestPage(e: Endpoint, q: Query, page: Page)
  {
    var from := Position(e, q);
    && from + |page.items| <= |e.all| && page.items == e.all[from..from + |page.items|]
    && (page.shape.Counted? ==> page.shape.total == |e.all| && e.dense)
    && match page.link
       case NoLink =>
         Numbered(q) && Sized(q) ==>
           && |page.items| == Min(q.perPage.value, |e.all| - from)
           && Position(e, q.(page := Number(q.page.value + 1))) == from + |page.items|
       case LastPage => from + |page.items| == |e.all|
       case NextPage(target) =>
         Followed(q, target).Some? ==>
           Sized(Followed(q, target).value) && Position(e, Followed(q, target).value) == from + |page.items|
  }

  ghost predicate Honest(e: Endpoint)
  {
    && (forall q: Query :: e.respond(q).Success? ==> HonestPage(e, q, e.respond(q).page))
    && (e.dense ==> forall q: Query :: Numbered(q) && Sized(q) ==> e.at(q) == (q.page.value - 1) * q.perPage.value)
  }

  function Items(pages: seq<Page>): seq<Item>
  {
    if pages == [] then [] else Items(pages[..|pages| - 1]) + pages[|pages| - 1].items
  }

  /** No more items are counted than lie before the position. */
  predicate CountBelow(e: Endpoint, count: Count, q: Query)
  {
    e.dense ==> Min(count.items, |e.all|) <= Position(e, q)
  }

  lemma ItemsKept(pages: seq<Page>, page: Page, emit: bool)
    requires emit || page.items == []
    ensures Items(Kept(pages, page, emit)) == Items(pages) + page.items
  {
    if emit { assert (pages + [page])[..|pages|] == pages; }
  }

  /** If the page is the last, it ends the collection; if not, the next request starts where it ends. */
  lemma TurnIsSound(e: Endpoint, q: Query, count: Count, suite: bool, index: nat)
    requires Honest(e) && e.respond(q).Success? && Sized(q) && CountBelow(e, count, q)
    ensures var page := e.respond(q).page;
            var end := Position(e, q) + |page.items|;
            match TurnFor(page, q, count, suite, index)
            case Stop(outcome) => !outcome.Written?
            case Last(emit) => end == |e.all| && (emit || page.items == [])
            case Next(next, after, emit) =>
              Position(e, next) == end && Sized(next) && CountBelow(e, after, next) && (emit || page.items == [])
  {
    assert HonestPage(e, q, e.respond(q).page);
  }

  lemma PageAt(e: Endpoint, q: Query)
    requires Honest(e) && e.respond(q).Success?
    ensures var items := e.respond(q).page.items;
            Position(e, q) + |items| <= |e.all| && items == e.all[Position(e, q)..Position(e, q) + |items|]
  {
    assert HonestPage(e, q, e.respond(q).page);
  }

  lemma {:induction false} ReadIsComplete(e: Endpoint, first: nat, q: Query, count: Count, suite: bool, index: nat, pages: seq<Page>)
    requires Honest(e) && Sized(q) && CountBelow(e, count, q) && index <= MAX_PAGES
    requires first <= Position(e, q) && Items(pages) == e.all[first..Position(e, q)]
    ensures var outcome := Read(e.respond, q, count, suite, index, pages);
            outcome.Written? ==> Items(outcome.pages) == e.all[first..]
    decreases MAX_PAGES - index
  {
    hide TurnFor, Honest, CountBelow, Items, Sized;
    if index < MAX_PAGES && e.respond(q).Success? {
      var page := e.respond(q).page;
      TurnIsSound(e, q, count, suite, index);
      match TurnFor(page, q, count, suite, index)
      case Stop(_) =>
      case Last(emit) =>
        ItemsKept(pages, page, emit);
        PageAt(e, q);
      case Next(next, after, emit) =>
        ItemsKept(pages, page, emit);
        PageAt(e, q);
        assert e.all[first..Position(e, next)] == e.all[first..Position(e, q)] + page.items;
        ReadIsComplete(e, first, next, after, suite, index + 1, Kept(pages, page, emit));
    }
  }

  lemma PreparedIsSized(q: Query)
    ensures Sized(Prepared(q))
  {
  }

  /** Against a fixed collection, a read that succeeds writes exactly the items from the caller's start
      page to the end, in order and once each: with links, without, or with some of each, from any
      start page, for plain lists and for lists with a total, check suites included. */
  lemma SuccessIsComplete(e: Endpoint, request: Query, suite: bool)
    requires Honest(e)
    ensures var q := Prepared(request);
            var outcome := Read(e.respond, q, Initial(q, suite), suite, 0, []);
            outcome.Written? ==> Items(outcome.pages) == e.all[Position(e, q)..]
  {
    var q := Prepared(request);
    PreparedIsSized(request);
    assert Numbered(q) && e.dense ==> e.at(q) == (q.page.value - 1) * q.perPage.value;
    ReadIsComplete(e, Position(e, q), q, Initial(q, suite), suite, 0, []);
  }

  /** What the caller leaves out is filled in: pages of a hundred, from the first. A larger page size is cut to a
      hundred; anything else goes upstream as it was given. */
  lemma PreparedMeans(q: Query)
    ensures var p := Prepared(q);
            && p.rest == q.rest
            && p.page == (if q.page == Absent then Number(1) else q.page)
            && (q.perPage == Absent || (q.perPage.Number? && q.perPage.value > 100) ==> p.perPage == Number(100))
            && (q.perPage == Invalid || (q.perPage.Number? && q.perPage.value <= 100) ==> p.perPage == q.perPage)
  {
  }

  /** A read that names no page, and succeeds, writes the whole collection. */
  lemma UnnumberedIsWhole(e: Endpoint, request: Query, suite: bool)
    requires Honest(e) && request.page == Absent
    requires forall q: Query :: q.page == Number(1) ==> e.at(q) == 0
    ensures var q := Prepared(request);
            var outcome := Read(e.respond, q, Initial(q, suite), suite, 0, []);
            outcome.Written? ==> Items(outcome.pages) == e.all
  {
    SuccessIsComplete(e, request, suite);
    assert e.all[0..] == e.all;
  }

  /** An endpoint that only ever gives plain arrays, without links. */
  ghost predicate PlainLists(e: Endpoint)
  {
    forall q: Query :: e.respond(q).Success? && e.respond(q).page.shape == Plain && e.respond(q).page.link == NoLink
                       && e.respond(q).page.json && e.respond(q).page.decodable
  }

  lemma Fits(size: nat, pages: nat, items: nat)
    requires items < size && pages >= 1
    ensures items < pages * size
  {
  }

  lemma {:induction false} ReadFits(e: Endpoint, q: Query, count: Count, index: nat, pages: seq<Page>)
    requires Honest(e) && PlainLists(e) && Numbered(q) && Sized(q) && index <= MAX_PAGES && count.key.None?
    ensures Read(e.respond, q, count, false, index, pages).Written?
            <==> |e.all| - Position(e, q) < (MAX_PAGES - index) * q.perPage.value
    decreases MAX_PAGES - index
  {
    if index < MAX_PAGES {
      var page := e.respond(q).page;
      assert HonestPage(e, q, page);
      var next := q.(page := Number(q.page.value + 1));
      if |page.items| == q.perPage.value && index < MAX_PAGES - 1 {
        ReadFits(e, next, count, index + 1, Kept(pages, page, page.items != [] || index == 0));
        assert (MAX_PAGES - index) * q.perPage.value == (MAX_PAGES - index - 1) * q.perPage.value + q.perPage.value;
      } else if |page.items| < q.perPage.value {
        Fits(q.perPage.value, MAX_PAGES - index, |page.items|);
      }
    }
  }

  /** Of plain lists without links it succeeds exactly when the items end within the ten pages, a page
      that is cut short by the end included. */
  lemma SucceedsExactlyWhenItFits(e: Endpoint, request: Query)
    requires Honest(e) && PlainLists(e) && Numbered(Prepared(request))
    ensures var q := Prepared(request);
            Read(e.respond, q, Initial(q, false), false, 0, []).Written?
            <==> |e.all| - Position(e, q) < MAX_PAGES * q.perPage.value
  {
    PreparedIsSized(request);
    ReadFits(e, Prepared(request), Initial(Prepared(request), false), 0, []);
  }
}
