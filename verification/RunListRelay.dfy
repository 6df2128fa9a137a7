/** The part of a relay's state that a restart on the exact request changes (src/relay.ts:1155-1168,
    1208-1220,2217-2228,2344-2352). */
module RunListRelay {
  import opened Basics
  import opened R = RunLists

  /** What one pass of the relay comes to: a page from the cache or from upstream, or another end. */
  datatype Answer = FromCache(runs: seq<Run>) | FromUpstream(runs: seq<Run>) | OtherEnd

  datatype Reply = Reply(runs: seq<Run>, exact: bool) | NoList

  class ActiveRelay {
    const request: Request
    const view: View
    var runListExactFallback: bool
    var cacheKey: Option<string>
    var cacheFill: Option<nat>
    /** Fills that were completed, published or failed. */
    ghost var settled: seq<nat>
    /** How often the relay was restarted. */
    ghost var restarts: nat

    ghost predicate Valid()
      reads this
    {
      && SupersetView(request) == Some(view)
      && (cacheFill.Some? ==> cacheKey.Some?)
      && restarts == (if runListExactFallback then 1 else 0)
    }

    constructor (request: Request, cacheKey: Option<string>)
      requires SupersetView(request).Some?
      ensures Valid() && this.request == request && !runListExactFallback && this.cacheKey == cacheKey && cacheFill == None
      ensures settled == []
    {
      this.request, this.view := request, SupersetView(request).value;
      runListExactFallback, this.cacheKey, cacheFill := false, cacheKey, None;
      settled, restarts := [], 0;
    }

    /** Changing the key settles the fill of the old one. */
    method SwitchRelayCacheKey(key: Option<string>)
      requires cacheFill.Some? ==> cacheKey.Some?
      modifies this`cacheKey, this`cacheFill, this`settled
      ensures cacheKey == key
      ensures if key == old(cacheKey) then cacheFill == old(cacheFill) && settled == old(settled)
              else cacheFill == None
                   && settled == old(settled) + if old(cacheFill).Some? then [old(cacheFill).value] else []
    {
      if cacheKey == key { return; }
      if cacheKey.Some? && cacheFill.Some? {
        settled := settled + [cacheFill.value];
      }
      cacheKey := key;
      cacheFill := None;
    }

    method SwitchToExactRunList(exactKey: Option<string>)
      requires Valid() && !runListExactFallback
      modifies this
      ensures Valid() && runListExactFallback && cacheKey == exactKey
      ensures if exactKey == old(cacheKey) then cacheFill == old(cacheFill) && settled == old(settled)
              else cacheFill == None
                   && settled == old(settled) + if old(cacheFill).Some? then [old(cacheFill).value] else []
    {
      runListExactFallback := true;
      restarts := restarts + 1;
      SwitchRelayCacheKey(exactKey);
    }

    /** The relay, given what the superset request and the exact one come to. A page that is served from
        the superset is not underfilled; if it is, the relay starts again on the exact request. */
    method ExecuteRelay(superset: Answer, exact: Answer, exactKey: Option<string>) returns (reply: Reply)
      requires Valid()
      modifies this
      ensures Valid() && restarts <= 1
      ensures var answer := if runListExactFallback then exact else superset;
              reply == if answer.OtherEnd? then NoList else Reply(Served(answer.runs, view), runListExactFallback)
      ensures runListExactFallback
              <==> old(runListExactFallback) || (!superset.OtherEnd? && Underfilled(superset.runs, view))
      decreases !runListExactFallback
    {
      var answer := if runListExactFallback then exact else superset;
      if answer.OtherEnd? { return NoList; }
      if answer.FromUpstream? && cacheFill.Some? {
        settled := settled + [cacheFill.value];
        cacheFill := None;
      }
      if !runListExactFallback && Underfilled(answer.runs, view) {
        SwitchToExactRunList(exactKey);
        reply := ExecuteRelay(superset, exact, exactKey);
        return;
      }
      return Reply(Served(answer.runs, view), runListExactFallback);
    }
  }

  /** Both answers are those of one fixed list upstream. */
  predicate Honest(r: Request, all: seq<Run>, superset: Answer, exact: Answer)
    requires SupersetView(r).Some?
  {
    var v := SupersetView(r).value;
    && (!superset.OtherEnd? ==> superset.runs == First(all, v.pageSize))
    && (!exact.OtherEnd? ==> exact.runs == First(Filter(all, v), ExactPageSize(r)))
  }

  /** End to end: at most two passes, and the list that comes out is the direct read's. */
  method Relay(r: Request, superset: Answer, exact: Answer, key: Option<string>, exactKey: Option<string>,
               ghost all: seq<Run>) returns (reply: Reply)
    requires SupersetView(r).Some? && AllRecords(all) && Honest(r, all, superset, exact)
    ensures reply.Reply? ==> reply.runs == Served(all, SupersetView(r).value)
    ensures reply.Reply? && reply.exact ==> !superset.OtherEnd? && Underfilled(superset.runs, SupersetView(r).value)
  {
    var relay := new ActiveRelay(r, key);
    reply := relay.ExecuteRelay(superset, exact, exactKey);
    ServedEqualsDirectRead(r, all);
    ExactEqualsDirectRead(r, all);
  }
}
