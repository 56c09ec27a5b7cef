/** The infinite feed list: its cache key, the cursor each page request
    carries, and when paging stops. */
module FeedPaging {
  import opened Wrappers

  /** One element of a query key: a fixed text or the caller's parameters. */
  datatype KeyPart<P> = Literal(text: string) | ParamsPart(params: P)

  const FeedsPath: string := "/api/v1/feeds"
  const InfiniteTag: string := "infinite"

  /** The default key: the feeds path and "infinite", then the parameters
      when given. */
  function DefaultQueryKey<P>(params: Option<P>): (k: seq<KeyPart<P>>)
    ensures |k| == (if params.Some? then 3 else 2)
    ensures k[0] == Literal(FeedsPath) && k[1] == Literal(InfiniteTag)
    ensures params.Some? ==> k[2] == ParamsPart(params.value)
  {
    [Literal(FeedsPath), Literal(InfiniteTag)] + (if params.Some? then [ParamsPart(params.value)] else [])
  }

  /** Different parameters never share a cache entry. */
  lemma DefaultQueryKeyInjective<P>(p: Option<P>, q: Option<P>)
    requires DefaultQueryKey(p) == DefaultQueryKey(q)
    ensures p == q
  {
    if p.Some? && q.Some? {
      assert DefaultQueryKey(p)[2] == DefaultQueryKey(q)[2];
    }
  }

  /** The key in use: a key given in the query options wins. */
  function EffectiveQueryKey<P>(overrideKey: Option<seq<KeyPart<P>>>, params: Option<P>): (k: seq<KeyPart<P>>)
    ensures overrideKey.Some? ==> k == overrideKey.value
    ensures overrideKey.None? ==> k == DefaultQueryKey(params)
  {
    overrideKey.GetOr(DefaultQueryKey(params))
  }

  /** The paging fields of a page's payload. */
  datatype PageData = PageData(hasNext: Option<bool>, nextCursor: Option<int>)

  /** The cursor of the page after `page` (absent when the payload is
      missing): none unless the page says it has a next one. */
  function NextPageParam(page: Option<PageData>): (next: Option<int>)
    ensures (page.None? || page.value.hasNext != Some(true)) ==> next.None?
    ensures page.Some? && page.value.hasNext == Some(true) ==> next == page.value.nextCursor
  {
    if page.None? || page.value.hasNext != Some(true) then None else page.value.nextCursor
  }

  /** The first page is requested without a cursor. */
  const InitialPageParam: Option<int> := None

  /** A page request: the caller's other parameters unchanged, and the page
      parameter as the cursor. */
  datatype FeedListRequest<P> = FeedListRequest(params: Option<P>, cursor: Option<int>)

  function PageRequest<P>(params: Option<P>, pageParam: Option<int>): (r: FeedListRequest<P>)
    ensures r.params == params && r.cursor == pageParam
  {
    FeedListRequest(params, pageParam)
  }

  /** The cursors of the requests made when paging from `start` through the
      given responses, one request per response, until a response has no
      next page. */
  function RequestedCursors(start: Option<int>, responses: seq<Option<PageData>>): (cs: seq<Option<int>>)
    ensures 1 <= |cs| <= |responses| + 1
    ensures cs[0] == start
    ensures forall i :: 0 < i < |cs| ==> cs[i].Some? && cs[i] == NextPageParam(responses[i - 1])
    ensures |cs| <= |responses| ==> NextPageParam(responses[|cs| - 1]).None?
    decreases |responses|
  {
    if |responses| == 0 then [start]
    else
      var next := NextPageParam(responses[0]);
      if next.None? then [start]
      else
        var rest := RequestedCursors(next, responses[1..]);
        [start] + rest
  }

  /** Paging starts without a cursor and ends at the first page that does
      not report a next one. */
  lemma PagingStartsUncursored(params: Option<int>, responses: seq<Option<PageData>>)
    ensures PageRequest(params, RequestedCursors(InitialPageParam, responses)[0]).cursor.None?
  {
  }

  /** Worked example: a page with a next cursor 42, then a last page. */
  lemma PagingExample()
    ensures RequestedCursors(None, [Some(PageData(Some(true), Some(42))), Some(PageData(Some(false), Some(7)))]) == [None, Some(42)]
    ensures RequestedCursors(None, [None]) == [None]
  {
    var rs := [Some(PageData(Some(true), Some(42))), Some(PageData(Some(false), Some(7)))];
    assert rs[1..] == [Some(PageData(Some(false), Some(7)))];
  }
}
