/**
 * `paginate` (both scripts): cursor pagination over the API. The first request carries
 * `per_page` and the query; every later one follows the `paging.next` link of the page
 * before it, with no parameters. The two scripts differ only in the page size (50 and 100);
 * the folder script's `while next_url` guard never fails, because every url it assigns is
 * non-empty, so both run the same loop.
 *
 * The server is the sequence `pages` of outcomes of the successive `api_get` calls. When a
 * next link is pending and `pages` has no further outcome, the listing ends `Unfinished`:
 * a bound of the model, not something the scripts do.
 */
module Pagination {
  import opened Wrappers
  import opened Text
  import opened Api

  const ApiBase := "https://api.vimeo.com"
  const BulkPageSize := "50"
  const FolderPageSize := "100"

  /** One `api_get(url, headers, params)` call; `params` is None after the first page. */
  datatype Request = Request(url: string, params: Option<map<string, string>>)

  /** A decoded page: its `data` items and its `paging.next` link. */
  datatype Page<T> = Page(data: seq<T>, next: Option<string>)

  datatype End = Exhausted | Raised(error: ApiError) | Unfinished

  /** Everything the generator yielded, the requests it made, and how it stopped. */
  datatype Listing<T> = Listing(items: seq<T>, requests: seq<Request>, end: End)

  /** `dict(per_page=...)` updated with the query: a query key overrides `per_page`. */
  function FirstParams(pageSize: string, query: map<string, string>): (p: map<string, string>)
    ensures p.Keys == query.Keys + {"per_page"}
    ensures forall k :: k in query ==> p[k] == query[k]
    ensures "per_page" !in query ==> p["per_page"] == pageSize
  {
    map["per_page" := pageSize] + query
  }

  /** `paging.next` is falsy: absent, null or empty. */
  predicate LastPage<T>(p: Page<T>) {
    p.next.None? || p.next.value == []
  }

  /** The url of the next request: the link itself when absolute, else appended to the API base. */
  function FollowLink(next: string): (r: string)
    ensures StartsWith(r, "http")
    ensures r == next || r == ApiBase + next
  {
    if StartsWith(next, "http") then next
    else
      assert (ApiBase + next)[..4] == "http";
      ApiBase + next
  }

  /** The listing from request `k` on, whose request is `req`. */
  function PagesFrom<T>(pages: seq<Result<Page<T>, ApiError>>, k: nat, req: Request): Listing<T>
    decreases |pages| - k
  {
    if k >= |pages| then Listing([], [], Unfinished)
    else
      match pages[k]
      case Failure(e) => Listing([], [req], Raised(e))
      case Success(p) =>
        if LastPage(p) then Listing(p.data, [req], Exhausted)
        else
          var rest := PagesFrom(pages, k + 1, Request(FollowLink(p.next.value), None));
          Listing(p.data + rest.items, [req] + rest.requests, rest.end)
  }

  function PaginateSpec<T>(pages: seq<Result<Page<T>, ApiError>>, url: string, pageSize: string, query: map<string, string>): Listing<T> {
    PagesFrom(pages, 0, Request(url, Some(FirstParams(pageSize, query))))
  }

  method Paginate<T>(pages: seq<Result<Page<T>, ApiError>>, url: string, pageSize: string, query: map<string, string>)
    returns (listing: Listing<T>)
    ensures listing == PaginateSpec(pages, url, pageSize, query)
  {
    var items: seq<T> := [];
    var requests: seq<Request> := [];
    var req := Request(url, Some(FirstParams(pageSize, query)));
    var k := 0;
    while true
      invariant 0 <= k <= |pages|
      invariant var rest := PagesFrom(pages, k, req);
        Listing(items + rest.items, requests + rest.requests, rest.end) == PaginateSpec(pages, url, pageSize, query)
      decreases |pages| - k
    {
      if k == |pages| {
        assert items + [] == items && requests + [] == requests;
        return Listing(items, requests, Unfinished);
      }
      requests := requests + [req];
      match pages[k] {
        case Failure(e) =>
          assert items + [] == items;
          return Listing(items, requests, Raised(e));
        case Success(p) =>
          ghost var before := items;
          items := items + p.data;
          if LastPage(p) {
            return Listing(items, requests, Exhausted);
          }
          ghost var rest := PagesFrom(pages, k + 1, Request(FollowLink(p.next.value), None));
          assert before + (p.data + rest.items) == items + rest.items;
          req := Request(FollowLink(p.next.value), None);
          k := k + 1;
      }
    }
  }

  /** The `data` of the successful pages among outcomes lo..hi-1, in order. */
  ghost function DataOf<T>(pages: seq<Result<Page<T>, ApiError>>, lo: nat, hi: nat): seq<T>
    requires lo <= hi <= |pages|
    decreases hi - lo
  {
    if lo == hi then []
    else (if pages[lo].Success? then pages[lo].value.data else []) + DataOf(pages, lo + 1, hi)
  }

  /** The generator yields exactly the items of the pages it fetched, in page order. */
  lemma {:induction false} PagesFromItems<T>(pages: seq<Result<Page<T>, ApiError>>, k: nat, req: Request)
    requires k <= |pages|
    ensures var l := PagesFrom(pages, k, req);
      && k + |l.requests| <= |pages|
      && (l.requests == [] <==> k == |pages|)
      && l.items == DataOf(pages, k, k + |l.requests|)
    decreases |pages| - k
  {
    if k < |pages| && pages[k].Success? && !LastPage(pages[k].value) {
      PagesFromItems(pages, k + 1, Request(FollowLink(pages[k].value.next.value), None));
    }
  }

  /** Request `r` follows outcome `j`: a page with a next link, whose link `r` fetches. */
  predicate Follows<T>(pages: seq<Result<Page<T>, ApiError>>, j: int, r: Request) {
    0 <= j < |pages| && pages[j].Success? && !LastPage(pages[j].value)
    && r.url == FollowLink(pages[j].value.next.value) && r.params.None?
  }

  /**
   * The first request is the given one; every later one carries no parameters and fetches
   * the next link of the page before it, made absolute.
   */
  lemma {:induction false} PagesFromRequests<T>(pages: seq<Result<Page<T>, ApiError>>, k: nat, req: Request)
    requires k <= |pages|
    ensures var l := PagesFrom(pages, k, req);
      && (l.requests != [] ==> l.requests[0] == req)
      && (forall i :: 0 < i < |l.requests| ==> Follows(pages, k + i - 1, l.requests[i]))
    decreases |pages| - k
  {
    if k < |pages| && pages[k].Success? && !LastPage(pages[k].value) {
      var next := Request(FollowLink(pages[k].value.next.value), None);
      PagesFromRequests(pages, k + 1, next);
      var rest := PagesFrom(pages, k + 1, next);
      var l := PagesFrom(pages, k, req);
      assert l.requests == [req] + rest.requests;
      FollowsShift(pages, k, req, rest.requests);
    }
  }

  /** Putting a request in front of requests that follow the pages from `k` on. */
  lemma FollowsShift<T>(pages: seq<Result<Page<T>, ApiError>>, k: nat, req: Request, rest: seq<Request>)
    requires rest != [] ==> Follows(pages, k, rest[0])
    requires forall i :: 0 < i < |rest| ==> Follows(pages, k + 1 + i - 1, rest[i])
    ensures forall i :: 0 < i < |[req] + rest| ==> Follows(pages, k + i - 1, ([req] + rest)[i])
  {
    forall i | 0 < i < |[req] + rest| ensures Follows(pages, k + i - 1, ([req] + rest)[i]) {
      assert ([req] + rest)[i] == rest[i - 1];
      if i > 1 {
        assert Follows(pages, k + 1 + (i - 1) - 1, rest[i - 1]);
      }
    }
  }

  /** It stops exactly at a page without a next link, at an error, or at the end of the model's pages. */
  lemma {:induction false} PagesFromEnd<T>(pages: seq<Result<Page<T>, ApiError>>, k: nat, req: Request)
    requires k <= |pages|
    ensures var l := PagesFrom(pages, k, req);
      var n := k + |l.requests|;
      && n <= |pages|
      && (l.end == Exhausted <==> l.requests != [] && pages[n - 1].Success? && LastPage(pages[n - 1].value))
      && (l.end.Raised? <==> l.requests != [] && pages[n - 1].Failure?)
      && (l.end.Raised? ==> l.end.error == pages[n - 1].error)
      && (l.end == Unfinished <==> n == |pages| && (l.requests == [] || (pages[n - 1].Success? && !LastPage(pages[n - 1].value))))
    decreases |pages| - k
  {
    if k < |pages| && pages[k].Success? && !LastPage(pages[k].value) {
      PagesFromEnd(pages, k + 1, Request(FollowLink(pages[k].value.next.value), None));
    }
  }

  /** An API-relative next link and its absolute form lead to the same request. */
  lemma RelativeAndAbsoluteAgree(path: string)
    requires path != [] && path[0] == '/'
    ensures FollowLink(path) == FollowLink(ApiBase + path) == ApiBase + path
  {
    assert (ApiBase + path)[..4] == "http";
    assert !StartsWith(path, "http") by {
      if |path| >= 4 {
        assert path[..4][0] == '/';
      }
    }
  }
}
