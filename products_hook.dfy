/**
 * The `useProducts` hook (`src/hooks/useProducts.ts`): five state cells and
 * the effect that, whenever its dependencies change, aborts the previous
 * request and starts a new one.
 *
 * Every run of the effect is one request, recorded with the arguments it was
 * started with, whether its `AbortController` has been aborted and whether
 * its `fetchProducts` call has finished. Completions are method calls that
 * may come in any order.
 */
module ProductsHook {
  import opened Wrappers
  import Catalog

  /** `PaginationInfo`. */
  datatype PaginationInfo = PaginationInfo(page: int, totalPages: int, totalItems: int, limit: int)

  /** `emptyPagination`. */
  const EmptyPagination := PaginationInfo(1, 1, 0, 10)

  const DefaultLimit := 10

  /** The arguments of `useProducts`, with the defaults of `limit` and `refreshKey` applied. */
  datatype HookParams = HookParams(
    query: string,
    category: string,
    sort: Catalog.SortKey,
    page: int,
    limit: int,
    refreshKey: int)

  /** `limit = DEFAULT_LIMIT` and `refreshKey = 0` when the caller leaves them out. */
  function WithDefaults(query: string, category: string, sort: Catalog.SortKey, page: int,
                        limit: Option<int>, refreshKey: Option<int>): (p: HookParams)
    ensures p.limit == (if limit.Some? then limit.value else DefaultLimit)
    ensures p.refreshKey == (if refreshKey.Some? then refreshKey.value else 0)
    ensures p.query == query && p.category == category && p.sort == sort && p.page == page
  {
    HookParams(query, category, sort, page, limit.GetOr(DefaultLimit), refreshKey.GetOr(0))
  }

  /** The query string of `GET /products` that the request sends, as the service decodes it. */
  function RequestQuery(p: HookParams): Catalog.ProductsQuery
  {
    Catalog.ProductsQuery(Some(p.query), Some(p.category), Some(Catalog.SortKeyName(p.sort)),
                          Some(p.page), Some(p.limit))
  }

  /** The body of an ok response (`ProductsResponse`); `categories` may be missing. */
  datatype Payload = Payload(
    items: seq<Catalog.Product>,
    page: int,
    limit: int,
    totalPages: int,
    totalItems: int,
    categories: Option<seq<string>>)

  /** A value thrown by `fetch` or `response.json()`. */
  datatype Thrown =
    | AbortError              // DOMException named 'AbortError'
    | ErrorValue(message: string)  // any other Error, DOMException included
    | NonErrorValue           // a thrown value that is not an Error

  /** How the request's `fetch` and `response.json()` end. */
  datatype FetchOutcome =
    | Delivered(body: Payload)   // ok response, body decoded
    | NotOk                      // response.ok is false
    | Rejected(reason: Thrown)   // fetch or response.json() rejected

  /** One run of the effect. */
  datatype Request = Request(params: HookParams, aborted: bool, settled: bool)

  const UnableToLoad := "Unable to load products"
  const UnknownError := "Unknown error"

  /**
   * The outcome the hook's code sees: the fetch of an aborted request rejects
   * with an AbortError, whatever the network would have delivered.
   */
  function Observed(aborted: bool, outcome: FetchOutcome): (o: FetchOutcome)
    ensures aborted ==> o == Rejected(AbortError)
    ensures !aborted ==> o == outcome
  {
    if aborted then Rejected(AbortError) else outcome
  }

  /**
   * The message the `catch` block stores in `error`, or `None` when it returns
   * early for an AbortError; a successful outcome has no message.
   */
  function FailureMessage(o: FetchOutcome): (m: Option<string>)
    ensures o.Delivered? || o == Rejected(AbortError) <==> m.None?
    ensures o.NotOk? ==> m == Some(UnableToLoad)
    ensures o.Rejected? && o.reason.ErrorValue? ==> m == Some(o.reason.message)
    ensures o == Rejected(NonErrorValue) ==> m == Some(UnknownError)
  {
    match o
    case Delivered(_) => None
    case NotOk => Some(UnableToLoad)
    case Rejected(AbortError) => None
    case Rejected(ErrorValue(msg)) => Some(msg)
    case Rejected(NonErrorValue) => Some(UnknownError)
  }

  /** The pagination the success branch stores. */
  function PaginationOf(d: Payload): PaginationInfo
  {
    PaginationInfo(d.page, d.totalPages, d.totalItems, d.limit)
  }

  /** The body the mock service sends for a `GET /products` response. */
  function PayloadOf(r: Catalog.ProductsResponse): Payload
  {
    Payload(r.items, r.page, r.limit, r.totalPages, r.totalItems, Some(r.categories))
  }

  /** The cleanup of the last effect run: its controller is aborted. */
  function AbortLast(rs: seq<Request>): (r: seq<Request>)
    ensures |r| == |rs|
    ensures rs != [] ==> r[|r| - 1] == rs[|rs| - 1].(aborted := true)
    ensures forall i :: 0 <= i < |rs| - 1 ==> r[i] == rs[i]
  {
    if rs == [] then [] else rs[..|rs| - 1] + [rs[|rs| - 1].(aborted := true)]
  }

  /**
   * The requests after a render with arguments `p` when the last effect ran
   * with `deps`: unchanged dependencies run nothing; changed ones abort the
   * last request and start a new one.
   */
  function AfterRender(rs: seq<Request>, deps: Option<HookParams>, p: HookParams): (r: seq<Request>)
    ensures deps == Some(p) ==> r == rs
    ensures deps != Some(p) ==> && |r| == |rs| + 1 && r[|rs|] == Request(p, false, false)
                                && r[..|rs|] == AbortLast(rs)
  {
    if deps == Some(p) then rs else AbortLast(rs) + [Request(p, false, false)]
  }

  class UseProducts {
    var products: seq<Catalog.Product>
    var loading: bool
    var error: Option<string>
    var pagination: PaginationInfo
    var categories: seq<string>

    /** The dependencies of the last effect run; `None` before the first render. */
    var deps: Option<HookParams>
    /** Every effect run so far, oldest first. */
    var requests: seq<Request>

    /**
     * Only the latest request can still be live: every earlier one was aborted
     * by the cleanup that preceded the next run, and the latest was started
     * with the current dependencies.
     */
    ghost predicate Valid()
      reads this
    {
      && (deps.None? <==> requests == [])
      && (deps.Some? ==> requests[|requests| - 1].params == deps.value)
      && (forall i :: 0 <= i < |requests| - 1 ==> requests[i].aborted)
    }

    /** `loading` is set exactly while the latest request has not finished. */
    ghost predicate LoadingTracksLatest()
      reads this
    {
      loading <==> (requests != [] && !requests[|requests| - 1].settled)
    }

    /** The `useState` initial values. */
    constructor ()
      ensures Valid() && LoadingTracksLatest()
      ensures products == [] && !loading && error == None
      ensures pagination == EmptyPagination && categories == []
      ensures deps == None && requests == []
    {
      products := [];
      loading := false;
      error := None;
      pagination := EmptyPagination;
      categories := [];
      deps := None;
      requests := [];
    }

    /**
     * A render with arguments `p`. When a dependency changed, React runs the
     * previous effect's cleanup (aborting its request) and then the effect,
     * which starts a new request and synchronously sets `loading` and clears
     * `error`; otherwise nothing happens.
     */
    method Render(p: HookParams) returns (started: bool)
      requires Valid()
      modifies this
      ensures Valid()
      ensures old(LoadingTracksLatest()) ==> LoadingTracksLatest()
      ensures started <==> old(deps) != Some(p)
      ensures requests == AfterRender(old(requests), old(deps), p) && deps == Some(p)
      ensures started ==> loading && error == None
      ensures !started ==> loading == old(loading) && error == old(error)
      ensures products == old(products) && pagination == old(pagination)
      ensures categories == old(categories)
    {
      started := deps != Some(p);
      if started {
        requests := AbortLast(requests) + [Request(p, false, false)];
        deps := Some(p);
        loading := true;
        error := None;
      }
    }

    /** The cleanup on unmount: the last request's controller is aborted. Safe to repeat. */
    method Unmount()
      requires Valid()
      modifies this
      ensures Valid()
      ensures old(LoadingTracksLatest()) ==> LoadingTracksLatest()
      ensures requests == AbortLast(old(requests))
      ensures deps == old(deps) && products == old(products) && loading == old(loading)
      ensures error == old(error) && pagination == old(pagination) && categories == old(categories)
    {
      requests := AbortLast(requests);
    }

    /**
     * The `try`/`catch` part of request `r`'s completion: success stores the
     * items, the pagination and the categories (`[]` when missing); a failure
     * stores its message and resets the other cells; an AbortError changes
     * nothing.
     */
    method Apply(r: nat, outcome: FetchOutcome)
      requires Valid() && r < |requests|
      modifies this
      ensures Valid()
      ensures requests == old(requests) && deps == old(deps) && loading == old(loading)
      ensures var o := Observed(old(requests[r].aborted), outcome);
        && (o.Delivered? ==>
              && products == o.body.items && pagination == PaginationOf(o.body)
              && categories == o.body.categories.GetOr([]) && error == old(error))
        && (FailureMessage(o).Some? ==>
              && error == FailureMessage(o) && products == [] && categories == []
              && pagination == EmptyPagination)
        && (o == Rejected(AbortError) ==>
              && products == old(products) && pagination == old(pagination)
              && categories == old(categories) && error == old(error))
    {
      var o := Observed(requests[r].aborted, outcome);
      match o {
        case Delivered(d) =>
          products := d.items;
          pagination := PaginationOf(d);
          categories := d.categories.GetOr([]);
        case _ =>
          var message := FailureMessage(o);
          if message.Some? {
            error := message;
            products := [];
            categories := [];
            pagination := EmptyPagination;
          }
      }
    }

    /**
     * Request `r` finishes with `outcome`: the `try`/`catch` part, then the
     * `finally` block, which clears `loading` on every path.
     */
    method Settle(r: nat, outcome: FetchOutcome)
      requires Valid() && r < |requests| && !requests[r].settled
      modifies this
      ensures Valid()
      ensures !loading
      ensures requests == old(requests)[r := old(requests[r]).(settled := true)]
      ensures deps == old(deps)
      ensures r < |requests| - 1 ==> && products == old(products) && pagination == old(pagination)
                                     && categories == old(categories) && error == old(error)
      ensures var o := Observed(old(requests[r].aborted), outcome);
        && (o.Delivered? ==>
              && products == o.body.items && pagination == PaginationOf(o.body)
              && categories == o.body.categories.GetOr([]) && error == old(error))
        && (FailureMessage(o).Some? ==>
              && error == FailureMessage(o) && products == [] && categories == []
              && pagination == EmptyPagination)
        && (o == Rejected(AbortError) ==>
              && products == old(products) && pagination == old(pagination)
              && categories == old(categories) && error == old(error))
    {
      Apply(r, outcome);
      loading := false;
      requests := requests[r := requests[r].(settled := true)];
    }

    /**
     * Request `r` finishes with `outcome`, with `loading` cleared only when
     * `r` is still the latest request: a superseded request leaves it to the
     * one that replaced it.
     */
    method SettleLatest(r: nat, outcome: FetchOutcome)
      requires Valid() && r < |requests| && !requests[r].settled
      modifies this
      ensures Valid()
      ensures old(LoadingTracksLatest()) ==> LoadingTracksLatest()
      ensures loading == (old(loading) && r < |requests| - 1)
      ensures requests == old(requests)[r := old(requests[r]).(settled := true)]
      ensures deps == old(deps)
      ensures r < |requests| - 1 ==> && products == old(products) && pagination == old(pagination)
                                     && categories == old(categories) && error == old(error)
      ensures var o := Observed(old(requests[r].aborted), outcome);
        && (o.Delivered? ==>
              && products == o.body.items && pagination == PaginationOf(o.body)
              && categories == o.body.categories.GetOr([]) && error == old(error))
        && (FailureMessage(o).Some? ==>
              && error == FailureMessage(o) && products == [] && categories == []
              && pagination == EmptyPagination)
        && (o == Rejected(AbortError) ==>
              && products == old(products) && pagination == old(pagination)
              && categories == old(categories) && error == old(error))
    {
      Apply(r, outcome);
      if r == |requests| - 1 {
        loading := false;
      }
      requests := requests[r := requests[r].(settled := true)];
    }
  }

  /**
   * A request superseded while in flight clears `loading` when it finishes,
   * although the request that replaced it is still pending.
   */
  method StaleAbortClearsLoading(first: HookParams, second: HookParams, outcome: FetchOutcome)
    returns (loading: bool, latestPending: bool)
    requires first != second
    ensures !loading && latestPending
  {
    var hook := new UseProducts();
    var _ := hook.Render(first);
    var _ := hook.Render(second);
    hook.Settle(0, outcome);
    loading := hook.loading;
    latestPending := !hook.requests[1].settled;
  }

  /** With the latest-request check, the same sequence keeps `loading` set. */
  method StaleAbortKeepsLoading(first: HookParams, second: HookParams, outcome: FetchOutcome)
    returns (loading: bool, latestPending: bool)
    requires first != second
    ensures loading && latestPending
  {
    var hook := new UseProducts();
    var _ := hook.Render(first);
    var _ := hook.Render(second);
    hook.SettleLatest(0, outcome);
    loading := hook.loading;
    latestPending := !hook.requests[1].settled;
  }

  /**
   * Two requests in a row, settling in either order: the data cells end up
   * holding the newer request's response, never the older one's.
   */
  method LatestResponseWins(first: HookParams, second: HookParams, firstOutcome: FetchOutcome,
                            secondBody: Payload, olderSettlesFirst: bool)
    returns (products: seq<Catalog.Product>, pagination: PaginationInfo, loading: bool)
    requires first != second
    ensures products == secondBody.items && pagination == PaginationOf(secondBody)
    ensures !loading
  {
    var hook := new UseProducts();
    var _ := hook.Render(first);
    var _ := hook.Render(second);
    if olderSettlesFirst {
      hook.Settle(0, firstOutcome);
      hook.Settle(1, Delivered(secondBody));
    } else {
      hook.Settle(1, Delivered(secondBody));
      hook.Settle(0, firstOutcome);
    }
    products, pagination, loading := hook.products, hook.pagination, hook.loading;
  }
}
