/**
 * What the products page shows for a response of the mock service: the
 * request the hook sends, the pagination it stores, the summary line, the
 * pagination guard and the pages the Previous and Next buttons request.
 */
module ServedPage {
  import Text
  import Catalog
  import CatalogProperties
  import Pagination
  import opened ProductsHook
  import opened ProductsPageState

  /** The response `GET /products` sends for the hook's request with arguments `p`. */
  function Served(collection: seq<Catalog.Product>, p: HookParams): Catalog.ProductsResponse
  {
    Catalog.Evaluate(collection, RequestQuery(p))
  }

  /** The service reads back every argument the hook encodes, the sort key included. */
  lemma RequestNormalizes(p: HookParams)
    ensures Catalog.Normalize(RequestQuery(p))
         == Catalog.Normalized(Text.ToLower(p.query), p.category, p.sort, Catalog.Max(1, p.page), Catalog.Max(1, p.limit))
  {
    Catalog.ParseSortKeyName(p.sort);
  }

  /**
   * The pagination the hook stores from a served response: the page is in
   * range, it is the requested page whenever that exists, and the limit is
   * the requested one (at least one).
   */
  lemma ServedPagination(collection: seq<Catalog.Product>, p: HookParams)
    ensures var pg := PaginationOf(PayloadOf(Served(collection, p)));
      && 1 <= pg.page <= pg.totalPages
      && pg.limit == Catalog.Max(1, p.limit)
      && (1 <= p.page <= pg.totalPages ==> pg.page == p.page)
      && (p.page > pg.totalPages ==> pg.page == pg.totalPages)
      && pg.totalItems >= 0
  {
    RequestNormalizes(p);
    CatalogProperties.EvaluatePaging(collection, RequestQuery(p));
  }

  /**
   * `emptyPagination`, which a failed request leaves behind, is the pagination
   * the service serves for a request at the default page size that matches
   * nothing: page 1 of 1, no items, 10 per page.
   */
  lemma NothingFoundIsEmptyPagination(collection: seq<Catalog.Product>, p: HookParams)
    requires p.limit == DefaultLimit
    requires Served(collection, p).totalItems == 0
    ensures PaginationOf(PayloadOf(Served(collection, p))) == EmptyPagination
  {
    RequestNormalizes(p);
    CatalogProperties.EvaluatePaging(collection, RequestQuery(p));
  }

  /**
   * The summary line for a served response: nothing found exactly when no
   * product matched, and otherwise the range `first..last` it announces is
   * within the total and has as many positions as the page has products.
   */
  lemma ServedSummary(collection: seq<Catalog.Product>, p: HookParams)
    ensures var r := Served(collection, p);
      var s := TotalItemsLabel(false, PaginationOf(PayloadOf(r)));
      && (s.NoProducts? ==> r.items == [])
      && (s.OneProduct? ==> |r.items| == 1)
      && (s.ProductRange? ==> 1 <= s.first <= s.last <= s.total && s.last - s.first + 1 == |r.items|)
  {
    CatalogProperties.EvaluateRange(collection, RequestQuery(p));
  }

  /**
   * The `Pagination` component appears exactly when the matching products do
   * not fit on one page.
   */
  lemma ServedPaginationShown(collection: seq<Catalog.Product>, p: HookParams)
    ensures var r := Served(collection, p);
      ShowsPagination(r.items, PaginationOf(PayloadOf(r))) <==> r.totalItems > Catalog.Max(1, p.limit)
  {
    var r := Served(collection, p);
    RequestNormalizes(p);
    CatalogProperties.EvaluatePaging(collection, RequestQuery(p));
    CatalogProperties.SeveralPages(r.totalItems, r.totalPages, r.limit);
  }

  /**
   * On a served page, `goToPage` stores exactly the page Previous or Next
   * emits: its clamp never changes a page the component asks for.
   */
  lemma ServedNavigation(collection: seq<Catalog.Product>, p: HookParams)
    ensures var pg := PaginationOf(PayloadOf(Served(collection, p)));
      var previous, next := Pagination.OnPrevious(pg.page), Pagination.OnNext(pg.page, pg.totalPages);
      && (previous.Some? ==> GoToPageTarget(previous.value, pg.totalPages) == pg.page - 1)
      && (next.Some? ==> GoToPageTarget(next.value, pg.totalPages) == pg.page + 1)
      && (pg.page > 1 <==> previous.Some?)
      && (pg.page < pg.totalPages <==> next.Some?)
  {
    ServedPagination(collection, p);
  }
}
