/**
 * The products page (`src/pages/ProductsPage.tsx`): the search, filter,
 * sort, page and retry state it keeps, the `useProducts` hook it drives
 * with that state, the summary line and the pagination guard.
 */
module ProductsPageState {
  import opened Wrappers
  import Catalog
  import Pagination
  import opened ProductsHook

  /** `LIMIT`, the page size the page asks for. */
  const PageLimit := 10

  /**
   * The page `goToPage` stores for a requested `nextPage`: clamped into
   * `1..totalPages`, with a total below one counting as one.
   */
  function GoToPageTarget(nextPage: int, totalPages: int): (target: int)
    ensures 1 <= target <= Catalog.Max(1, totalPages)
    ensures 1 <= nextPage <= totalPages ==> target == nextPage
    ensures nextPage < 1 ==> target == 1
    ensures nextPage > Catalog.Max(1, totalPages) ==> target == Catalog.Max(1, totalPages)
  {
    Catalog.Min(Catalog.Max(1, nextPage), Catalog.Max(1, totalPages))
  }

  /** The four forms of the results summary (`totalItemsLabel`). */
  datatype Summary =
    | LoadingProducts                        // 'Just a moment, loading products...'
    | NoProducts                             // "We couldn't find any products"
    | OneProduct                             // 'Found 1 product'
    | ProductRange(total: int, first: int, last: int)  // 'Found N products • Showing a-b'

  /** `totalItemsLabel`; a total of zero is the only falsy number the service sends. */
  function TotalItemsLabel(loading: bool, pagination: PaginationInfo): (s: Summary)
    ensures s.LoadingProducts? <==> loading
    ensures s.NoProducts? <==> !loading && pagination.totalItems == 0
    ensures s.OneProduct? <==> !loading && pagination.totalItems == 1
    ensures s.ProductRange? ==> && s.total == pagination.totalItems
                                && s.first == Catalog.FirstShown(pagination.page, pagination.limit)
                                && s.last == Catalog.LastShown(pagination.totalItems, pagination.page, pagination.limit)
  {
    if loading then LoadingProducts
    else if pagination.totalItems == 0 then NoProducts
    else
      var start := Catalog.FirstShown(pagination.page, pagination.limit);
      var end := Catalog.LastShown(pagination.totalItems, pagination.page, pagination.limit);
      if pagination.totalItems == 1 then OneProduct
      else ProductRange(pagination.totalItems, start, end)
  }

  /** The `Pagination` component is shown only with results and more than one page. */
  predicate ShowsPagination(products: seq<Catalog.Product>, pagination: PaginationInfo)
  {
    |products| > 0 && pagination.totalPages > 1
  }

  class ProductsPage {
    var query: string
    var category: string
    var sort: Catalog.SortKey
    var page: int
    var requestVersion: int
    /** The state of the `useProducts` call this page makes. */
    const hook: UseProducts

    /** The arguments the page passes to `useProducts`. */
    function Args(): (a: HookParams)
      reads this
      ensures a == WithDefaults(query, category, sort, page, Some(PageLimit), Some(requestVersion))
    {
      HookParams(query, category, sort, page, PageLimit, requestVersion)
    }

    /** The hook last ran its effect with the page's current state. */
    ghost predicate Valid()
      reads this, hook
    {
      hook.Valid() && hook.deps == Some(Args())
    }

    /** Mounting: the initial state and the first render, which starts the first request. */
    constructor ()
      ensures Valid() && fresh(hook) && hook.LoadingTracksLatest()
      ensures query == "" && category == "all" && sort == Catalog.NameAsc
      ensures page == 1 && requestVersion == 0
      ensures hook.requests == [Request(Args(), false, false)]
      ensures hook.loading && hook.error == None && hook.products == []
      ensures hook.pagination == EmptyPagination && hook.categories == []
    {
      query := "";
      category := "all";
      sort := Catalog.NameAsc;
      page := 1;
      requestVersion := 0;
      hook := new UseProducts();
      new;
      var _ := hook.Render(Args());
    }

    /** `onSearch`: a new query, back to the first page. */
    method OnSearch(value: string)
      requires Valid()
      modifies this, hook
      ensures Valid()
      ensures old(hook.LoadingTracksLatest()) ==> hook.LoadingTracksLatest()
      ensures query == value && page == 1
      ensures category == old(category) && sort == old(sort) && requestVersion == old(requestVersion)
      ensures hook.requests == AfterRender(old(hook.requests), Some(old(Args())), Args())
      ensures Args() != old(Args()) ==> hook.loading && hook.error == None
      ensures Args() == old(Args()) ==> hook.loading == old(hook.loading) && hook.error == old(hook.error)
      ensures hook.products == old(hook.products) && hook.pagination == old(hook.pagination)
      ensures hook.categories == old(hook.categories)
    {
      query := value;
      page := 1;
      var _ := hook.Render(Args());
    }

    /** `onFilter`: a new category, back to the first page. */
    method OnFilter(value: string)
      requires Valid()
      modifies this, hook
      ensures Valid()
      ensures old(hook.LoadingTracksLatest()) ==> hook.LoadingTracksLatest()
      ensures category == value && page == 1
      ensures query == old(query) && sort == old(sort) && requestVersion == old(requestVersion)
      ensures hook.requests == AfterRender(old(hook.requests), Some(old(Args())), Args())
      ensures Args() != old(Args()) ==> hook.loading && hook.error == None
      ensures Args() == old(Args()) ==> hook.loading == old(hook.loading) && hook.error == old(hook.error)
      ensures hook.products == old(hook.products) && hook.pagination == old(hook.pagination)
      ensures hook.categories == old(hook.categories)
    {
      category := value;
      page := 1;
      var _ := hook.Render(Args());
    }

    /** `onSort`: a new ordering, back to the first page. */
    method OnSort(value: Catalog.SortKey)
      requires Valid()
      modifies this, hook
      ensures Valid()
      ensures old(hook.LoadingTracksLatest()) ==> hook.LoadingTracksLatest()
      ensures sort == value && page == 1
      ensures query == old(query) && category == old(category) && requestVersion == old(requestVersion)
      ensures hook.requests == AfterRender(old(hook.requests), Some(old(Args())), Args())
      ensures Args() != old(Args()) ==> hook.loading && hook.error == None
      ensures Args() == old(Args()) ==> hook.loading == old(hook.loading) && hook.error == old(hook.error)
      ensures hook.products == old(hook.products) && hook.pagination == old(hook.pagination)
      ensures hook.categories == old(hook.categories)
    {
      sort := value;
      page := 1;
      var _ := hook.Render(Args());
    }

    /** `goToPage`: the requested page, clamped by the last response's page count. */
    method GoToPage(nextPage: int)
      requires Valid()
      modifies this, hook
      ensures Valid()
      ensures old(hook.LoadingTracksLatest()) ==> hook.LoadingTracksLatest()
      ensures page == GoToPageTarget(nextPage, old(hook.pagination.totalPages))
      ensures query == old(query) && category == old(category) && sort == old(sort)
      ensures requestVersion == old(requestVersion)
      ensures hook.requests == AfterRender(old(hook.requests), Some(old(Args())), Args())
      ensures Args() != old(Args()) ==> hook.loading && hook.error == None
      ensures Args() == old(Args()) ==> hook.loading == old(hook.loading) && hook.error == old(hook.error)
      ensures hook.products == old(hook.products) && hook.pagination == old(hook.pagination)
      ensures hook.categories == old(hook.categories)
    {
      page := GoToPageTarget(nextPage, hook.pagination.totalPages);
      var _ := hook.Render(Args());
    }

    /**
     * `handleRetry`: a new `refreshKey`, so the hook always starts a new
     * request with otherwise unchanged arguments.
     */
    method Retry()
      requires Valid()
      modifies this, hook
      ensures Valid()
      ensures old(hook.LoadingTracksLatest()) ==> hook.LoadingTracksLatest()
      ensures requestVersion == old(requestVersion) + 1
      ensures query == old(query) && category == old(category) && sort == old(sort) && page == old(page)
      ensures hook.requests == AbortLast(old(hook.requests)) + [Request(Args(), false, false)]
      ensures hook.loading && hook.error == None
      ensures hook.products == old(hook.products) && hook.pagination == old(hook.pagination)
      ensures hook.categories == old(hook.categories)
    {
      requestVersion := requestVersion + 1;
      var _ := hook.Render(Args());
    }

    /** 'Clear All Filters': the initial query, category, sort and page. */
    method ClearFilters()
      requires Valid()
      modifies this, hook
      ensures Valid()
      ensures old(hook.LoadingTracksLatest()) ==> hook.LoadingTracksLatest()
      ensures query == "" && category == "all" && sort == Catalog.NameAsc && page == 1
      ensures requestVersion == old(requestVersion)
      ensures hook.requests == AfterRender(old(hook.requests), Some(old(Args())), Args())
      ensures Args() != old(Args()) ==> hook.loading && hook.error == None
      ensures Args() == old(Args()) ==> hook.loading == old(hook.loading) && hook.error == old(hook.error)
      ensures hook.products == old(hook.products) && hook.pagination == old(hook.pagination)
      ensures hook.categories == old(hook.categories)
    {
      query := "";
      category := "all";
      sort := Catalog.NameAsc;
      page := 1;
      var _ := hook.Render(Args());
    }
  }
}
