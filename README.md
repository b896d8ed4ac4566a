# Listings Manager: catalog queries and request lifecycle in Dafny

This project models the core of a React product-listing front end and proves
its properties. It has two parts.

The first part is the mock catalog service (`src/mocks/handlers.ts`). Its
`GET /products` handler takes a search text, a category, a sort option, a page
and a page size. It filters the collection by lower-cased name substring and
by exact category. It sorts the result stably with one of four comparators and
serves one page. The response also carries the page actually served, the page
count, the number of matches, and the list of categories in the collection.
`GET /products/:id` returns the first product with the given id, or a 404.

The second part is the client side.
- The `useProducts` hook (`src/hooks/useProducts.ts`) keeps five state cells:
  `products`, `loading`, `error`, `pagination` and `categories`. Whenever one
  of its arguments changes, it aborts the previous request and starts a new
  one. It then applies the request's success, failure or abort.
- The products page (`src/pages/ProductsPage.tsx`) holds the search, filter,
  sort, page and retry state that drives the hook. It also computes the
  results summary and clamps page changes.
- The `Pagination` component (`src/components/Pagination.tsx`) guards its
  Previous and Next buttons.

Files and modules:

- `wrappers.dfy`, module `Wrappers`: the `Option` type, used for missing query
  parameters and missing fields.
- `text.dfy`, module `Text`:
  - string order, which stands in for `localeCompare`;
  - ASCII `toLowerCase`;
  - `includes`.
- `stable_sort.dfy`, module `StableSort`: `Array.prototype.sort` with a
  comparator, as a stable insertion sort. It is proved:
  - sorted;
  - a permutation of its input;
  - stable;
  - the only sequence that is both sorted and stable.
- `sequences.dfy`, module `Sequences`: `Array.prototype.filter` and `slice`.
- `catalog.dfy`, module `Catalog`:
  - the data types;
  - the category list;
  - the comparators;
  - the selection;
  - the page arithmetic;
  - the handler `GetProducts`, a method that follows the handler's own steps
    and is proved equal to the specification function `Evaluate`;
  - the id lookup.
- `catalog_properties.dfy`, module `CatalogProperties`: what every response
  satisfies.
- `products_hook.dfy`, module `ProductsHook`: the hook, as the class
  `UseProducts`. Every effect run is one `Request` record, which holds:
  - the arguments the request was started with;
  - whether its `AbortController` was aborted;
  - whether its `fetchProducts` call has finished.

  Completions are calls to `Settle` and may arrive in any order.
- `pagination.dfy`, module `Pagination`: the Previous/Next guards.
- `products_page.dfy`, module `ProductsPageState`: the page, as the class
  `ProductsPage`. It owns its `UseProducts` instance, and every handler ends
  with the render that reaches the hook.
- `served_page.dfy`, module `ServedPage`: how the page, the hook and the
  service compose. It covers the request's round trip, the summary range, when
  the pagination control is shown, and the pages that Previous and Next
  request.

## Model

| member | source | states |
|---|---|---|
| Wrappers.Option.GetOr | src/mocks/handlers.ts:20-24 | JavaScript's `??`: the value when present, the default when absent |
| Text.Compare | src/mocks/handlers.ts:6 | the string order used for `localeCompare` yields -1, 0 or 1, and yields 0 exactly for equal strings |
| Text.CompareAntisymmetric | src/mocks/handlers.ts:10-12 | swapping the operands negates the comparison, so name-desc is the reverse of name-asc |
| Text.CompareTransitive | src/mocks/handlers.ts:6 | "not after" is transitive for the string order |
| Text.ToLower | src/mocks/handlers.ts:20 | `toLowerCase` keeps the length and lower-cases each character |
| Text.ToLowerPrefix | src/mocks/handlers.ts:30 | lower-casing a prefix gives the prefix of the lower-cased text |
| Text.ToLowerIdempotent | src/mocks/handlers.ts:30 | lower-casing an already lower-cased text changes nothing |
| Text.Includes | src/mocks/handlers.ts:30 | definition without a contract: `needle` occurs as a contiguous part of `hay`; `Text.IncludesSearch` and `Text.IncludesTransitive` state its properties |
| Text.IncludesSearch | src/mocks/handlers.ts:30 | an occurrence somewhere is the same as a match at the start or later in the text, so `Includes` agrees with a search position by position, in both directions |
| Text.IncludesTransitive | src/mocks/handlers.ts:30 | a text that includes `mid` includes every text that `mid` includes |
| Text.IncludesTrivial | src/mocks/handlers.ts:30 | every text includes the empty text and includes itself |
| StableSort.Insert | src/mocks/handlers.ts:39 | one insertion step adds exactly one element and keeps all the others |
| StableSort.Sort | src/mocks/handlers.ts:39 | the sort result is a permutation of its input |
| StableSort.InsertSorted | src/mocks/handlers.ts:39 | inserting into a sorted sequence keeps it sorted under a consistent comparator |
| StableSort.InsertTies | src/mocks/handlers.ts:39 | inserting places the new element ahead of every element tied with it |
| StableSort.SortSorted | src/mocks/handlers.ts:39 | under a consistent comparator every element is not after any later element |
| StableSort.SortStable | src/mocks/handlers.ts:39 | elements the comparator ties keep their input order, as ECMAScript requires |
| StableSort.SortedSlice | src/mocks/handlers.ts:45 | every contiguous slice of a sorted sequence is sorted |
| StableSort.SortedStableUnique | src/mocks/handlers.ts:39 | two sequences that are sorted and have the same tie classes are equal |
| StableSort.SortIsTheStableSort | src/mocks/handlers.ts:39 | any sorted and stable arrangement of the input equals `Sort`, so every conforming engine gives this order |
| Sequences.Filter | src/mocks/handlers.ts:29-31 | the result holds exactly the accepted elements of the input and is no longer than it |
| Sequences.FilterMultiplicity | src/mocks/handlers.ts:29-35 | an accepted value is kept as often as it occurs, and a rejected one never appears |
| Sequences.FilterAppend | src/mocks/handlers.ts:29-35 | filtering distributes over concatenation, so it never reorders |
| Sequences.FilterFilter | src/mocks/handlers.ts:28-36 | two successive filters equal one filter by both conditions |
| Sequences.FilterKeepsAll | src/mocks/handlers.ts:28-36 | a filter that accepts every element returns the input |
| Sequences.FilterKeepsNone | src/mocks/handlers.ts:34-35 | a filter that rejects every element returns `[]` |
| Sequences.FilterSameVerdict | src/mocks/handlers.ts:28-36 | filters that agree on every element give the same result |
| Sequences.Slice | src/mocks/handlers.ts:45 | `slice` with in-range bounds is the subsequence, is clamped at the end, and is `[]` from past the end |
| Catalog.ParseSortKey | src/mocks/handlers.ts:38 | a known sort name selects its comparator, and any other name (or none) selects name-asc |
| Catalog.SorterAsWritten | src/mocks/handlers.ts:38 | `sorters[sort] ?? sorters['name-asc']` as written: an inherited `Object.prototype` name yields that member and not a comparator; every other name gives the comparator `ParseSortKey` picks |
| Catalog.InheritedSortNameEscapesDefault | src/mocks/handlers.ts:38 | `?sort=toString` does not reach name-asc as written, although name-asc is the intended fallback for it |
| Catalog.SortKeyName | src/mocks/handlers.ts:8-15 | definition without a contract: the query-string name of each sort option; `Catalog.ParseSortKeyName` proves the round trip |
| Catalog.Comparator | src/mocks/handlers.ts:8-15 | definition without a contract: the four `sorters`; `Catalog.ComparatorConsistent` proves each one consistent, and `Text.CompareAntisymmetric` shows name-desc reverses name-asc |
| Catalog.ParseSortKeyName | src/mocks/handlers.ts:8-15 | each sort option survives the trip through its query-string name |
| Catalog.ComparatorConsistent | src/mocks/handlers.ts:8-15 | each of the four sorters is a consistent comparator |
| Catalog.CategoryOrder | src/mocks/handlers.ts:6 | definition without a contract: `(a, b) => a.localeCompare(b)`; `Catalog.CategoryOrderConsistent` proves it consistent, and `Catalog.CategoryListIncreasing` uses it |
| Catalog.CategoryOrderConsistent | src/mocks/handlers.ts:6 | the category comparator is consistent |
| Catalog.CategoriesOf | src/mocks/handlers.ts:5 | position i holds the category of product i |
| Catalog.Distinct | src/mocks/handlers.ts:5 | `Array.from(new Set(...))` holds every value of its input, and each only once |
| Catalog.CategoryList | src/mocks/handlers.ts:5-6 | definition without a contract: the distinct categories sorted by `localeCompare`; `Catalog.CategoryListIncreasing` and `Catalog.CategoryListExact` state its properties |
| Catalog.CategoryListIncreasing | src/mocks/handlers.ts:5-6 | the category list is strictly increasing in collation order, so it is sorted and duplicate-free |
| Catalog.CategoryListExact | src/mocks/handlers.ts:5 | a category is in the list exactly when some product of the collection has it |
| Catalog.TotalPages | src/mocks/handlers.ts:42 | `max(1, ceil(total / limit))`: at least 1, exactly 1 for no items, otherwise the least page count that covers every item |
| Catalog.Normalize | src/mocks/handlers.ts:20-24 | page and limit default to 1 and 10 and are raised to at least 1 |
| Catalog.NameMatches | src/mocks/handlers.ts:29-31 | definition without a contract: the lower-cased name includes the search text; `CatalogProperties.SearchForOwnNameSelects` and `CatalogProperties.LongerSearchNarrows` state its properties |
| Catalog.Selected | src/mocks/handlers.ts:28-36 | definition without a contract: both filter conditions, with `''` selecting every name and `''` or `'all'` every category; `Catalog.FilteredIsMatching` proves it equals the handler's conditional filters |
| Catalog.Matching | src/mocks/handlers.ts:26-36 | definition without a contract: the selected products in collection order; `Catalog.SelectProducts`, `CatalogProperties.EvaluateSelectionComplete` and `CatalogProperties.MatchingKeepsOrder` state its properties |
| Catalog.Ordered | src/mocks/handlers.ts:38-39 | definition without a contract: the selection sorted stably by the chosen comparator; `CatalogProperties.OrderedSortedStable` proves it sorted, stable and the only such order, and `CatalogProperties.EvaluateSelectionComplete` proves it holds each selected product as often as the collection |
| Catalog.PageStart | src/mocks/handlers.ts:44 | definition without a contract: `(currentPage - 1) * limit`; `CatalogProperties.PaginateWindow` proves the page's items are the window that starts there |
| Catalog.FirstShown | src/pages/ProductsPage.tsx:29 | definition without a contract: the summary's `start`; `CatalogProperties.RangeArithmetic` and `CatalogProperties.PaginateRange` prove it is at least 1 and at most the last position shown |
| Catalog.LastShown | src/pages/ProductsPage.tsx:30 | definition without a contract: the summary's `end`; `CatalogProperties.RangeArithmetic` and `CatalogProperties.PaginateRange` prove it is within the total and spans exactly the page's items from `start` |
| Catalog.Paginate | src/mocks/handlers.ts:41-45 | definition without a contract: the page count, the clamped page and its slice; `CatalogProperties.PaginateWindow`, `CatalogProperties.PaginateRange` and `CatalogProperties.PaginateSorted` state its properties |
| Catalog.Evaluate | src/mocks/handlers.ts:18-55 | definition without a contract: the response as a function of the collection and the query; `Catalog.GetProducts` is proved equal to it, and the `CatalogProperties` lemmas state its properties |
| Catalog.GetProducts | src/mocks/handlers.ts:19-54 | the handler's steps compute `Evaluate`: copy, optional name filter, optional category filter, sort, page count, clamp, slice |
| Catalog.SelectProducts | src/mocks/handlers.ts:26-36 | the handler's filter steps on a copy of the collection leave exactly the selected products, in collection order |
| Catalog.FilteredIsMatching | src/mocks/handlers.ts:26-36 | the handler's conditional filter steps select exactly the products that both filters accept, in collection order |
| Catalog.FindById | src/mocks/handlers.ts:57 | `find` yields the first product with the id, and nothing exactly when no product has it |
| Catalog.GetProduct | src/mocks/handlers.ts:56-63 | the lookup is 404 with `Not found` exactly when no product has the id, and otherwise returns the first product with that id |
| CatalogProperties.PaginateWindow | src/mocks/handlers.ts:41-45 | the page is clamped into `[1, totalPages]`; the items are the window at `(page-1)*limit`; the page is full except the last, which holds the rest |
| CatalogProperties.PaginateItemsFrom | src/mocks/handlers.ts:45 | every item of a page comes from the sequence being paged |
| CatalogProperties.PaginateSorted | src/mocks/handlers.ts:45 | a page of a sorted sequence is sorted |
| CatalogProperties.EvaluateIsPaginate | src/mocks/handlers.ts:41-53 | the response is the page of the ordered selection, and `totalItems` counts the selection before paging |
| CatalogProperties.SeveralPages | src/mocks/handlers.ts:42 | there is more than one page exactly when the items exceed `limit` |
| CatalogProperties.RangeArithmetic | src/pages/ProductsPage.tsx:29-30 | a page's 1-based range `start..end` lies within the total and spans as many positions as the page has items |
| CatalogProperties.PaginateRange | src/mocks/handlers.ts:43-45 | an empty selection yields no items; otherwise the page covers positions `(page-1)*limit+1 .. min(total, page*limit)` |
| CatalogProperties.EvaluateRange | src/mocks/handlers.ts:41-52 | the same range facts for every served response |
| CatalogProperties.EvaluatePaging | src/mocks/handlers.ts:23-52 | `totalPages` is `max(1, ceil(totalItems/limit))`, the served page is in range, and a page past the end serves the last page; the items fit between the page's start and the total, are at most `limit` long, and fill the page except on the last page (the exact window is `PaginateWindow` with `EvaluateIsPaginate`) |
| CatalogProperties.EvaluateItemsSelected | src/mocks/handlers.ts:28-36 | every served item is from the collection and satisfies both the name filter and the category filter |
| CatalogProperties.EvaluateSelectionComplete | src/mocks/handlers.ts:26-41 | each selected product appears in the ordered result as often as in the collection, and unselected ones never appear |
| CatalogProperties.MatchingKeepsOrder | src/mocks/handlers.ts:29-35 | selecting from a split collection and concatenating equals selecting from the whole, so the selection keeps collection order |
| CatalogProperties.OrderedSortedStable | src/mocks/handlers.ts:38-39 | the ordered selection is sorted by the chosen comparator, stable, and the only sequence that is both |
| CatalogProperties.EvaluatePageSorted | src/mocks/handlers.ts:38-45 | every served page is in the requested order |
| CatalogProperties.EvaluateCategories | src/mocks/handlers.ts:5-6 | the categories are the same for every query, strictly increasing, and exactly those of the collection |
| CatalogProperties.UnknownSortIsNameAsc | src/mocks/handlers.ts:38 | a missing or unknown sort name gives the same response as `name-asc` |
| CatalogProperties.SearchIgnoresCase | src/mocks/handlers.ts:20 | a query and its lower-cased form give the same response |
| CatalogProperties.SearchForOwnNameSelects | src/mocks/handlers.ts:28-31 | searching for a product's own name, in any case, keeps that product in the selection |
| CatalogProperties.LongerSearchNarrows | src/mocks/handlers.ts:28-31 | a product a longer search text selects is selected by every text the longer one includes, so typing more never widens the results |
| CatalogProperties.PageBelowOneIsFirst | src/mocks/handlers.ts:23 | a page below 1 is served as page 1 |
| CatalogProperties.EvaluateEmptyCollection | src/mocks/handlers.ts:41-53 | an empty collection serves no items, 0 matches, page 1 of 1 and no categories |
| CatalogProperties.UnusedCategorySelectsNothing | src/mocks/handlers.ts:34-35 | a category that no product has gives page 1 of 1 with no items, and the full category list |
| CatalogProperties.NoFiltersSelectAll | src/mocks/handlers.ts:28-36 | with no search text and no category, every product is selected |
| CatalogProperties.ThirdPageOfTwentyFive | src/mocks/handlers.ts:41-45 | 25 products at 10 per page: page 3 is the last of 3 and holds 5 items |
| CatalogProperties.AuroraQuery | src/mocks/handlers.ts:20-24 | the search text "Aurora" is lower-cased to "aurora", and the other parameters take their defaults |
| CatalogProperties.AuroraNameMatches | src/mocks/handlers.ts:30 | "Aurora Desk Lamp" lower-cased includes "aurora" |
| CatalogProperties.AuroraMatching | src/mocks/handlers.ts:28-31 | when the lamp occurs once and no other name contains "aurora", the selection is just the lamp |
| CatalogProperties.AuroraSearch | src/pages/ProductsPage.test.tsx:27-32 | typing "Aurora" lists the one "Aurora Desk Lamp" as the only item of page 1 of 1 |
| ProductsHook.WithDefaults | src/hooks/useProducts.ts:49-56 | `limit` defaults to 10 and `refreshKey` to 0; the other arguments pass through |
| ProductsHook.RequestQuery | src/hooks/useProducts.ts:71-77 | definition without a contract: the five query parameters the hook sends; `ServedPage.RequestNormalizes` proves the service decodes them back |
| ProductsHook.PaginationOf | src/hooks/useProducts.ts:90-95 | definition without a contract: the four pagination fields copied from the body; `ServedPage.ServedPagination` states what they hold for a served response |
| ProductsHook.PayloadOf | src/mocks/handlers.ts:47-54 | definition without a contract: the JSON body the handler sends, with its categories present; `ServedPage.ServedPagination` and `ServedPage.NothingFoundIsEmptyPagination` state what the hook stores from it |
| ProductsHook.Observed | src/hooks/useProducts.ts:79-81 | the fetch of an aborted request ends in an AbortError whatever the network did, and otherwise ends as the network did |
| ProductsHook.FailureMessage | src/hooks/useProducts.ts:83-102 | a non-ok response fails with `Unable to load products`, a thrown Error keeps its message, a non-Error becomes `Unknown error`, and success or AbortError stores no error |
| ProductsHook.AbortLast | src/hooks/useProducts.ts:113-115 | the cleanup aborts only the latest request and leaves the others as they were |
| ProductsHook.AfterRender | src/hooks/useProducts.ts:113-116 | unchanged dependencies run nothing; changed ones abort the previous request, then append a new live request |
| ProductsHook.UseProducts.constructor | src/hooks/useProducts.ts:57-61 | initial state: no products, not loading, no error, `emptyPagination` (1, 1, 0, 10), no categories, no request |
| ProductsHook.UseProducts.Render | src/hooks/useProducts.ts:63-68 | a dependency change aborts the previous request before starting the next one, and sets `loading` and clears `error` synchronously; otherwise nothing changes; only the latest request is ever live |
| ProductsHook.UseProducts.Unmount | src/hooks/useProducts.ts:113-115 | unmounting aborts the live request and changes no state cell |
| ProductsHook.UseProducts.Apply | src/hooks/useProducts.ts:87-105 | success copies the items, the four pagination fields and the categories (`[]` when missing); a failure stores the error, empties products and categories and resets to `emptyPagination`; an abort changes nothing |
| ProductsHook.UseProducts.Settle | src/hooks/useProducts.ts:66-109 | the outcome is applied as in `Apply` and `loading` always ends false; a superseded request never changes the data cells |
| ProductsHook.UseProducts.SettleLatest | src/hooks/useProducts.ts:106-108 | as `Settle`, but `loading` is cleared only by the latest request, which keeps `loading` true exactly while the latest request is pending |
| ProductsHook.StaleAbortClearsLoading | src/hooks/useProducts.ts:106-108 | a superseded request's completion leaves `loading` false while its replacement is still pending |
| ProductsHook.StaleAbortKeepsLoading | src/hooks/useProducts.ts:106-108 | with `SettleLatest`, the same sequence keeps `loading` true |
| ProductsHook.LatestResponseWins | src/hooks/useProducts.ts:98-116 | whichever of two requests finishes first, the data cells end up holding the newer request's response |
| Pagination.OnPrevious | src/components/Pagination.tsx:8-15 | Previous emits `page - 1` exactly when `page > 1`, so the emitted page is at least 1 |
| Pagination.OnNext | src/components/Pagination.tsx:9-26 | Next emits `page + 1` exactly when `page < totalPages`, so the emitted page is at most `totalPages` |
| Pagination.CanGoBack | src/components/Pagination.tsx:8 | definition without a contract: `page > 1`; `Pagination.OnPrevious` states that Previous emits exactly under it |
| Pagination.CanGoForward | src/components/Pagination.tsx:9 | definition without a contract: `page < totalPages`; `Pagination.OnNext` states that Next emits exactly under it |
| ProductsPageState.GoToPageTarget | src/pages/ProductsPage.tsx:39-43 | the stored page lies in `[1, max(1, totalPages)]`; an in-range request is kept, one below 1 becomes 1, and one past the end becomes the last page |
| ProductsPageState.TotalItemsLabel | src/pages/ProductsPage.tsx:26-35 | loading text while loading; not-found for 0; `Found 1 product` for 1; otherwise the range `(page-1)*limit+1 .. min(total, page*limit)` |
| ProductsPageState.ShowsPagination | src/pages/ProductsPage.tsx:126 | definition without a contract: results exist and `totalPages > 1`; `ServedPage.ServedPaginationShown` states when it holds for a served page |
| ProductsPageState.ProductsPage.Args | src/pages/ProductsPage.tsx:17-24 | the page calls `useProducts` with its state, `limit: LIMIT` and `refreshKey: requestVersion`, which is the hook's argument record with those values in place of the defaults |
| ProductsPageState.ProductsPage.constructor | src/pages/ProductsPage.tsx:11-24 | mounting starts with `''`, `'all'`, `name-asc`, page 1 and version 0; its first render starts one request with those arguments, sets `loading`, and leaves no error, no products, `emptyPagination` and no categories |
| ProductsPageState.ProductsPage.OnSearch | src/pages/ProductsPage.tsx:64-67 | a new search text resets the page to 1, keeps the other state, and restarts the request when the arguments change; a restart sets `loading` and clears `error`, and otherwise both keep their values |
| ProductsPageState.ProductsPage.OnFilter | src/pages/ProductsPage.tsx:68-71 | a new category resets the page to 1, keeps the other state, and restarts the request when the arguments change; a restart sets `loading` and clears `error`, and otherwise both keep their values |
| ProductsPageState.ProductsPage.OnSort | src/pages/ProductsPage.tsx:72-75 | a new sort option resets the page to 1, keeps the other state, and restarts the request when the arguments change; a restart sets `loading` and clears `error`, and otherwise both keep their values |
| ProductsPageState.ProductsPage.GoToPage | src/pages/ProductsPage.tsx:39-43 | the page becomes the requested one clamped by the current `totalPages`; the query, category, sort, version and data cells keep their values; a changed page restarts the request, setting `loading` and clearing `error`, and an unchanged one leaves both as they were |
| ProductsPageState.ProductsPage.Retry | src/pages/ProductsPage.tsx:45-47 | the version goes up by exactly 1, nothing else changes, and a new request always starts |
| ProductsPageState.ProductsPage.ClearFilters | src/pages/ProductsPage.tsx:106-111 | resets to `''`, `'all'`, `name-asc` and page 1, and keeps the version; a restart sets `loading` and clears `error`, and otherwise both keep their values |
| ServedPage.RequestNormalizes | src/hooks/useProducts.ts:71-79 | the service decodes every argument the hook sends, including the sort option |
| ServedPage.NothingFoundIsEmptyPagination | src/hooks/useProducts.ts:40-45 | `emptyPagination` (1, 1, 0, 10) is exactly the pagination served for a default-size request that matches nothing |
| ServedPage.ServedPagination | src/hooks/useProducts.ts:89-95 | the stored page is within `[1, totalPages]`; it is the requested page when that exists and the last page past the end; the limit is the requested one |
| ServedPage.ServedSummary | src/pages/ProductsPage.tsx:26-35 | for a served page: "none found" means no items, "1 product" means one item, and a range lies within the total and counts exactly the page's items |
| ServedPage.ServedPaginationShown | src/pages/ProductsPage.tsx:126 | the pagination control appears exactly when the matches exceed one page |
| ServedPage.ServedNavigation | src/components/Pagination.tsx:15-26 | on a served page, `goToPage` keeps whatever page Previous or Next emits, and each button emits exactly when its guard holds |

## Left out

- HTTP and mock-worker plumbing are not modelled: `http.get`, `new URL`, `URLSearchParams`, `fetch` and `response.json()`. Query parameters arrive decoded as `Option` values, and page and limit are integers. `Number` on non-numeric text gives NaN, which `Math.max` passes on; fractional values are also not modelled.
- `src/mocks/data/products.json` is not part of this model. The collection is a parameter of every operation.
- Text.Compare: `localeCompare` uses locale collation; the model uses lexicographic order by Unicode code point, which is also a total order. It differs from UTF-16 code-unit order for characters above U+FFFF.
- Text.ToLower: only ASCII `A`-`Z` are mapped. Unicode case mapping is not modelled.
- Catalog.Comparator: prices are integers, so floating-point subtraction is not modelled.
- Catalog.ParseSortKey: this is the intended lookup, where every name the sorters do not define sorts by name-asc. In the source, a name inherited from `Object.prototype` passes the `??` fallback (see Findings). `Catalog.SorterAsWritten` records only that such a name escapes the fallback, not what the sort then does. For `toString` and `constructor`, the comparator returns a non-number, every pair counts as tied, and the collection order is served. For `__proto__`, the value is not callable and `sort` throws a TypeError. For `valueOf`, `hasOwnProperty`, `isPrototypeOf`, `propertyIsEnumerable`, `toLocaleString`, `__defineGetter__`, `__defineSetter__`, `__lookupGetter__` and `__lookupSetter__`, the call with an undefined receiver throws a TypeError.
- ProductsHook.UseProducts.Settle: each request finishes once (`requires !settled`). The async interleaving is reduced to `Render`, `Unmount` and `Settle` calls in any order. AbortController internals are reduced to the per-request `aborted` flag.
- ProductsHook.UseProducts.Apply: `error` holds the error's message, not the `Error` object.
- Superseded requests are cancelled by `AbortController`, not by a request counter: the model follows the code. So `loading` is cleared by every finishing request, including a superseded one (see Findings).
- React render timing and batching are not modelled. Each page handler's state updates are followed by one render, which reaches the hook.
- Rendering is not modelled: JSX, `Loader`, `Toolbar`, `ProductCard`, `App`, `main` and `ProductDetailsPage`. For the results summary, the model computes the label's form and numbers, not the formatted text. Which panel is shown (loader, error, empty state, grid; `ProductsPage.tsx` lines 82-124) is not modelled, apart from the pagination guard.

## Findings

| source | as written | input that shows it | evidently intended | confidence | as-written member | corrected member |
|---|---|---|---|---|---|---|
| src/hooks/useProducts.ts:106-108 | the `finally` block clears `loading` for every request that finishes, including one aborted because its arguments changed | render with arguments A, then with B before A's fetch finishes (for example, typing a second character into the search box); A's fetch rejects with AbortError and its `finally` sets `loading` false while B is still pending, so the page shows the previous results and a "Found …" summary instead of the loader | `loading` stays true until the latest request finishes | medium, not executed | ProductsHook.StaleAbortClearsLoading | ProductsHook.UseProducts.SettleLatest |
| src/mocks/handlers.ts:38 | `sorters[sort] ?? sorters['name-asc']` falls back only when the property is missing, and `sorters` is a plain object that inherits the `Object.prototype` members | the request `/products?sort=toString`: `sorters.toString` is found, `filtered.sort` gets a comparator that returns a string, every pair counts as tied, and the products are served in collection order instead of by name (with `sort=__proto__`, the handler throws a TypeError) | every name that is not one of the four sort options sorts by name-asc | medium, not executed | Catalog.InheritedSortNameEscapesDefault | Catalog.ParseSortKey |
