/**
 * The mock catalog service (`src/mocks/handlers.ts`): the `GET /products`
 * query handler and the `GET /products/:id` lookup over a fixed collection of
 * products.
 *
 * Query parameters arrive already decoded: a missing parameter is `None`, a
 * present `page` or `limit` is an integer. Prices are integers.
 */
module Catalog {
  import opened Wrappers
  import Text
  import StableSort
  import Sequences

  datatype Product = Product(
    id: string,
    name: string,
    description: string,
    price: int,
    category: string,
    stock: int,
    image: Option<string>)

  /** The four sort options (the `SortOption` type). */
  datatype SortKey = NameAsc | NameDesc | PriceAsc | PriceDesc

  /** The decoded query string of a `GET /products` request. */
  datatype ProductsQuery = ProductsQuery(
    query: Option<string>,
    category: Option<string>,
    sort: Option<string>,
    page: Option<int>,
    limit: Option<int>)

  /** The JSON body of a `GET /products` response. */
  datatype ProductsResponse = ProductsResponse(
    items: seq<Product>,
    page: int,
    limit: int,
    totalPages: int,
    totalItems: int,
    categories: seq<string>)

  /** The outcome of `GET /products/:id`: the product, or status 404 with a message. */
  datatype ProductLookup = Found(product: Product) | NotFound(status: int, message: string)

  const DefaultPage := 1
  const DefaultLimit := 10

  function Max(a: int, b: int): int { if a < b then b else a }
  function Min(a: int, b: int): int { if a < b then a else b }

  /** The value of the `sort` query parameter for each option. */
  function SortKeyName(k: SortKey): string
  {
    match k
    case NameAsc => "name-asc"
    case NameDesc => "name-desc"
    case PriceAsc => "price-asc"
    case PriceDesc => "price-desc"
  }

  /** `sorters[sort] ?? sorters['name-asc']`: an unknown sort name selects name-asc. */
  function ParseSortKey(name: string): (k: SortKey)
    ensures name == SortKeyName(k) || k == NameAsc
    ensures name !in {"name-desc", "price-asc", "price-desc"} ==> k == NameAsc
  {
    if name == "name-desc" then NameDesc
    else if name == "price-asc" then PriceAsc
    else if name == "price-desc" then PriceDesc
    else NameAsc
  }

  /**
   * The properties a plain object such as `sorters` inherits from
   * `Object.prototype`: `sorters[name]` finds them although `sorters` does not
   * define them.
   */
  const InheritedNames: set<string> := {
    "__proto__", "__defineGetter__", "__defineSetter__", "__lookupGetter__", "__lookupSetter__",
    "constructor", "hasOwnProperty", "isPrototypeOf", "propertyIsEnumerable",
    "toLocaleString", "toString", "valueOf"}

  /** What `sorters[sort] ?? sorters['name-asc']` yields. */
  datatype SorterLookup =
    | OwnSorter(key: SortKey)           // one of the four comparators
    | InheritedMember(name: string)     // an `Object.prototype` member, not a comparator

  /**
   * `sorters[sort] ?? sorters['name-asc']` as written: `??` falls back only
   * when the property is missing, so an inherited name is not replaced by
   * name-asc.
   */
  function SorterAsWritten(name: string): (r: SorterLookup)
    ensures r.InheritedMember? <==> name in InheritedNames
    ensures r.InheritedMember? ==> r.name == name
    ensures r.OwnSorter? ==> r.key == ParseSortKey(name)
  {
    if name in InheritedNames then InheritedMember(name) else OwnSorter(ParseSortKey(name))
  }

  /**
   * `?sort=toString` passes the fallback as written and reaches the sort with
   * an inherited function, while every name the sorters do not define is meant
   * to sort by name-asc, as `ParseSortKey` does.
   */
  lemma InheritedSortNameEscapesDefault()
    ensures SorterAsWritten("toString") != OwnSorter(NameAsc)
    ensures ParseSortKey("toString") == NameAsc
  {
  }

  /** Every sort option survives the trip through its query-parameter value. */
  lemma ParseSortKeyName(k: SortKey)
    ensures ParseSortKey(SortKeyName(k)) == k
  {
  }

  /** `sorters[k]`: the comparator passed to `Array.prototype.sort`. */
  function Comparator(k: SortKey): (Product, Product) -> int
  {
    match k
    case NameAsc => (a: Product, b: Product) => Text.Compare(a.name, b.name)
    case NameDesc => (a: Product, b: Product) => Text.Compare(b.name, a.name)
    case PriceAsc => (a: Product, b: Product) => a.price - b.price
    case PriceDesc => (a: Product, b: Product) => b.price - a.price
  }

  /** Every comparator is one that `Array.prototype.sort` can sort with. */
  lemma ComparatorConsistent(k: SortKey)
    ensures StableSort.Consistent(Comparator(k))
  {
    var cmp := Comparator(k);
    forall a, b ensures StableSort.SignsAgree(cmp, a, b) {
      Text.CompareAntisymmetric(a.name, b.name);
    }
    forall a, b, c ensures StableSort.NotAfterChains(cmp, a, b, c) {
      if cmp(a, b) <= 0 && cmp(b, c) <= 0 {
        if k == NameAsc {
          Text.CompareTransitive(a.name, b.name, c.name);
        } else if k == NameDesc {
          Text.CompareTransitive(c.name, b.name, a.name);
        }
      }
    }
  }

  /** `(a, b) => a.localeCompare(b)`, the comparator the category list is sorted with. */
  function CategoryOrder(): (string, string) -> int
  {
    (a: string, b: string) => Text.Compare(a, b)
  }

  lemma CategoryOrderConsistent()
    ensures StableSort.Consistent(CategoryOrder())
  {
    var cmp := CategoryOrder();
    forall a, b ensures StableSort.SignsAgree(cmp, a, b) {
      Text.CompareAntisymmetric(a, b);
    }
    forall a, b, c ensures StableSort.NotAfterChains(cmp, a, b, c) {
      if cmp(a, b) <= 0 && cmp(b, c) <= 0 {
        Text.CompareTransitive(a, b, c);
      }
    }
  }

  /** `products.map((product) => product.category)`. */
  function CategoriesOf(products: seq<Product>): (r: seq<string>)
    ensures |r| == |products|
    ensures forall i :: 0 <= i < |products| ==> r[i] == products[i].category
  {
    if products == [] then [] else [products[0].category] + CategoriesOf(products[1..])
  }

  /** `Array.from(new Set(s))`: the first occurrence of every value, in order. */
  function Distinct(s: seq<string>): (r: seq<string>)
    ensures forall x :: x in r <==> x in s
    ensures forall i, j :: 0 <= i < j < |r| ==> r[i] != r[j]
  {
    if s == [] then []
    else
      var d := Distinct(s[..|s| - 1]);
      assert s == s[..|s| - 1] + [s[|s| - 1]];
      if s[|s| - 1] in d then d else d + [s[|s| - 1]]
  }

  /** The module-level `categories` constant: the distinct categories, in collation order. */
  function CategoryList(products: seq<Product>): seq<string>
  {
    StableSort.Sort(Distinct(CategoriesOf(products)), CategoryOrder())
  }

  /** Two equal elements at distinct positions make a value occur at least twice. */
  lemma RepeatedOccursTwice(s: seq<string>, i: int, j: int)
    requires 0 <= i < j < |s| && s[i] == s[j]
    ensures multiset(s)[s[i]] >= 2
  {
    assert s == s[..j] + s[j..];
    assert s[i] in s[..j];
    assert s[j] in s[j..];
    assert multiset(s) == multiset(s[..j]) + multiset(s[j..]);
  }

  /** A value occurs at most once in a sequence whose positions hold distinct values. */
  lemma {:induction false} DistinctOccursOnce(s: seq<string>, x: string)
    requires forall i, j :: 0 <= i < j < |s| ==> s[i] != s[j]
    ensures multiset(s)[x] <= 1
  {
    if s != [] {
      DistinctOccursOnce(s[1..], x);
      assert s == [s[0]] + s[1..];
      if s[0] == x {
        assert x !in s[1..];
      }
    }
  }

  /** The category list is strictly increasing in collation order: sorted and free of duplicates. */
  lemma CategoryListIncreasing(products: seq<Product>)
    ensures forall i, j :: 0 <= i < j < |CategoryList(products)| ==>
      Text.Compare(CategoryList(products)[i], CategoryList(products)[j]) < 0
  {
    var d := Distinct(CategoriesOf(products));
    var r := CategoryList(products);
    CategoryOrderConsistent();
    StableSort.SortSorted(d, CategoryOrder());
    forall i, j | 0 <= i < j < |r| ensures Text.Compare(r[i], r[j]) < 0 {
      assert CategoryOrder()(r[i], r[j]) <= 0;
      if r[i] == r[j] {
        RepeatedOccursTwice(r, i, j);
        DistinctOccursOnce(d, r[i]);
        assert false;
      }
    }
  }

  /** The category list holds exactly the categories of the collection's products. */
  lemma CategoryListExact(products: seq<Product>)
    ensures forall c :: c in CategoryList(products) <==> exists p :: p in products && p.category == c
  {
    var all := CategoriesOf(products);
    var d := Distinct(all);
    var r := CategoryList(products);
    forall c ensures c in r <==> exists p :: p in products && p.category == c {
      assert c in r <==> c in multiset(d);
      if c in all {
        var i :| 0 <= i < |all| && all[i] == c;
        assert products[i] in products;
      }
      if p :| p in products && p.category == c {
        var i :| 0 <= i < |products| && products[i] == p;
        assert all[i] == c;
      }
    }
  }

  /** `product.name.toLowerCase().includes(query)`, for a lower-cased `query`. */
  predicate NameMatches(p: Product, query: string)
  {
    Text.Includes(Text.ToLower(p.name), query)
  }

  /**
   * A product the query selects: its lower-cased name includes the lower-cased
   * search text (an empty text selects everything), and its category is the
   * requested one (`''` and `'all'` select every category).
   */
  predicate Selected(p: Product, query: string, category: string)
  {
    && (query == "" || NameMatches(p, query))
    && (category == "" || category == "all" || p.category == category)
  }

  /** The selected products, in collection order. */
  function Matching(products: seq<Product>, query: string, category: string): seq<Product>
  {
    Sequences.Filter(products, (p: Product) => Selected(p, query, category))
  }

  /** `Math.max(1, Math.ceil(totalItems / limit))`. */
  function TotalPages(totalItems: nat, limit: int): (r: int)
    requires limit >= 1
    ensures r >= 1
    ensures totalItems == 0 ==> r == 1
    ensures totalItems > 0 ==> PagesCover(totalItems, r, limit)
  {
    var pages := (totalItems + limit - 1) / limit;
    assert pages * limit <= totalItems + limit - 1 < (pages + 1) * limit;
    Max(1, pages)
  }

  /** `pages` pages of `limit` items are the fewest that hold `total` items. */
  predicate PagesCover(total: int, pages: int, limit: int)
  {
    (pages - 1) * limit < total <= pages * limit
  }

  /** The query parameters after the defaults and the lower bounds of lines 20-24. */
  datatype Normalized = Normalized(query: string, category: string, key: SortKey, page: int, limit: int)

  function Normalize(q: ProductsQuery): (n: Normalized)
    ensures n.page >= 1 && n.limit >= 1
    ensures n.page == Max(1, q.page.GetOr(DefaultPage))
    ensures n.limit == Max(1, q.limit.GetOr(DefaultLimit))
  {
    Normalized(
      Text.ToLower(q.query.GetOr("")),
      q.category.GetOr("all"),
      ParseSortKey(q.sort.GetOr("name-asc")),
      Max(1, q.page.GetOr(DefaultPage)),
      Max(1, q.limit.GetOr(DefaultLimit)))
  }

  /** The selected products in the order of the requested sort. */
  function Ordered(products: seq<Product>, n: Normalized): seq<Product>
  {
    StableSort.Sort(Matching(products, n.query, n.category), Comparator(n.key))
  }

  /** The index of the first item of a page: `(page - 1) * limit`. */
  function PageStart(page: int, limit: int): int
  {
    (page - 1) * limit
  }

  /** The position, counted from one, of a page's first item: `(page - 1) * limit + 1`. */
  function FirstShown(page: int, limit: int): int
  {
    (page - 1) * limit + 1
  }

  /** The position, counted from one, of a page's last item: `min(total, page * limit)`. */
  function LastShown(total: int, page: int, limit: int): int
  {
    Min(total, page * limit)
  }

  /** One page of a sequence: the page actually served, the page count and the items. */
  datatype Page = Page(items: seq<Product>, page: int, totalPages: int)

  /**
   * Lines 41-45: the page count, the requested page clamped to the last page,
   * and the slice of `limit` items that starts at that page.
   */
  function Paginate(ordered: seq<Product>, page: int, limit: int): Page
    requires page >= 1 && limit >= 1
  {
    var totalPages := TotalPages(|ordered|, limit);
    var current := Min(page, totalPages);
    var start := PageStart(current, limit);
    Page(Sequences.Slice(ordered, start, start + limit), current, totalPages)
  }

  /** The response `GET /products` gives for the query. */
  function Evaluate(products: seq<Product>, q: ProductsQuery): ProductsResponse
  {
    var n := Normalize(q);
    var ordered := Ordered(products, n);
    var pg := Paginate(ordered, n.page, n.limit);
    ProductsResponse(pg.items, pg.page, n.limit, pg.totalPages, |ordered|, CategoryList(products))
  }

  /**
   * The `GET /products` handler: narrows a copy of the collection by the search
   * text, then by the category, sorts it, and serves the requested page.
   */
  method GetProducts(products: seq<Product>, q: ProductsQuery) returns (r: ProductsResponse)
    ensures r == Evaluate(products, q)
  {
    var query := Text.ToLower(q.query.GetOr(""));
    var category := q.category.GetOr("all");
    var key := ParseSortKey(q.sort.GetOr("name-asc"));
    var page := Max(1, q.page.GetOr(DefaultPage));
    var limit := Max(1, q.limit.GetOr(DefaultLimit));

    var filtered := SelectProducts(products, query, category);
    filtered := StableSort.Sort(filtered, Comparator(key));
    ghost var n := Normalize(q);
    assert n == Normalized(query, category, key, page, limit);
    assert filtered == Ordered(products, n);

    var totalItems := |filtered|;
    var totalPages := TotalPages(totalItems, limit);
    var currentPage := Min(page, totalPages);
    var start := PageStart(currentPage, limit);
    var items := Sequences.Slice(filtered, start, start + limit);
    assert Paginate(filtered, page, limit) == Page(items, currentPage, totalPages);
    r := ProductsResponse(items, currentPage, limit, totalPages, totalItems, CategoryList(products));
  }

  /**
   * The handler's filter steps on a copy of the collection: by name when there
   * is a search text, then by category unless it is `''` or `'all'`.
   */
  method SelectProducts(products: seq<Product>, query: string, category: string) returns (filtered: seq<Product>)
    ensures filtered == Matching(products, query, category)
  {
    filtered := products;
    if query != "" {
      filtered := Sequences.Filter(filtered, (p: Product) => NameMatches(p, query));
    }
    if category != "" && category != "all" {
      filtered := Sequences.Filter(filtered, (p: Product) => p.category == category);
    }
    FilteredIsMatching(products, query, category);
  }

  /** The handler's conditional filter steps select exactly `Matching`. */
  lemma FilteredIsMatching(products: seq<Product>, query: string, category: string)
    ensures var byName := if query != "" then Sequences.Filter(products, (p: Product) => NameMatches(p, query)) else products;
            (if category != "" && category != "all"
             then Sequences.Filter(byName, (p: Product) => p.category == category)
             else byName) == Matching(products, query, category)
  {
    var keep := (p: Product) => Selected(p, query, category);
    var byQuery := (p: Product) => NameMatches(p, query);
    var byCategory := (p: Product) => p.category == category;
    if query != "" && category != "" && category != "all" {
      Sequences.FilterFilter(products, byQuery, byCategory, keep);
    } else if query != "" {
      Sequences.FilterSameVerdict(products, byQuery, keep);
    } else if category != "" && category != "all" {
      Sequences.FilterSameVerdict(products, byCategory, keep);
    } else {
      Sequences.FilterKeepsAll(products, keep);
    }
  }

  /** `products.find((item) => item.id === id)`: the first product with that id. */
  function FindById(products: seq<Product>, id: string): (r: Option<Product>)
    ensures r.None? <==> forall i :: 0 <= i < |products| ==> products[i].id != id
    ensures r.Some? ==> r.value.id == id
    ensures r.Some? ==> exists i :: (0 <= i < |products| && products[i] == r.value &&
                                     forall j :: 0 <= j < i ==> products[j].id != id)
  {
    if products == [] then None
    else if products[0].id == id then Some(products[0])
    else
      FindById(products[1..], id)
  }

  /** The `GET /products/:id` handler: the product, or 404 `Not found`. */
  function GetProduct(products: seq<Product>, id: string): (r: ProductLookup)
    ensures r.NotFound? <==> forall p :: p in products ==> p.id != id
    ensures r.NotFound? ==> r.status == 404 && r.message == "Not found"
    ensures r.Found? ==> r.product in products && r.product.id == id
    ensures r.Found? ==> Some(r.product) == FindById(products, id)
  {
    match FindById(products, id)
    case Some(p) => Found(p)
    case None => NotFound(404, "Not found")
  }
}
