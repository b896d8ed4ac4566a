/**
 * What `GET /products` promises for every collection and every query:
 * page bounds, page contents, filter soundness and completeness, ordering,
 * the category list, and the normalisation of out-of-range parameters.
 */
module CatalogProperties {
  import opened Wrappers
  import Text
  import StableSort
  import Sequences
  import opened Catalog

  lemma MulMonotone(a: int, b: int, c: int)
    requires a <= b && c >= 0
    ensures a * c <= b * c
  {
  }

  /**
   * Page arithmetic: the page count is `max(1, ceil(|ordered| / limit))`, the
   * served page lies in `[1, totalPages]` and is the requested one clamped to
   * the last page, and the items are the slice of `ordered` that starts at
   * `(page - 1) * limit`: `limit` items on every page but the last, the rest on
   * the last, and at least one whenever `ordered` is not empty.
   */
  lemma PaginateWindow(ordered: seq<Product>, page: int, limit: int)
    requires page >= 1 && limit >= 1
    ensures var pg := Paginate(ordered, page, limit);
      var total, start := |ordered|, PageStart(pg.page, limit);
      && pg.totalPages >= 1
      && (total == 0 ==> pg.totalPages == 1)
      && (total > 0 ==> PagesCover(total, pg.totalPages, limit))
      && 1 <= pg.page <= pg.totalPages
      && pg.page == Min(page, pg.totalPages)
      && 0 <= start <= start + |pg.items| <= total
      && pg.items == ordered[start..start + |pg.items|]
      && |pg.items| <= limit
      && (pg.page < pg.totalPages ==> |pg.items| == limit)
      && (pg.page == pg.totalPages ==> |pg.items| == total - start)
      && (total > 0 ==> |pg.items| >= 1)
  {
    var pg := Paginate(ordered, page, limit);
    var total, current := |ordered|, pg.page;
    var start := PageStart(current, limit);
    MulMonotone(0, current - 1, limit);
    MulMonotone(current - 1, pg.totalPages - 1, limit);
    if current < pg.totalPages {
      MulMonotone(current, pg.totalPages - 1, limit);
      assert start + limit == current * limit;
    } else {
      assert start + limit == pg.totalPages * limit;
    }
    assert start <= total;
    assert pg.items == ordered[start..if start + limit <= total then start + limit else total];
  }

  /** Every item of a page comes from the sequence it pages. */
  lemma PaginateItemsFrom(ordered: seq<Product>, page: int, limit: int)
    requires page >= 1 && limit >= 1
    ensures forall p :: p in Paginate(ordered, page, limit).items ==> p in ordered
  {
    PaginateWindow(ordered, page, limit);
  }

  /** A page of a sorted sequence is sorted. */
  lemma PaginateSorted(ordered: seq<Product>, page: int, limit: int, cmp: (Product, Product) -> int)
    requires page >= 1 && limit >= 1
    requires StableSort.SortedBy(ordered, cmp)
    ensures StableSort.SortedBy(Paginate(ordered, page, limit).items, cmp)
  {
    PaginateWindow(ordered, page, limit);
    var pg := Paginate(ordered, page, limit);
    var start := PageStart(pg.page, limit);
    StableSort.SortedSlice(ordered, start, start + |pg.items|, cmp);
  }

  /** `Evaluate` serves `Paginate` of the ordered selection, with the normalised limit. */
  lemma EvaluateIsPaginate(products: seq<Product>, q: ProductsQuery)
    ensures var r, n := Evaluate(products, q), Normalize(q);
      var pg := Paginate(Ordered(products, n), n.page, n.limit);
      && r.items == pg.items && r.page == pg.page && r.totalPages == pg.totalPages
      && r.limit == n.limit && r.totalItems == |Ordered(products, n)|
      && r.totalItems == |Matching(products, n.query, n.category)|
      && r.categories == CategoryList(products)
  {
  }

  /** There is more than one page exactly when the items do not fit in one page. */
  lemma SeveralPages(total: int, totalPages: int, limit: int)
    requires limit >= 1 && totalPages >= 1
    requires total <= 0 ==> totalPages == 1
    requires total > 0 ==> PagesCover(total, totalPages, limit)
    ensures totalPages > 1 <==> total > limit
  {
    if totalPages > 1 {
      MulMonotone(1, totalPages - 1, limit);
    }
  }

  /** The positions, counted from one, that a page of `count` products covers within `total`. */
  lemma RangeArithmetic(page: int, totalPages: int, limit: int, total: int, count: int)
    requires 1 <= page <= totalPages && limit >= 1
    requires PagesCover(total, totalPages, limit)
    requires page < totalPages ==> count == limit
    requires page == totalPages ==> count == total - PageStart(page, limit)
    ensures var first, last := FirstShown(page, limit), LastShown(total, page, limit);
      1 <= first <= last <= total && last - first + 1 == count
  {
    assert page * limit == (page - 1) * limit + limit;
    MulMonotone(1, page, limit);
    if page < totalPages {
      MulMonotone(page, totalPages - 1, limit);
    }
  }

  /**
   * An empty selection serves no items; a page of a non-empty selection covers positions `first..last`, counted
   * from one, with `first = (page - 1) * limit + 1` and
   * `last = min(total, page * limit)`: both lie within the total and they
   * span exactly the page's items.
   */
  lemma PaginateRange(ordered: seq<Product>, page: int, limit: int)
    requires page >= 1 && limit >= 1
    ensures var pg, total := Paginate(ordered, page, limit), |ordered|;
      var first, last := FirstShown(pg.page, limit), LastShown(total, pg.page, limit);
      && (total == 0 ==> pg.items == [])
      && (total > 0 ==> 1 <= first <= last <= total && last - first + 1 == |pg.items|)
  {
    PaginateWindow(ordered, page, limit);
    var pg := Paginate(ordered, page, limit);
    if |ordered| > 0 {
      RangeArithmetic(pg.page, pg.totalPages, limit, |ordered|, |pg.items|);
    }
  }

  /** `PaginateRange` for the served response. */
  lemma EvaluateRange(products: seq<Product>, q: ProductsQuery)
    ensures var r := Evaluate(products, q);
      var first, last := FirstShown(r.page, r.limit), LastShown(r.totalItems, r.page, r.limit);
      && (r.totalItems == 0 ==> r.items == [])
      && (r.totalItems > 0 ==> 1 <= first <= last <= r.totalItems && last - first + 1 == |r.items|)
  {
    var n := Normalize(q);
    EvaluateIsPaginate(products, q);
    PaginateRange(Ordered(products, n), n.page, n.limit);
  }

  /**
   * The response's page facts: `totalPages = max(1, ceil(totalItems / limit))`,
   * the served page is in `[1, totalPages]`, a request beyond the last page
   * serves the last page, and the items are the page's slice of the ordered
   * selection.
   */
  lemma EvaluatePaging(products: seq<Product>, q: ProductsQuery)
    ensures var r, n := Evaluate(products, q), Normalize(q);
      var start := PageStart(r.page, r.limit);
      && r.limit == n.limit >= 1
      && r.totalPages >= 1
      && (r.totalItems == 0 ==> r.totalPages == 1)
      && (r.totalItems > 0 ==> PagesCover(r.totalItems, r.totalPages, r.limit))
      && 1 <= r.page <= r.totalPages
      && (n.page >= r.totalPages ==> r.page == r.totalPages)
      && (n.page < r.totalPages ==> r.page == n.page)
      && r.totalItems == |Ordered(products, n)|
      && 0 <= start <= start + |r.items| <= r.totalItems
      && |r.items| <= r.limit
      && (r.page < r.totalPages ==> |r.items| == r.limit)
      && (r.totalItems > 0 ==> |r.items| >= 1)
  {
    var n := Normalize(q);
    EvaluateIsPaginate(products, q);
    PaginateWindow(Ordered(products, n), n.page, n.limit);
  }

  /** Every served item is a product of the collection that both filters select. */
  lemma EvaluateItemsSelected(products: seq<Product>, q: ProductsQuery)
    ensures var r, n := Evaluate(products, q), Normalize(q);
      forall p :: p in r.items ==> p in products && Selected(p, n.query, n.category)
  {
    var n := Normalize(q);
    var ordered := Ordered(products, n);
    EvaluateIsPaginate(products, q);
    PaginateItemsFrom(ordered, n.page, n.limit);
    forall p | p in ordered ensures p in products && Selected(p, n.query, n.category) {
      assert p in multiset(ordered);
    }
  }

  /**
   * The selection is complete: every product both filters select is in the
   * ordered result (as often as in the collection), and nothing else is, so
   * `totalItems` counts the selected products of the collection.
   */
  lemma EvaluateSelectionComplete(products: seq<Product>, q: ProductsQuery, p: Product)
    ensures var n := Normalize(q);
      multiset(Ordered(products, n))[p] ==
        if Selected(p, n.query, n.category) then multiset(products)[p] else 0
  {
    var n := Normalize(q);
    Sequences.FilterMultiplicity(products, (x: Product) => Selected(x, n.query, n.category), p);
  }

  /**
   * The selection keeps collection order: selecting from two parts of a
   * collection and concatenating gives the selection of the whole.
   */
  lemma MatchingKeepsOrder(front: seq<Product>, back: seq<Product>, query: string, category: string)
    ensures Matching(front + back, query, category) ==
      Matching(front, query, category) + Matching(back, query, category)
  {
    Sequences.FilterAppend(front, back, (x: Product) => Selected(x, query, category));
  }

  /**
   * The ordered selection is sorted by the chosen comparator and keeps the
   * collection order among the products the comparator ties; any stable sort
   * of the selection is this very sequence.
   */
  lemma OrderedSortedStable(products: seq<Product>, n: Normalized)
    ensures StableSort.SortedBy(Ordered(products, n), Comparator(n.key))
    ensures StableSort.StableFor(Ordered(products, n), Matching(products, n.query, n.category), Comparator(n.key))
    ensures forall out ::
      (StableSort.SortedBy(out, Comparator(n.key)) &&
       StableSort.StableFor(out, Matching(products, n.query, n.category), Comparator(n.key)))
      ==> out == Ordered(products, n)
  {
    var cmp := Comparator(n.key);
    var m := Matching(products, n.query, n.category);
    ComparatorConsistent(n.key);
    StableSort.SortSorted(m, cmp);
    StableSort.SortStable(m, cmp);
    forall out | StableSort.SortedBy(out, cmp) && StableSort.StableFor(out, m, cmp)
      ensures out == Ordered(products, n)
    {
      StableSort.SortIsTheStableSort(m, out, cmp);
    }
  }

  /** Every served page is in the order of the requested sort. */
  lemma EvaluatePageSorted(products: seq<Product>, q: ProductsQuery)
    ensures StableSort.SortedBy(Evaluate(products, q).items, Comparator(Normalize(q).key))
  {
    var n := Normalize(q);
    OrderedSortedStable(products, n);
    EvaluateIsPaginate(products, q);
    PaginateSorted(Ordered(products, n), n.page, n.limit, Comparator(n.key));
  }

  /**
   * The category list comes from the whole collection: it is the same for
   * every query, strictly increasing in collation order, and holds exactly the
   * categories of the collection's products.
   */
  lemma EvaluateCategories(products: seq<Product>, q: ProductsQuery, q': ProductsQuery)
    ensures Evaluate(products, q).categories == Evaluate(products, q').categories
    ensures var cs := Evaluate(products, q).categories;
      && (forall i, j :: 0 <= i < j < |cs| ==> Text.Compare(cs[i], cs[j]) < 0)
      && (forall c :: c in cs <==> exists p :: p in products && p.category == c)
  {
    CategoryListIncreasing(products);
    CategoryListExact(products);
  }

  /** A missing or unknown sort name sorts exactly as `name-asc` does. */
  lemma UnknownSortIsNameAsc(products: seq<Product>, q: ProductsQuery)
    requires q.sort.None? || q.sort.value !in {"name-asc", "name-desc", "price-asc", "price-desc"}
    ensures Evaluate(products, q) == Evaluate(products, q.(sort := Some("name-asc")))
  {
  }

  /** The search ignores the case of the query: its lower-case form serves the same response. */
  lemma SearchIgnoresCase(products: seq<Product>, q: ProductsQuery)
    ensures Evaluate(products, q.(query := Some(Text.ToLower(q.query.GetOr(""))))) == Evaluate(products, q)
  {
    Text.ToLowerIdempotent(q.query.GetOr(""));
  }

  /** Searching for a product's own name, in any case, keeps that product in the selection. */
  lemma SearchForOwnNameSelects(products: seq<Product>, q: ProductsQuery, p: Product)
    requires p in products
    requires q.query.Some? && Text.ToLower(q.query.value) == Text.ToLower(p.name)
    requires q.category.None?
    ensures p in Ordered(products, Normalize(q))
  {
    var n := Normalize(q);
    Text.IncludesTrivial(Text.ToLower(p.name));
    assert Selected(p, n.query, n.category);
    assert p in multiset(Ordered(products, n));
  }

  /**
   * Typing more of a search text never widens the selection: a product the
   * longer text selects is selected by every text it includes.
   */
  lemma LongerSearchNarrows(products: seq<Product>, shorter: string, longer: string, category: string, p: Product)
    requires Text.Includes(longer, shorter)
    requires p in Matching(products, longer, category)
    ensures p in Matching(products, shorter, category)
  {
    assert Selected(p, longer, category);
    if shorter != "" {
      Text.IncludesTransitive(Text.ToLower(p.name), longer, shorter);
    }
  }

  /** A page number below 1 serves page 1. */
  lemma PageBelowOneIsFirst(products: seq<Product>, q: ProductsQuery)
    requires q.page.Some? && q.page.value < 1
    ensures Evaluate(products, q) == Evaluate(products, q.(page := Some(1)))
    ensures Evaluate(products, q).page == 1
  {
  }

  /** An empty collection gives an empty first and only page and no categories. */
  lemma EvaluateEmptyCollection(q: ProductsQuery)
    ensures var r := Evaluate([], q);
      r.items == [] && r.totalItems == 0 && r.totalPages == 1 && r.page == 1 && r.categories == []
  {
  }

  /**
   * A category no product has selects nothing: page 1 of 1 with no items,
   * while the category list still names every category of the collection.
   */
  lemma UnusedCategorySelectsNothing(products: seq<Product>, q: ProductsQuery)
    requires q.category.Some? && q.category.value != "" && q.category.value != "all"
    requires forall p :: p in products ==> p.category != q.category.value
    ensures var r := Evaluate(products, q);
      && r.items == [] && r.totalItems == 0 && r.totalPages == 1 && r.page == 1
      && r.categories == CategoryList(products)
  {
    var n := Normalize(q);
    Sequences.FilterKeepsNone(products, (p: Product) => Selected(p, n.query, n.category));
    EvaluateIsPaginate(products, q);
  }

  /** With no search text and no category every product is selected. */
  lemma NoFiltersSelectAll(products: seq<Product>, q: ProductsQuery)
    requires q.query.None? && q.category.None?
    ensures Matching(products, Normalize(q).query, Normalize(q).category) == products
  {
    var n := Normalize(q);
    Sequences.FilterKeepsAll(products, (p: Product) => Selected(p, n.query, n.category));
  }

  /** 25 products at 10 per page: page 3 is the last of 3 pages and holds 5 items. */
  lemma ThirdPageOfTwentyFive(products: seq<Product>, q: ProductsQuery)
    requires |products| == 25
    requires q == ProductsQuery(None, None, None, Some(3), Some(10))
    ensures var r := Evaluate(products, q);
      |r.items| == 5 && r.totalItems == 25 && r.totalPages == 3 && r.page == 3
  {
    NoFiltersSelectAll(products, q);
    EvaluatePaging(products, q);
  }

  lemma LowerAurora()
    ensures Text.ToLower("Aurora") == "aurora"
  {
  }

  lemma AuroraNameMatches(lamp: Product)
    requires lamp.name == "Aurora Desk Lamp"
    ensures NameMatches(lamp, "aurora")
  {
    Text.ToLowerPrefix(lamp.name, 6);
    assert lamp.name[..6] == "Aurora";
    LowerAurora();
    assert Text.OccursAt(Text.ToLower(lamp.name), "aurora", 0);
  }

  /** The search text "Aurora" is lower-cased to "aurora"; the other parameters are the defaults. */
  lemma AuroraQuery(q: ProductsQuery)
    requires q == ProductsQuery(Some("Aurora"), Some("all"), Some("name-asc"), Some(1), Some(10))
    ensures Normalize(q) == Normalized("aurora", "all", NameAsc, 1, 10)
  {
    LowerAurora();
  }

  /** A sequence holding exactly one occurrence of `x` and nothing else is `[x]`. */
  lemma SingletonMultiset(s: seq<Product>, x: Product)
    requires multiset(s) == multiset{x}
    ensures s == [x]
  {
    assert |s| == |multiset(s)| == 1;
    assert s[0] in multiset(s);
  }

  /** With the lamp the only product whose name contains "aurora", the search selects just the lamp. */
  lemma AuroraMatching(products: seq<Product>, lamp: Product)
    requires lamp.name == "Aurora Desk Lamp" && multiset(products)[lamp] == 1
    requires forall p :: p in products && p != lamp ==> !NameMatches(p, "aurora")
    ensures Matching(products, "aurora", "all") == [lamp]
  {
    var keep := (p: Product) => Selected(p, "aurora", "all");
    var m := Matching(products, "aurora", "all");
    forall p ensures multiset(m)[p] == multiset{lamp}[p] {
      Sequences.FilterMultiplicity(products, keep, p);
      if p == lamp {
        AuroraNameMatches(lamp);
      }
    }
    assert multiset(m) == multiset{lamp};
    SingletonMultiset(m, lamp);
  }

  /**
   * Typing "Aurora" into the search box, when "Aurora Desk Lamp" occurs once
   * and no other name contains "aurora", lists that one lamp on page 1 of 1.
   */
  lemma AuroraSearch(products: seq<Product>, lamp: Product, q: ProductsQuery)
    requires lamp.name == "Aurora Desk Lamp" && multiset(products)[lamp] == 1
    requires forall p :: p in products && p != lamp ==> !NameMatches(p, "aurora")
    requires q == ProductsQuery(Some("Aurora"), Some("all"), Some("name-asc"), Some(1), Some(10))
    ensures var r := Evaluate(products, q);
      r.items == [lamp] && r.totalItems == 1 && r.totalPages == 1 && r.page == 1
  {
    var n := Normalize(q);
    AuroraQuery(q);
    AuroraMatching(products, lamp);
    assert Ordered(products, n) == [lamp];
    EvaluateIsPaginate(products, q);
    PaginateWindow([lamp], 1, 10);
  }
}
