/**
 * The `Pagination` component (`src/components/Pagination.tsx`): the
 * Previous and Next buttons emit `page - 1` or `page + 1` to `onChange`,
 * each only when its guard holds.
 */
module Pagination {
  import opened Wrappers

  /** `canGoBack`. */
  predicate CanGoBack(page: int)
  {
    page > 1
  }

  /** `canGoForward`. */
  predicate CanGoForward(page: int, totalPages: int)
  {
    page < totalPages
  }

  /** What a click on Previous passes to `onChange`, if anything. */
  function OnPrevious(page: int): (emitted: Option<int>)
    ensures emitted.Some? <==> page > 1
    ensures emitted.Some? ==> emitted.value == page - 1 && emitted.value >= 1
  {
    if CanGoBack(page) then Some(page - 1) else None
  }

  /** What a click on Next passes to `onChange`, if anything. */
  function OnNext(page: int, totalPages: int): (emitted: Option<int>)
    ensures emitted.Some? <==> page < totalPages
    ensures emitted.Some? ==> emitted.value == page + 1 && emitted.value <= totalPages
  {
    if CanGoForward(page, totalPages) then Some(page + 1) else None
  }
}
