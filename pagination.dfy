/** The pagination bar: the page count, the guarded page change, the windowed
    list of page numbers with ellipses, and the navigation buttons. */
module Pagination {
  import opened Wrappers
  import opened Text

  /** `Math.ceil(total / itemsPerPage)`: the fewest pages that hold `total` items. */
  function TotalPages(total: nat, itemsPerPage: nat): (t: nat)
    requires itemsPerPage > 0
    ensures total <= t * itemsPerPage
    ensures t == 0 || (t - 1) * itemsPerPage < total
  {
    (total + itemsPerPage - 1) / itemsPerPage
  }

  /** No other page count is a ceiling: `TotalPages` is the only one. */
  lemma TotalPagesUnique(total: nat, itemsPerPage: nat, t: nat)
    requires itemsPerPage > 0
    requires total <= t * itemsPerPage && (t == 0 || (t - 1) * itemsPerPage < total)
    ensures t == TotalPages(total, itemsPerPage)
  {
    var c := TotalPages(total, itemsPerPage);
    if t < c {
      MulMonotone(t, c - 1, itemsPerPage);
    } else if c < t {
      MulMonotone(c, t - 1, itemsPerPage);
    }
  }

  lemma {:induction false} MulMonotone(a: int, b: int, k: nat)
    requires a <= b
    ensures a * k <= b * k
  {
    if k > 0 {
      MulMonotone(a, b, k - 1);
      assert a * k == a * (k - 1) + a && b * k == b * (k - 1) + b;
    }
  }

  /** Nothing to page through means no page at all. */
  lemma NoItemsNoPages(itemsPerPage: nat)
    requires itemsPerPage > 0
    ensures TotalPages(0, itemsPerPage) == 0
  {
  }

  /** `goToPage(p)`: the page handed to `setPage`, or `None` when `p` is out of
      range and nothing is set. */
  function GoToPage(totalPages: nat, p: int): (target: Option<int>)
    ensures target.Some? <==> 1 <= p <= totalPages
    ensures target.Some? ==> target.value == p
  {
    if p >= 1 && p <= totalPages then Some(p) else None
  }

  /** The current page after a `goToPage` call. */
  function PageAfter(page: int, target: Option<int>): int {
    match target
    case Some(p) => p
    case None => page
  }

  /** A page in range stays in range whatever page is asked for. */
  lemma GoToPageKeepsRange(page: int, totalPages: nat, p: int)
    requires 1 <= page <= totalPages
    ensures 1 <= PageAfter(page, GoToPage(totalPages, p)) <= totalPages
  {
  }

  // ---------------------------------------------------------------------------
  // The page-number list

  /** A page button or an ellipsis. */
  datatype PageEntry = Num(n: int) | Dots

  /** The pages `lo, lo + 1, ..., lo + count - 1`. */
  function Run(lo: int, count: nat): (r: seq<PageEntry>)
    ensures |r| == count
    ensures forall k :: 0 <= k < count ==> r[k] == Num(lo + k)
  {
    seq(count, k requires 0 <= k < count => Num(lo + k))
  }

  /** The list `renderPageNumbers` shows. */
  function PageList(page: int, totalPages: nat): (r: seq<PageEntry>)
    ensures |r| <= 7
    ensures r == [] <==> totalPages == 0
  {
    var t := totalPages;
    if t <= 5 then Run(1, t)
    else if page <= 3 then [Num(1), Num(2), Num(3), Dots, Num(t)]
    else if page >= t - 2 then [Num(1), Dots, Num(t - 2), Num(t - 1), Num(t)]
    else [Num(1), Dots, Num(page - 1), Num(page), Num(page + 1), Dots, Num(t)]
  }

  /** `renderPageNumbers`: up to five pages are listed one by one; beyond that
      one of three fixed windows is pushed. */
  method RenderPageNumbers(page: int, totalPages: nat) returns (pages: seq<PageEntry>)
    ensures pages == PageList(page, totalPages)
  {
    pages := [];
    if totalPages <= 5 {
      var i := 1;
      while i <= totalPages
        invariant 1 <= i <= totalPages + 1
        invariant pages == Run(1, i - 1)
      {
        pages := pages + [Num(i)];
        i := i + 1;
      }
    } else {
      if page <= 3 {
        pages := pages + [Num(1), Num(2), Num(3), Dots, Num(totalPages)];
      } else if page >= totalPages - 2 {
        pages := pages + [Num(1), Dots, Num(totalPages - 2), Num(totalPages - 1), Num(totalPages)];
      } else {
        pages := pages + [Num(1), Dots, Num(page - 1), Num(page), Num(page + 1), Dots, Num(totalPages)];
      }
    }
  }

  /** Every listed page exists, whatever the current page is. */
  lemma PageListInRange(page: int, totalPages: nat)
    ensures forall k :: 0 <= k < |PageList(page, totalPages)| && PageList(page, totalPages)[k].Num? ==>
      1 <= PageList(page, totalPages)[k].n <= totalPages
  {
  }

  /** The listed pages strictly increase from left to right. */
  lemma PageListIncreasing(page: int, totalPages: nat)
    ensures var l := PageList(page, totalPages);
      forall i, j :: 0 <= i < j < |l| && l[i].Num? && l[j].Num? ==> l[i].n < l[j].n
  {
  }

  /** The bar never holds more than seven entries, and holds exactly
      `1..totalPages` when there are at most five pages. */
  lemma PageListSize(page: int, totalPages: nat)
    ensures |PageList(page, totalPages)| <= 7
    ensures totalPages <= 5 ==> PageList(page, totalPages) == Run(1, totalPages)
    ensures PageList(page, totalPages) == [] <==> totalPages == 0
  {
  }

  /** Ellipses stand exactly for skipped pages: side by side pages are
      consecutive, and an ellipsis sits between two pages at least two apart. */
  lemma PageListGaps(page: int, totalPages: nat)
    ensures var l := PageList(page, totalPages);
      forall k :: 0 <= k < |l| - 1 && l[k].Num? && l[k + 1].Num? ==> l[k + 1].n == l[k].n + 1
    ensures var l := PageList(page, totalPages);
      forall k :: 0 <= k < |l| && l[k].Dots? ==>
        0 < k < |l| - 1 && l[k - 1].Num? && l[k + 1].Num? && l[k + 1].n >= l[k - 1].n + 2
  {
  }

  /** The bar runs from the first page to the last. */
  lemma PageListEnds(page: int, totalPages: nat)
    requires totalPages >= 1
    ensures var l := PageList(page, totalPages);
      |l| >= 1 && l[0] == Num(1) && l[|l| - 1] == Num(totalPages)
  {
  }

  /** The current page is always listed, exactly once, when it is in range: one
      button is drawn as the current one. */
  lemma PageListHasCurrent(page: int, totalPages: nat)
    requires 1 <= page <= totalPages
    ensures var l := PageList(page, totalPages);
      exists k :: 0 <= k < |l| && l[k] == Num(page)
    ensures var l := PageList(page, totalPages);
      forall i, j :: 0 <= i < |l| && 0 <= j < |l| && l[i] == Num(page) && l[j] == Num(page) ==> i == j
  {
    var l := PageList(page, totalPages);
    if totalPages <= 5 {
      assert l[page - 1] == Num(page);
    } else if page <= 3 {
      assert l[page - 1] == Num(page);
    } else if page >= totalPages - 2 {
      assert l[page - totalPages + 4] == Num(page);
    } else {
      assert l[3] == Num(page);
    }
    PageListIncreasing(page, totalPages);
  }

  // ---------------------------------------------------------------------------
  // Navigation buttons and the page label

  /** "<<" and "<" are disabled on the first page. */
  predicate BackDisabled(page: int) {
    page == 1
  }

  /** ">" and ">>" are disabled on the last page. */
  predicate ForwardDisabled(page: int, totalPages: nat) {
    page == totalPages
  }

  /** From a page in range, every enabled navigation button does change the page,
      to the first, previous, next or last page. */
  lemma NavigationMoves(page: int, totalPages: nat)
    requires 1 <= page <= totalPages
    ensures !BackDisabled(page) ==> GoToPage(totalPages, 1) == Some(1)
    ensures !BackDisabled(page) ==> GoToPage(totalPages, page - 1) == Some(page - 1)
    ensures !ForwardDisabled(page, totalPages) ==> GoToPage(totalPages, page + 1) == Some(page + 1)
    ensures !ForwardDisabled(page, totalPages) ==> GoToPage(totalPages, totalPages) == Some(totalPages)
    ensures BackDisabled(page) ==> GoToPage(totalPages, page - 1).None?
    ensures ForwardDisabled(page, totalPages) ==> GoToPage(totalPages, page + 1).None?
  {
  }

  /** A page beyond the last one is reachable: changing the page size keeps
      the page. From there ">" is enabled but does nothing, "<" does nothing
      unless the page is just past the last, and "<<" and ">>" bring the page
      back into range, or do nothing when there are no pages at all. */
  lemma PageBeyondLast(page: int, totalPages: nat)
    requires 1 <= page && totalPages < page
    ensures !ForwardDisabled(page, totalPages) && GoToPage(totalPages, page + 1).None?
    ensures page > 1 ==> !BackDisabled(page)
    ensures GoToPage(totalPages, page - 1).Some? <==> page == totalPages + 1 && totalPages >= 1
    ensures totalPages >= 1 ==> GoToPage(totalPages, 1) == Some(1)
    ensures totalPages >= 1 ==> GoToPage(totalPages, totalPages) == Some(totalPages)
    ensures totalPages == 0 ==> GoToPage(totalPages, 1).None? && GoToPage(totalPages, totalPages).None?
  {
  }

  /** The page count shown in the label: `totalPages || 1`. */
  function ShownTotal(totalPages: nat): (shown: nat)
    ensures shown >= 1
    ensures totalPages >= 1 ==> shown == totalPages
    ensures totalPages == 0 ==> shown == 1
  {
    if totalPages != 0 then totalPages else 1
  }

  /** `Page {page} of {totalPages || 1}`. */
  function PageLabel(page: int, totalPages: nat): string {
    "Page " + IntToString(page) + " of " + IntToString(ShownTotal(totalPages))
  }
}
