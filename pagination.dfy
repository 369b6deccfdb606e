/** The pagination bar: the list of page buttons with its `...` markers, the
    "Showing a-b of n" range and the enablement of Previous and Next. */
module Pagination {

  /** One entry of the button list: a page number or the `'...'` marker. */
  datatype PageItem = Page(number: int) | Ellipsis

  /** At most this many consecutive page numbers form the window around the
      current page. */
  const MaxVisiblePages: int := 5

  /** The component renders nothing for one page or none. */
  predicate IsHidden(totalPages: int) {
    totalPages <= 1
  }

  /** The page buttons `lo, lo + 1, ..., hi` (none when `lo > hi`). */
  function Run(lo: int, hi: int): (r: seq<PageItem>)
    ensures |r| == if lo <= hi then hi - lo + 1 else 0
    ensures forall k :: 0 <= k < |r| ==> r[k] == Page(lo + k)
  {
    if lo > hi then [] else seq(hi - lo + 1, k requires 0 <= k <= hi - lo => Page(lo + k))
  }

  /** A run grows at its end one page at a time. */
  lemma RunExtend(lo: int, hi: int)
    requires lo <= hi + 1
    ensures Run(lo, hi + 1) == Run(lo, hi) + [Page(hi + 1)]
  {
    assert |Run(lo, hi + 1)| == |Run(lo, hi) + [Page(hi + 1)]|;
  }

  function Max(a: int, b: int): int { if a < b then b else a }
  function Min(a: int, b: int): int { if a < b then a else b }

  /** First page of the window: two before the current page, but not before page 1. */
  function WindowStart(currentPage: int): int {
    Max(1, currentPage - MaxVisiblePages / 2)
  }

  /** Last page of the window: four after its start, but not after the last page. */
  function WindowEnd(currentPage: int, totalPages: int): int {
    Min(totalPages, WindowStart(currentPage) + MaxVisiblePages - 1)
  }

  /** The entries before the window: page 1 and, when a page is skipped, `...`. */
  function Leading(start: int): seq<PageItem> {
    if start > 1 then [Page(1)] + (if start > 2 then [Ellipsis] else []) else []
  }

  /** The entries after the window: `...` when a page is skipped, then the last page. */
  function Trailing(end: int, totalPages: int): seq<PageItem> {
    if end < totalPages then (if end < totalPages - 1 then [Ellipsis] else []) + [Page(totalPages)] else []
  }

  /** What `getPageNumbers()` returns: every page when there are at most five, otherwise
      the first page, the window around the current page and the last page, with a
      marker wherever pages are skipped. */
  function PageNumbers(currentPage: int, totalPages: int): seq<PageItem> {
    if totalPages <= MaxVisiblePages then Run(1, totalPages)
    else
      var start := WindowStart(currentPage);
      var end := WindowEnd(currentPage, totalPages);
      Leading(start) + Run(start, end) + Trailing(end, totalPages)
  }

  /** `getPageNumbers()`: the list is built with `push`, in two loops. */
  method GetPageNumbers(currentPage: int, totalPages: int) returns (pages: seq<PageItem>)
    ensures pages == PageNumbers(currentPage, totalPages)
  {
    pages := [];
    if totalPages <= MaxVisiblePages {
      pages := PushPages(pages, 1, totalPages);
      assert pages == Run(1, totalPages);
    } else {
      var start := Max(1, currentPage - MaxVisiblePages / 2);
      var end := Min(totalPages, start + MaxVisiblePages - 1);
      if start > 1 {
        pages := pages + [Page(1)];
        if start > 2 {
          pages := pages + [Ellipsis];
        }
      }
      assert pages == Leading(start);
      pages := PushPages(pages, start, end);
      var middle := pages;
      if end < totalPages {
        if end < totalPages - 1 {
          pages := pages + [Ellipsis];
        }
        pages := pages + [Page(totalPages)];
      }
      assert pages == Leading(start) + Run(start, end) + Trailing(end, totalPages);
    }
  }

  /** The loop `for (let i = lo; i <= hi; i++) pages.push(i)`. */
  method PushPages(pages: seq<PageItem>, lo: int, hi: int) returns (r: seq<PageItem>)
    ensures r == pages + Run(lo, hi)
  {
    r := pages;
    var i := lo;
    while i <= hi
      invariant lo <= i <= Max(lo, hi + 1)
      invariant r == pages + Run(lo, i - 1)
    {
      RunExtend(lo, i - 1);
      r := r + [Page(i)];
      i := i + 1;
    }
  }

  /* ---------------- properties of the list ---------------- */

  /** Up to five pages, every page is listed, in order, without markers. */
  lemma FewPagesAllListed(currentPage: int, totalPages: int)
    requires totalPages <= MaxVisiblePages
    ensures |PageNumbers(currentPage, totalPages)| == Max(0, totalPages)
    ensures forall k :: 0 <= k < |PageNumbers(currentPage, totalPages)| ==>
              PageNumbers(currentPage, totalPages)[k] == Page(k + 1)
  {
  }

  /** Beyond five pages, the list starts with page 1 and, for a current page that is
      not past the end, ends with the last page. */
  lemma ManyPagesShowEnds(currentPage: int, totalPages: int)
    requires totalPages > MaxVisiblePages
    ensures var r := PageNumbers(currentPage, totalPages);
      r != [] && r[0] == Page(1) &&
      (currentPage <= totalPages ==> r[|r| - 1] == Page(totalPages))
  {
    var start := WindowStart(currentPage);
    var end := WindowEnd(currentPage, totalPages);
    var r := PageNumbers(currentPage, totalPages);
    if start <= 1 {
      assert Run(start, end)[0] == Page(1);
      assert r[0] == Run(start, end)[0];
    }
    if currentPage <= totalPages && end >= totalPages {
      assert r[|r| - 1] == Run(start, end)[end - start];
    }
  }

  /** The numbers listed lie in `[1, totalPages]` and strictly increase along the list. */
  lemma NumbersIncreaseWithinRange(currentPage: int, totalPages: int)
    ensures var r := PageNumbers(currentPage, totalPages);
      (forall k :: 0 <= k < |r| && r[k].Page? ==> 1 <= r[k].number <= totalPages) &&
      (forall i, j :: 0 <= i < j < |r| && r[i].Page? && r[j].Page? ==> r[i].number < r[j].number)
  {
    var r := PageNumbers(currentPage, totalPages);
    if totalPages > MaxVisiblePages {
      var start := WindowStart(currentPage);
      var end := WindowEnd(currentPage, totalPages);
      var lead, win, trail := Leading(start), Run(start, end), Trailing(end, totalPages);
      assert r == lead + win + trail;
      forall i, j | 0 <= i < j < |r| && r[i].Page? && r[j].Page?
        ensures r[i].number < r[j].number
      {
        PartOf(lead, win, trail, i);
        PartOf(lead, win, trail, j);
      }
    }
  }

  /** Where index `k` of the three-part list falls. */
  lemma PartOf(lead: seq<PageItem>, win: seq<PageItem>, trail: seq<PageItem>, k: int)
    requires 0 <= k < |lead + win + trail|
    ensures k < |lead| ==> (lead + win + trail)[k] == lead[k]
    ensures |lead| <= k < |lead| + |win| ==> (lead + win + trail)[k] == win[k - |lead|]
    ensures |lead| + |win| <= k ==> (lead + win + trail)[k] == trail[k - |lead| - |win|]
  {
  }

  /** The list never holds more than nine entries: at most five numbers in the window,
      the first and the last page and two markers. */
  lemma AtMostNineEntries(currentPage: int, totalPages: int)
    ensures |PageNumbers(currentPage, totalPages)| <= 9
    ensures totalPages > MaxVisiblePages ==>
              WindowEnd(currentPage, totalPages) - WindowStart(currentPage) + 1 <= MaxVisiblePages
  {
  }

  /** A current page within `[1, totalPages]` always has its own button. */
  lemma CurrentPageListed(currentPage: int, totalPages: int)
    requires 1 <= currentPage <= totalPages
    ensures Page(currentPage) in PageNumbers(currentPage, totalPages)
  {
    var r := PageNumbers(currentPage, totalPages);
    if totalPages <= MaxVisiblePages {
      assert r[currentPage - 1] == Page(currentPage);
    } else {
      var start := WindowStart(currentPage);
      var end := WindowEnd(currentPage, totalPages);
      var win := Run(start, end);
      assert win[currentPage - start] == Page(currentPage);
      assert r == Leading(start) + win + Trailing(end, totalPages);
      assert r[|Leading(start)| + currentPage - start] == Page(currentPage);
    }
  }

  /** For a current page that is not past the end, a marker stands exactly where pages
      are skipped: it sits between two numbers more than one apart, and two numbers
      next to each other in the list are consecutive pages. */
  lemma MarkersExactlyAtGaps(currentPage: int, totalPages: int)
    requires currentPage <= totalPages
    ensures var r := PageNumbers(currentPage, totalPages);
      (forall k :: 0 <= k < |r| && r[k] == Ellipsis ==>
         0 < k < |r| - 1 && r[k - 1].Page? && r[k + 1].Page? &&
         r[k + 1].number - r[k - 1].number > 1) &&
      (forall k :: 0 <= k < |r| - 1 && r[k].Page? && r[k + 1].Page? ==>
         r[k + 1].number == r[k].number + 1)
  {
    MarkersSitInGaps(currentPage, totalPages);
    NeighboursConsecutive(currentPage, totalPages);
  }

  lemma MarkersSitInGaps(currentPage: int, totalPages: int)
    requires currentPage <= totalPages
    ensures var r := PageNumbers(currentPage, totalPages);
      forall k :: 0 <= k < |r| && r[k] == Ellipsis ==>
        0 < k < |r| - 1 && r[k - 1].Page? && r[k + 1].Page? &&
        r[k + 1].number - r[k - 1].number > 1
  {
    var r := PageNumbers(currentPage, totalPages);
    if totalPages > MaxVisiblePages {
      var start := WindowStart(currentPage);
      var end := WindowEnd(currentPage, totalPages);
      var lead, win, trail := Leading(start), Run(start, end), Trailing(end, totalPages);
      assert start <= end;
      assert r == lead + win + trail;
      forall k | 0 <= k < |r| && r[k] == Ellipsis
        ensures 0 < k < |r| - 1 && r[k - 1].Page? && r[k + 1].Page? &&
                r[k + 1].number - r[k - 1].number > 1
      {
        PartOf(lead, win, trail, k);
        PartOf(lead, win, trail, k - 1);
        PartOf(lead, win, trail, k + 1);
      }
    }
  }

  lemma NeighboursConsecutive(currentPage: int, totalPages: int)
    requires currentPage <= totalPages
    ensures var r := PageNumbers(currentPage, totalPages);
      forall k :: 0 <= k < |r| - 1 && r[k].Page? && r[k + 1].Page? ==>
        r[k + 1].number == r[k].number + 1
  {
    var r := PageNumbers(currentPage, totalPages);
    if totalPages > MaxVisiblePages {
      var start := WindowStart(currentPage);
      var end := WindowEnd(currentPage, totalPages);
      var lead, win, trail := Leading(start), Run(start, end), Trailing(end, totalPages);
      assert r == lead + win + trail;
      forall k | 0 <= k < |r| - 1 && r[k].Page? && r[k + 1].Page?
        ensures r[k + 1].number == r[k].number + 1
      {
        PartOf(lead, win, trail, k);
        PartOf(lead, win, trail, k + 1);
      }
    }
  }

  /** The bar is hidden exactly when the list would hold at most one button. */
  lemma HiddenIffAtMostOneEntry(currentPage: int, totalPages: int)
    ensures IsHidden(totalPages) <==> |PageNumbers(currentPage, totalPages)| <= 1
  {
    if totalPages > MaxVisiblePages {
      var start := WindowStart(currentPage);
      var end := WindowEnd(currentPage, totalPages);
      if start <= 1 {
        assert |Run(start, end)| >= 2;
      } else if start > 2 {
        assert |Leading(start)| == 2;
      } else {
        assert |Leading(start)| == 1 && |Run(start, end)| >= 1;
      }
    }
  }

  /* ---------------- range text and buttons ---------------- */

  /** `startItem`: the 1-based position of the first post on the current page. */
  function StartItem(currentPage: int, itemsPerPage: int): int {
    (currentPage - 1) * itemsPerPage + 1
  }

  /** `endItem`: the 1-based position of the last post on the current page. */
  function EndItem(currentPage: int, itemsPerPage: int, totalItems: int): int {
    Min(currentPage * itemsPerPage, totalItems)
  }

  /** Previous is disabled on the first page. */
  predicate PreviousDisabled(currentPage: int) {
    currentPage == 1
  }

  /** Next is disabled on the last page. */
  predicate NextDisabled(currentPage: int, totalPages: int) {
    currentPage == totalPages
  }

  /** On a valid page, a button is enabled exactly when the page it leads to exists. */
  lemma ButtonsLeadToPages(currentPage: int, totalPages: int)
    requires 1 <= currentPage <= totalPages
    ensures !PreviousDisabled(currentPage) <==> 1 <= currentPage - 1 <= totalPages
    ensures !NextDisabled(currentPage, totalPages) <==> 1 <= currentPage + 1 <= totalPages
  {
  }
}
