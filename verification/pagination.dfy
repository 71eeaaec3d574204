/** The pager of the user-management page: page count, clamping of the
    current page, the slice of rows on the current page, page changes, and the
    row of page buttons with `-1` standing for an ellipsis. */
module Pagination {

  /** The page size is a positive whole number (the page uses 10). */
  type PageSize = n: int | 1 <= n witness 10

  datatype Pager = Pager(currentPage: int, itemsPerPage: PageSize, totalItems: int, totalPages: int)

  /** The pager together with the rows it shows. */
  datatype Paged<T> = Paged(pager: Pager, displayed: seq<T>)

  function Max(a: int, b: int): int {
    if a < b then b else a
  }

  function Min(a: int, b: int): int {
    if a < b then a else b
  }

  /** `k * d`, spelled out as repeated addition so that facts about page
      boundaries stay linear. */
  function Capacity(k: int, d: PageSize): (c: int)
    ensures k >= 0 ==> c >= 0
    decreases if k < 0 then -k else k
  {
    if k == 0 then 0
    else if k > 0 then Capacity(k - 1, d) + d
    else Capacity(k + 1, d) - d
  }

  lemma {:induction false} CapacityIsProduct(k: int, d: PageSize)
    ensures Capacity(k, d) == k * d
    decreases if k < 0 then -k else k
  {
    if k > 0 {
      CapacityIsProduct(k - 1, d);
    } else if k < 0 {
      CapacityIsProduct(k + 1, d);
    }
  }

  /** More pages hold more rows: each extra page adds `d`. */
  lemma {:induction false} CapacityMonotone(a: int, b: int, d: PageSize)
    requires a <= b
    ensures Capacity(a, d) <= Capacity(b, d)
    ensures a < b ==> Capacity(a, d) + d <= Capacity(b, d)
    decreases b - a
  {
    if a < b {
      CapacityMonotone(a, b - 1, d);
      assert Capacity(b, d) == Capacity(b - 1, d) + d;
    }
  }

  /** `Math.ceil(n / d)`: the least number of pages of size `d` that hold `n`
      rows. */
  function CeilDiv(n: nat, d: PageSize): (r: nat)
    ensures Capacity(r, d) >= n
    ensures r == 0 || Capacity(r - 1, d) < n
    ensures r == 0 <==> n == 0
  {
    var q := (n + d - 1) / d;
    assert (n + d - 1) == q * d + (n + d - 1) % d;
    CapacityIsProduct(q, d);
    CapacityIsProduct(q - 1, d);
    q
  }

  /** How `Array.prototype.slice` reads one of its arguments: a negative
      value counts back from the end, and the result is clamped to the
      array. */
  function RelativeIndex(k: int, len: nat): (r: nat)
    ensures r <= len
    ensures 0 <= k ==> r == Min(k, len)
  {
    if k < 0 then Max(len + k, 0) else Min(k, len)
  }

  /** `s.slice(start, end)`. */
  function Slice<T>(s: seq<T>, start: int, end: int): (r: seq<T>)
    ensures
      var from, to := RelativeIndex(start, |s|), RelativeIndex(end, |s|);
      |r| == Max(0, to - from) && forall k :: 0 <= k < |r| ==> r[k] == s[from + k]
  {
    var from, to := RelativeIndex(start, |s|), RelativeIndex(end, |s|);
    if from < to then s[from..to] else []
  }

  /** A slice between `k` and `k + d` never holds more than `d` elements. */
  lemma SliceWidth<T>(s: seq<T>, k: int, d: nat)
    ensures |Slice(s, k, k + d)| <= d
  {
    var from, to := RelativeIndex(k, |s|), RelativeIndex(k + d, |s|);
    assert to - from <= d;
  }

  /** The pager state the page keeps: the totals match the filtered rows and
      the current page is between 1 and the last page (1 when there are no
      pages). */
  predicate PagerOk(p: Pager, rows: nat) {
    && p.totalItems == rows
    && p.totalPages == CeilDiv(rows, p.itemsPerPage)
    && 1 <= p.currentPage <= Max(1, p.totalPages)
  }

  /** The index of the first row of page `current`. */
  function PageStart(current: int, d: PageSize): int {
    Capacity(current - 1, d)
  }

  /** A current page between 1 and the last page starts at a row that
      exists (or at 0 when there are none). */
  lemma StartWithinRows(current: int, rows: nat, d: PageSize)
    ensures 1 <= current <= Max(1, CeilDiv(rows, d)) ==>
      0 <= PageStart(current, d) <= rows && (rows > 0 ==> PageStart(current, d) < rows)
  {
    var t := CeilDiv(rows, d);
    if 1 <= current <= Max(1, t) {
      CapacityMonotone(0, current - 1, d);
      if 0 < t {
        CapacityMonotone(current - 1, t - 1, d);
      }
    }
  }

  /** The slice of one page from a row that exists. */
  lemma SliceOfPage<T>(s: seq<T>, start: int, d: PageSize)
    requires 0 <= start <= |s| && (|s| > 0 ==> start < |s|)
    ensures Slice(s, start, start + d) == s[start..Min(start + d, |s|)]
    ensures |Slice(s, start, start + d)| > 0 <==> |s| > 0
  {
    var r := Slice(s, start, start + d);
    assert |r| == Min(start + d, |s|) - start;
  }

  /** `updatePagination`: the totals are recomputed, a current page past the
      end is pulled back to the last page (or to 1 when there is none), and the
      rows shown are the slice of at most one page starting at the current
      page's first row. */
  function UpdatePagination<T>(p: Pager, filtered: seq<T>): (r: Paged<T>)
    ensures r.pager.itemsPerPage == p.itemsPerPage && r.pager.totalItems == |filtered|
    ensures Capacity(r.pager.totalPages, p.itemsPerPage) >= |filtered|
    ensures r.pager.totalPages == 0 || Capacity(r.pager.totalPages - 1, p.itemsPerPage) < |filtered|
    ensures p.currentPage <= r.pager.totalPages ==> r.pager.currentPage == p.currentPage
    ensures p.currentPage > r.pager.totalPages ==> r.pager.currentPage == Max(1, r.pager.totalPages)
    ensures |r.displayed| <= p.itemsPerPage
    ensures r.displayed == Slice(filtered, PageStart(r.pager.currentPage, p.itemsPerPage),
                                 PageStart(r.pager.currentPage, p.itemsPerPage) + p.itemsPerPage)
  {
    var totalPages := CeilDiv(|filtered|, p.itemsPerPage);
    var current := if p.currentPage > totalPages then Max(1, totalPages) else p.currentPage;
    var start := PageStart(current, p.itemsPerPage);
    var shown := Slice(filtered, start, start + p.itemsPerPage);
    SliceWidth(filtered, start, p.itemsPerPage);
    Paged(Pager(current, p.itemsPerPage, |filtered|, totalPages), shown)
  }

  lemma PageSliceWhenInRange<T>(s: seq<T>, current: int, d: PageSize)
    requires 1 <= current <= Max(1, CeilDiv(|s|, d))
    ensures
      var start := PageStart(current, d);
      && 0 <= start <= |s|
      && Slice(s, start, start + d) == s[start..Min(start + d, |s|)]
      && (|Slice(s, start, start + d)| > 0 <==> |s| > 0)
  {
    StartWithinRows(current, |s|, d);
    SliceOfPage(s, PageStart(current, d), d);
  }

  /** From a current page of at least 1, `updatePagination` leaves a pager
      the page keeps, and shows the rows of the current page: a contiguous run
      of the filtered rows that is empty only when there are none. */
  lemma PageShown<T>(p: Pager, filtered: seq<T>)
    ensures 1 <= p.currentPage ==>
      var r := UpdatePagination(p, filtered);
      && PagerOk(r.pager, |filtered|)
      && var start := PageStart(r.pager.currentPage, p.itemsPerPage);
         start <= |filtered|
         && r.displayed == filtered[start..Min(start + p.itemsPerPage, |filtered|)]
         && (|r.displayed| > 0 <==> |filtered| > 0)
  {
    if 1 <= p.currentPage {
      var r := UpdatePagination(p, filtered);
      var current := r.pager.currentPage;
      assert 1 <= current <= Max(1, CeilDiv(|filtered|, p.itemsPerPage));
      StartWithinRows(current, |filtered|, p.itemsPerPage);
      PageSliceWhenInRange(filtered, current, p.itemsPerPage);
    }
  }

  /** The pager state after `updatePagination` is the one the page keeps, and
      running it again changes nothing. */
  lemma UpdatePaginationIdempotent<T>(p: Pager, filtered: seq<T>)
    requires 1 <= p.currentPage
    ensures UpdatePagination(UpdatePagination(p, filtered).pager, filtered) == UpdatePagination(p, filtered)
  {
  }

  /** A pager that already describes its rows, showing the current page, is
      left as it is by a recomputation. */
  lemma UpdatePaginationSettled<T>(paged: Paged<T>, filtered: seq<T>)
    requires PagerOk(paged.pager, |filtered|)
    requires paged.displayed == Slice(filtered, PageStart(paged.pager.currentPage, paged.pager.itemsPerPage),
                                      PageStart(paged.pager.currentPage, paged.pager.itemsPerPage) + paged.pager.itemsPerPage)
    ensures UpdatePagination(paged.pager, filtered) == paged
  {
    var r := UpdatePagination(paged.pager, filtered);
    assert r.pager.totalPages == paged.pager.totalPages;
    assert r.pager.currentPage == paged.pager.currentPage;
  }

  /** When the rows only shrink between two recomputations, the second
      clamp decides alone: clamping against the larger list first changes
      nothing. */
  lemma ClampAfterShrink<T>(p: Pager, a: seq<T>, b: seq<T>)
    requires |b| <= |a|
    ensures UpdatePagination(UpdatePagination(p, a).pager, b) == UpdatePagination(p, b)
  {
    var d := p.itemsPerPage;
    var ta, tb := CeilDiv(|a|, d), CeilDiv(|b|, d);
    assert tb <= ta by {
      if ta < tb {
        CapacityMonotone(ta, tb - 1, d);
      }
    }
  }

  /** `changePage`: a page between 1 and the page count becomes current and
      the rows are recomputed; any other page is ignored. */
  function ChangePage<T>(pg: Paged<T>, filtered: seq<T>, page: int): (r: Paged<T>)
    ensures !(1 <= page <= pg.pager.totalPages) ==> r == pg
    ensures 1 <= page <= pg.pager.totalPages && PagerOk(pg.pager, |filtered|) ==>
      && r.pager == pg.pager.(currentPage := page)
      && r.displayed == Slice(filtered, PageStart(page, pg.pager.itemsPerPage),
                              PageStart(page, pg.pager.itemsPerPage) + pg.pager.itemsPerPage)
  {
    if 1 <= page <= pg.pager.totalPages then UpdatePagination(pg.pager.(currentPage := page), filtered)
    else pg
  }

  /** With no rows there are no pages, so every page change is ignored. */
  lemma EmptyRejectsEveryPage<T>(pg: Paged<T>, page: int)
    requires PagerOk(pg.pager, 0)
    ensures ChangePage(pg, [], page) == pg
  {
  }

  /** `lo, lo + 1, …, hi`. */
  function Range(lo: int, hi: int): (r: seq<int>)
    ensures |r| == Max(0, hi - lo + 1)
    ensures forall k :: 0 <= k < |r| ==> r[k] == lo + k
    decreases hi - lo
  {
    if lo > hi then [] else [lo] + Range(lo + 1, hi)
  }

  /** `getPageNumbers`: every page when there are at most five; otherwise the
      first page, an ellipsis when the current page is past 3, the current
      page and its neighbours inside 2..last-1, an ellipsis when the current
      page is before last-2, and the last page. */
  function PageNumbers(totalPages: int, currentPage: int): (r: seq<int>)
    ensures totalPages <= 5 ==> |r| == Max(0, totalPages) && forall k :: 0 <= k < |r| ==> r[k] == k + 1
  {
    if totalPages <= 5 then Range(1, totalPages)
    else
      [1]
      + (if currentPage > 3 then [-1] else [])
      + Range(Max(2, currentPage - 1), Min(totalPages - 1, currentPage + 1))
      + (if currentPage < totalPages - 2 then [-1] else [])
      + [totalPages]
  }

  /** Consecutive shown pages are adjacent numbers, and an ellipsis sits
      exactly between two shown pages that skip at least one number. */
  predicate GapsMarked(r: seq<int>) {
    && (forall i :: 0 <= i < |r| - 1 && r[i] > 0 && r[i + 1] > 0 ==> r[i + 1] == r[i] + 1)
    && (forall i :: 0 <= i < |r| && r[i] == -1 ==> 0 < i < |r| - 1 && r[i - 1] > 0 && r[i + 1] > r[i - 1] + 1)
  }

  /** The layout of the button row for more than five pages: page 1, an
      optional ellipsis, the window `lo..hi` around the current page, an
      optional ellipsis, and the last page. */
  lemma PageRowLayout(t: int, c: int)
    requires 5 < t && 1 <= c <= t
    ensures
      var r := PageNumbers(t, c);
      var lo, hi := Max(2, c - 1), Min(t - 1, c + 1);
      var m := if c > 3 then 2 else 1;
      && 2 <= lo <= hi <= t - 1 && (1 < c ==> lo <= c) && hi - lo <= 2 && (c < t ==> c <= hi)
      && (c > 3 <==> lo > 2) && (c < t - 2 <==> hi < t - 1)
      && |r| == m + (hi - lo + 1) + (if c < t - 2 then 1 else 0) + 1
      && r[0] == 1
      && (c > 3 ==> r[1] == -1)
      && (forall j :: m <= j < m + (hi - lo + 1) ==> r[j] == lo + (j - m))
      && (c < t - 2 ==> r[m + (hi - lo + 1)] == -1)
      && r[|r| - 1] == t
  {
    var lo, hi := Max(2, c - 1), Min(t - 1, c + 1);
    var left: seq<int> := if c > 3 then [-1] else [];
    var mid := Range(lo, hi);
    var right: seq<int> := if c < t - 2 then [-1] else [];
    var r := PageNumbers(t, c);
    assert r == [1] + left + mid + right + [t];
    var m := |left| + 1;
    forall j | m <= j < m + |mid| ensures r[j] == lo + (j - m) {
      assert r[j] == mid[j - m];
    }
  }

  /** For more than five pages and a current page in range: the row starts at
      1 and ends at the last page, holds the current page, has at most seven
      entries, and every entry is a page number or an ellipsis. */
  lemma PageWindowBounds(totalPages: int, currentPage: int)
    requires 5 < totalPages && 1 <= currentPage <= totalPages
    ensures
      var r := PageNumbers(totalPages, currentPage);
      && r[0] == 1 && r[|r| - 1] == totalPages
      && currentPage in r
      && |r| <= 7
      && (forall i :: 0 <= i < |r| ==> r[i] == -1 || 1 <= r[i] <= totalPages)
  {
    var t, c := totalPages, currentPage;
    PageRowLayout(t, c);
    var r := PageNumbers(t, c);
    var lo, hi := Max(2, c - 1), Min(t - 1, c + 1);
    var m := if c > 3 then 2 else 1;
    if c == t {
      assert r[|r| - 1] == c;
    } else if c == 1 {
      assert r[0] == c;
    } else {
      assert r[m + (c - lo)] == c;
    }
  }

  /** The length of the row for `t > 5` pages. */
  function RowLength(t: int, c: int): int {
    var lo, hi := Max(2, c - 1), Min(t - 1, c + 1);
    (if c > 3 then 2 else 1) + (hi - lo + 1) + (if c < t - 2 then 1 else 0) + 1
  }

  /** The entry at position `i` of the row for `t > 5` pages, read off the
      layout: page 1, then the window `lo..hi` after an optional ellipsis,
      the last page at the end, and an ellipsis anywhere else. */
  function RowEntry(t: int, c: int, i: int): int {
    var lo, hi := Max(2, c - 1), Min(t - 1, c + 1);
    var m := if c > 3 then 2 else 1;
    if i == 0 then 1
    else if m <= i < m + (hi - lo + 1) then lo + (i - m)
    else if i == RowLength(t, c) - 1 then t
    else -1
  }

  lemma PageRowEntries(t: int, c: int)
    requires 5 < t && 1 <= c <= t
    ensures
      var r := PageNumbers(t, c);
      && |r| == RowLength(t, c)
      && forall i :: 0 <= i < |r| ==> r[i] == RowEntry(t, c, i)
  {
    PageRowLayout(t, c);
  }

  lemma RowEntriesIncrease(t: int, c: int, i: int, j: int)
    requires 5 < t && 1 <= c <= t && 0 <= i < j < RowLength(t, c)
    requires RowEntry(t, c, i) > 0 && RowEntry(t, c, j) > 0
    ensures RowEntry(t, c, i) < RowEntry(t, c, j)
  {
  }

  lemma RowEntriesAdjacent(t: int, c: int, i: int)
    requires 5 < t && 1 <= c <= t && 0 <= i < RowLength(t, c) - 1
    requires RowEntry(t, c, i) > 0 && RowEntry(t, c, i + 1) > 0
    ensures RowEntry(t, c, i + 1) == RowEntry(t, c, i) + 1
  {
  }

  lemma RowEllipsisSkips(t: int, c: int, i: int)
    requires 5 < t && 1 <= c <= t && 0 <= i < RowLength(t, c)
    requires RowEntry(t, c, i) == -1
    ensures 0 < i < RowLength(t, c) - 1
    ensures RowEntry(t, c, i - 1) > 0 && RowEntry(t, c, i + 1) > RowEntry(t, c, i - 1) + 1
  {
  }

  /** The page numbers in the row increase from left to right, and the
      ellipses mark exactly the skipped stretches. */
  lemma PageWindowOrder(totalPages: int, currentPage: int)
    requires 5 < totalPages && 1 <= currentPage <= totalPages
    ensures
      var r := PageNumbers(totalPages, currentPage);
      && (forall i, j :: 0 <= i < j < |r| && r[i] > 0 && r[j] > 0 ==> r[i] < r[j])
      && GapsMarked(r)
  {
    var t, c := totalPages, currentPage;
    PageRowEntries(t, c);
    var r := PageNumbers(t, c);
    forall i, j | 0 <= i < j < |r| && r[i] > 0 && r[j] > 0 ensures r[i] < r[j] {
      RowEntriesIncrease(t, c, i, j);
    }
    forall i | 0 <= i < |r| - 1 && r[i] > 0 && r[i + 1] > 0 ensures r[i + 1] == r[i] + 1 {
      RowEntriesAdjacent(t, c, i);
    }
    forall i | 0 <= i < |r| && r[i] == -1 ensures 0 < i < |r| - 1 && r[i - 1] > 0 && r[i + 1] > r[i - 1] + 1 {
      RowEllipsisSkips(t, c, i);
    }
  }
}
