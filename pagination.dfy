/** Client-side pagination of a list view: the page count and the slice of items
    shown on the current page. */
module Pagination {

  /** How `Array.prototype.slice` reads an index into a sequence of length `len`:
      a negative index counts from the end, and the result is clamped to `0..len`. */
  function SliceIndex(i: int, len: nat): (r: nat)
    ensures r <= len
    ensures 0 <= i ==> r == if i <= len then i else len
    ensures i < 0 ==> r == if len + i < 0 then 0 else len + i
  {
    if i < 0 then (if len + i < 0 then 0 else len + i)
    else if i > len then len
    else i
  }

  /** `s.slice(start, end)`: empty when the normalised start is not before the
      normalised end. */
  function Slice<T>(s: seq<T>, start: int, end: int): seq<T> {
    var from, to := SliceIndex(start, |s|), SliceIndex(end, |s|);
    if from < to then s[from..to] else []
  }

  function Min(a: int, b: int): int { if a <= b then a else b }

  /** The `totalPages` getter, `Math.ceil(count / pageSize)`: the least number of
      pages of `pageSize` rows that hold `count` rows. */
  function TotalPages(count: nat, pageSize: int): (r: nat)
    requires pageSize > 0
    ensures (r - 1) * pageSize < count <= r * pageSize
    ensures r == 0 <==> count == 0
  {
    var q := (count + pageSize - 1) / pageSize;
    assert q * pageSize + (count + pageSize - 1) % pageSize == count + pageSize - 1;
    q
  }

  /** The `visibleItems` getter: `items.slice(start, start + pageSize)` with
      `start = (currentPage - 1) * pageSize`. For a page number of at least 1 this
      is the page's run of items, at most `pageSize` long, and nothing once the
      page lies past the last one. */
  function VisibleItems<T>(items: seq<T>, currentPage: int, pageSize: int): (r: seq<T>)
    requires pageSize > 0
    ensures currentPage >= 1 ==>
      var start := PageStartIndex(currentPage, pageSize);
      r == items[Min(start, |items|)..Min(start + pageSize, |items|)]
    ensures currentPage >= 1 ==> |r| <= pageSize
    ensures currentPage == 0 ==> r == []
    ensures currentPage > TotalPages(|items|, pageSize) ==> r == []
  {
    var start := PageStartIndex(currentPage, pageSize);
    PageSlice(items, currentPage, pageSize, start);
    Slice(items, start, start + pageSize)
  }

  /** Index of the first item of page `page`, counting pages from 1. */
  function PageStartIndex(page: int, pageSize: int): (r: int)
    requires pageSize > 0
    ensures page >= 1 ==> r >= 0
  {
    PageStart(page, pageSize);
    (page - 1) * pageSize
  }

  /** The facts behind `VisibleItems`, for the slice from `start`, the first
      index of page `page`. */
  lemma PageSlice<T>(items: seq<T>, page: int, pageSize: int, start: int)
    requires pageSize > 0 && start == PageStartIndex(page, pageSize)
    ensures page >= 1 ==> Slice(items, start, start + pageSize) == items[Min(start, |items|)..Min(start + pageSize, |items|)]
    ensures page >= 1 ==> |Slice(items, start, start + pageSize)| <= pageSize
    ensures page == 0 ==> Slice(items, start, start + pageSize) == []
    ensures page > TotalPages(|items|, pageSize) ==> Slice(items, start, start + pageSize) == []
  {
    if page >= 1 {
      MulMonotone(0, page - 1, pageSize);
      SliceFromNonNegative(items, start, start + pageSize);
    }
    if page == 0 {
      assert start + pageSize == 0;
      SliceFromNonNegative(items, start, start + pageSize);
    }
    if page > TotalPages(|items|, pageSize) {
      PastLastPage(|items|, page, pageSize);
      assert start >= |items|;
    }
  }

  /** Where page `page` starts and ends. */
  lemma PageStart(page: int, pageSize: int)
    requires pageSize > 0
    ensures (page - 1) * pageSize + pageSize == page * pageSize
    ensures page >= 1 ==> (page - 1) * pageSize >= 0
  {
    if page >= 1 {
      MulMonotone(0, page - 1, pageSize);
    }
  }

  /** With a start that is not negative, `slice` is the plain clamped
      subsequence; with an end of 0 it is empty. */
  lemma SliceFromNonNegative<T>(s: seq<T>, start: int, end: int)
    ensures 0 <= start <= end ==> Slice(s, start, end) == s[Min(start, |s|)..Min(end, |s|)]
    ensures 0 <= start <= end ==> |Slice(s, start, end)| <= end - start
    ensures end == 0 ==> Slice(s, start, end) == []
  {
  }

  /** A page past the last one starts at or after the end of the items. */
  lemma PastLastPage(count: nat, page: int, pageSize: int)
    requires pageSize > 0
    ensures page > TotalPages(count, pageSize) ==> (page - 1) * pageSize >= count
  {
    var n := TotalPages(count, pageSize);
    if page > n {
      MulMonotone(n, page - 1, pageSize);
    }
  }

  lemma MulMonotone(a: int, b: int, c: int)
    requires a <= b && c >= 0
    ensures a * c <= b * c
  {
    assert b * c - a * c == (b - a) * c;
  }

  /** The last page holds `count mod pageSize` rows, or a full page when
      `pageSize` divides `count`. */
  lemma LastPageLength<T>(items: seq<T>, pageSize: int)
    requires pageSize > 0 && |items| > 0
    ensures |VisibleItems(items, TotalPages(|items|, pageSize), pageSize)| ==
      if |items| % pageSize == 0 then pageSize else |items| % pageSize
  {
    var n, p := |items|, pageSize;
    var last := TotalPages(n, p);
    var start := PageStartIndex(last, p);
    LastPageStart(n, p);
    PageStart(last, p);
    assert |VisibleItems(items, last, p)| == n - start;
  }

  /** The last page starts one remainder, or one full page, before the end. */
  lemma LastPageStart(count: nat, pageSize: int)
    requires pageSize > 0 && count > 0
    ensures TotalPages(count, pageSize) >= 1
    ensures PageStartIndex(TotalPages(count, pageSize), pageSize) ==
      count - (if count % pageSize == 0 then pageSize else count % pageSize)
  {
    var n, p := count, pageSize;
    var last := TotalPages(n, p);
    var q, m := n / p, n % p;
    assert n == q * p + m;
    if m == 0 {
      assert last == q by {
        assert (q - 1) * p == q * p - p;
        CeilingUnique(n, p, last, q);
      }
      assert (last - 1) * p == n - p;
    } else {
      assert last == q + 1 by {
        assert (q + 1) * p == q * p + p;
        CeilingUnique(n, p, last, q + 1);
      }
      assert (last - 1) * p == n - m;
    }
  }

  /** The bounds stated by `TotalPages` single out one number. */
  lemma CeilingUnique(count: nat, pageSize: int, r: int, r': int)
    requires pageSize > 0
    requires (r - 1) * pageSize < count <= r * pageSize
    requires (r' - 1) * pageSize < count <= r' * pageSize
    ensures r == r'
  {
    if r < r' {
      MulMonotone(r, r' - 1, pageSize);
    } else if r' < r {
      MulMonotone(r', r - 1, pageSize);
    }
  }

  /** Pages 1 to `k`, one after the other. */
  function FirstPages<T>(items: seq<T>, k: nat, pageSize: int): seq<T>
    requires pageSize > 0
  {
    if k == 0 then [] else FirstPages(items, k - 1, pageSize) + VisibleItems(items, k, pageSize)
  }

  /** The first `k` pages are exactly the first `k * pageSize` items. */
  lemma {:induction false} FirstPagesArePrefix<T>(items: seq<T>, k: nat, pageSize: int)
    requires pageSize > 0
    ensures FirstPages(items, k, pageSize) == items[..Min(k * pageSize, |items|)]
  {
    if k > 0 {
      FirstPagesArePrefix(items, k - 1, pageSize);
      var lo, hi := Min((k - 1) * pageSize, |items|), Min(k * pageSize, |items|);
      PageStart(k, pageSize);
      assert items[..lo] + items[lo..hi] == items[..hi];
    }
  }

  /** Read page by page, from the first to the last, the items appear exactly
      once each and in order. */
  lemma PagesCoverItems<T>(items: seq<T>, pageSize: int)
    requires pageSize > 0
    ensures FirstPages(items, TotalPages(|items|, pageSize), pageSize) == items
  {
    FirstPagesArePrefix(items, TotalPages(|items|, pageSize), pageSize);
  }
}
