/**
 * The drive list's pagination arithmetic: how many pages a list of a given
 * length has, where the current page is moved when the list shrinks, which
 * slice of the list a page shows, and the window of page buttons.
 */
module Paging {

  /** The `itemsPerPage` signal; nothing in the view changes it. */
  const ItemsPerPage: nat := 20

  /** `maxPages` of getPageNumbers: at most this many page buttons. */
  const MaxPageButtons: nat := 5

  function Min(a: int, b: int): int {
    if a <= b then a else b
  }

  function Max(a: int, b: int): int {
    if a >= b then a else b
  }

  /** `Math.ceil(n / d)`: the least number of pages of size `d` that hold `n` items. */
  function CeilDiv(n: nat, d: nat): (q: nat)
    requires d > 0
    ensures n <= q * d
    ensures q == 0 || (q - 1) * d < n
  {
    if n == 0 then 0 else 1 + CeilDiv(if n <= d then 0 else n - d, d)
  }

  /** The `totalPages` signal: the page count, but never less than 1. */
  function ShownTotalPages(n: nat, d: nat): (t: nat)
    requires d > 0
    ensures t >= 1
    ensures n <= t * d
  {
    Max(1, CeilDiv(n, d))
  }

  /**
   * The current page after updatePagination: a page past the raw page count
   * (which is 0 for an empty list) is moved back to the last page, or to 1.
   */
  function ClampPage(current: int, n: nat, d: nat): int
    requires d > 0
  {
    var raw := CeilDiv(n, d);
    if current > raw then Max(1, raw) else current
  }

  /** Array.prototype.slice(start, end), with its negative and out-of-range indices. */
  function JsSlice<T>(s: seq<T>, start: int, end: int): (r: seq<T>)
    ensures |r| <= |s|
  {
    var from := if start < 0 then Max(|s| + start, 0) else Min(start, |s|);
    var to := if end < 0 then Max(|s| + end, 0) else Min(end, |s|);
    if from < to then s[from..to] else []
  }

  /** The items page `page` shows: the slice from `(page - 1) * d` of length `d`. */
  function PageOf<T>(s: seq<T>, page: int, d: nat): seq<T> {
    JsSlice(s, (page - 1) * d, (page - 1) * d + d)
  }

  /** A page a started page never leaves: the clamped page lies in [1, totalPages]. */
  lemma ClampPageInRange(current: int, n: nat, d: nat)
    requires d > 0 && current >= 1
    ensures 1 <= ClampPage(current, n, d) <= ShownTotalPages(n, d)
    ensures current <= ShownTotalPages(n, d) ==> ClampPage(current, n, d) == current
  {
  }

  /**
   * A page in [1, totalPages] is the contiguous run of the list starting at
   * `(page - 1) * d`: at most `d` items, all of them when the list ends
   * first, and never empty unless the list is.
   */
  lemma PageWithinBounds<T>(s: seq<T>, page: int, d: nat)
    requires d > 0 && 1 <= page <= ShownTotalPages(|s|, d)
    ensures (page - 1) * d <= |s|
    ensures PageOf(s, page, d) == s[(page - 1) * d..Min(|s|, (page - 1) * d + d)]
    ensures |PageOf(s, page, d)| <= d
    ensures |s| > 0 ==> |PageOf(s, page, d)| > 0
  {
    var q := CeilDiv(|s|, d);
    if |s| > 0 {
      assert page <= q;
      MulMonotone(page - 1, q - 1, d);
    }
  }

  lemma MulMonotone(a: int, b: int, d: nat)
    requires 0 <= a <= b
    ensures a * d <= b * d
  {
  }

  /** The first `k` pages. */
  function Pages<T>(s: seq<T>, d: nat, k: nat): seq<seq<T>> {
    if k == 0 then [] else Pages(s, d, k - 1) + [PageOf(s, k, d)]
  }

  /** The items of a list of lists, in order. */
  function Concat<T>(rows: seq<seq<T>>): seq<T> {
    if |rows| == 0 then [] else Concat(rows[..|rows| - 1]) + rows[|rows| - 1]
  }

  /** The prefix up to `lo` followed by the slice from `lo` to `hi` is the prefix up to `hi`. */
  lemma PrefixThenSlice<T>(s: seq<T>, lo: int, hi: int)
    requires 0 <= lo <= hi
    ensures s[..Min(|s|, lo)] + JsSlice(s, lo, hi) == s[..Min(|s|, hi)]
  {
    if lo < |s| {
      assert s[..Min(|s|, hi)] == s[..lo] + s[lo..Min(|s|, hi)];
    }
  }

  /** The first `k` pages, read in order, are the first `k * d` items. */
  lemma {:induction false} PagesConcat<T>(s: seq<T>, d: nat, k: nat)
    requires d > 0
    ensures Concat(Pages(s, d, k)) == s[..Min(|s|, k * d)]
  {
    if k > 0 {
      var lo := (k - 1) * d;
      var hi := lo + d;
      assert lo >= 0 && hi == k * d by { MulStep(k, d); }
      PagesConcat(s, d, k - 1);
      var rows := Pages(s, d, k);
      assert Concat(rows) == s[..Min(|s|, lo)] + JsSlice(s, lo, hi) by {
        assert rows[..|rows| - 1] == Pages(s, d, k - 1);
      }
      PrefixThenSlice(s, lo, hi);
    }
  }

  /** Page `i + 1` is the `i`-th of the first `k` pages. */
  lemma {:induction false} PagesIndex<T>(s: seq<T>, d: nat, k: nat)
    ensures |Pages(s, d, k)| == k
    ensures forall i :: 0 <= i < k ==> Pages(s, d, k)[i] == PageOf(s, i + 1, d)
  {
    if k > 0 {
      PagesIndex(s, d, k - 1);
    }
  }

  lemma MulStep(k: nat, d: nat)
    requires k > 0
    ensures (k - 1) * d + d == k * d && (k - 1) * d >= 0
  {
  }

  /** Every item is on exactly one page: the pages 1..totalPages, read in order, are the list. */
  lemma PagesCoverList<T>(s: seq<T>, d: nat)
    requires d > 0
    ensures Concat(Pages(s, d, ShownTotalPages(|s|, d))) == s
  {
    PagesConcat(s, d, ShownTotalPages(|s|, d));
  }

  /** The first page button: two before the current page, but not below 1. */
  function WindowStart(currentPage: int): int {
    Max(1, currentPage - MaxPageButtons / 2)
  }
}
