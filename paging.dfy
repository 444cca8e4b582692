/**
 * The paging arithmetic shared by `getEntries` (src/actions/entries.ts) and
 * `GET /api/entries` (src/app/api/entries/route.ts): the page is the
 * JavaScript `slice((page - 1) * pageSize, (page - 1) * pageSize + pageSize)`
 * of the full list, and `totalPages` is `Math.max(1, Math.ceil(total / pageSize))`.
 */
module Paging {

  /** How `Array.prototype.slice` reads an integer bound: negative counts from the end, then clamped to `[0, len]`. */
  function SliceBound(i: int, len: nat): (r: nat)
    ensures r <= len
  {
    if i < 0 then (if len + i < 0 then 0 else len + i) else if i > len then len else i
  }

  /** `xs.slice(start, end)` for integer bounds. */
  function JsSlice<T>(xs: seq<T>, start: int, end: int): seq<T> {
    var s, e := SliceBound(start, |xs|), SliceBound(end, |xs|);
    if s < e then xs[s..e] else []
  }

  /** The entries of page `page` of size `pageSize`. */
  function PageSlice<T>(xs: seq<T>, page: int, pageSize: int): (r: seq<T>)
    ensures |r| <= |xs|
    ensures forall x :: x in r ==> x in xs
  {
    var start := (page - 1) * pageSize;
    JsSlice(xs, start, start + pageSize)
  }

  /**
   * For a page number and a page size of at least 1, the page holds the
   * items from `(page - 1) * pageSize` on, at most `pageSize` of them, and
   * nothing beyond the last item.
   */
  lemma PageSliceSpec<T>(xs: seq<T>, page: int, pageSize: int)
    requires page >= 1 && pageSize >= 1
    ensures var start, r := (page - 1) * pageSize, PageSlice(xs, page, pageSize);
      && start >= 0
      && |r| <= pageSize
      && (start >= |xs| ==> r == [])
      && (start < |xs| ==> |r| == (if start + pageSize <= |xs| then pageSize else |xs| - start))
      && (forall i :: 0 <= i < |r| ==> r[i] == xs[start + i])
  {
    var start := (page - 1) * pageSize;
    assert start >= 0 by {
      MulMono(0, page - 1, pageSize);
    }
    WindowSpec(xs, start, pageSize);
  }

  /** The slice `[start, start + size)` for a non-negative start and a positive size. */
  lemma WindowSpec<T>(xs: seq<T>, start: nat, size: nat)
    requires size >= 1
    ensures var r := JsSlice(xs, start, start + size);
      && |r| <= size
      && (start >= |xs| ==> r == [])
      && (start < |xs| ==> |r| == (if start + size <= |xs| then size else |xs| - start))
      && (forall i :: 0 <= i < |r| ==> r[i] == xs[start + i])
  {
    var e := SliceBound(start + size, |xs|);
    assert e == (if start + size > |xs| then |xs| else start + size);
  }

  /** Page 0 is always empty. */
  lemma PageZeroEmpty<T>(xs: seq<T>, pageSize: int)
    requires pageSize >= 1
    ensures PageSlice(xs, 0, pageSize) == []
  {
    assert (0 - 1) * pageSize == -pageSize;
  }

  function Clamp0(i: int): nat {
    if i < 0 then 0 else i
  }

  /**
   * A negative page is not rejected: both slice bounds are negative and
   * count back from the end of the list, so page -1 is the `pageSize` items
   * that end `pageSize` items before the last one, page -2 the run before that.
   */
  lemma NegativePageFromEnd<T>(xs: seq<T>, page: int, pageSize: int)
    requires page < 0 && pageSize >= 1
    ensures page * pageSize < 0 && (page - 1) * pageSize == page * pageSize - pageSize
    ensures PageSlice(xs, page, pageSize)
            == xs[Clamp0(|xs| + page * pageSize - pageSize)..Clamp0(|xs| + page * pageSize)]
  {
    MulMono(page, -1, pageSize);
  }

  /** `Math.ceil(a / b)` for integers, `b` non-zero. */
  function CeilDiv(a: int, b: int): int
    requires b != 0
  {
    if b > 0 then (a + b - 1) / b else (-a - b - 1) / (-b)
  }

  /** The ceiling is the least whole number of `b`-sized steps that reaches `a`. */
  lemma CeilDivSpec(a: int, b: int)
    requires b > 0
    ensures a <= CeilDiv(a, b) * b
    ensures (CeilDiv(a, b) - 1) * b < a
  {
    var q, r := (a + b - 1) / b, (a + b - 1) % b;
    assert a + b - 1 == q * b + r && 0 <= r < b;
    assert (q - 1) * b == q * b - b;
  }

  /** `Math.max(1, Math.ceil(total / pageSize))`. */
  function TotalPages(total: int, pageSize: int): (n: int)
    requires pageSize != 0
    ensures n >= 1
  {
    var c := CeilDiv(total, pageSize);
    if c > 1 then c else 1
  }

  /**
   * There is always at least one page; for a positive page size the pages
   * hold all `total` items, and one page fewer would not.
   */
  lemma TotalPagesSpec(total: nat, pageSize: int)
    requires pageSize > 0
    ensures TotalPages(total, pageSize) >= 1
    ensures total <= TotalPages(total, pageSize) * pageSize
    ensures total > 0 ==> (TotalPages(total, pageSize) - 1) * pageSize < total
  {
    CeilDivSpec(total, pageSize);
    var c := CeilDiv(total, pageSize);
    if c <= 1 {
      assert c * pageSize <= pageSize;
    }
  }

  /** A negative page size gives one page (the ceiling of a non-positive quotient is never above 0). */
  lemma NegativePageSizeOnePage(total: nat, pageSize: int)
    requires pageSize < 0
    ensures TotalPages(total, pageSize) == 1
  {
    var a: int := total;
    var b := -pageSize;
    assert -a - pageSize - 1 < b;
  }

  /** Multiplying by a non-negative factor keeps an order. */
  lemma MulMono(x: int, y: int, c: int)
    requires x <= y && c >= 0
    ensures x * c <= y * c
  {
    assert y * c - x * c == (y - x) * c;
  }

  /** The quotient of a number below `n * d` is below `n`. */
  lemma DivBelow(i: nat, n: int, d: int)
    requires d >= 1 && i < n * d
    ensures i / d < n
  {
    var q := i / d;
    assert q * d <= i;
    if q >= n {
      MulMono(n, q, d);
    }
  }

  /**
   * Every item lies on a page no later than the last one: item `i` is
   * element `i % pageSize` of page `i / pageSize + 1`.
   */
  lemma ItemOnPage<T>(xs: seq<T>, pageSize: int, i: nat)
    requires pageSize >= 1 && i < |xs|
    ensures var page := i / pageSize + 1;
      && 1 <= page <= TotalPages(|xs|, pageSize)
      && i % pageSize < |PageSlice(xs, page, pageSize)|
      && PageSlice(xs, page, pageSize)[i % pageSize] == xs[i]
  {
    var page := i / pageSize + 1;
    var start := (page - 1) * pageSize;
    assert start + i % pageSize == i;
    PageSliceSpec(xs, page, pageSize);
    TotalPagesSpec(|xs|, pageSize);
    DivBelow(i, TotalPages(|xs|, pageSize), pageSize);
  }

  /** Pages past the last one are empty. */
  lemma PastLastPageEmpty<T>(xs: seq<T>, pageSize: int, page: int)
    requires pageSize >= 1 && page > TotalPages(|xs|, pageSize)
    ensures PageSlice(xs, page, pageSize) == []
  {
    TotalPagesSpec(|xs|, pageSize);
    MulMono(TotalPages(|xs|, pageSize), page - 1, pageSize);
    PageSliceSpec(xs, page, pageSize);
  }
}
