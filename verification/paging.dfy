/** Page arithmetic shared by the table pager, the pagination bar and the
    declaration-card pager: page counts, page slices, the "Showing a to b"
    bounds and the page-number list with ellipses. */
module Paging {

  /** `Math.ceil(a / b)` for a non-negative count and a positive page size. */
  function CeilDiv(a: nat, b: int): (r: nat)
    requires b > 0
    ensures r * b >= a
    ensures r > 0 ==> (r - 1) * b < a
  {
    var q := (a + b - 1) / b;
    assert q * b + (a + b - 1) % b == a + b - 1;
    q
  }

  /** No pages exactly when there is nothing to show. */
  lemma CeilDivZero(a: nat, b: int)
    requires b > 0
    ensures CeilDiv(a, b) == 0 <==> a == 0
  {
  }

  /** `start` or `end` of `Array.prototype.slice`: a negative index counts
      from the end, and the result is clamped to `[0, len]`. */
  function SliceIndex(i: int, len: nat): (r: nat)
    ensures r <= len
  {
    if i < 0 then (if len + i < 0 then 0 else len + i)
    else if i > len then len else i
  }

  /** `s.slice(start, end)`. */
  function JsSlice<T>(s: seq<T>, start: int, end: int): seq<T> {
    var from, to := SliceIndex(start, |s|), SliceIndex(end, |s|);
    if from < to then s[from..to] else []
  }

  function Min(a: int, b: int): int {
    if a <= b then a else b
  }

  /** The items of page `page` when pages hold `size` items:
      `data.slice((page - 1) * size, page * size)`. */
  function PageOf<T>(data: seq<T>, page: int, size: int): seq<T> {
    JsSlice(data, (page - 1) * size, (page - 1) * size + size)
  }

  /** A page is the run of at most `size` items that starts after the
      earlier pages' items. */
  lemma PageOfBounds<T>(data: seq<T>, page: int, size: int)
    requires page >= 1 && size >= 1
    ensures var from := Min((page - 1) * size, |data|);
      && PageOf(data, page, size) == data[from..Min(page * size, |data|)]
      && |PageOf(data, page, size)| <= size
  {
    var start := (page - 1) * size;
    assert start >= 0 by {
      MulNonNegative(page - 1, size);
    }
    assert start + size == page * size;
  }

  lemma MulNonNegative(a: int, b: int)
    requires a >= 0 && b >= 0
    ensures a * b >= 0
  {
  }

  /** Pages `1..k` one after another. */
  function PagesUpTo<T>(data: seq<T>, size: int, k: nat): seq<T> {
    if k == 0 then [] else PagesUpTo(data, size, k - 1) + PageOf(data, k, size)
  }

  lemma {:induction false} PagesUpToPrefix<T>(data: seq<T>, size: int, k: nat)
    requires size >= 1
    ensures PagesUpTo(data, size, k) == data[..Min(k * size, |data|)]
  {
    if k > 0 {
      var lo, hi := (k - 1) * size, k * size;
      assert hi == lo + size && lo >= 0 by {
        MulNonNegative(k - 1, size);
      }
      var a, b := Min(lo, |data|), Min(hi, |data|);
      PagesUpToPrefix(data, size, k - 1);
      PageOfBounds(data, k, size);
      assert a <= b;
      SplitPrefix(data, a, b);
    }
  }

  lemma SplitPrefix<T>(data: seq<T>, a: int, b: int)
    requires 0 <= a <= b <= |data|
    ensures data[..a] + data[a..b] == data[..b]
  {
  }

  /** The pages `1..ceil(len / size)` partition the data in order: read one
      after another they give back exactly the data. */
  lemma PagesPartition<T>(data: seq<T>, size: int)
    requires size >= 1
    ensures PagesUpTo(data, size, CeilDiv(|data|, size)) == data
  {
    PagesUpToPrefix(data, size, CeilDiv(|data|, size));
  }

  /** The number shown after "Showing": 0 for no items, else the position of
      the page's first item. */
  function FirstItem(page: int, size: int, total: nat): int {
    if total == 0 then 0 else (page - 1) * size + 1
  }

  /** The number shown after "to": the position of the page's last item. */
  function LastItem(page: int, size: int, total: nat): int {
    Min(page * size, total)
  }

  /** On every existing page the two numbers bound exactly the page's items. */
  lemma ItemsMatchPage<T>(data: seq<T>, page: int, size: int)
    requires size >= 1 && 1 <= page <= CeilDiv(|data|, size)
    ensures var first, last := FirstItem(page, size, |data|), LastItem(page, size, |data|);
      && 1 <= first <= last <= |data|
      && last - first + 1 == |PageOf(data, page, size)|
  {
    PageOfBounds(data, page, size);
    var n := CeilDiv(|data|, size);
    var start, stop := (page - 1) * size, page * size;
    assert start + size == stop;
    assert start <= (n - 1) * size by {
      MulMonotone(page - 1, n - 1, size);
    }
    assert start < |data|;
    assert start >= 0 by {
      MulNonNegative(page - 1, size);
    }
  }

  lemma MulMonotone(a: int, b: int, c: int)
    requires 0 <= a <= b && c >= 0
    ensures a * c <= b * c
  {
    MulNonNegative(b - a, c);
    assert b * c - a * c == (b - a) * c;
  }

  /** An entry of a page-number list: a page button or an ellipsis. */
  datatype PageItem = Num(n: int) | Ellipsis

  /** The page buttons `lo..hi` in order (none when `hi < lo`). */
  function Range(lo: int, hi: int): (r: seq<PageItem>)
    ensures |r| == if hi < lo then 0 else hi - lo + 1
    ensures forall i :: 0 <= i < |r| ==> r[i] == Num(lo + i)
    decreases hi - lo
  {
    if hi < lo then [] else Range(lo, hi - 1) + [Num(hi)]
  }

  /** The list with at most five visible page buttons: all pages when there
      are at most five, else the first four, the last four or the current
      page's neighbours, with an ellipsis for each gap and the first and
      last page always present. */
  function PageList(current: int, total: int): seq<PageItem> {
    if total <= 5 then Range(1, total)
    else if current <= 3 then Range(1, 4) + [Ellipsis, Num(total)]
    else if current >= total - 2 then [Num(1), Ellipsis] + Range(total - 3, total)
    else [Num(1), Ellipsis] + Range(current - 1, current + 1) + [Ellipsis, Num(total)]
  }

  /** `getPageNumbers` (table and card pager alike): builds the list with
      counting loops and pushes. */
  method PageNumbers(current: int, total: int) returns (pages: seq<PageItem>)
    ensures pages == PageList(current, total)
  {
    pages := [];
    if total <= 5 {
      var i := 1;
      while i <= total
        invariant 1 <= i && (i == 1 || i <= total + 1)
        invariant pages == Range(1, i - 1)
      {
        pages := pages + [Num(i)];
        i := i + 1;
      }
    } else if current <= 3 {
      var i := 1;
      while i <= 4
        invariant 1 <= i <= 5
        invariant pages == Range(1, i - 1)
      {
        pages := pages + [Num(i)];
        i := i + 1;
      }
      pages := pages + [Ellipsis];
      pages := pages + [Num(total)];
    } else if current >= total - 2 {
      pages := pages + [Num(1)];
      pages := pages + [Ellipsis];
      var i := total - 3;
      while i <= total
        invariant total - 3 <= i <= total + 1
        invariant pages == [Num(1), Ellipsis] + Range(total - 3, i - 1)
      {
        pages := pages + [Num(i)];
        i := i + 1;
      }
    } else {
      pages := pages + [Num(1)];
      pages := pages + [Ellipsis];
      var i := current - 1;
      while i <= current + 1
        invariant current - 1 <= i <= current + 2
        invariant pages == [Num(1), Ellipsis] + Range(current - 1, i - 1)
      {
        pages := pages + [Num(i)];
        i := i + 1;
      }
      pages := pages + [Ellipsis];
      pages := pages + [Num(total)];
    }
  }

  /** Up to five pages, the list is exactly `1..total`. */
  lemma PageListSmall(current: int, total: int)
    requires total <= 5
    ensures var ps := PageList(current, total);
      |ps| == (if total < 0 then 0 else total) && forall i :: 0 <= i < |ps| ==> ps[i] == Num(i + 1)
  {
  }

  /** Beyond five pages the list has six or seven entries, starts at page 1,
      ends at the last page, never begins or ends with an ellipsis, and
      lists the current page when it exists. */
  lemma PageListLarge(current: int, total: int)
    requires total > 5
    ensures var ps := PageList(current, total);
      && 6 <= |ps| <= 7
      && ps[0] == Num(1) && ps[|ps| - 1] == Num(total)
      && (1 <= current <= total ==> Num(current) in ps)
  {
    var ps := PageList(current, total);
    if 1 <= current <= total {
      if current <= 3 {
        assert ps[current - 1] == Num(current);
      } else if current >= total - 2 {
        assert ps[current - total + 5] == Num(current);
      } else {
        assert ps[3] == Num(current);
      }
    }
  }

  /** Page numbers rise strictly and stay within `1..total`; neighbouring
      page numbers are consecutive pages, and an ellipsis stands between two
      page numbers and hides at least one page. So every page is either
      listed or hidden behind an ellipsis. */
  predicate Covers(ps: seq<PageItem>, total: int) {
    && (forall i :: 0 <= i < |ps| && ps[i].Num? ==> 1 <= ps[i].n <= total)
    && (forall i, j :: 0 <= i < j < |ps| && ps[i].Num? && ps[j].Num? ==> ps[i].n < ps[j].n)
    && (forall i :: 0 <= i < |ps| - 1 && ps[i].Num? && ps[i + 1].Num? ==> ps[i + 1].n == ps[i].n + 1)
    && forall i :: 0 <= i < |ps| && ps[i].Ellipsis? ==>
         0 < i < |ps| - 1 && ps[i - 1].Num? && ps[i + 1].Num? && ps[i + 1].n - ps[i - 1].n >= 2
  }

  lemma PageListOrdered(current: int, total: int)
    ensures Covers(PageList(current, total), total)
  {
    if total <= 5 {
    } else if current <= 3 {
      CoversHead(total);
    } else if current >= total - 2 {
      CoversTail(total);
    } else {
      CoversMiddle(current, total);
    }
  }

  lemma CoversHead(total: int)
    requires total > 5
    ensures Covers(Range(1, 4) + [Ellipsis, Num(total)], total)
  {
    assert Range(1, 4) + [Ellipsis, Num(total)] == [Num(1), Num(2), Num(3), Num(4), Ellipsis, Num(total)];
  }

  lemma CoversTail(total: int)
    requires total > 5
    ensures Covers([Num(1), Ellipsis] + Range(total - 3, total), total)
  {
    assert [Num(1), Ellipsis] + Range(total - 3, total) ==
      [Num(1), Ellipsis, Num(total - 3), Num(total - 2), Num(total - 1), Num(total)];
  }

  lemma CoversMiddle(current: int, total: int)
    requires 3 < current < total - 2
    ensures Covers([Num(1), Ellipsis] + Range(current - 1, current + 1) + [Ellipsis, Num(total)], total)
  {
    assert [Num(1), Ellipsis] + Range(current - 1, current + 1) + [Ellipsis, Num(total)] ==
      [Num(1), Ellipsis, Num(current - 1), Num(current), Num(current + 1), Ellipsis, Num(total)];
  }
}
