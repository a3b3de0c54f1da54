/** The client-side pagination hook: page size, page count, the slice shown
    for the current page, and the next/previous moves. */
module Pagination {

  /** `getItemsPerPage`: the whole list when it fits on one page (1 when it is
      empty), otherwise the configured page size. */
  function ItemsPerPage(length: nat, perPage: nat): (n: nat)
    requires perPage >= 1
    ensures 1 <= n <= perPage
    ensures length > 0 ==> n <= length
    ensures 0 < length <= perPage ==> n == length
    ensures length == 0 ==> n == 1
    ensures length > perPage ==> n == perPage
  {
    if length <= perPage then (if length == 0 then 1 else length) else perPage
  }

  /** `Math.ceil(length / size)` on whole numbers: the fewest pages of `size` items that hold `length` items. */
  function CeilDiv(length: nat, size: nat): (q: nat)
    requires size >= 1
    ensures q * size >= length
    ensures q > 0 ==> (q - 1) * size < length
    ensures length == 0 <==> q == 0
  {
    (length + size - 1) / size
  }

  function TotalPages(length: nat, itemsPerPage: nat): (n: nat)
    requires itemsPerPage >= 1
  {
    CeilDiv(length, itemsPerPage)
  }

  /** With the page size chosen by `ItemsPerPage`, a list that fits on one page
      has exactly one page and an empty list has none. */
  lemma PageCountOfShortLists(length: nat, perPage: nat)
    requires perPage >= 1
    ensures 0 < length <= perPage ==> TotalPages(length, ItemsPerPage(length, perPage)) == 1
    ensures length == 0 ==> TotalPages(length, ItemsPerPage(length, perPage)) == 0
  {
    if 0 < length <= perPage {
      var q := TotalPages(length, length);
      assert q > 0;
      if q >= 2 {
        MulMonotone(1, q - 1, length);
      }
    }
  }

  lemma MulMonotone(a: int, b: int, c: nat)
    requires a <= b
    ensures a * c <= b * c
  {
  }

  /** How `Array.prototype.slice` reads an index: negative counts from the end,
      and the result is kept within 0..len. */
  function SliceIndex(i: int, len: nat): (k: nat)
    ensures k <= len
    ensures 0 <= i <= len ==> k == i
    ensures i > len ==> k == len
    ensures i < 0 ==> k == (if len + i < 0 then 0 else len + i)
  {
    if i < 0 then (if len + i < 0 then 0 else len + i)
    else if i > len then len
    else i
  }

  /** `s.slice(start, end)`. */
  function Slice<T>(s: seq<T>, start: int, end: int): (r: seq<T>)
    ensures |r| <= |s|
    ensures 0 <= start <= end <= |s| ==> r == s[start..end]
    ensures 0 <= start && |s| <= start ==> r == []
  {
    var a := SliceIndex(start, |s|);
    var b := SliceIndex(end, |s|);
    if a < b then s[a..b] else []
  }

  /** `currentData`: the items of page `page` (counted from 1). */
  function CurrentData<T>(data: seq<T>, page: int, itemsPerPage: nat): seq<T>
  {
    Slice(data, (page - 1) * itemsPerPage, page * itemsPerPage)
  }

  function Min(a: int, b: int): int
  {
    if a <= b then a else b
  }

  /** A page from 1 on holds the items from position (page-1)*size up to
      page*size, cut off at the end of the data, and never more than `size` items. */
  lemma CurrentDataIsClippedRange<T>(data: seq<T>, page: int, itemsPerPage: nat)
    requires page >= 1 && itemsPerPage >= 1
    ensures var lo := Min((page - 1) * itemsPerPage, |data|);
      var hi := Min(page * itemsPerPage, |data|);
      CurrentData(data, page, itemsPerPage) == data[lo..hi]
    ensures |CurrentData(data, page, itemsPerPage)| <= itemsPerPage
  {
    var lo := (page - 1) * itemsPerPage;
    var hi := page * itemsPerPage;
    assert 0 <= lo <= hi;
    assert hi - lo == itemsPerPage;
  }

  /** Every page from 1 to the last one holds at least one item. */
  lemma PagesAreNonEmpty<T>(data: seq<T>, page: int, itemsPerPage: nat)
    requires itemsPerPage >= 1
    requires 1 <= page <= TotalPages(|data|, itemsPerPage)
    ensures |CurrentData(data, page, itemsPerPage)| > 0
  {
    CurrentDataIsClippedRange(data, page, itemsPerPage);
    var n := TotalPages(|data|, itemsPerPage);
    MulMonotone(page - 1, n - 1, itemsPerPage);
    MulMonotone(page - 1, page, itemsPerPage);
  }

  /** Pages 1..k laid end to end. */
  function PagesUpTo<T>(data: seq<T>, itemsPerPage: nat, k: nat): seq<T>
  {
    if k == 0 then [] else PagesUpTo(data, itemsPerPage, k - 1) + CurrentData(data, k, itemsPerPage)
  }

  /** Pages 1..k together are the data's first k*size items. */
  lemma {:induction false} PagesUpToIsPrefix<T>(data: seq<T>, itemsPerPage: nat, k: nat)
    requires itemsPerPage >= 1
    ensures PagesUpTo(data, itemsPerPage, k) == data[..Min(k * itemsPerPage, |data|)]
  {
    if k > 0 {
      PagesUpToIsPrefix(data, itemsPerPage, k - 1);
      CurrentDataIsClippedRange(data, k, itemsPerPage);
      var lo := Min((k - 1) * itemsPerPage, |data|);
      var hi := Min(k * itemsPerPage, |data|);
      assert (k - 1) * itemsPerPage <= k * itemsPerPage;
      assert data[..lo] + data[lo..hi] == data[..hi];
    }
  }

  /** The pages partition the data: in order, pages 1 to the last give back every item once. */
  lemma PagesPartitionData<T>(data: seq<T>, itemsPerPage: nat)
    requires itemsPerPage >= 1
    ensures PagesUpTo(data, itemsPerPage, TotalPages(|data|, itemsPerPage)) == data
  {
    PagesUpToIsPrefix(data, itemsPerPage, TotalPages(|data|, itemsPerPage));
  }

  /** The hook's state: the current page and the page size. */
  datatype Pager = Pager(page: int, itemsPerPage: nat)

  /** The first render: page 1 and the page size for the data. */
  function Start(length: nat, perPage: nat): (p: Pager)
    requires perPage >= 1
    ensures p.page == 1 && p.itemsPerPage == ItemsPerPage(length, perPage)
  {
    Pager(1, ItemsPerPage(length, perPage))
  }

  /** The effect on a change of the data's length: recompute the page size, go back to page 1. */
  function LengthChanged(p: Pager, newLength: nat, perPage: nat): (r: Pager)
    requires perPage >= 1
    ensures r == Start(newLength, perPage)
  {
    Pager(1, ItemsPerPage(newLength, perPage))
  }

  /** `next`: one page on, but not past the last page. */
  function Next(p: Pager, length: nat): (r: Pager)
    requires p.itemsPerPage >= 1
    ensures r.itemsPerPage == p.itemsPerPage
    ensures r.page <= TotalPages(length, p.itemsPerPage)
    ensures r.page <= p.page + 1
    ensures p.page < TotalPages(length, p.itemsPerPage) ==> r.page == p.page + 1
    ensures p.page >= TotalPages(length, p.itemsPerPage) ==> r.page == TotalPages(length, p.itemsPerPage)
  {
    p.(page := Min(p.page + 1, TotalPages(length, p.itemsPerPage)))
  }

  /** `prev`: one page back, but not before page 1. */
  function Prev(p: Pager): (r: Pager)
    ensures r.itemsPerPage == p.itemsPerPage
    ensures r.page >= 1
    ensures p.page > 1 ==> r.page == p.page - 1
    ensures p.page <= 1 ==> r.page == 1
  {
    p.(page := if p.page - 1 >= 1 then p.page - 1 else 1)
  }

  /** The states the hook can be in for data of this length: the page size
      matches the data, and the page is one of the pages, except that empty
      data has no pages and the page is then 0 or 1. */
  ghost predicate Valid(p: Pager, length: nat, perPage: nat)
    requires perPage >= 1
  {
    && p.itemsPerPage == ItemsPerPage(length, perPage)
    && (if length == 0 then 0 <= p.page <= 1 else 1 <= p.page <= TotalPages(length, p.itemsPerPage))
  }

  /** The hook starts valid and every move or reset keeps it valid. */
  lemma MovesKeepPagerValid(p: Pager, length: nat, newLength: nat, perPage: nat)
    requires perPage >= 1
    requires Valid(p, length, perPage)
    ensures Valid(Start(length, perPage), length, perPage)
    ensures Valid(Next(p, length), length, perPage)
    ensures Valid(Prev(p), length, perPage)
    ensures Valid(LengthChanged(p, newLength, perPage), newLength, perPage)
  {
    PageCountOfShortLists(length, perPage);
    PageCountOfShortLists(newLength, perPage);
  }

  /** On the last page `next` does nothing; on page 1 `prev` does nothing. */
  lemma MovesStopAtTheEnds(p: Pager, length: nat)
    requires p.itemsPerPage >= 1
    ensures p.page == TotalPages(length, p.itemsPerPage) ==> Next(p, length) == p
    ensures p.page == 1 ==> Prev(p) == p
  {
  }

  /** With empty data there are no pages: `next` moves to page 0 and nothing is shown. */
  lemma EmptyDataNextGoesToPageZero<T>(data: seq<T>, p: Pager)
    requires |data| == 0 && p.itemsPerPage >= 1 && p.page >= 0
    ensures Next(p, 0).page == 0
    ensures CurrentData(data, Next(p, 0).page, p.itemsPerPage) == []
    ensures CurrentData(data, p.page, p.itemsPerPage) == []
  {
  }
}
