/**
 * The list pages: the compact row of page links with ellipses, the
 * previous/next controls, and the paging state of a list (page count,
 * clamped current page, the slice shown, the reset to page one).
 */
module Pagination {

  /** One entry of the page row: a page link or an ellipsis. */
  datatype PageItem = Num(n: int) | Ellipsis

  /**
   * getPages: every page when there are at most five, otherwise the first
   * and the last page around a window near the current page.
   */
  function GetPages(curr: int, total: int): seq<PageItem>
  {
    if total <= 5 then seq(if total < 0 then 0 else total, i => Num(i + 1))
    else if curr <= 3 then [Num(1), Num(2), Num(3), Num(4), Ellipsis, Num(total)]
    else if curr >= total - 2 then [Num(1), Ellipsis, Num(total - 3), Num(total - 2), Num(total - 1), Num(total)]
    else [Num(1), Ellipsis, Num(curr - 1), Num(curr), Num(curr + 1), Ellipsis, Num(total)]
  }

  /** Up to five pages are all listed, in order. */
  lemma GetPagesSmall(curr: int, total: int)
    requires 0 <= total <= 5
    ensures |GetPages(curr, total)| == total
    ensures forall i :: 0 <= i < total ==> GetPages(curr, total)[i] == Num(i + 1)
  {
  }

  /** More than five pages: the row starts at page one, ends at the last page and has six or seven entries. */
  lemma GetPagesLarge(curr: int, total: int)
    requires total > 5
    ensures var pages := GetPages(curr, total);
            (|pages| == 6 || |pages| == 7) && pages[0] == Num(1) && pages[|pages| - 1] == Num(total)
  {
  }

  /** The current page, when it is a page, is always listed. */
  lemma GetPagesHasCurrent(curr: int, total: int)
    requires 1 <= curr <= total
    ensures Num(curr) in GetPages(curr, total)
  {
    if total <= 5 {
      assert GetPages(curr, total)[curr - 1] == Num(curr);
    }
  }

  /** Page numbers rise strictly along the row. */
  predicate Increasing(pages: seq<PageItem>)
  {
    forall i, j :: 0 <= i < j < |pages| && pages[i].Num? && pages[j].Num? ==> pages[i].n < pages[j].n
  }

  /**
   * Every ellipsis sits between two page numbers and stands for at least
   * one page left out.
   */
  predicate EllipsesSkip(pages: seq<PageItem>)
  {
    forall i :: 0 <= i < |pages| && pages[i].Ellipsis? ==>
      0 < i < |pages| - 1 && pages[i - 1].Num? && pages[i + 1].Num? && pages[i + 1].n - pages[i - 1].n >= 2
  }

  /** The row lists pages in rising order. */
  lemma GetPagesIncreasing(curr: int, total: int)
    ensures Increasing(GetPages(curr, total))
  {
  }

  /** The row leaves out pages only where an ellipsis says so. */
  lemma GetPagesEllipses(curr: int, total: int)
    ensures EllipsesSkip(GetPages(curr, total))
  {
  }

  /** The row lists only pages between one and the total. */
  lemma GetPagesInRange(curr: int, total: int)
    ensures var pages := GetPages(curr, total);
            forall i :: 0 <= i < |pages| && pages[i].Num? ==> 1 <= pages[i].n <= total
  {
  }

  /** The bar is drawn only when there is more than one page. */
  predicate BarShown(pageCount: int)
  {
    pageCount > 1
  }

  predicate PrevDisabled(page: int)
  {
    page <= 1
  }

  predicate NextDisabled(page: int, pageCount: int)
  {
    page >= pageCount
  }

  /**
   * On a shown bar with the page in range, an enabled arrow asks for a
   * page that exists and every listed page exists; a bar of one page is
   * never shown.
   */
  lemma BarRequestsExistingPages(page: int, pageCount: int)
    requires 1 <= page <= pageCount
    ensures !PrevDisabled(page) ==> 1 <= page - 1 <= pageCount
    ensures !NextDisabled(page, pageCount) ==> 1 <= page + 1 <= pageCount
    ensures PrevDisabled(page) <==> page == 1
    ensures NextDisabled(page, pageCount) <==> page == pageCount
    ensures BarShown(pageCount) ==> !(PrevDisabled(page) && NextDisabled(page, pageCount))
    ensures forall i :: 0 <= i < |GetPages(page, pageCount)| && GetPages(page, pageCount)[i].Num? ==>
              1 <= GetPages(page, pageCount)[i].n <= pageCount
  {
    GetPagesInRange(page, pageCount);
  }

  /** ceil(len / size) for a positive size, and at least one page. */
  function PageCountOf(len: int, size: int): (c: int)
    requires len >= 0 && size >= 1
    ensures c >= 1
    ensures (c - 1) * size < len || (c == 1 && len == 0)
    ensures len <= c * size
  {
    var q := (len + size - 1) / size;
    if q < 1 then 1 else q
  }

  /** JavaScript's `slice`: bounds past the end stop at the end. */
  function Slice<T>(items: seq<T>, from: int, to: int): seq<T>
    requires 0 <= from
  {
    var lo := if from > |items| then |items| else from;
    var hi := if to > |items| then |items| else if to < lo then lo else to;
    items[lo..hi]
  }

  /** The items of page c (counting from one). */
  function PageSlice<T>(items: seq<T>, size: int, c: int): (s: seq<T>)
    requires size >= 1 && c >= 1
    ensures |s| <= size
    ensures (c - 1) * size <= |items| ==> s == items[(c - 1) * size..if c * size <= |items| then c * size else |items|]
  {
    Slice(items, (c - 1) * size, (c - 1) * size + size)
  }

  /** Pages 1..n one after the other. */
  function PagesUpTo<T>(items: seq<T>, size: int, n: nat): seq<T>
    requires size >= 1
  {
    if n == 0 then [] else PagesUpTo(items, size, n - 1) + PageSlice(items, size, n)
  }

  /** The first n pages are the first n * size items. */
  lemma {:induction false} PagesUpToPrefix<T>(items: seq<T>, size: int, n: nat)
    requires size >= 1
    ensures PagesUpTo(items, size, n) == items[..if n * size <= |items| then n * size else |items|]
  {
    if n > 0 {
      PagesUpToPrefix(items, size, n - 1);
      var lo := if (n - 1) * size <= |items| then (n - 1) * size else |items|;
      var hi := if n * size <= |items| then n * size else |items|;
      assert n * size == (n - 1) * size + size;
      if (n - 1) * size <= |items| {
        assert PageSlice(items, size, n) == items[lo..hi];
      } else {
        assert PageSlice(items, size, n) == [];
      }
      assert items[..lo] + items[lo..hi] == items[..hi];
    }
  }

  /** Reading every page in turn gives back the whole list. */
  lemma PagesCoverList<T>(items: seq<T>, size: int)
    requires size >= 1
    ensures PagesUpTo(items, size, PageCountOf(|items|, size)) == items
  {
    PagesUpToPrefix(items, size, PageCountOf(|items|, size));
  }

  /** Every page up to the page count starts inside the list or at its end. */
  lemma PageOffsetBound(len: int, size: int, c: int)
    requires len >= 0 && size >= 1 && 1 <= c <= PageCountOf(len, size)
    ensures 0 <= (c - 1) * size <= len
  {
    var count := PageCountOf(len, size);
    assert (c - 1) * size <= (count - 1) * size by {
      assert (count - 1) * size - (c - 1) * size == (count - c) * size;
    }
  }

  /** `Math.min(Math.max(1, p), count)` */
  function Clamp(p: int, count: int): (r: int)
    requires count >= 1
    ensures 1 <= r <= count
    ensures 1 <= p <= count ==> r == p
    ensures p < 1 ==> r == 1
    ensures p > count ==> r == count
  {
    var low := if p < 1 then 1 else p;
    if low < count then low else count
  }

  /** The paging state of one list. */
  class Pager<T> {
    var items: seq<T>
    var pageSize: int
    var page: int

    /** The page is always at least one. */
    ghost predicate Valid()
      reads this
    {
      pageSize >= 1 && page >= 1
    }

    constructor(items: seq<T>, pageSize: int)
      requires pageSize >= 1
      ensures Valid()
      ensures this.items == items && this.pageSize == pageSize && page == 1
    {
      this.items := items;
      this.pageSize := pageSize;
      page := 1;
    }

    function PageCount(): (c: int)
      reads this
      requires Valid()
      ensures c >= 1
    {
      PageCountOf(|items|, pageSize)
    }

    /** The page shown: the stored page, cut down to the page count. */
    function Current(): (c: int)
      reads this
      requires Valid()
      ensures 1 <= c <= PageCount()
      ensures page <= PageCount() ==> c == page
    {
      if page < PageCount() then page else PageCount()
    }

    /** The items shown: the current page's slice, never longer than a page. */
    function PageItems(): (s: seq<T>)
      reads this
      requires Valid()
      ensures |s| <= pageSize
      ensures s == items[(Current() - 1) * pageSize..if Current() * pageSize <= |items| then Current() * pageSize else |items|]
    {
      PageOffsetBound(|items|, pageSize, Current());
      PageSlice(items, pageSize, Current())
    }

    /** setSafePage: the requested page clamped into 1..PageCount(). */
    method SetSafePage(p: int)
      requires Valid()
      modifies this
      ensures Valid()
      ensures items == old(items) && pageSize == old(pageSize)
      ensures page == Clamp(p, old(PageCount()))
      ensures Current() == page
    {
      page := Clamp(p, PageCount());
    }

    /** New items or a new page size: the page goes back to one when the length or the size changed. */
    method Update(newItems: seq<T>, newSize: int)
      requires Valid() && newSize >= 1
      modifies this
      ensures Valid()
      ensures items == newItems && pageSize == newSize
      ensures |newItems| != |old(items)| || newSize != old(pageSize) ==> page == 1
      ensures |newItems| == |old(items)| && newSize == old(pageSize) ==> page == old(page) && Current() == old(Current())
    {
      var changed := |newItems| != |items| || newSize != pageSize;
      items := newItems;
      pageSize := newSize;
      if changed {
        page := 1;
      }
    }
  }

  /**
   * The offset of the shown page is a multiple of the page size inside the
   * list (or zero for an empty list).
   */
  lemma OffsetInsideList<T>(items: seq<T>, size: int, page: int)
    requires size >= 1 && page >= 1
    ensures var count := PageCountOf(|items|, size);
            var current := if page < count then page else count;
            0 <= (current - 1) * size && ((current - 1) * size < |items| || |items| == 0)
  {
    var count := PageCountOf(|items|, size);
    var current := if page < count then page else count;
    assert (current - 1) * size <= (count - 1) * size by {
      assert (count - 1) * size - (current - 1) * size == (count - current) * size;
    }
  }
}
