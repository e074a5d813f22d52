/** The data table's pager: page count, visible rows, "Showing a to b of n"
    numbers, the guarded page change and the page reset after a data
    change. */
module TableView {
  import opened Paging

  /** `totalPages`: one page without pagination. */
  function TotalPages(len: nat, size: int, pagination: bool): (r: nat)
    requires pagination ==> size >= 1
    ensures !pagination ==> r == 1
    ensures pagination ==> r * size >= len && (r > 0 ==> (r - 1) * size < len)
  {
    if !pagination then 1 else CeilDiv(len, size)
  }

  /** `paginatedData`. */
  function PaginatedData<T>(data: seq<T>, page: int, size: int, pagination: bool): seq<T> {
    if !pagination then data else PageOf(data, page, size)
  }

  function StartItem(page: int, size: int, len: nat, pagination: bool): int {
    if !pagination then 0 else FirstItem(page, size, len)
  }

  function EndItem(page: int, size: int, len: nat, pagination: bool): int {
    if !pagination then len else LastItem(page, size, len)
  }

  /** Without pagination the table shows every row on its single page; with
      it, the pages `1..totalPages` hold at most `size` rows each and
      together give back the rows in order. */
  lemma TablePages<T>(data: seq<T>, size: int, pagination: bool, page: int)
    requires pagination ==> size >= 1
    requires page >= 1
    ensures !pagination ==> PaginatedData(data, page, size, pagination) == data
    ensures pagination ==> |PaginatedData(data, page, size, pagination)| <= size
    ensures pagination ==> PagesUpTo(data, size, TotalPages(|data|, size, pagination)) == data
  {
    if pagination {
      PageOfBounds(data, page, size);
      PagesPartition(data, size);
    }
  }

  /** On an existing page the "Showing" numbers count exactly the visible
      rows; with no rows both are 0. */
  lemma TableItems<T>(data: seq<T>, size: int, page: int)
    requires size >= 1 && page >= 1
    ensures |data| == 0 ==> StartItem(page, size, 0, true) == 0 == EndItem(page, size, 0, true)
    ensures 1 <= page <= TotalPages(|data|, size, true) ==>
      var first, last := StartItem(page, size, |data|, true), EndItem(page, size, |data|, true);
      1 <= first && last - first + 1 == |PaginatedData(data, page, size, true)|
  {
    if |data| == 0 {
      MulNonNegative(page, size);
    }
    if 1 <= page <= TotalPages(|data|, size, true) {
      ItemsMatchPage(data, page, size);
    }
  }

  /** The table component's own state. */
  class TablePager {
    var currentPage: int

    /** The page is a page number; it starts at 1 and is only ever set to
        1 or to a page that passed the range guard. */
    predicate Valid()
      reads this
    {
      currentPage >= 1
    }

    constructor()
      ensures currentPage == 1 && Valid()
    {
      currentPage := 1;
    }

    /** `handlePageChange`: only pages within `1..totalPages` are taken. */
    method HandlePageChange(page: int, totalPages: int)
      requires Valid()
      modifies this
      ensures currentPage == if 1 <= page <= totalPages then page else old(currentPage)
      ensures Valid()
    {
      if page >= 1 && page <= totalPages {
        currentPage := page;
      }
    }

    /** The effect that runs when the row count, the pagination switch or
        the page count changes: back to page 1 when the page no longer
        exists or there are no pages at all. */
    method ResetOnDataChange(pagination: bool, totalPages: int)
      requires Valid()
      modifies this
      ensures currentPage ==
        if pagination && (totalPages <= 0 || old(currentPage) > totalPages) then 1 else old(currentPage)
      ensures Valid()
      ensures pagination && totalPages > 0 ==> currentPage <= totalPages
    {
      if pagination && totalPages > 0 {
        if currentPage > totalPages {
          currentPage := 1;
        }
      } else if pagination {
        currentPage := 1;
      }
    }
  }
}
