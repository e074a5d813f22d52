/** The stand-alone pagination bar: whether it shows, its "Showing" numbers,
    its short page list and its four arrow buttons, every request going
    through one range guard. */
module PaginationBar {
  import opened Wrappers
  import opened Paging

  /** The bar renders nothing for a single page or none. */
  predicate Renders(totalPages: int) {
    totalPages > 1
  }

  function StartItem(current: int, size: int, totalItems: nat): int {
    FirstItem(current, size, totalItems)
  }

  function EndItem(current: int, size: int, totalItems: nat): int {
    LastItem(current, size, totalItems)
  }

  /** `handlePageChange`: the page handed to `onPageChange`, if any. */
  function RequestPage(page: int, totalPages: int): (r: Option<int>)
    ensures r.Some? <==> 1 <= page <= totalPages
    ensures r.Some? ==> r.value == page
  {
    if page >= 1 && page <= totalPages then Some(page) else None
  }

  /** `getPageNumbers`: the current page, an ellipsis and the last page, or
      the last page alone when it is the current one. */
  function BarPages(current: int, totalPages: int): seq<PageItem> {
    if current != totalPages then [Num(current), Ellipsis, Num(totalPages)] else [Num(totalPages)]
  }

  /** The bar's list ends with the last page, starts with the current page,
      and has an ellipsis only between two page numbers. */
  lemma BarPagesShape(current: int, totalPages: int)
    ensures var ps := BarPages(current, totalPages);
      && (|ps| == 1 <==> current == totalPages)
      && (|ps| == 1 || |ps| == 3)
      && ps[0] == Num(current) && ps[|ps| - 1] == Num(totalPages)
      && forall i :: 0 <= i < |ps| && ps[i].Ellipsis? ==> 0 < i < |ps| - 1
  {
  }

  /** The bar's buttons: first, previous, a page number, next, last. */
  datatype Control = First | Prev | PageButton(page: int) | Next | Last

  /** First and previous are disabled on page 1, next and last on the last
      page; page-number buttons are never disabled. */
  predicate Disabled(c: Control, current: int, totalPages: int) {
    match c
    case First => current == 1
    case Prev => current == 1
    case PageButton(_) => false
    case Next => current == totalPages
    case Last => current == totalPages
  }

  /** The page each button asks for. */
  function Target(c: Control, current: int, totalPages: int): int {
    match c
    case First => 1
    case Prev => current - 1
    case PageButton(p) => p
    case Next => current + 1
    case Last => totalPages
  }

  /** A click: a disabled button does nothing, an enabled one goes through
      the range guard. */
  function Press(c: Control, current: int, totalPages: int): Option<int> {
    if Disabled(c, current, totalPages) then None else RequestPage(Target(c, current, totalPages), totalPages)
  }

  /** Whatever is clicked, `onPageChange` only ever sees an existing page,
      and from an existing page the arrows move exactly as labelled unless
      they are at the end they point to. */
  lemma PressInRange(c: Control, current: int, totalPages: int)
    ensures var r := Press(c, current, totalPages);
      r.Some? ==> 1 <= r.value <= totalPages
    ensures 1 <= current <= totalPages ==>
      && Press(First, current, totalPages) == (if current == 1 then None else Some(1))
      && Press(Prev, current, totalPages) == (if current == 1 then None else Some(current - 1))
      && Press(Next, current, totalPages) == (if current == totalPages then None else Some(current + 1))
      && Press(Last, current, totalPages) == (if current == totalPages then None else Some(totalPages))
  {
  }

  /** The numbers of the "Showing" line agree with the table's page
      arithmetic: on an existing page they count the page's items. */
  lemma BarItems<T>(items: seq<T>, current: int, size: int)
    requires size >= 1 && 1 <= current <= CeilDiv(|items|, size)
    ensures var first, last := StartItem(current, size, |items|), EndItem(current, size, |items|);
      1 <= first <= last <= |items| && last - first + 1 == |PageOf(items, current, size)|
  {
    ItemsMatchPage(items, current, size);
  }
}
