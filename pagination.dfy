/**
 * The `Pagination` component: the run of at most five page indices around the
 * current page, and which of the first/last/ellipsis/previous/next controls show.
 */
module Pagination {
  import opened Wrappers

  function Max(a: int, b: int): int { if a >= b then a else b }
  function Min(a: int, b: int): int { if a <= b then a else b }

  /** The integers `lo, lo + 1, ..., hi - 1`. */
  function Range(lo: int, hi: int): (r: seq<int>)
    ensures |r| == Max(0, hi - lo)
    ensures forall k | 0 <= k < |r| :: r[k] == lo + k
    decreases hi - lo
  {
    if hi <= lo then [] else [lo] + Range(lo + 1, hi)
  }

  /** First page of the window: `max(0, cp - 2)`, moved back when the window is cut at the end. */
  function WindowStart(cp: int, tp: int): int {
    var s := Max(0, cp - 2);
    var e := Min(tp - 1, cp + 2);
    if e - s + 1 < 5 && tp > 5 && s != 0 && e == tp - 1 then Max(0, tp - 5) else s
  }

  /** Last page of the window: `min(tp - 1, cp + 2)`, moved on when the window is cut at the start. */
  function WindowEnd(cp: int, tp: int): int {
    var s := Max(0, cp - 2);
    var e := Min(tp - 1, cp + 2);
    if e - s + 1 < 5 && tp > 5 && s == 0 then Min(4, tp - 1) else e
  }

  /** The page indices shown for `currentPage = cp` of `totalPages = tp`. */
  function PageWindow(cp: int, tp: int): seq<int> {
    Range(WindowStart(cp, tp), WindowEnd(cp, tp) + 1)
  }

  /** `getPageNumbers`, with its reassigned bounds and its push loop. */
  method GetPageNumbers(currentPage: int, totalPages: int) returns (pageNumbers: seq<int>)
    ensures pageNumbers == PageWindow(currentPage, totalPages)
    ensures forall k | 0 < k < |pageNumbers| :: pageNumbers[k] == pageNumbers[k - 1] + 1
  {
    pageNumbers := [];
    var startPage := Max(0, currentPage - 2);
    var endPage := Min(totalPages - 1, currentPage + 2);
    if endPage - startPage + 1 < 5 && totalPages > 5 {
      if startPage == 0 {
        endPage := Min(4, totalPages - 1);
      } else if endPage == totalPages - 1 {
        startPage := Max(0, totalPages - 5);
      }
    }
    assert startPage == WindowStart(currentPage, totalPages);
    assert endPage == WindowEnd(currentPage, totalPages);
    var i := startPage;
    while i <= endPage
      invariant startPage <= i && (i <= endPage + 1 || i == startPage)
      invariant |pageNumbers| == i - startPage
      invariant forall k | 0 <= k < |pageNumbers| :: pageNumbers[k] == startPage + k
    {
      pageNumbers := pageNumbers + [i];
      i := i + 1;
    }
    ghost var r := Range(startPage, endPage + 1);
    assert |r| == |pageNumbers|;
    assert forall k | 0 <= k < |r| :: r[k] == pageNumbers[k];
  }

  /** The window is in bounds and holds the current page. */
  lemma WindowInBounds(cp: int, tp: int)
    requires 0 <= cp < tp
    ensures forall k | 0 <= k < |PageWindow(cp, tp)| :: 0 <= PageWindow(cp, tp)[k] <= tp - 1
    ensures cp in PageWindow(cp, tp)
  {
    var s, e := WindowStart(cp, tp), WindowEnd(cp, tp);
    assert 0 <= s <= cp <= e <= tp - 1;
    assert PageWindow(cp, tp)[cp - s] == cp;
  }

  /** With more than five pages the window always has exactly five entries. */
  lemma WindowHasFive(cp: int, tp: int)
    requires 0 <= cp < tp && tp > 5
    ensures |PageWindow(cp, tp)| == 5
  {
  }

  /** With at most five pages nothing is shifted: the window is just clamped. */
  lemma WindowNoShift(cp: int, tp: int)
    requires tp <= 5
    ensures PageWindow(cp, tp) == Range(Max(0, cp - 2), Min(tp - 1, cp + 2) + 1)
  {
  }

  /** The rendered controls; `None` stands for `return null`. */
  datatype Controls = Controls(
    prevDisabled: bool,
    showFirst: bool,
    leadingEllipsis: bool,
    pages: seq<int>,
    trailingEllipsis: bool,
    showLast: bool,
    nextDisabled: bool)

  /**
   * What the component renders. On an empty window JavaScript compares
   * `undefined`, and every such comparison is false.
   */
  function Render(cp: int, tp: int): (r: Option<Controls>)
    ensures r.None? <==> tp <= 1
    ensures r.Some? ==> r.value.pages == PageWindow(cp, tp)
    ensures r.Some? ==> (r.value.prevDisabled <==> cp == 0) && (r.value.nextDisabled <==> cp == tp - 1)
  {
    if tp <= 1 then None
    else
      var w := PageWindow(cp, tp);
      var showFirst := |w| > 0 && w[0] > 0;
      var showLast := |w| > 0 && w[|w| - 1] < tp - 1;
      Some(Controls(
        cp == 0,
        showFirst,
        showFirst && w[0] > 1,
        w,
        showLast && w[|w| - 1] < tp - 2,
        showLast,
        cp == tp - 1))
  }

  /**
   * For an in-range current page the first-page button appears exactly when
   * page 0 is not in the window, the leading ellipsis exactly when page 1 is
   * not either; symmetrically at the end.
   */
  lemma ControlsMatchWindow(cp: int, tp: int)
    requires 0 <= cp < tp && tp > 1
    ensures var c := Render(cp, tp).value;
      && (c.showFirst <==> c.pages[0] > 0)
      && (c.leadingEllipsis <==> c.pages[0] > 1)
      && (c.showLast <==> c.pages[|c.pages| - 1] < tp - 1)
      && (c.trailingEllipsis <==> c.pages[|c.pages| - 1] < tp - 2)
      && (c.showFirst <==> 0 !in c.pages)
      && (c.showLast <==> tp - 1 !in c.pages)
  {
    WindowInBounds(cp, tp);
    var w := PageWindow(cp, tp);
    assert |w| > 0;
    if 0 in w {
      var k :| 0 <= k < |w| && w[k] == 0;
      assert w[0] == 0;
    }
    if tp - 1 in w {
      var k :| 0 <= k < |w| && w[k] == tp - 1;
      assert w[|w| - 1] == tp - 1;
    }
  }

  lemma RenderExamples()
    ensures Render(0, 10) == Some(Controls(true, false, false, [0, 1, 2, 3, 4], true, true, false))
    ensures Render(9, 10) == Some(Controls(false, true, true, [5, 6, 7, 8, 9], false, false, true))
    ensures PageWindow(0, 5) == [0, 1, 2]
    ensures Render(0, 1) == None
  {
    assert PageWindow(0, 10) == Range(0, 5) == [0, 1, 2, 3, 4];
    assert PageWindow(9, 10) == Range(5, 10) == [5, 6, 7, 8, 9];
    assert PageWindow(0, 5) == Range(0, 3) == [0, 1, 2];
  }
}
