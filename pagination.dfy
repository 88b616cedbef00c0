/** The leaderboard's page navigation: the window of at most seven numbered
    buttons `renderPagination` draws around the current page, the Previous and
    Next buttons, the jump buttons to the first and last page with their
    ellipses, and the guard of `goToPage`. */
module Pagination {
  import opened JsText
  import opened Wrappers

  /** `maxButtons`. */
  const MaxButtons: int := 7

  /** One control of the pagination bar, left to right. */
  datatype Control =
    | Prev(disabled: bool, target: int)
    | Jump(target: int)
    | Ellipsis
    | PageButton(number: int, active: bool)
    | Next(disabled: bool, target: int)

  datatype Window = Window(start: int, end: int)

  /** `startPage` and `endPage`: centred on the page when it can be, and moved
      back towards page 1 when the window would run past the last page. */
  function PageWindow(page: int, totalPages: int): (w: Window)
    ensures w.start >= 1
    ensures w.end <= totalPages
  {
    var start0 := Max(1, page - MaxButtons / 2);
    var end := Min(totalPages, start0 + MaxButtons - 1);
    var start := if end - start0 < MaxButtons - 1 then Max(1, end - MaxButtons + 1) else start0;
    Window(start, end)
  }

  /** For a page in range the window lies within the pages, holds the page, and
      is as wide as the buttons allow: `min(7, totalPages)` pages. */
  lemma WindowFacts(page: int, totalPages: int)
    requires 1 <= page <= totalPages
    ensures var w := PageWindow(page, totalPages);
      1 <= w.start <= page <= w.end <= totalPages &&
      w.end - w.start + 1 == Min(MaxButtons, totalPages)
  {
  }

  /** The window in closed form: it starts three pages before the page, but no
      later than where the last seven pages start and no earlier than page 1, and
      runs for seven pages or to the last page. */
  lemma WindowCentred(page: int, totalPages: int)
    requires 1 <= page <= totalPages
    ensures var w := PageWindow(page, totalPages);
      w.start == Max(1, Min(page - 3, totalPages - (MaxButtons - 1))) &&
      w.end == Min(totalPages, w.start + MaxButtons - 1)
  {
  }

  /** The numbered buttons from `start` to `end`. */
  function WindowButtons(page: int, w: Window): (r: seq<Control>)
    ensures |r| == Max(0, w.end - w.start + 1)
    ensures forall k :: 0 <= k < |r| ==> r[k] == PageButton(w.start + k, w.start + k == page)
  {
    seq(Max(0, w.end - w.start + 1), k => PageButton(w.start + k, w.start + k == page))
  }

  function Leading(w: Window): seq<Control> {
    if w.start > 1 then [Jump(1)] + (if w.start > 2 then [Ellipsis] else []) else []
  }

  function Trailing(w: Window, totalPages: int): seq<Control> {
    if w.end < totalPages then (if w.end < totalPages - 1 then [Ellipsis] else []) + [Jump(totalPages)] else []
  }

  /** The bar `renderPagination` writes. */
  function Controls(page: int, totalPages: int): (r: seq<Control>)
    ensures |r| >= 2
    ensures r[0] == Prev(page <= 1, page - 1) && r[|r| - 1] == Next(page >= totalPages, page + 1)
    ensures forall k :: 0 < k < |r| - 1 ==> !r[k].Prev? && !r[k].Next?
    ensures |r| == 2 + |Leading(PageWindow(page, totalPages))| +
      Max(0, PageWindow(page, totalPages).end - PageWindow(page, totalPages).start + 1) +
      |Trailing(PageWindow(page, totalPages), totalPages)|
  {
    var w := PageWindow(page, totalPages);
    [Prev(page <= 1, page - 1)] + Leading(w) + WindowButtons(page, w) + Trailing(w, totalPages) +
      [Next(page >= totalPages, page + 1)]
  }

  /** `renderPagination(meta)`: the bar is built left to right. */
  method RenderPagination(page: int, totalPages: int) returns (bar: seq<Control>)
    ensures bar == Controls(page, totalPages)
  {
    var start := Max(1, page - MaxButtons / 2);
    var end := Min(totalPages, start + MaxButtons - 1);
    if end - start < MaxButtons - 1 {
      start := Max(1, end - MaxButtons + 1);
    }
    var w := Window(start, end);
    assert w == PageWindow(page, totalPages);
    bar := [Prev(page <= 1, page - 1)];
    if start > 1 {
      bar := bar + [Jump(1)];
      if start > 2 {
        bar := bar + [Ellipsis];
      }
    }
    assert bar == [Prev(page <= 1, page - 1)] + Leading(w);
    var buttons := NumberButtons(page, start, end);
    bar := bar + buttons;
    ghost var before := bar;
    if end < totalPages {
      if end < totalPages - 1 {
        bar := bar + [Ellipsis];
      }
      bar := bar + [Jump(totalPages)];
    }
    assert bar == before + Trailing(w, totalPages);
    bar := bar + [Next(page >= totalPages, page + 1)];
  }

  /** The loop of `renderPagination` from `startPage` to `endPage`. */
  method NumberButtons(page: int, start: int, end: int) returns (buttons: seq<Control>)
    ensures buttons == WindowButtons(page, Window(start, end))
  {
    buttons := [];
    var i := start;
    while i <= end
      invariant start <= i <= Max(start, end + 1)
      invariant buttons == WindowButtons(page, Window(start, i - 1))
      decreases end - i
    {
      WindowButtonsSnoc(page, start, i);
      buttons := buttons + [PageButton(i, i == page)];
      i := i + 1;
    }
  }

  lemma WindowButtonsSnoc(page: int, start: int, i: int)
    requires start <= i
    ensures WindowButtons(page, Window(start, i)) ==
      WindowButtons(page, Window(start, i - 1)) + [PageButton(i, i == page)]
  {
  }

  /** The bar's ends and its jump buttons. Previous is disabled exactly on the
      first page and leads to the page before; Next is disabled exactly from the
      last page on and leads to the page after. A button to page 1 comes after
      Previous exactly when the window starts later, and a button to the last page
      comes before Next exactly when the window ends earlier. */
  lemma ControlsEnds(page: int, totalPages: int)
    ensures var bar := Controls(page, totalPages);
      |bar| >= 2 &&
      bar[0] == Prev(page <= 1, page - 1) && bar[|bar| - 1] == Next(page >= totalPages, page + 1)
    ensures var bar, w := Controls(page, totalPages), PageWindow(page, totalPages);
      (bar[1] == Jump(1) <==> w.start > 1) &&
      (bar[|bar| - 2] == Jump(totalPages) <==> w.end < totalPages)
  {
    var w := PageWindow(page, totalPages);
    var bar := Controls(page, totalPages);
    var lead, mid, trail := Leading(w), WindowButtons(page, w), Trailing(w, totalPages);
    assert bar == [Prev(page <= 1, page - 1)] + lead + mid + trail + [Next(page >= totalPages, page + 1)];
    if w.start <= 1 {
      assert bar[1] != Jump(1) by {
        if |mid| > 0 {
          assert bar[1] == mid[0];
        } else {
          assert trail == [];
          assert bar[1] == Next(page >= totalPages, page + 1);
        }
      }
    }
    if w.end >= totalPages {
      assert bar[|bar| - 2] != Jump(totalPages) by {
        if |mid| > 0 {
          assert bar[|bar| - 2] == mid[|mid| - 1];
        } else {
          assert lead == [];
          assert bar[|bar| - 2] == bar[0];
        }
      }
    }
  }

  /** For a page in range exactly one numbered button is marked active, the one
      for the current page, and the numbered buttons are the consecutive pages of
      the window. */
  lemma OneActive(page: int, totalPages: int)
    requires 1 <= page <= totalPages
    ensures var w := PageWindow(page, totalPages); var b := WindowButtons(page, w);
      |b| == Min(MaxButtons, totalPages) &&
      (forall k :: 0 <= k < |b| ==> b[k].number == w.start + k) &&
      (exists k :: 0 <= k < |b| && b[k] == PageButton(page, true)) &&
      (forall k :: 0 <= k < |b| && b[k].active ==> b[k].number == page)
  {
    WindowFacts(page, totalPages);
    var w := PageWindow(page, totalPages);
    var b := WindowButtons(page, w);
    assert b[page - w.start] == PageButton(page, true);
  }

  /** An ellipsis follows the button to page 1 exactly when pages between them are
      skipped, and precedes the last-page button exactly when pages are skipped
      there. */
  lemma EllipsesMarkGaps(page: int, totalPages: int)
    ensures var w := PageWindow(page, totalPages);
      (Ellipsis in Leading(w) <==> w.start > 2) &&
      (Ellipsis in Trailing(w, totalPages) <==> w.end < totalPages - 1)
  {
    var w := PageWindow(page, totalPages);
    if w.start > 2 {
      assert Leading(w)[1] == Ellipsis;
    }
    if w.end < totalPages - 1 {
      assert Trailing(w, totalPages)[0] == Ellipsis;
    }
  }

  /** The leaderboard's paging state: `currentLeaderboardPage`, and the
      `meta.totalPages` of the last rendered data, absent until data arrives. */
  class Leaderboard {
    var currentPage: int
    var totalPages: Option<int>

    constructor()
      ensures currentPage == 1 && totalPages == None
    {
      currentPage := 1;
      totalPages := None;
    }

    /** `renderLeaderboard` keeps the data whose meta bounds later moves. */
    method Rendered(pages: int)
      modifies this
      ensures totalPages == Some(pages) && currentPage == old(currentPage)
    {
      totalPages := Some(pages);
    }

    /** `goToPage(page)`: pages below 1 are refused, and so are pages past the last
        one once data is loaded; any other page becomes current and is loaded. */
    method GoToPage(page: int) returns (moved: bool)
      modifies this
      ensures totalPages == old(totalPages)
      ensures moved <==> Accepts(old(totalPages), page)
      ensures currentPage == if moved then page else old(currentPage)
    {
      if page < 1 || (totalPages.Some? && page > totalPages.value) {
        return false;
      }
      currentPage := page;
      moved := true;
    }
  }

  /** The pages `goToPage` accepts. */
  predicate Accepts(totalPages: Option<int>, page: int) {
    page >= 1 && (totalPages.None? || page <= totalPages.value)
  }

  /** Every button of a bar drawn for a page in range leads to an accepted page,
      except a disabled Previous or Next. */
  lemma ButtonsLeadToAcceptedPages(page: int, totalPages: int, k: int)
    requires 1 <= page <= totalPages && 0 <= k < |Controls(page, totalPages)|
    ensures var c := Controls(page, totalPages)[k];
      (c.Jump? ==> Accepts(Some(totalPages), c.target)) &&
      (c.PageButton? ==> Accepts(Some(totalPages), c.number)) &&
      ((c.Prev? || c.Next?) && !c.disabled ==> Accepts(Some(totalPages), c.target))
  {
    var w := PageWindow(page, totalPages);
    WindowFacts(page, totalPages);
    var bar := Controls(page, totalPages);
    var lead, mid, trail := Leading(w), WindowButtons(page, w), Trailing(w, totalPages);
    var head := [Prev(page <= 1, page - 1)] + lead;
    assert bar == head + mid + trail + [Next(page >= totalPages, page + 1)];
    if k < |head| {
      assert bar[k] == head[k];
    } else if k < |head| + |mid| {
      assert bar[k] == mid[k - |head|];
    } else if k < |head| + |mid| + |trail| {
      assert bar[k] == trail[k - |head| - |mid|];
    }
  }
}
