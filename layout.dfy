/** The book layout arithmetic of the gallery: how many cards a two-page spread
    holds for a given container height (`calculateCardsPerPage`), how the rows are
    cut into left and right pages (`buildPagesFromRows`), how many thumbnails the
    strip shows (`renderThumbs`) and the first spread the initial load draws. */
module Layout {
  import opened JsText
  import opened Wrappers
  import opened Items

  /** A card is 80px high with 10px padding and a 12px gap. */
  const CardHeight: int := 80 + 10 + 12
  /** Top and bottom page padding, 20px each. */
  const PagePadding: int := 40
  /** The most cards one page may hold. */
  const MaxCardsPerPage: int := 10

  /** `calculateCardsPerPage(h)`: the cards of a whole spread, twice the cards one
      page holds, which is the number of whole cards that fit into the page
      content height, clamped to [1, 10]. */
  function CardsPerPage(availableHeight: int): (r: int)
    ensures 2 <= r <= 2 * MaxCardsPerPage && r % 2 == 0
    ensures r > 2 ==> (r / 2) * CardHeight <= availableHeight - PagePadding
    ensures r < 2 * MaxCardsPerPage ==> (r / 2 + 1) * CardHeight > availableHeight - PagePadding
    ensures r == 2 <==> availableHeight < 244
    ensures r == 2 * MaxCardsPerPage <==> availableHeight >= 1060
  {
    var perPage := (availableHeight - PagePadding) / CardHeight;
    Max(1, Min(MaxCardsPerPage, perPage)) * 2
  }

  /** A taller container never gives fewer cards. */
  lemma CardsPerPageMonotone(a: int, b: int)
    requires a <= b
    ensures CardsPerPage(a) <= CardsPerPage(b)
  {
  }

  /** The client size of the `.book-wrap` container. */
  datatype Size = Size(width: int, height: int)

  /** The height used to recompute the cards per spread after a later page: 800
      when the container is missing or not yet rendered (a zero width or height),
      its client height otherwise. */
  function ContainerHeight(container: Option<Size>): (h: int)
    ensures container.None? ==> h == 800
    ensures container.Some? && (container.value.width == 0 || container.value.height == 0) ==> h == 800
    ensures container.Some? && container.value.width != 0 && container.value.height != 0 ==>
      h == container.value.height
  {
    match container
    case None => 800
    case Some(size) => if size.width == 0 || size.height == 0 then 800 else size.height
  }

  /** `Math.ceil(n / d)` for a non-negative `n` and a positive `d`: the number of
      chunks of `d` that cover `n`. */
  function CeilDiv(n: nat, d: int): nat
    requires d >= 1
    decreases n
  {
    if n == 0 then 0 else 1 + CeilDiv(if n <= d then 0 else n - d, d)
  }

  /** `CeilDiv(n, d)` is the least count of `d`s that reaches `n`. */
  lemma {:induction false} CeilDivBounds(n: nat, d: int)
    requires d >= 1
    ensures CeilDiv(n, d) * d >= n
    ensures n > 0 ==> (CeilDiv(n, d) - 1) * d < n
    ensures n == 0 <==> CeilDiv(n, d) == 0
    decreases n
  {
    if n > d {
      CeilDivBounds(n - d, d);
      var r := CeilDiv(n - d, d);
      assert CeilDiv(n, d) == r + 1;
      assert (r + 1) * d == r * d + d;
      assert r * d == (r - 1) * d + d;
    }
  }

  /** The two pages of the spread that starts at row `i`: the chunk of up to
      `cardsPerView` rows from `i`, cut after a page's share `cardsPerView / 2`. */
  function Spread(rows: seq<Item>, i: nat, cardsPerView: int): (r: seq<seq<Item>>)
    requires i < |rows| && cardsPerView >= 1
    ensures |r| == 2
  {
    var end := Min(i + cardsPerView, |rows|);
    var mid := Min(i + cardsPerView / 2, end);
    [rows[i..mid], rows[mid..end]]
  }

  /** What the loop body computes with `slice` is that spread:
      `chunk.slice(0, cpv / 2)` and `chunk.slice(cpv / 2, cpv)` of
      `chunk = rows.slice(i, i + cpv)`. */
  lemma SlicedSpread(rows: seq<Item>, i: nat, cardsPerView: int)
    requires i < |rows| && cardsPerView >= 1
    ensures var chunk := Slice(rows, i, i + cardsPerView);
      [Slice(chunk, 0, cardsPerView / 2), Slice(chunk, cardsPerView / 2, cardsPerView)] ==
        Spread(rows, i, cardsPerView)
  {
    var end := Min(i + cardsPerView, |rows|);
    var chunk := Slice(rows, i, i + cardsPerView);
    assert chunk == rows[i..end];
    var mid := Min(i + cardsPerView / 2, end);
    assert Slice(chunk, 0, cardsPerView / 2) == rows[i..mid];
    assert Slice(chunk, cardsPerView / 2, cardsPerView) == rows[mid..end];
  }

  /** The spreads from row `i` on, two pages each. */
  function SpreadsFrom(rows: seq<Item>, i: nat, cardsPerView: int): seq<seq<Item>>
    requires cardsPerView >= 1
    decreases |rows| - i
  {
    if i >= |rows| then [] else Spread(rows, i, cardsPerView) + SpreadsFrom(rows, i + cardsPerView, cardsPerView)
  }

  /** `k` empty pages. */
  function EmptyPages(k: nat): (r: seq<seq<Item>>)
    ensures |r| == k && forall p :: 0 <= p < k ==> r[p] == []
  {
    seq(k, _ => [])
  }

  /** The pages `buildPagesFromRows` appends to the book: all spreads, padded with
      empty pages to at least two. */
  function Pages(rows: seq<Item>, cardsPerView: int): seq<seq<Item>>
    requires cardsPerView >= 1
  {
    var spreads := SpreadsFrom(rows, 0, cardsPerView);
    spreads + EmptyPages(Max(0, 2 - |spreads|))
  }

  /** `buildPagesFromRows`: a loop with stride `cardsPerView` that appends a left and
      a right page per chunk, then pads to two pages. A zero stride would never end,
      so the stride is at least 1. */
  method BuildPages(rows: seq<Item>, cardsPerView: int) returns (pages: seq<seq<Item>>)
    requires cardsPerView >= 1
    ensures pages == Pages(rows, cardsPerView)
  {
    pages := [];
    var i := 0;
    while i < |rows|
      invariant pages + SpreadsFrom(rows, i, cardsPerView) == SpreadsFrom(rows, 0, cardsPerView)
      decreases |rows| - i
    {
      var chunk := Slice(rows, i, i + cardsPerView);
      var left := Slice(chunk, 0, cardsPerView / 2);
      var right := Slice(chunk, cardsPerView / 2, cardsPerView);
      SlicedSpread(rows, i, cardsPerView);
      assert SpreadsFrom(rows, i, cardsPerView) == [left, right] + SpreadsFrom(rows, i + cardsPerView, cardsPerView);
      pages := pages + [left, right];
      i := i + cardsPerView;
    }
    assert pages == SpreadsFrom(rows, 0, cardsPerView);
    ghost var spreads := pages;
    while |pages| < 2
      invariant |spreads| <= |pages| <= Max(2, |spreads|)
      invariant pages == spreads + EmptyPages(|pages| - |spreads|)
      decreases 2 - |pages|
    {
      pages := pages + [[]];
    }
  }

  /** The concatenation of a page list. */
  function Flatten(pages: seq<seq<Item>>): seq<Item>
    decreases |pages|
  {
    if |pages| == 0 then [] else pages[0] + Flatten(pages[1..])
  }

  lemma {:induction false} FlattenConcat(a: seq<seq<Item>>, b: seq<seq<Item>>)
    ensures Flatten(a + b) == Flatten(a) + Flatten(b)
    decreases |a|
  {
    if |a| == 0 {
      assert a + b == b;
    } else {
      assert (a + b)[1..] == a[1..] + b;
      FlattenConcat(a[1..], b);
    }
  }

  lemma {:induction false} FlattenEmpties(k: nat)
    ensures Flatten(EmptyPages(k)) == []
    decreases k
  {
    if k > 0 {
      assert EmptyPages(k)[1..] == EmptyPages(k - 1);
      FlattenEmpties(k - 1);
    }
  }

  /** The spreads from row `i` on hold exactly the rows from `i` on, in order. */
  lemma {:induction false} SpreadsFromFlatten(rows: seq<Item>, i: nat, cardsPerView: int)
    requires cardsPerView >= 1 && i <= |rows|
    ensures Flatten(SpreadsFrom(rows, i, cardsPerView)) == rows[i..]
    decreases |rows| - i
  {
    if i < |rows| {
      var sp := Spread(rows, i, cardsPerView);
      var j := Min(i + cardsPerView, |rows|);
      var rest := SpreadsFrom(rows, i + cardsPerView, cardsPerView);
      assert SpreadsFrom(rows, i, cardsPerView) == sp + rest;
      assert Flatten(rest) == rows[j..] by {
        if i + cardsPerView < |rows| {
          SpreadsFromFlatten(rows, i + cardsPerView, cardsPerView);
        } else {
          assert rest == [];
        }
      }
      FlattenConcat(sp, rest);
      FlattenPair(sp);
      assert rows[i..] == rows[i..j] + rows[j..];
    }
  }

  lemma FlattenPair(sp: seq<seq<Item>>)
    requires |sp| == 2
    ensures Flatten(sp) == sp[0] + sp[1]
  {
    assert sp[1..][1..] == [];
    assert Flatten(sp[1..]) == sp[1] + [];
    assert sp[1] + [] == sp[1];
  }

  /** The spreads from row `i` on number twice the chunks of `cardsPerView` rows. */
  lemma {:induction false} SpreadsFromCount(rows: seq<Item>, i: nat, cardsPerView: int)
    requires cardsPerView >= 1 && i <= |rows|
    ensures |SpreadsFrom(rows, i, cardsPerView)| == 2 * CeilDiv(|rows| - i, cardsPerView)
    decreases |rows| - i
  {
    if i < |rows| {
      var rest := SpreadsFrom(rows, i + cardsPerView, cardsPerView);
      var n := |rows| - i;
      assert |SpreadsFrom(rows, i, cardsPerView)| == 2 + |rest|;
      if i + cardsPerView < |rows| {
        SpreadsFromCount(rows, i + cardsPerView, cardsPerView);
        assert CeilDiv(n, cardsPerView) == 1 + CeilDiv(n - cardsPerView, cardsPerView);
      } else {
        assert rest == [];
        assert CeilDiv(n, cardsPerView) == 1 + CeilDiv(0, cardsPerView);
      }
    }
  }

  /** No page of the spreads from row `i` on holds more than a page's share. */
  lemma {:induction false} SpreadsFromSizes(rows: seq<Item>, i: nat, cardsPerView: int)
    requires cardsPerView >= 1
    ensures forall p :: 0 <= p < |SpreadsFrom(rows, i, cardsPerView)| ==>
      |SpreadsFrom(rows, i, cardsPerView)[p]| <= cardsPerView - cardsPerView / 2
    decreases |rows| - i
  {
    if i < |rows| {
      var sp := Spread(rows, i, cardsPerView);
      var rest := SpreadsFrom(rows, i + cardsPerView, cardsPerView);
      SpreadsFromSizes(rows, i + cardsPerView, cardsPerView);
      assert SpreadsFrom(rows, i, cardsPerView) == sp + rest;
      forall p | 0 <= p < |sp + rest|
        ensures |(sp + rest)[p]| <= cardsPerView - cardsPerView / 2
      {
        if p >= 2 {
          assert (sp + rest)[p] == rest[p - 2];
        }
      }
    }
  }

  /** The book holds every row once, in order, on `max(2, 2 * ceil(n / cardsPerView))`
      pages, none holding more than `cardsPerView - cardsPerView / 2` cards, which is
      `cardsPerView / 2` for the even counts `CardsPerPage` produces. */
  lemma PagesFacts(rows: seq<Item>, cardsPerView: int)
    requires cardsPerView >= 1
    ensures Flatten(Pages(rows, cardsPerView)) == rows
    ensures |Pages(rows, cardsPerView)| == Max(2, 2 * CeilDiv(|rows|, cardsPerView))
    ensures forall p :: 0 <= p < |Pages(rows, cardsPerView)| ==>
      |Pages(rows, cardsPerView)[p]| <= cardsPerView - cardsPerView / 2
    ensures cardsPerView % 2 == 0 ==> forall p :: 0 <= p < |Pages(rows, cardsPerView)| ==>
      |Pages(rows, cardsPerView)[p]| <= cardsPerView / 2
  {
    var spreads := SpreadsFrom(rows, 0, cardsPerView);
    var pad := EmptyPages(Max(0, 2 - |spreads|));
    SpreadsFromFlatten(rows, 0, cardsPerView);
    SpreadsFromCount(rows, 0, cardsPerView);
    SpreadsFromSizes(rows, 0, cardsPerView);
    FlattenConcat(spreads, pad);
    FlattenEmpties(|pad|);
    assert rows[0..] == rows;
    assert Flatten(spreads) + [] == Flatten(spreads);
  }

  /** `renderThumbs`: one thumbnail per spread, `Math.ceil(n / cardsPerView)`. */
  function ThumbCount(rowCount: nat, cardsPerView: int): (r: nat)
    requires cardsPerView >= 1
    ensures r * cardsPerView >= rowCount
    ensures rowCount > 0 ==> (r - 1) * cardsPerView < rowCount
  {
    CeilDivBounds(rowCount, cardsPerView);
    CeilDiv(rowCount, cardsPerView)
  }

  /** With at least one row the strip shows one thumbnail for every two pages. */
  lemma ThumbsPerSpread(rows: seq<Item>, cardsPerView: int)
    requires cardsPerView >= 1 && |rows| > 0
    ensures |Pages(rows, cardsPerView)| == 2 * ThumbCount(|rows|, cardsPerView)
  {
    PagesFacts(rows, cardsPerView);
  }

  /** The two pages the first load draws directly: `rows.slice(0, floor(cpv / 2))`
      and `rows.slice(floor(cpv / 2), cpv)`. */
  function FirstSpread(rows: seq<Item>, cardsPerView: int): (r: seq<seq<Item>>)
    ensures |r| == 2
    ensures cardsPerView >= 0 ==> r[0] + r[1] == rows[..Min(cardsPerView, |rows|)]
    ensures cardsPerView >= 0 ==> |r[0]| <= cardsPerView / 2 && |r[1]| <= cardsPerView - cardsPerView / 2
  {
    var half := cardsPerView / 2;
    [Slice(rows, 0, half), Slice(rows, half, cardsPerView)]
  }

  /** The first load's two pages are the first two pages the book builder would
      produce from the same rows. */
  lemma FirstSpreadIsFirstPages(rows: seq<Item>, cardsPerView: int)
    requires cardsPerView >= 2 && |rows| > 0
    ensures FirstSpread(rows, cardsPerView) == Pages(rows, cardsPerView)[..2]
  {
    var chunk := rows[0..Min(cardsPerView, |rows|)];
    assert Slice(rows, 0, cardsPerView) == chunk;
    var half := cardsPerView / 2;
    assert Slice(chunk, 0, half) == Slice(rows, 0, half);
    assert Slice(chunk, half, cardsPerView) == Slice(rows, half, cardsPerView);
    SpreadsFromCount(rows, 0, cardsPerView);
  }
}
