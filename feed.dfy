/** The gallery feed: the module-level state the codex view keeps while it pages
    through `/entries` (`currentApiPage`, `rowsAccum`, `totalItems`,
    `isLoadingMore`, `cardsPerPageView`), the transitions `resetAndInit`,
    `loadInitialPage` and `loadMore` make on it, the busy and end-of-data guard of
    the auto-load observer, and the query the page fetch sends. The fetch result
    and the presence of the page elements are parameters. */
module Feed {
  import opened JsText
  import opened Wrappers
  import opened Items
  import opened Dedup
  import opened Layout

  /** `apiLimit`: rows asked for per page. */
  const ApiLimit: nat := 24
  /** The initial `cardsPerPageView`. */
  const InitialCardsPerView: int := 4

  /** The `rows` member of a response object: absent (the destructuring default
      `[]` applies), `null` (the default does not apply) or an array. */
  datatype RowsField = RowsMissing | RowsNull | Rows(items: seq<Item>)

  /** What `await fetchEntriesPage(page)` gives the loader: a rejection (network
      failure or a non-OK status), a value that is not an object, or an object
      with its `rows` and `total` members (`total` absent means 0). */
  datatype FetchOutcome =
    | FetchFailed
    | NotAnObject
    | Response(rows: RowsField, total: Option<int>)

  /** The page elements the loaders touch: `#book`, `#thumbs`, and the client size
      of the book's container (its parent or `.book-wrap`), if there is one. */
  datatype Dom = Dom(bookPresent: bool, thumbsPresent: bool, container: Option<Size>)

  /** What a loader leaves in `#book`: nothing new, a notice page (empty result or
      error), or pages of cards. */
  datatype BookView = Unchanged | Notice | Cards(pages: seq<seq<Item>>)

  /** The feed's state as plain values. */
  datatype Snapshot = Snapshot(page: int, rows: seq<Item>, total: int, busy: bool, cardsPerView: int)

  /** A loader's effect: the new state, the book, and the thumbnail strip
      (`None` when the loader did not redraw it, otherwise the button count). */
  datatype Step = Step(state: Snapshot, book: BookView, thumbs: Option<nat>)

  /** What every reachable state satisfies: the API page counts from 1, the cards
      per spread come from `CardsPerPage`, and the accumulated rows come out of the
      reducer, so no two share a merge key. */
  predicate Consistent(s: Snapshot) {
    s.page >= 1 && 2 <= s.cardsPerView <= 20 && s.cardsPerView % 2 == 0 && DistinctKeyed(s.rows)
  }

  /** The state at page load. */
  function InitialState(): (r: Snapshot)
    ensures Consistent(r)
  {
    Snapshot(1, [], 0, false, InitialCardsPerView)
  }

  /** `const { rows = [] } = response`, `None` when that gives `null`. */
  function RowsOf(f: RowsField): (r: Option<seq<Item>>)
    ensures r.None? <==> f.RowsNull?
    ensures f.RowsMissing? ==> r == Some([])
    ensures f.Rows? ==> r == Some(f.items)
  {
    match f
    case RowsMissing => Some([])
    case RowsNull => None
    case Rows(items) => Some(items)
  }

  /** `resetAndInit`: nothing in the leaderboard view; otherwise back to page 1
      with no rows and no load in flight. `totalItems` and the layout are kept. */
  function AfterReset(s: Snapshot, inLeaderboard: bool): (r: Snapshot)
    ensures Consistent(s) ==> Consistent(r)
    ensures inLeaderboard ==> r == s
    ensures !inLeaderboard ==> r.page == 1 && r.rows == [] && !r.busy
    ensures r.total == s.total && r.cardsPerView == s.cardsPerView
  {
    if inLeaderboard then s else s.(page := 1, rows := [], busy := false)
  }

  /** `loadInitialPage`. A failed fetch, a non-object, or `null` rows (iterated
      by the reducer after `totalItems` is set) end in the catch block, which
      puts an error notice into the book when it exists and clears the
      thumbnails. Otherwise the rows are merged into `rowsAccum`; a missing book
      ends the load, an empty result shows a notice, and otherwise the first two
      pages are drawn and the thumbnails rendered, which throws when `#thumbs` is
      missing. Only a load that gets that far moves to the next API page. */
  function AfterInitialLoad(s: Snapshot, outcome: FetchOutcome, dom: Dom): (r: Step)
    requires s.cardsPerView >= 1
    ensures r.state.busy == s.busy && r.state.cardsPerView == s.cardsPerView
    ensures r.state.page == s.page || r.state.page == s.page + 1
  {
    var failed := Step(s, if dom.bookPresent then Notice else Unchanged, if dom.thumbsPresent then Some(0) else None);
    if !outcome.Response? then failed
    else
      var s1 := s.(total := outcome.total.GetOr(0));
      var rows := RowsOf(outcome.rows);
      if rows.None? then failed.(state := s1)
      else
        var s2 := s1.(rows := Merged(rows.value));
        if !dom.bookPresent then Step(s2, Unchanged, None)
        else if |s2.rows| == 0 then Step(s2, Notice, if dom.thumbsPresent then Some(0) else None)
        else if !dom.thumbsPresent then Step(s2, Notice, None)
        else Step(s2.(page := s.page + 1), Cards(FirstSpread(s2.rows, s.cardsPerView)),
                  Some(ThumbCount(|s2.rows|, s.cardsPerView)))
  }

  /** `loadMore`. A failed fetch, a non-object, `null` rows (whose `length` throws)
      and an empty page change nothing. Otherwise `totalItems` is set and the
      accumulated rows are merged again together with the new page. A missing book
      throws next. The book is rebuilt with the cards per spread in force, then
      `cardsPerPageView` is recomputed from the container height before the
      PageFlip set-up throws (it names an undeclared `bookEl`), which is caught
      inside `loadMore`; the thumbnails are then rendered with the new value, which
      throws when `#thumbs` is missing, and only then the API page advances. */
  function AfterLoadMore(s: Snapshot, outcome: FetchOutcome, dom: Dom): (r: Step)
    requires s.cardsPerView >= 1
    ensures r.state.busy == s.busy
    ensures r.state.page == s.page || r.state.page == s.page + 1
  {
    if !outcome.Response? || RowsOf(outcome.rows).None? || |RowsOf(outcome.rows).value| == 0 then
      Step(s, Unchanged, None)
    else
      var s1 := s.(total := outcome.total.GetOr(0), rows := Merged(s.rows + RowsOf(outcome.rows).value));
      if !dom.bookPresent then Step(s1, Unchanged, None)
      else
        var pages := Pages(s1.rows, s.cardsPerView);
        var s2 := s1.(cardsPerView := CardsPerPage(ContainerHeight(dom.container)));
        if !dom.thumbsPresent then Step(s2, Cards(pages), None)
        else Step(s2.(page := s.page + 1), Cards(pages), Some(ThumbCount(|s2.rows|, s2.cardsPerView)))
  }

  /** What the observer callback decides for one entry. */
  datatype Trigger = Skipped | AllLoaded | Started

  datatype GuardStep = GuardStep(trigger: Trigger, state: Snapshot)

  /** The observer callback's guard: a sentinel out of view or a load in flight is
      skipped; once the accumulated rows reach `totalItems` the observer is
      disconnected; otherwise the busy flag is raised and `loadMore` starts. */
  function OnIntersection(s: Snapshot, isIntersecting: bool): (r: GuardStep)
    ensures r.trigger == Started <==> isIntersecting && !s.busy && |s.rows| < s.total
    ensures r.trigger == AllLoaded <==> isIntersecting && !s.busy && |s.rows| >= s.total
    ensures r.trigger == Started ==> r.state == s.(busy := true)
    ensures r.trigger != Started ==> r.state == s
  {
    if !isIntersecting || s.busy then GuardStep(Skipped, s)
    else if |s.rows| >= s.total then GuardStep(AllLoaded, s)
    else GuardStep(Started, s.(busy := true))
  }

  /** A reset keeps every state consistent. The initial load and the next-page
      load keep it consistent too: the rows they store come out of the reducer and
      the recomputed layout is a `CardsPerPage` value. */
  lemma {:induction false} LoadsKeepConsistent(s: Snapshot, outcome: FetchOutcome, dom: Dom)
    requires Consistent(s)
    ensures Consistent(AfterInitialLoad(s, outcome, dom).state)
    ensures Consistent(AfterLoadMore(s, outcome, dom).state)
  {
    if outcome.Response? && RowsOf(outcome.rows).Some? {
      MergedKeys(RowsOf(outcome.rows).value);
      MergedKeys(s.rows + RowsOf(outcome.rows).value);
    }
  }

  /** The first load moves to API page 2 exactly when it draws cards, and an empty
      first page leaves the feed on page 1 with no rows. Whatever it draws is the
      first spread of the book the rows would fill, with one thumbnail per
      spread. */
  lemma {:induction false} InitialLoadFacts(s: Snapshot, outcome: FetchOutcome, dom: Dom)
    requires Consistent(s)
    ensures var r := AfterInitialLoad(s, outcome, dom);
      (r.state.page == s.page + 1 <==>
        outcome.Response? && RowsOf(outcome.rows).Some? && |RowsOf(outcome.rows).value| > 0 &&
        dom.bookPresent && dom.thumbsPresent)
    ensures var r := AfterInitialLoad(s, outcome, dom);
      outcome.Response? && RowsOf(outcome.rows) == Some([]) ==> r.state.page == s.page && r.state.rows == []
    ensures var r := AfterInitialLoad(s, outcome, dom);
      r.book.Cards? ==>
        |r.state.rows| > 0 &&
        r.book.pages == Pages(r.state.rows, s.cardsPerView)[..2] &&
        r.thumbs.Some? && 2 * r.thumbs.value == |Pages(r.state.rows, s.cardsPerView)|
    ensures var r := AfterInitialLoad(s, outcome, dom);
      !outcome.Response? ==> r.state == s
    ensures var r := AfterInitialLoad(s, outcome, dom);
      outcome.Response? ==> r.state.total == outcome.total.GetOr(0)
    ensures var r := AfterInitialLoad(s, outcome, dom);
      outcome.Response? && RowsOf(outcome.rows).Some? ==> r.state.rows == Merged(RowsOf(outcome.rows).value)
  {
    var r := AfterInitialLoad(s, outcome, dom);
    if outcome.Response? && RowsOf(outcome.rows).Some? {
      var items := RowsOf(outcome.rows).value;
      MergedKeys(items);
      NonEmptyKeySet(items);
      if r.book.Cards? {
        FirstSpreadIsFirstPages(r.state.rows, s.cardsPerView);
        ThumbsPerSpread(r.state.rows, s.cardsPerView);
      }
    }
  }

  /** Rows exist exactly when some key does. */
  lemma {:induction false} NonEmptyKeySet(items: seq<Item>)
    ensures |items| > 0 <==> |KeySet(items)| > 0
  {
    if |items| > 0 {
      KeyInKeySet(items, 0);
    }
  }

  /** A `loadMore` whose fetch fails, whose response is not an object, or whose
      page has no rows leaves the rows, the total and the API page where they
      were and touches nothing on screen. */
  lemma LoadMoreWithoutRows(s: Snapshot, outcome: FetchOutcome, dom: Dom)
    requires s.cardsPerView >= 1
    requires !outcome.Response? || RowsOf(outcome.rows).None? || RowsOf(outcome.rows) == Some([])
    ensures AfterLoadMore(s, outcome, dom) == Step(s, Unchanged, None)
  {
  }

  /** A `loadMore` with rows re-merges the accumulated rows with them: every key
      seen so far and every new key is there once. The earlier records keep their
      place and their fields, `owned` becomes the OR with the new rows, and their
      variant list restarts from their own id followed by the ids of the new rows,
      so the variants merged on earlier pages are lost. New keys follow in first
      occurrence order. The API page advances exactly when the book and the
      thumbnail strip are present. */
  lemma {:induction false} LoadMoreMerges(s: Snapshot, outcome: FetchOutcome, dom: Dom)
    requires Consistent(s)
    requires outcome.Response? && RowsOf(outcome.rows).Some?
    requires |RowsOf(outcome.rows).value| > 0
    ensures var r := AfterLoadMore(s, outcome, dom).state; var items := RowsOf(outcome.rows).value;
      r.rows == Merged(s.rows + items) && r.total == outcome.total.GetOr(0) &&
      KeySet(r.rows) == KeySet(s.rows) + KeySet(items) &&
      |s.rows| <= |r.rows| <= |s.rows| + |items|
    ensures var r := AfterLoadMore(s, outcome, dom).state; var items := RowsOf(outcome.rows).value;
      forall j :: 0 <= j < |s.rows| ==>
        r.rows[j] == s.rows[j].(owned := s.rows[j].owned || AnyOwned(items, Key(s.rows[j])),
                                assetIds := Some([s.rows[j].assetId] + IdsWithKey(items, Key(s.rows[j]))))
    ensures var r := AfterLoadMore(s, outcome, dom).state;
      r.page == s.page + 1 <==> dom.bookPresent && dom.thumbsPresent
  {
    var items := RowsOf(outcome.rows).value;
    var r := AfterLoadMore(s, outcome, dom).state;
    assert r.rows == Merged(s.rows + items) && r.total == outcome.total.GetOr(0);
    RemergeFacts(s.rows, items);
  }

  /** Merging distinct rows again together with a page of new rows. */
  lemma RemergeFacts(acc: seq<Item>, items: seq<Item>)
    requires DistinctKeyed(acc)
    ensures KeySet(Merged(acc + items)) == KeySet(acc) + KeySet(items)
    ensures |acc| <= |Merged(acc + items)| <= |acc| + |items|
    ensures forall j :: 0 <= j < |acc| ==>
      Merged(acc + items)[j] == acc[j].(owned := acc[j].owned || AnyOwned(items, Key(acc[j])),
                                       assetIds := Some([acc[j].assetId] + IdsWithKey(items, Key(acc[j]))))
  {
    MergedKeys(acc + items);
    KeySetConcat(acc, items);
    MergeIntoDistinct(acc, items);
    MergedRowsKeySet(acc + items);
  }

  /** The keys of the merged rows are the keys of the input. */
  lemma MergedRowsKeySet(items: seq<Item>)
    ensures KeySet(Merged(items)) == KeySet(items)
  {
    var m := Merged(items);
    MergedKeys(items);
    forall k | k in KeySet(m)
      ensures k in KeySet(items)
    {
      var i := KeyWitness(m, k);
    }
    forall k | k in KeySet(items)
      ensures k in KeySet(m)
    {
      var j :| 0 <= j < |m| && Key(m[j]) == k;
      KeyInKeySet(m, j);
    }
  }

  /** The book `loadMore` rebuilds holds every accumulated row once, in order, laid
      out with the cards per spread in force before the call, while the thumbnail
      strip counts spreads with the recomputed value: the two agree exactly when
      both values give the same number of spreads. */
  lemma {:induction false} LoadMoreRedraw(s: Snapshot, outcome: FetchOutcome, dom: Dom)
    requires Consistent(s)
    ensures var r := AfterLoadMore(s, outcome, dom);
      r.book.Cards? ==>
        Flatten(r.book.pages) == r.state.rows &&
        |r.book.pages| == Max(2, 2 * CeilDiv(|r.state.rows|, s.cardsPerView)) &&
        r.state.cardsPerView == CardsPerPage(ContainerHeight(dom.container))
    ensures var r := AfterLoadMore(s, outcome, dom);
      r.book.Cards? && r.thumbs.Some? ==>
        r.thumbs.value == ThumbCount(|r.state.rows|, r.state.cardsPerView) &&
        (|r.book.pages| == 2 * r.thumbs.value <==>
          CeilDiv(|r.state.rows|, s.cardsPerView) == CeilDiv(|r.state.rows|, r.state.cardsPerView))
  {
    var r := AfterLoadMore(s, outcome, dom);
    if r.book.Cards? {
      var items := RowsOf(outcome.rows).value;
      PagesFacts(r.state.rows, s.cardsPerView);
      MergedKeys(s.rows + items);
      NonEmptyKeySet(s.rows + items);
      assert |s.rows + items| > 0;
    }
  }

  /** While a load is in flight no second one starts, and `loadMore` itself
      leaves the busy flag alone, so it stays raised until the callback's
      `finally` lowers it. */
  lemma NoOverlappingLoads(s: Snapshot, first: bool, second: bool, outcome: FetchOutcome, dom: Dom)
    requires s.cardsPerView >= 1
    requires OnIntersection(s, first).trigger == Started
    ensures var busy := OnIntersection(s, first).state;
      OnIntersection(busy, second).trigger == Skipped &&
      OnIntersection(AfterLoadMore(busy, outcome, dom).state, second).trigger == Skipped
  {
  }

  /** Once the accumulated rows reach the total, no load starts again until
      another response lowers the total or a reset empties the rows. */
  lemma AllLoadedStaysLoaded(s: Snapshot, isIntersecting: bool)
    requires |s.rows| >= s.total
    ensures OnIntersection(s, isIntersecting).trigger != Started
    ensures OnIntersection(s, isIntersecting).state == s
  {
  }

  /** Two pages that each hold one copy of the same artwork end as one record
      that is owned and lists both ids. */
  lemma TwoPagesOneArtwork()
    ensures var fox1 := Item("1", Str("Fox"), Str("a.png"), Null, false, None);
            var fox2 := Item("2", Str("Fox"), Str("a.png"), Null, true, None);
            var dom := Dom(true, true, None);
            var s1 := AfterInitialLoad(InitialState(), Response(Rows([fox1]), Some(2)), dom).state;
            var s2 := AfterLoadMore(s1, Response(Rows([fox2]), Some(2)), dom).state;
            s1.page == 2 && s1.rows == [fox1.(assetIds := Some(["1"]))] &&
            s2.page == 3 && s2.rows == [fox1.(owned := true, assetIds := Some(["1", "2"]))]
  {
    var fox1 := Item("1", Str("Fox"), Str("a.png"), Null, false, None);
    var fox2 := Item("2", Str("Fox"), Str("a.png"), Null, true, None);
    var first := [fox1.(assetIds := Some(["1"]))];
    RemergeResetsIds([fox1]);
    PairWithSameKey(first, [fox2]);
  }

  /** Variants merged on one page are lost when the next page is merged in: after
      the first page lists ids 1 and 2 and the second page brings id 3, the record
      lists 1 and 3. */
  lemma VariantsLostOnNextPage()
    ensures var fox1 := Item("1", Str("Fox"), Str("a.png"), Null, false, None);
            var fox2 := Item("2", Str("Fox"), Str("a.png"), Null, true, None);
            var fox3 := Item("3", Str("Fox"), Str("a.png"), Null, false, None);
            var dom := Dom(true, true, None);
            var s1 := AfterInitialLoad(InitialState(), Response(Rows([fox1, fox2]), Some(3)), dom).state;
            var s2 := AfterLoadMore(s1, Response(Rows([fox3]), Some(3)), dom).state;
            s1.rows == [fox1.(owned := true, assetIds := Some(["1", "2"]))] &&
            s2.rows == [fox1.(owned := true, assetIds := Some(["1", "3"]))]
  {
    var fox1 := Item("1", Str("Fox"), Str("a.png"), Null, false, None);
    var fox2 := Item("2", Str("Fox"), Str("a.png"), Null, true, None);
    var fox3 := Item("3", Str("Fox"), Str("a.png"), Null, false, None);
    PairWithSameKey([fox1], [fox2]);
    assert [fox1] + [fox2] == [fox1, fox2];
    var first := [fox1.(owned := true, assetIds := Some(["1", "2"]))];
    PairWithSameKey(first, [fox3]);
  }

  /** `currentSpecies` after a click in the species list: "All" clears the filter. */
  function SpeciesFilter(clicked: string): (r: string)
    ensures clicked == "All" ==> r == ""
    ensures clicked != "All" ==> r == clicked
  {
    if clicked == "All" then "" else clicked
  }

  /** The query of `fetchEntriesPage(page)`: `species`, `q` and `owner` only when
      the current species, search text and wallet are set (a missing wallet is
      ""), then `page` and `limit` always. */
  function EntriesQuery(species: string, query: string, owner: string, page: nat): (r: seq<(string, string)>)
    ensures |r| >= 2 && r[|r| - 2] == ("page", Decimal(page)) && r[|r| - 1] == ("limit", Decimal(ApiLimit))
    ensures ("species", species) in r <==> species != ""
    ensures ("q", query) in r <==> query != ""
    ensures ("owner", owner) in r <==> owner != ""
    ensures |r| == 2 + (if species != "" then 1 else 0) + (if query != "" then 1 else 0) + (if owner != "" then 1 else 0)
  {
    (if species != "" then [("species", species)] else []) +
    (if query != "" then [("q", query)] else []) +
    (if owner != "" then [("owner", owner)] else []) +
    [("page", Decimal(page)), ("limit", Decimal(ApiLimit))]
  }

  /** A click on "All" drops the `species` parameter from the next query; any
      other species label is sent as given. */
  lemma SpeciesFilterQuery(clicked: string, query: string, owner: string, page: nat)
    ensures var r := EntriesQuery(SpeciesFilter(clicked), query, owner, page);
      clicked == "All" ==> forall k :: 0 <= k < |r| ==> r[k].0 != "species"
    ensures var r := EntriesQuery(SpeciesFilter(clicked), query, owner, page);
      clicked != "All" && clicked != "" ==> r[0] == ("species", clicked)
  {
  }

  /** The `page` parameter reads back as the page number, and `limit` is "24". */
  lemma EntriesQueryPage(species: string, query: string, owner: string, page: nat)
    ensures var r := EntriesQuery(species, query, owner, page);
      DecimalValue(r[|r| - 2].1) == page && r[|r| - 1].1 == "24"
  {
    DecimalRoundTrip(page);
    assert Decimal(ApiLimit) == Decimal(2) + [DigitChar(4)];
  }

  /** The feed state as the front end keeps it, in module-level variables. */
  class FeedState {
    var currentApiPage: int
    var rowsAccum: seq<Item>
    var totalItems: int
    var isLoadingMore: bool
    var cardsPerPageView: int

    function Snap(): Snapshot
      reads this
    {
      Snapshot(currentApiPage, rowsAccum, totalItems, isLoadingMore, cardsPerPageView)
    }

    predicate Valid()
      reads this
    {
      Consistent(Snap())
    }

    constructor()
      ensures Snap() == InitialState() && Valid()
    {
      currentApiPage := 1;
      rowsAccum := [];
      totalItems := 0;
      isLoadingMore := false;
      cardsPerPageView := InitialCardsPerView;
    }

    /** `resetAndInit` up to the point where it schedules the first load. */
    method Reset(inLeaderboard: bool)
      requires Valid()
      modifies this
      ensures Valid()
      ensures Snap() == AfterReset(old(Snap()), inLeaderboard)
    {
      if inLeaderboard {
        return;
      }
      currentApiPage := 1;
      rowsAccum := [];
      isLoadingMore := false;
    }

    method LoadInitialPage(outcome: FetchOutcome, dom: Dom) returns (book: BookView, thumbs: Option<nat>)
      requires Valid()
      modifies this
      ensures Valid()
      ensures Step(Snap(), book, thumbs) == AfterInitialLoad(old(Snap()), outcome, dom)
    {
      LoadsKeepConsistent(Snap(), outcome, dom);
      book := if dom.bookPresent then Notice else Unchanged;
      thumbs := if dom.thumbsPresent then Some(0) else None;
      if !outcome.Response? {
        return;
      }
      totalItems := outcome.total.GetOr(0);
      var rows := RowsOf(outcome.rows);
      if rows.None? {
        return;
      }
      rowsAccum := Deduplicate(rows.value);
      if !dom.bookPresent {
        book, thumbs := Unchanged, None;
        return;
      }
      if |rowsAccum| == 0 {
        return;
      }
      if !dom.thumbsPresent {
        return;
      }
      book := Cards(FirstSpread(rowsAccum, cardsPerPageView));
      thumbs := Some(ThumbCount(|rowsAccum|, cardsPerPageView));
      currentApiPage := currentApiPage + 1;
    }

    method LoadMore(outcome: FetchOutcome, dom: Dom) returns (book: BookView, thumbs: Option<nat>)
      requires Valid()
      modifies this
      ensures Valid()
      ensures Step(Snap(), book, thumbs) == AfterLoadMore(old(Snap()), outcome, dom)
    {
      LoadsKeepConsistent(Snap(), outcome, dom);
      book, thumbs := Unchanged, None;
      if !outcome.Response? {
        return;
      }
      var rows := RowsOf(outcome.rows);
      if rows.None? || |rows.value| == 0 {
        return;
      }
      totalItems := outcome.total.GetOr(0);
      rowsAccum := Deduplicate(rowsAccum + rows.value);
      if !dom.bookPresent {
        return;
      }
      var pages := BuildPages(rowsAccum, cardsPerPageView);
      book := Cards(pages);
      cardsPerPageView := CardsPerPage(ContainerHeight(dom.container));
      if !dom.thumbsPresent {
        return;
      }
      thumbs := Some(ThumbCount(|rowsAccum|, cardsPerPageView));
      currentApiPage := currentApiPage + 1;
    }

    /** The observer callback for one entry: the guard, then `loadMore` with the
        given outcome, then the `finally` that lowers the busy flag. */
    method OnEntry(isIntersecting: bool, outcome: FetchOutcome, dom: Dom) returns (trigger: Trigger)
      requires Valid()
      modifies this
      ensures Valid()
      ensures trigger == OnIntersection(old(Snap()), isIntersecting).trigger
      ensures trigger != Started ==> Snap() == old(Snap())
      ensures trigger == Started ==>
        Snap() == AfterLoadMore(old(Snap()).(busy := true), outcome, dom).state.(busy := false)
    {
      if !isIntersecting || isLoadingMore {
        return Skipped;
      }
      if |rowsAccum| >= totalItems {
        return AllLoaded;
      }
      isLoadingMore := true;
      var _, _ := LoadMore(outcome, dom);
      isLoadingMore := false;
      trigger := Started;
    }
  }
}
