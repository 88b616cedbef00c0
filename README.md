# VillainCodex gallery core in Dafny

VillainCodex is a browser gallery of NFT items. Its codex view pages through
`/entries` of a remote backend and merges the rows into one list. Rows showing
the same artwork (same `name::image_url` key) become one card that records
ownership and its editions. The list is laid out as a two-page book with a
thumbnail strip. The code also holds a continuation that would load further
pages as the reader scrolls, but the call that would start it is commented
out, so only the first page ever loads; the continuation is modelled as
written all the same. A leaderboard view
lists holders with a paging bar. This project models that logic from `main.js`
and proves what it does:

- `JsText`: the JavaScript string built-ins the code relies on, over `seq<char>`:
  - template-literal text of `null`/`undefined`, and truthiness;
  - `slice` and `substring` with their clamping rules;
  - `includes` and `split`, both through a first-occurrence search (`IndexOf`);
  - `join`, and `String(n)`.
- `Items`: the row record and its merge key, a plain string concatenation.
- `Dedup`: `deduplicateAndMergeOwnership`.
  - An imperative fold over a map kept in insertion order, proved equal to the
    reference `Merged`: one record per distinct key, in first-occurrence order.
  - Each record is the first row with that key, `owned` ORed over all rows with
    the key, and all their ids in input order.
- `Layout`: `calculateCardsPerPage`, the spread chunking of `buildPagesFromRows`,
  the thumbnail count, and the first spread of the initial load.
- `Feed`: the module-level feed state as a class. It covers `resetAndInit`,
  `loadInitialPage`, `loadMore` and the observer callback's guard, and the query
  of `fetchEntriesPage`. Each method is tied to a function on plain snapshots,
  and the lemmas are about those functions.
- `Pagination`: the window, buttons and ellipses of `renderPagination`, and the
  guard of `goToPage`.
- `Render`:
  - `h` with an unescaping round trip;
  - `formatAddress` and the wallet label;
  - `getTierClass`, and `formatTierDisplay`, which is defined but never called;
  - the card's ownership class and edition label;
  - the clipboard text of qualified addresses.

The model keeps the following behaviours exactly as the code has them,
including those that look unintended:

- A key hit appends the incoming id without checking whether it is already
  listed, so repeated ids stay.
- On a key miss the copy's `asset_ids` restarts from its own id. `loadMore`
  feeds the already merged rows back into the reducer. So, were `loadMore`
  ever to run, each record's variant list would restart at every later page,
  and variants merged earlier would be lost (`Feed.LoadMoreMerges`,
  `Feed.VariantsLostOnNextPage`). As written, `loadMore` is never reached (see
  "## Left out").
- Merging is not the identity even on key-distinct rows: every record gains a
  one-id `asset_ids` (`Dedup.RemergeResetsIds`).
- In `loadMore` (dormant, as above) the PageFlip set-up names an undeclared `bookEl`. The
  `ReferenceError` is caught inside `loadMore`, after `cardsPerPageView` has
  been recomputed. Rendering the thumbnails and advancing `currentApiPage` still
  happen.
- The book is rebuilt with the old cards per spread; the thumbnails count
  spreads with the new value (`Feed.LoadMoreRedraw`).
- `resetAndInit` does not reset `totalItems`.
- `calculateCardsPerPage` gives 2 for every height below 244, the heights
  where a page fits at most one whole card.
- Because "Top 30" contains "Top 3" and "Top 100" contains "Top 10",
  `getTierClass` never returns `top30` or `top100`. `formatTierDisplay`
  (main.js:1116) has no call site, so no tier label it would produce is ever
  shown; were it called, a combined label would likewise never read "Top 30" or
  "Top 100".

## Model

| member | source | states |
|---|---|---|
| JsText.IndexOf | main.js:1101-1129 | the first-occurrence search behind `includes` (-1 exactly when the text is absent) and behind `split` (the offset of the first occurrence, none earlier) |
| JsText.Slice | main.js:262-276 | within bounds `slice(i, j)` is the sub-sequence from i to j; `slice(-k)` is the last k; an empty or reversed range gives nothing; never longer than the input |
| JsText.Substring | main.js:1110-1113 | within bounds `substring(i, j)` is the text from i to j, with swapped offsets giving the same text; the whole range gives the whole text |
| JsText.Split | main.js:1118 | at least one piece, and no piece contains the separator |
| JsText.JoinSplit | main.js:1118-1127 | joining the pieces of a split with the same separator gives the text back |
| JsText.SplitJoin | main.js:1068 | splitting a join on a character none of the pieces holds gives the pieces back |
| JsText.BeforeFirst | main.js:1126-1129 | `s.split(sep)[0]` is a prefix without the separator, and equals `s` exactly when `s` lacks it |
| JsText.Decimal | main.js:201-202 | `String(n)` is a non-empty string of digits with no leading zero |
| JsText.DecimalRoundTrip | main.js:201-202 | reading the digits back gives the number |
| Items.SeparatorCollision | main.js:387 | a name holding "::" can share the key of a different name and image |
| Items.MissingImageCollision | main.js:387 | a missing image shares the key of the image URL "null" |
| Dedup.DistinctKeys | main.js:388-401 | the keys in map insertion order are keys of the input |
| Dedup.DistinctKeysFacts | main.js:388-401 | each key of the input is listed once, and there are at most as many keys as rows |
| Dedup.FirstIndex | main.js:397-400 | the row that creates a key's record is the first row with that key |
| Dedup.Absorb | main.js:391-395 | a hit ORs `owned` and appends the incoming id after the earlier ids (the stored list, or the record's own id), with no check whether it is already there; every other field is kept |
| Dedup.Fresh | main.js:397-400 | a miss stores a copy of the row, unchanged but for an `asset_ids` of its own id alone |
| Dedup.Deduplicate | main.js:382-407 | the fold's result is `Merged(items)` |
| Dedup.TableStep | main.js:389-401 | a hit or a miss keeps the map equal to the merged records of the rows seen so far |
| Dedup.TableResult | main.js:403 | reading the map in insertion order gives `Merged(items)` |
| Dedup.Values | main.js:403 | `Array.from(map.values())` lists the stored records in key order |
| Dedup.MergedForSnoc | main.js:389-400 | how one more row changes a key's merged record: unchanged, absorbed, or fresh |
| Dedup.MergedKeys | main.js:383-404 | the output has one record per distinct key, at most as many as rows, in first-occurrence order, with no two sharing a key |
| Dedup.FirstOccurrenceOrder | main.js:383-404 | output keys appear in increasing order of first occurrence |
| Dedup.DistinctKeysOfDistinct | main.js:383-404 | rows with distinct keys keep their order and count |
| Dedup.MergeIntoDistinct | main.js:781-782 | re-merging distinct rows with new rows leaves the old records in place, ORs `owned`, and restarts their ids from their own id plus the new ids; new keys follow with their merged records |
| Dedup.RemergeResetsIds | main.js:397-399 | merging distinct rows again only replaces each `asset_ids` with the record's own id |
| Dedup.PairWithSameKey | main.js:389-400 | two rows with one key become one record, owned if either row is, listing both ids |
| Layout.CardsPerPage | main.js:12-24 | even, in [2, 20], the most whole cards that fit the page height; 2 exactly below 244 and 20 exactly from 1060 |
| Layout.CardsPerPageMonotone | main.js:12-24 | a taller container never gives fewer cards |
| Layout.ContainerHeight | main.js:801-823 | 800 without a container or with a zero size, the client height otherwise |
| Layout.CeilDivBounds | main.js:297 | the thumbnail count is the least number of spreads covering the rows |
| Layout.SlicedSpread | main.js:262-276 | the two `slice` calls per chunk give the left and right page of the spread |
| Layout.BuildPages | main.js:256-293 | the stride loop and the padding loop produce `Pages(rows, cpv)` |
| Layout.SpreadsFromFlatten | main.js:262-276 | the spreads hold the rows once each, in order |
| Layout.SpreadsFromCount | main.js:262-276 | there are two pages per chunk of `cpv` rows |
| Layout.SpreadsFromSizes | main.js:262-276 | no page holds more than its share of a chunk |
| Layout.PagesFacts | main.js:256-293 | the book holds the rows in order and has `max(2, 2*ceil(n/cpv))` pages of at most `cpv/2` cards for even `cpv` |
| Layout.ThumbCount | main.js:295-303 | `Math.ceil(n/cpv)` thumbnails: the least count that covers the rows |
| Layout.ThumbsPerSpread | main.js:295-303 | with rows present there is one thumbnail per two pages of the book |
| Layout.FirstSpread | main.js:465-477 | two pages that together hold the first `cardsPerView` rows in order, at most half of them on the left |
| Layout.FirstSpreadIsFirstPages | main.js:465-477 | the two pages the first load draws are the first two pages of the book |
| Feed.InitialState | main.js:9-30 | the initial state is consistent: 4 cards (main.js:9), page 1, total 0, no rows (main.js:28-30), idle (main.js:897) |
| Feed.RowsOf | main.js:418 | the destructuring default of both loaders (also main.js:772): missing rows read as `[]`, `null` rows stay `null`, an array is kept |
| Feed.AfterReset | main.js:306-324 | in the leaderboard view nothing changes; otherwise page 1, no rows and idle, keeping total and layout |
| Feed.AfterInitialLoad | main.js:410-692 | the busy flag and the layout are kept, and the page advances by at most one |
| Feed.AfterLoadMore | main.js:764-891 | the busy flag is kept and the page advances by at most one |
| Feed.OnIntersection | main.js:927-944 | a load starts iff the sentinel is in view, none is running and rows are below the total, and then raises the flag; at the total the observer stops |
| Feed.LoadsKeepConsistent | main.js:410-891 | both loaders keep the page positive, the layout a `CardsPerPage` value and the rows key-distinct |
| Feed.InitialLoadFacts | main.js:410-692 | a failed fetch leaves the state as it was; a response sets the total to `total` or 0 and, with rows, the rows to `Merged(rows)`; the first load advances exactly when it has rows, the book and the thumbnails; an empty first page stays on page 1; what it draws is the book's first spread with a thumbnail per spread |
| Feed.LoadMoreWithoutRows | main.js:767-776 | a failed fetch, a non-object, null rows or an empty page leave the state and the screen unchanged |
| Feed.LoadMoreMerges | main.js:777-887 | the rows become `dedup(rowsAccum ++ rows)`, keeping all keys seen and every earlier record's place, resetting its ids; the page advances by exactly one iff the book and thumbnails exist |
| Feed.RemergeFacts | main.js:781-782 | the keys of the re-merged rows are the old keys and the new keys, and the count grows by at most the new rows |
| Feed.LoadMoreRedraw | main.js:796-887 | the rebuilt book holds every row in order with the old layout, while the thumbnails use the recomputed one; the two agree iff both give the same number of spreads |
| Feed.NoOverlappingLoads | main.js:929-944 | once a load starts, any later entry is skipped until the flag is lowered, because `loadMore` never touches it |
| Feed.AllLoadedStaysLoaded | main.js:931-935 | with the rows at the total no load starts and nothing changes |
| Feed.TwoPagesOneArtwork | main.js:779-782 | one artwork on two pages ends as one owned record listing both ids |
| Feed.VariantsLostOnNextPage | main.js:779-782 | ids merged on the first page are dropped when the next page is merged |
| Feed.SpeciesFilter | main.js:341 | "All" clears the species filter; any other species is used as is |
| Feed.SpeciesFilterQuery | main.js:197-202 | after a click on "All" the query has no `species` parameter; after any other non-empty label it starts with that species |
| Feed.EntriesQuery | main.js:197-202 | species, q and owner appear iff set, and page and limit always come last |
| Feed.EntriesQueryPage | main.js:201-202 | the page parameter reads back as the page number, and limit is "24" |
| Feed.FeedState.constructor | main.js:9-30 | the state starts as the initial snapshot: the declarations at main.js:9 and 28-30, and the busy flag at main.js:897 |
| Feed.FeedState.Reset | main.js:306-324 | the new state is `AfterReset` of the old one |
| Feed.FeedState.LoadInitialPage | main.js:410-692 | the new state and the screen are `AfterInitialLoad` of the old state |
| Feed.FeedState.LoadMore | main.js:764-891 | the new state and the screen are `AfterLoadMore` of the old state, via the reducer and the book builder |
| Feed.FeedState.OnEntry | main.js:927-944 | guard, `loadMore` and `finally`: a skipped entry changes nothing, a started one ends idle after `AfterLoadMore` |
| Pagination.PageWindow | main.js:1266-1273 | the window starts at 1 or later and ends at the last page or earlier |
| Pagination.WindowFacts | main.js:1266-1273 | for a page in range, 1 ≤ start ≤ page ≤ end ≤ totalPages and the window has `min(7, totalPages)` pages |
| Pagination.WindowCentred | main.js:1266-1273 | closed form: start = max(1, min(page-3, totalPages-6)), end = min(totalPages, start+6) |
| Pagination.WindowButtons | main.js:1292-1298 | one button per page of the window, active exactly for the current page |
| Pagination.Controls | main.js:1262-1314 | the bar starts with Previous and ends with Next, their only occurrences, around the leading jump, the window's buttons and the trailing jump |
| Pagination.NumberButtons | main.js:1292-1298 | the numbering loop yields one button per window page, active exactly for the current page |
| Pagination.RenderPagination | main.js:1262-1314 | the bar built step by step equals `Controls(page, totalPages)` |
| Pagination.ControlsEnds | main.js:1278-1312 | Previous is disabled iff page ≤ 1 and Next iff page ≥ totalPages; the "1" button shows iff start > 1 and the last-page button iff end < totalPages |
| Pagination.OneActive | main.js:1292-1298 | for a page in range the numbered buttons are consecutive and exactly one, the current page, is active |
| Pagination.EllipsesMarkGaps | main.js:1285-1306 | an ellipsis appears iff pages between the jump button and the window are skipped |
| Pagination.ButtonsLeadToAcceptedPages | main.js:1278-1325 | every enabled button leads to a page `goToPage` accepts |
| Pagination.Leaderboard.constructor | main.js:1006-1008 | the leaderboard starts on page 1 with no data, so no page count yet |
| Pagination.Leaderboard.Rendered | main.js:1135 | the rendered data's page count bounds later moves |
| Pagination.Leaderboard.GoToPage | main.js:1320-1325 | a page below 1, or past the last once data is loaded, is refused; otherwise it becomes current |
| Render.Escape | main.js:218 | the output has no `<`, `>`, `"` or `'`, and text without special characters is unchanged |
| Render.EscapeRoundTrip | main.js:218 | unescaping the output gives the input back |
| Render.H | main.js:218 | a falsy value gives ""; a truthy one gives its escaped text, non-empty, holding no `<`, `>`, `"` or `'`, and unescaping to the value |
| Render.CardText | main.js:245-249 | a card's alt, name and species text is non-empty and unescapes to the value or its fallback |
| Render.ShortFormsAgree | main.js:1110-1113 | the leaderboard address and the wallet label both keep the first and last 8 or 4 characters around "..." |
| Render.AbbrevParts | main.js:1110-1113 | a long enough address shortens to its first k characters, "..." and its last k characters |
| Render.FormatAddress | main.js:1110-1113 | a missing address prints as "N/A"; an address of 8 or more characters as its first 8, "..." and its last 8 |
| Render.WalletLabel | main.js:87 | a wallet of 4 or more characters shows as its first 4, "..." and its last 4; a shorter one appears whole on both sides |
| Render.TierClass | main.js:1100-1107 | the class of the first of Top 3, Top 10, 500K+ that the tier contains, `none` exactly when it contains none of them, never `top30` or `top100` |
| Render.TierShadowing | main.js:1100-1107 | "Top 30" implies "Top 3" and "Top 100" implies "Top 10" |
| Render.ShortTier | main.js:1119-1126 | a part becomes "Top 3" iff it names Top 3, else "Top 10" iff it names Top 10, else "500K+" iff it names 500K+, and otherwise its text before " ("; never "Top 30" or "Top 100" |
| Render.FormatTierDisplay | main.js:1116-1130 | a single tier is cut at its first " (", and unchanged when there is none |
| Render.CombinedTierParts | main.js:1117-1127 | a combined tier gives one label per part, joined by " + ": "Top 3", "Top 10" or "500K+" by the same priority as `ShortTier`, else the part's text before " (" |
| Render.CardClass | main.js:224-234 | without a wallet the card is `not-logged-in`, with one `owned` when owned and `unowned` when not |
| Render.UpdatedCardClass | main.js:163-166 | after a wallet change a card is `not-logged-in` without a wallet, otherwise `owned` when owned and `unowned` when not |
| Render.CardClassesAgree | main.js:163-166 | the class of a redrawn card and of an updated one are the same |
| Render.EditionLabel | main.js:237 | the edition note is empty exactly when the record has no variant list |
| Render.MergedEditionLabel | main.js:237 | every merged card shows the number of input rows with its key, at least one |
| Render.QualifiedAddresses | main.js:1058-1060 | exactly the addresses of qualifying holders, never more than there are holders; one holder gives its address iff it qualifies |
| Render.QualifiedConcat | main.js:1058-1060 | the filter keeps order and repeats: filtering a concatenation is concatenating the filtered parts |
| Render.WithCommas | main.js:1068 | each address followed by a comma |
| Render.ClipboardText | main.js:1053-1068 | nothing is copied exactly when no holder qualifies |
| Render.ClipboardLines | main.js:1068 | the lines of the copied text are the qualified addresses with commas, in order |

## Left out

- DOM construction, `innerHTML` of cards and rows, styles and the notice pages: presentation. The book and the thumbnail strip are modelled as page sequences and a button count.
- The PageFlip widget and the commented-out code: a foreign library and dead code. What is live of `loadMore`'s PageFlip block is kept: the container height, `cardsPerPageView`, and the caught `ReferenceError`.
- `fetch`, JSON parsing, `URL`/`URLSearchParams` and `encodeURIComponent`: network and library code. Responses are a parameter (`Feed.FetchOutcome`), and the query is a list of name/value pairs.
- JSON values of the wrong type (a `total` that is not a number, rows that are not records, non-boolean `owned`, non-string names): `total` is an integer or absent, and `owned` a boolean. Text fields are a string, `null` or `undefined` (`JsText.Field`).
- `IntersectionObserver`, `setTimeout` retries, `waitForElement` polling and the search debounce: timing. Only the busy flag and the end-of-data check are modelled. Each element is present or absent after waiting. Interleaving is covered only by `Feed.NoOverlappingLoads`.
- `observeForMore` creating the observer: its one call is commented out in `resetAndInit` (main.js:366), and nothing else creates the observer or calls `loadMore`. So in the code as written `loadMore` and the observer callback never run. They are modelled as written, `Feed.OnIntersection`, `Feed.AfterLoadMore` and `Feed.FeedState.LoadMore` included, and describe what would happen if the call were restored.
- Strings are sequences of code points, while JavaScript's `length`, `slice` and `substring` count UTF-16 code units. The two differ only for text outside the Basic Multilingual Plane, where `Render.FormatAddress` and `Render.WalletLabel` could split a character that the browser would split differently.
- `asset_id` is taken to be a string; a numeric id, which `${}` and the id list would hold as a number, is not modelled.
- The species list and its fetch, the leaderboard fetch and table, and `updateOwnershipStatus`'s lookup: glue around the modelled helpers.
- Phantom wallet events, connect/disconnect and `localStorage`: an external browser API. The wallet is a string parameter that is empty when absent.
- Clipboard writes, `alert` and `Date` formatting: browser I/O.
- `config.js`: two constant URLs.
- `Layout.CardsPerPage`: heights are integers, not floating-point pixels.
- `Render.Escape`: `h` of a non-string truthy value, which would throw.
