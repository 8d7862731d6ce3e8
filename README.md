# Token discovery table — a verified Dafny model

This project models the behavioural core of a token-discovery page: a table
of mock token records (name, price, 24h change, TVL, 24h volume) that is
filtered by the active listing category ("new", "stretch", "migrated"),
sorted by one column chosen by clicking its header, and kept "live" by a
ticker that nudges one record's price, change and volume every two seconds.
Each row flashes green or red when its price moves.

Modules, following the source files; the comparator of `app/page.tsx` gets
two modules of its own (`TextOrder` and `Sorting`):

- `Types` (`types.dfy`) — the token record, the category enum, `keyof Token`
  as `SortKey`, and `SortConfig` (null or key plus direction), from
  `lib/types.ts`.
- `TextOrder` (`text_order.dfy`) — `toLowerCase` on ASCII and JavaScript's
  `<` on strings, with the order facts the comparator needs.
- `Sorting` (`sorting.dfy`) — the table's comparator and the in-place stable
  sort it is given. The sort is an insertion sort over an `array` that only
  swaps neighbours the comparator orders strictly. Stability is stated with
  tie groups: for every key value, the records with that key appear in the
  same order before and after (`SameTies`).
- `Page` (`page.dfy`) — `filteredAndSortedTokens` as a method that copies the
  filtered list into a fresh array and sorts it, `handleSort`, the ticker's
  cache updater and tick, and the loading/empty guard.
- `UiSlice` (`ui_slice.dfy`) — the store slice as a class whose setters assign
  one field each, with the reducer as a pure function and lemmas about any
  sequence of dispatched actions. The selectors `SelectActiveCategory` and
  `SelectSortConfig` read the fields back, and the setters' contracts are
  stated through them.
- `TokenTable` (`token_table.dfy`) — the sort arrow per column, the fixed
  header-to-key wiring, and one row per token.
- `TokenRow` (`token_row.dfy`) — the 24h change cell and the price-flash state
  machine as a class. Its events are the detection effect, the
  `requestAnimationFrame` callback, the flash-clear effect and the 700 ms
  timeout firing.

Numbers are exact reals. Every `Math.random()` draw of a tick is a parameter
in [0, 1), and the source's arithmetic on it is kept as written:
`floor(r * length)`, `1 + (r - 0.5) * 0.05`, `(r - 0.5) * 0.1` and
`r * 10000`. Timers and animation frames are explicit method calls.

## Model

| member | source | states |
|---|---|---|
| TextOrder.Lower | app/page.tsx:123-126 | lowering keeps the length, leaves no upper-case letter, and changes only the letters A-Z |
| TextOrder.LexLessIrreflexive | app/page.tsx:129 | no string is `<` itself |
| TextOrder.LexLessAsymmetric | app/page.tsx:129-131 | `a < b` and `b < a` never both hold |
| TextOrder.LexLessTransitive | app/page.tsx:129-131 | string `<` is transitive |
| TextOrder.LexLessTotal | app/page.tsx:129-131 | two different strings are ordered one way or the other, so the comparator returns 0 only on equal lowered strings |
| Sorting.Compare | app/page.tsx:119-133 | the comparator returns -1, 0 or 1, and returns 0 exactly when the two records' compared keys (strings lowered) are equal |
| Sorting.OperandsComparable | app/page.tsx:120-131 | for one key, two records' compared values are either equal or strictly ordered one way, never both ways |
| Sorting.CompareAntisymmetric | app/page.tsx:128-132 | swapping the arguments negates the comparator, in both directions |
| Sorting.CompareTransitive | app/page.tsx:128-132 | "not after" is transitive, so the comparator is a consistent total preorder |
| Sorting.SortedKeyOrder | app/page.tsx:128-132 | in a sorted list the compared key is non-decreasing for "ascending" and non-increasing for "descending" |
| Sorting.SwapKeepsTies | app/page.tsx:119 | swapping neighbours with different keys keeps every group of tied records in order |
| Sorting.SortedTiesUnique | app/page.tsx:119-133 | two lists that are sorted and keep the same tie groups are equal: a stable sort's result is unique |
| Sorting.StableSort | app/page.tsx:119-133 | sorting in place yields a sorted permutation of the input that keeps tied records in input order |
| Page.SourceList | app/page.tsx:112 | an undefined cache yields the empty list, a defined one itself |
| Page.Filter | app/page.tsx:115 | the filtered list is no longer than the source and holds only source records of the active category |
| Page.FilterAppend | app/page.tsx:115 | filtering the concatenation of two lists is concatenating their filtered parts, so kept records stay in source order |
| Page.FilterCounts | app/page.tsx:112-115 | each record of the active category occurs in the filtered list as often as in the source, and others not at all |
| Page.FilteredAndSortedTokens | app/page.tsx:111-136 | the derived list holds exactly the active category's records, each as often as in the source; without a sort it is the filtered list in input order; with one it is sorted and stable |
| Page.DerivationDetermined | app/page.tsx:111-136 | two results of the sorted derivation for the same inputs are equal, so recomputation gives a value-equal list |
| Page.PairSorted | app/page.tsx:119-133 | any two records that the comparator orders strictly are sorted when placed in that order, and keep the tie groups of the reversed pair |
| Page.NameAscendingScenario | app/page.tsx:119-133 | sorting "B" (TVL 10) and "A" (TVL 20) by name, ascending, gives A then B |
| Page.TvlDescendingScenario | app/page.tsx:119-133 | sorting the same pair by TVL, descending, gives the TVL-20 record first |
| Page.HandleSort | app/page.tsx:139-149 | the new config always has the requested key; it is ascending exactly when the old config was that key descending |
| Page.HandleSortToggles | app/page.tsx:141-146 | requesting the same key again flips the direction; a key not currently sorted on starts descending |
| Page.HeaderClickMarksColumn | components/organisms/TokenTable.tsx:62-99 | after clicking a header, that column alone shows an arrow, and it is the up arrow exactly when the column was sorted descending before |
| Page.PickIndex | app/page.tsx:85 | the picked index lies in [0, length) |
| Page.NewPrice | app/page.tsx:89 | a positive price stays positive, falls by at most 2.5% and rises by less than 2.5% (it lies in [0.975·price, 1.025·price)) |
| Page.UpdateCache | app/page.tsx:92-104 | an undefined cache becomes []; otherwise length, order and every identity field are kept, non-matching records are unchanged, and matching ones get the new price, a change moved by at least -0.05 and less than +0.05, and a volume raised by at least 0 and less than 10000 |
| Page.Tick | app/page.tsx:78-105 | a missing or empty cache is left as it is; otherwise the picked index gets the new price computed from its own old price, a 24h change moved by at least -0.05 and less than +0.05 and a volume raised by at least 0 and less than 10000, identity fields are kept, and every record whose id differs from the picked one is unchanged |
| Page.TickTouchesPickedOnly | app/page.tsx:85-103 | with unique ids only the picked record changes; its price is the new price, its volume does not fall, and ids stay unique |
| Page.TicksKeepPricesPositive | app/page.tsx:78-105 | over any number of ticks, positive prices stay positive, volumes never fall and identity fields are kept |
| Page.TickAll | app/page.tsx:78-105 | firing the interval once per draw leaves a missing cache missing and keeps a present cache present and of the same length |
| Page.Render | app/page.tsx:196-206 | the skeleton shows exactly while loading or when the derived list is empty; otherwise the table has one row per derived record, in order |
| UiSlice.Reduce | lib/store/uiSlice.ts:23-28 | each action sets its own field to the payload and leaves the other field unchanged |
| UiSlice.ReduceIdempotent | lib/store/uiSlice.ts:23-28 | applying the same action twice gives the same state as applying it once |
| UiSlice.DispatchAllSnoc | lib/store/uiSlice.ts:23-28 | dispatching one more action applies the reducer to the state reached so far |
| UiSlice.DispatchAllLastWins | lib/store/uiSlice.ts:23-28 | after any sequence of actions, each field holds the payload of the last action that set it, or its starting value |
| UiSlice.FromInitialState | lib/store/uiSlice.ts:13-16 | from the initial state the category stays "new" and the sort stays (tvl, descending) until an action changes them |
| UiSlice.UiStore.constructor | lib/store/uiSlice.ts:13-16 | the initial state is category "new" with sort (tvl, descending) |
| UiSlice.UiStore.SelectActiveCategory | lib/store/uiSlice.ts:36 | the selector returns the stored active category (the body is that field read) |
| UiSlice.UiStore.SelectSortConfig | lib/store/uiSlice.ts:37 | the selector returns the stored sort config, null included (the body is that field read) |
| UiSlice.UiStore.SetActiveCategory | lib/store/uiSlice.ts:23-25 | the active category becomes the payload; the sort config is unchanged |
| UiSlice.UiStore.SetSortConfig | lib/store/uiSlice.ts:26-28 | the sort config becomes the payload, null included; the active category is unchanged |
| TokenTable.SortIcon | components/organisms/TokenTable.tsx:15-28 | no arrow when nothing or another key is sorted; the up arrow exactly for this column ascending, the down arrow exactly for it descending |
| TokenTable.HeaderKey | components/organisms/TokenTable.tsx:63-95 | the five headers request name, price, priceChange24h, tvl and volume24h, in that order |
| TokenTable.HeaderViews | components/organisms/TokenTable.tsx:60-101 | five headers with their fixed captions and keys; a column shows an arrow exactly when the config sorts on its key, and at most one column does |
| TokenTable.Rows | components/organisms/TokenTable.tsx:104-110 | exactly one row per token, in list order, keyed by its id, with the "-" cell exactly for zero change |
| TokenTable.Render | components/organisms/TokenTable.tsx:38-113 | the table is the header row for the current config over exactly one row per token, in list order |
| TokenRow.ChangeCellOf | components/molecules/TokenRow.tsx:111 | the change cell is "-" exactly when priceChange24h is zero, and otherwise carries priceChange24h / 100 |
| TokenRow.MoveOf | components/molecules/TokenRow.tsx:52 | a rise gives "up" and a fall gives "down" |
| TokenRow.PriceFlashRow.constructor | components/molecules/TokenRow.tsx:23-30 | a new row is on its initial mount, records the rendered price, and shows no flash |
| TokenRow.PriceFlashRow.DetectPriceChange | components/molecules/TokenRow.tsx:41-62 | the first run only clears the initial-mount flag; an equal price changes nothing; a rise queues "up" and a fall queues "down"; afterwards the recorded price is the current one |
| TokenRow.PriceFlashRow.SetPriceFlash | components/molecules/TokenRow.tsx:33-38 | setting a new flash cancels the pending clear and schedules a fresh one; setting the same flash keeps the old timeout; null schedules nothing |
| TokenRow.PriceFlashRow.AnimationFrame | components/molecules/TokenRow.tsx:33-57 | with nothing queued nothing changes; otherwise the oldest queued direction becomes the flash; the same direction keeps the pending clear and timer counter; a different one schedules a clear with the next fresh timer id and advances the counter |
| TokenRow.PriceFlashRow.ClearTimeoutFires | components/molecules/TokenRow.tsx:35-36 | only the latest scheduled timeout clears the flash to null; a cancelled one changes nothing |
| TokenRow.StaleTimeoutAfterClear | components/molecules/TokenRow.tsx:33-62 | after rise, fall, the fall's clear and another rise, the first rise's cancelled timeout leaves "up" showing, and only the newest timeout clears it |
| TokenRow.RiseThenFall | components/molecules/TokenRow.tsx:33-62 | a rise then a fall shows "up" then "down"; the stale timeout of "up" leaves "down" showing; the newer timeout clears it |

## Left out

- Fetching (`fetchTokens` with its one-second delay), React Query caching and `staleTime`, and the Redux store and provider wiring are library plumbing. The cache is an `Option<seq<Token>>` value passed in and returned.
- The `setInterval`/`clearInterval` lifecycle, the `isLoading` gate on starting the ticker, the 700 ms `setTimeout` delay and unmount cleanup are timer scheduling. Their effects are explicit events: `Page.Tick`, `TokenRow.PriceFlashRow.AnimationFrame` and `TokenRow.PriceFlashRow.ClearTimeoutFires`. Frames or timeouts that fire after a row unmounts are not modelled.
- `Math.random` is a parameter, `Page.Draws`, whose four fields lie in [0, 1).
- Page.UpdateCache: takes one change draw and one volume draw for all records whose id matches. The source draws them afresh for each matching record. The two agree whenever ids are unique, as in the mock data.
- Prices, changes and volumes are exact reals, not IEEE doubles. Rounding, NaN and the `Object.is` comparison React uses on the effect's dependency are not modelled.
- TextOrder.Lower: lowers only the ASCII letters A-Z. `toLowerCase` handles all of Unicode, but the mock data is ASCII. Characters compare by code point, which agrees with JavaScript's UTF-16 comparison on the Basic Multilingual Plane.
- The sorted case is stated against the JavaScript comparator as a total preorder. A comparator applied to values of different kinds cannot arise, because every sort key is either always a string or always a number.
- `Intl.NumberFormat` formatting of price, percent and compact amounts is left out. `TokenRow.ChangeCellOf` returns the fraction to be formatted.
- JSX layout, styling, the `cn` class merging and the colour classes are presentation. So are the category tabs and tooltips, the detail modal and row selection, `components/icons.tsx`, `components/organisms/TableSkeleton.tsx`, `components/organisms/TokenDetailModal.tsx` and `app/layout.tsx`.
- That `activeCategory` is always one of the three ids holds by construction: `Types.Category` is an enum, so there is no separate lemma for it.
