# Hello World catalog: a verified model of its logic

The catalog is a client-side browser over a fixed list of programming-language
records. Each record has an id, a name, a creator, a year, a paradigm, a syntax
snippet, a purpose, a history and a list of facts. Nearly all of the code is
markup. This project models the parts that compute something, and proves what
they promise:

- **Statistics panel** (`QuickStats`), in `quick_stats.dfy` and `tally.dfy`:
  - which records are eligible;
  - fewer than two eligible records give the "not enough metadata" placeholder;
  - the oldest and newest record, first record winning a tie;
  - counts per main paradigm and per decade, built by a loop that updates an
    accumulator object;
  - the most common paradigm and the most productive decade;
  - the per-decade timeline and its maximum.

  A JavaScript object enumerates integer-like keys in ascending order and other
  keys in creation order. `Tally.Counts` therefore keeps the enumeration order
  next to the count map. Because the sort by descending count is stable:
  - a paradigm tie goes to the group created first (`MostCommonParadigmTieBreak`);
  - a decade tie goes to the smallest decade (`MostProductiveDecadeTieBreak`,
    `DecadeTieExample`).
- **Sidebar** (`Sidebar`), in `sidebar.dfy`:
  - the case-insensitive name search;
  - the favourites-only restriction;
  - the header counts;
  - the `creator | year` line under each entry;
  - its state: search query, favourites-only flag and loaded favourites.
- **Language page** (`LanguageDetail`), in `language_detail.dfy`:
  - the first-match lookup by id and the not-found state;
  - the initial favourite flag;
  - `toggleFavorite`, a method on a class holding the flag and the favourites
    store;
  - `renderField`, with JavaScript truthiness;
  - the "no data yet" fallbacks, and the facts numbered from 1.
- **Layout** (`App`), in `app.dfy`:
  - toggling an id in the ordered compare selection;
  - the compared records, in catalog order;
  - the `AppLayout` state and which view the main area shows.

Shared pieces:
- `seqs.dfy`: `filter`, removal of every occurrence, subsequence, no duplicates.
- `text.dfy`: ASCII lower-casing, `includes`, JavaScript `trim`, `split(":")[0]`,
  decimal numerals.
- `favorites.dfy`: the favourites store, holding the decoded list or `None` when the
  key is missing.
- `languages.dfy`: the record type.
- `wrappers.dfy`: `Option`.

Three behaviours of the code that a reader might not expect:
- Leaving compare mode keeps the selection. Both the COMPARE button
  (`client/src/App.tsx:56`) and the close button of the compare view
  (`client/src/App.tsx:77`) only set `compareMode`; `selectedForCompare` is untouched
  (`AppLayout.ToggleCompareMode`, `AppLayout.CloseCompare`).
- A decade tie goes to the smallest decade, not to the first decade met
  (`client/src/components/QuickStats.tsx:39-46`). The counting object enumerates its
  integer keys in ascending order and the sort is stable (`DecadeTieExample`: records
  from 1995, 1983 and 1972 give 1970).
- Corrupt stored JSON makes `JSON.parse` throw; nothing catches it
  (`client/src/components/LanguageDetail.tsx:29`, `:55`,
  `client/src/components/Sidebar.tsx:42`).

## Model

| member | source | states |
|---|---|---|
| QuickStats.Eligible | client/src/components/QuickStats.tsx:9-11 | exactly the records with a positive year and a non-empty paradigm, each as often as in the input, in input order |
| QuickStats.ComputeStats | client/src/components/QuickStats.tsx:13-46 | the placeholder exactly when fewer than two records are eligible; otherwise the first oldest and first newest eligible records, which bound every eligible year, the most common paradigm, the most productive decade and the timeline of the eligible records; no timeline bar exceeds the maximum, which is at least one and is the most productive decade's count |
| QuickStats.OldestIndex | client/src/components/QuickStats.tsx:23-25 | the record with the smallest year, and every earlier record has a larger year (first wins a tie) |
| QuickStats.NewestIndex | client/src/components/QuickStats.tsx:26-28 | the record with the largest year, and every earlier record has a smaller year (first wins a tie) |
| QuickStats.YearRange | client/src/components/QuickStats.tsx:23-28 | every record's year lies between the oldest's and the newest's |
| QuickStats.MainParadigm | client/src/components/QuickStats.tsx:31 | the trimmed text before the first colon (the whole paradigm when there is none): no colon, no surrounding whitespace |
| Text.BeforeColon | client/src/components/QuickStats.tsx:31 | the longest colon-free prefix, followed by the first colon or the end |
| Text.Trim | client/src/components/QuickStats.tsx:31 | the slice left after cutting JavaScript whitespace from both ends, neither starting nor ending with whitespace |
| QuickStats.MainParadigms | client/src/components/QuickStats.tsx:30-31 | one grouping key per record, the main paradigm of that record |
| QuickStats.Decades | client/src/components/QuickStats.tsx:39-40 | one grouping key per record, the decade of that record's year |
| QuickStats.CountParadigms | client/src/components/QuickStats.tsx:30-34 | the accumulator loop yields the counter the fold over the main paradigms defines |
| QuickStats.ParadigmCounts | client/src/components/QuickStats.tsx:30-34 | every record's main paradigm has a count, each key is counted by its number of records, keys once each in order of first occurrence |
| Tally.InsertionOrderStep | client/src/components/QuickStats.tsx:30-34 | the string-keyed `reduce` takes one more counting step per element, and a new key goes last |
| Tally.Increment | client/src/components/QuickStats.tsx:32 | one update of the accumulator's keys and counts is that one step |
| Tally.InsertionOrderCounts | client/src/components/QuickStats.tsx:30-34 | a string-keyed counter lists each distinct value once and counts every occurrence |
| Tally.InsertionOrderIsFirstOccurrence | client/src/components/QuickStats.tsx:30-34 | string keys are enumerated in the order of their first occurrence |
| QuickStats.ParadigmCountsSumToEligible | client/src/components/QuickStats.tsx:30-34 | the paradigm counts sum to the number of eligible records |
| QuickStats.MostCommonParadigm | client/src/components/QuickStats.tsx:35-37 | its count is the number of records with that main paradigm, positive, and no record's main paradigm occurs more often |
| Tally.TopEntryIsMostFrequent | client/src/components/QuickStats.tsx:35-37 | the first entry after the stable descending sort is a most frequent value with its true count |
| Tally.TopEntry | client/src/components/QuickStats.tsx:35-37 | a key of the counter with its own count, and no key has a larger count |
| Tally.FirstMaxIndex | client/src/components/QuickStats.tsx:35-37 | a maximal count, and every earlier entry's count is strictly smaller |
| QuickStats.MostCommonParadigmTieBreak | client/src/components/QuickStats.tsx:35-37 | among tied main paradigms the winner occurs first among the records |
| Tally.FirstOccurringWinsTies | client/src/components/QuickStats.tsx:35-37 | for string keys the tie winner is the value whose first occurrence is earliest |
| QuickStats.Decade | client/src/components/QuickStats.tsx:40 | a multiple of ten with the year in `[decade, decade + 10)` |
| QuickStats.CountDecades | client/src/components/QuickStats.tsx:39-43 | the accumulator loop yields the counter the fold over the decades defines |
| QuickStats.DecadeCounts | client/src/components/QuickStats.tsx:39-43 | every record's decade has a count, each key is counted by its number of records, keys once each in ascending order |
| Tally.AscendingOrderStep | client/src/components/QuickStats.tsx:39-43 | the integer-keyed `reduce` takes one more step per element: a new key goes into ascending position |
| Tally.IncrementAscending | client/src/components/QuickStats.tsx:41 | one update of the accumulator's keys and counts is that one step |
| Tally.InsertAscendingKeepsOrder | client/src/components/QuickStats.tsx:39-43 | a new integer key goes into sorted position, adding exactly that key |
| Tally.AscendingOrderCounts | client/src/components/QuickStats.tsx:39-43 | an integer-keyed counter lists each distinct value once, in ascending order, and counts every occurrence |
| QuickStats.DecadeCountsSumToEligible | client/src/components/QuickStats.tsx:39-43 | the decade counts sum to the number of eligible records, and every eligible year has a bucket whose decade holds it |
| QuickStats.MostProductiveDecade | client/src/components/QuickStats.tsx:44-46 | its count is the number of records in that decade, positive, and no record's decade has more |
| QuickStats.MostProductiveDecadeTieBreak | client/src/components/QuickStats.tsx:44-46 | among tied decades the winner is the smallest |
| Tally.SmallestWinsTies | client/src/components/QuickStats.tsx:44-46 | for integer keys the tie winner is the smallest tied value |
| QuickStats.DecadeTieExample | client/src/components/QuickStats.tsx:39-46 | years 1995, 1983 and 1972 give 1970 as most productive and the timeline 1970, 1980, 1990 |
| QuickStats.Timeline | client/src/components/QuickStats.tsx:93-95 | buckets in strictly ascending decade order, each bar the number of records in its decade, at least one; every eligible record's decade has its bar |
| QuickStats.MaxCount | client/src/components/QuickStats.tsx:96 | no bar exceeds it, it is at least one, and it is the most productive decade's count |
| Tally.Values | client/src/components/QuickStats.tsx:96 | the counts, one per key, in enumeration order |
| Tally.Entries | client/src/components/QuickStats.tsx:93 | the key and count pairs, one per key, in enumeration order |
| Tally.MaxOf | client/src/components/QuickStats.tsx:96 | an element of the values that none exceeds |
| Tally.CountsSumToLength | client/src/components/QuickStats.tsx:30-43 | a counter that counts each element under its own key sums to the number of elements |
| Sidebar.SearchByName | client/src/components/Sidebar.tsx:54-56 | exactly the records whose lower-cased name contains the lower-cased query, with multiplicity, in catalog order |
| Sidebar.FilterLanguages | client/src/components/Sidebar.tsx:53-61 | searched records, restricted to starred ids when the flag is on, each as often as in the catalog; a subsequence of the search result; with the flag off the search result itself |
| Sidebar.SidebarState.FilteredLanguages | client/src/components/Sidebar.tsx:53-61 | for the current query, flag and favourites: exactly the matching records, with multiplicity, in catalog order, the search result itself with the flag off |
| Sidebar.EmptyQueryKeepsAll | client/src/components/Sidebar.tsx:54-56 | an empty query with the flag off lists the catalog unchanged |
| Sidebar.SearchIgnoresCase | client/src/components/Sidebar.tsx:54-56 | queries that lower-case alike find the same records |
| Sidebar.SearchWithLoweredQuery | client/src/components/Sidebar.tsx:55 | lower-casing the query beforehand changes nothing, since lower-casing twice is lower-casing once |
| Text.ToLower | client/src/components/Sidebar.tsx:55 | same length, each ASCII capital lowered, nothing upper-case left |
| Text.ContainsEmpty | client/src/components/Sidebar.tsx:55 | every name includes the empty query |
| Text.Contains | client/src/components/Sidebar.tsx:55 | a string includes only what is no longer than it, and includes itself |
| Sidebar.RowLabel | client/src/components/Sidebar.tsx:198-200 | the placeholder exactly when creator is empty or year is not positive; otherwise the creator, a space-bar-space separator, then digits without a leading zero reading back as the year |
| Text.DecimalRoundTrip | client/src/components/Sidebar.tsx:199 | the decimal numeral of a year reads back as that year |
| Sidebar.Rows | client/src/components/Sidebar.tsx:163-204 | one entry per filtered record, in order; check boxes show selection in compare mode, links show the star and the metadata line otherwise |
| Sidebar.SelectedCount | client/src/components/Sidebar.tsx:154-158 | shown exactly in compare mode, and then the length of the selection |
| Sidebar.SidebarState.constructor | client/src/components/Sidebar.tsx:35-37 | empty query, flag off, no favourites |
| Sidebar.SidebarState.SetSearchQuery | client/src/components/Sidebar.tsx:146 | the query changes, nothing else |
| Sidebar.SidebarState.ToggleFavoritesOnly | client/src/components/Sidebar.tsx:117 | the flag flips, nothing else |
| Sidebar.SidebarState.LoadFavorites | client/src/components/Sidebar.tsx:40-43 | favourites become the stored ids, the empty list when the key is missing; nothing else changes |
| Sidebar.SidebarState.LanguageCount | client/src/components/Sidebar.tsx:152 | the length of the filtered list, at most the catalog size, exactly it with no query and the flag off |
| LanguageDetail.FindIndex | client/src/components/LanguageDetail.tsx:23 | the first position with the id, or none exactly when no record has it |
| LanguageDetail.Find | client/src/components/LanguageDetail.tsx:23 | a record with the id and none earlier with it; nothing exactly when no record has the id |
| LanguageDetail.OpenDetail | client/src/components/LanguageDetail.tsx:23-41 | not found exactly when no record has the id; otherwise the first record with the id, with the flag telling whether its id is stored |
| LanguageDetail.InitialFavorite | client/src/components/LanguageDetail.tsx:26-30 | true exactly when there is a record, the key is present and the stored list holds the id |
| Favorites.StoredIds | client/src/components/LanguageDetail.tsx:55 | the stored list exactly, in its order and with its repeats; the empty list when the key is missing |
| LanguageDetail.ToggledFavorites | client/src/components/LanguageDetail.tsx:54-61 | a favourite's id leaves entirely and other ids keep order and multiplicity; otherwise the id is appended and the rest kept |
| Seqs.RemoveAll | client/src/components/LanguageDetail.tsx:58 | no occurrence of the id is left, every other id keeps its multiplicity and order |
| LanguageDetail.ToggleKeepsFlagInSync | client/src/components/LanguageDetail.tsx:53-65 | a flag that agrees with the list still agrees after the toggle |
| LanguageDetail.ToggleTwiceFromAbsent | client/src/components/LanguageDetail.tsx:53-65 | from not-favourite with the id absent, two toggles restore the list exactly |
| LanguageDetail.ToggleTwiceFromFavorite | client/src/components/LanguageDetail.tsx:53-65 | from favourite, two toggles keep the same ids but move the id to the end, once |
| LanguageDetail.DetailView.constructor | client/src/components/LanguageDetail.tsx:26-30 | the flag starts as the initial favourite rule says, agreeing with the store |
| LanguageDetail.DetailView.ToggleFavorite | client/src/components/LanguageDetail.tsx:53-65 | the store receives the toggled list of what it held, the flag flips, and agreement between flag and store is kept |
| Favorites.FavoritesStore.Write | client/src/components/LanguageDetail.tsx:63 | the whole stored list is replaced |
| LanguageDetail.RenderField | client/src/components/LanguageDetail.tsx:67-73 | the value is shown exactly when it is a non-empty string or a non-zero number, the placeholder otherwise |
| LanguageDetail.HeaderFields | client/src/components/LanguageDetail.tsx:105-121 | the creator, the year and the paradigm, in that order; creator and paradigm shown when non-empty, the year when not zero, "no data yet" otherwise |
| LanguageDetail.OrNoData | client/src/components/LanguageDetail.tsx:160-178 | purpose and history as given when non-empty, "no data yet" otherwise |
| LanguageDetail.RenderFacts | client/src/components/LanguageDetail.tsx:188-204 | the placeholder exactly when there are no facts, otherwise every fact in order, numbered 1, 2, ... |
| App.ToggleId | client/src/App.tsx:41-45 | the id's membership flips, other ids keep order and multiplicity; an absent id is appended |
| App.ToggleTwiceRestores | client/src/App.tsx:41-45 | toggling an absent id twice restores the selection |
| App.ToggleKeepsNoDuplicates | client/src/App.tsx:41-45 | a toggle never introduces a duplicate |
| App.TogglesKeepNoDuplicates | client/src/App.tsx:38-45 | any sequence of toggles from the empty selection stays free of duplicates |
| App.CompareLanguages | client/src/App.tsx:47-49 | the catalog records whose id is selected, with multiplicity, in catalog order |
| App.CompareIgnoresSelectionOrder | client/src/App.tsx:47-49 | selections with the same ids give the same compared records |
| App.AppLayout.constructor | client/src/App.tsx:37-38 | compare mode off, nothing selected |
| App.AppLayout.ToggleCompare | client/src/App.tsx:41-45 | the selection is toggled, the mode kept, no duplicates |
| App.AppLayout.ToggleCompareMode | client/src/App.tsx:56 | the mode flips and the selection is kept |
| App.AppLayout.CloseCompare | client/src/App.tsx:77 | the mode goes off and the selection is kept |
| App.AppLayout.View | client/src/App.tsx:74-81 | the compare view of the compared records exactly in compare mode, the routed page otherwise |

## Left out

- All markup, styling, icons and routing (`Routes`, `Outlet`, `NavLink`), the mobile menu and its overlay: presentation only.
- Browser storage and JSON: the store holds the decoded id list, or `None` for a missing key. A stored empty string is falsy and reads as the empty list in the code; the model has no such value.
- Corrupt stored JSON: `JSON.parse` throws in the code. The model has no undecodable value, so this failure does not appear in it.
- The 500 ms polling and the `storage` event listener of the sidebar: timers and events. `LoadFavorites` is one reload.
- Clipboard copy and the two-second "copied" indicator: a foreign asynchronous API.
- The bar height `count / maxCount * 100`: floating point. Only "no bar exceeds the maximum, the maximum is at least one" is kept.
- Text.ToLower: models ASCII lower-casing only, not Unicode case mapping, because the model has no Unicode tables.
- Integer-like paradigm names such as `"1"`, the `__proto__` key, and keys that `{}` inherits from `Object.prototype` such as `"constructor"` or `"toString"`: the code's object would enumerate or store the first two differently, and for an inherited key `acc[k] || 0` reads a function, so that count becomes a string. The model treats every paradigm key as an ordinary string with no inherited value.
- Decade keys are all non-negative, because eligible years are positive. Below 2^32 − 1 such keys are array indices, which a JavaScript object enumerates in ascending order; a decade at or above 2^32 − 1 would be enumerated in creation order instead. The model gives every integer key the ascending order.
- The `sort` calls are modelled by their results. `FirstMaxIndex` is the head of a stable descending sort. The timeline's numeric sort leaves already-ascending entries as they are.
- Non-numeric years, `NaN` and non-integer numbers: `year` is an `int`.
- LanguageDetail.DetailView.constructor: the flag is read once, when the view is created. The model has no operation for a change of id while the same page stays mounted; in the code that case keeps the earlier flag.
- The upper-cased name in the page footer: display only.
- The edit and create pages, `Welcome` and `CompareMode`: presentation only. Their one label rule is the same as `Sidebar.RowLabel`.
