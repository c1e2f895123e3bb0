# Ranked, paginated word list — a Dafny model

This project models the core of the `palavras-niveis` word list (`app.js`).
Users add words. Each word carries a proficiency level from 0 to 999. The
list is kept ranked by level, highest first, with newer words first among
equal levels. It is shown ten words per page, and a cursor records the page
being shown.

The model is an immutable `State(items: seq<Item>, currentPage: int)` with
`Item(id, word, level, createdAt)`. Every operation is a pure function from
state to state:

- `Words`: the item, the level bounds, `clamp`, id sets and `findIndex`.
- `Text`: `String.prototype.trim`.
- `Ranking`: the `sortItems` comparator and a sort that meets it.
- `Paging`: `pageCount`, the page of a rank index, and the row slice `render` shows.
- `Store`: `ensureCurrentPageInRange`, `addWord`, the add handler's blank check, `changeLevel`, `removeItem`, `goPrev`, `goNext`, and what `render` computes.
- `Session`: sequences of user actions and the invariant they keep.
- `Persistence`: `loadState`'s field fallbacks, and start-up.
- `Scenarios`: the expected behaviours, each stated for every state it applies to.

`uid()` and `Date.now()` become the parameters `id` and `createdAt`.
Freshness of `id` is a premise of the lemmas that need it. It is not a
precondition of the operations: the operations work on any input, as the
JavaScript does.

Points where the code's behaviour is easy to misread; the model follows the code as written:

- Equal levels are broken by `createdAt`, newest first (`app.js:37`), not alphabetically.
- `addWord` rejects only the empty string (`app.js:51`). Whitespace-only input is rejected by the add handler (`app.js:191-192`). `Store.AddEntry` models the handler; `Scenarios.AddWordStoresBlankAsEmpty` shows that `addWord` alone stores a blank word as `""`.
- `addWord` does not clamp the page after jumping to the new item's page. `Store.AddWord` proves the clamp is not needed.
- The only navigation is `goPrev`/`goNext`; there is no general "go to page".
- `loadState` falls back per field (`app.js:21-22`). A stored object whose `items` is not an array still keeps its page, and an invalid page becomes 1 while the items are kept. Only text that fails to parse, or that parses to `null` (so that reading its fields throws), resets the whole state.

## Model

| member | source | states |
|---|---|---|
| Words.Clamp | app.js:33 | With `lo <= hi` the result lies in `[lo, hi]`: it is `n` when `n` is already there, `lo` below the range, `hi` above it |
| Words.FindIndex | app.js:57 | Returns -1 exactly when no item has the id; otherwise the position of an item with that id, with no earlier item carrying it |
| Words.FindIndexUnique | app.js:71 | With distinct ids, the position found is the only position holding that id |
| Words.SameItemsSameIds | app.js:34-39 | Two arrangements of the same multiset of items carry the same set of ids |
| Words.SameItemsKeepLevels | app.js:34-39 | Rearranging items keeps every level in `[0, 999]` if it was there |
| Text.TextStart | app.js:52 | Everything before the returned position is whitespace and the character at it (if any) is not: the end of the leading whitespace |
| Text.TextEnd | app.js:52 | Everything from the returned position on is whitespace and the character before it (if any) is not: the start of the trailing whitespace |
| Text.TextBounds | app.js:52 | Leading whitespace covers the whole string exactly when it is blank; otherwise the text starts before it ends |
| Text.Trim | app.js:191 | Result is empty exactly when the input is all whitespace; otherwise it neither starts nor ends with whitespace |
| Text.TrimKeepsInterior | app.js:52 | Trim only cuts whitespace, only at both ends: the result is the contiguous block of the input between its leading and trailing whitespace |
| Text.TrimIdempotent | app.js:191-193 | Trimming a trimmed string changes nothing, so addWord's second trim keeps the handler's word |
| Ranking.CompareMeansRank | app.js:35-38 | The comparator lets `a` stay ahead of `b` exactly when `a` has a higher level, or the same level and a `createdAt` at least as large |
| Ranking.Insert | app.js:34-39 | Inserting one item yields exactly the old items plus it (multiset), one longer |
| Ranking.InsertSorted | app.js:34-39 | Inserting into a ranked list keeps it ranked |
| Ranking.Sort | app.js:34-39 | sortItems yields a permutation (same multiset) in which levels never increase and `createdAt` never increases among equal levels; Ranking.SortStable adds the order among items that rank equal |
| Ranking.InsertTied | app.js:34-39 | An inserted item goes ahead of every item that ranks equal to it, and the order among those items is kept |
| Ranking.SortStable | app.js:34-39 | sortItems is stable, like `Array.prototype.sort`: items the comparator ranks equal keep their original relative order |
| Ranking.SortOfSorted | app.js:34-39 | Sorting an already ranked list returns it unchanged |
| Ranking.SortIdempotent | app.js:98 | Sorting twice equals sorting once, so render may re-sort before every draw |
| Ranking.InsertKeepsDistinctIds | app.js:53-54 | Inserting an item with a fresh id into a list of distinct ids keeps them distinct |
| Ranking.SortKeepsDistinctIds | app.js:54 | Sorting never makes two items share an id |
| Paging.PageCount | app.js:40-42 | Page count is at least 1 and is the fewest pages of 10 that hold n items: `n <= 10r` and `10(r-1) < n` unless r = 1 |
| Paging.PageCountLeast | app.js:40-42 | No page count p >= 1 with `n <= 10p` is smaller than pageCount |
| Paging.PageOf | app.js:58 | The page `floor(i/10) + 1` is the page whose ten-index block contains rank index i |
| Paging.PageOfInRange | app.js:57-58 | The page of any index of a list lies in `[1, pageCount]` |
| Paging.Slice | app.js:110 | `slice(start, end)` has length `min(end, len) - start` when that is positive, else 0, and its k-th element is the input's `start + k`-th |
| Paging.PageItems | app.js:107-110 | The rows of a page are at most 10 consecutive items starting at `(page-1)*10`; for a page in range they are empty exactly when the list is |
| Paging.ItemOnItsPage | app.js:107-110 | Item i is shown on page `floor(i/10) + 1` at row `i mod 10` |
| Paging.PageItemsBelongToPage | app.js:107-110 | Every row of page p has a rank index whose page is p, so pages do not overlap |
| Store.EnsureCurrentPageInRange | app.js:43-47 | Afterwards `1 <= currentPage <= pageCount`; items are untouched; an in-range page is kept; a page above goes to the last page, one below goes to 1 |
| Store.PageOfId | app.js:57-58 | The page jumped to is in range, and the first item with the id is among its rows |
| Store.AddWord | app.js:50-58 | An empty word changes nothing; otherwise the items become the old items plus exactly one level-0 item with the trimmed word, ranked, with the cursor in range |
| Store.AddEntry | app.js:190-193 | Blank input changes nothing; otherwise exactly one item with the trimmed input at level 0 is added, the list stays ranked and the cursor is in range |
| Store.AddWordFollowsItem | app.js:53-58 | With a fresh id, the new item is where findIndex finds it, the cursor is its page, it is among the shown rows, ids grow by exactly that id and stay distinct, and levels stay in bounds |
| Store.AppendKeeps | app.js:53 | Pushing an item with a fresh id adds exactly that id, keeps ids distinct, and a level-0 item keeps levels in bounds |
| Store.Relevel | app.js:67 | Only the level changes; it ends in `[0, 999]`, equals `level + delta` when that is in bounds, and is cut to 0 or 999 otherwise |
| Store.ChangeLevel | app.js:64-73 | An unknown id changes nothing; otherwise exactly that item is replaced by its re-levelled copy (multiset), the list is ranked and the cursor in range |
| Store.ChangeLevelFollowsItem | app.js:68-73 | With distinct ids, the re-levelled item is where findIndex finds it, the cursor is its page and shows it, ids are unchanged and distinct, and levels stay in bounds |
| Store.ReplaceKeepsIds | app.js:67 | Replacing one item by another with the same id keeps the id set, keeps ids distinct, and keeps levels in bounds when the new level is |
| Store.Splice | app.js:82 | `splice(i, 1)` keeps the items before i, shifts those after it down by one, and drops exactly the item at i |
| Store.SpliceKeeps | app.js:82 | After a splice a ranked list is still ranked, distinct ids stay distinct, and levels stay in bounds |
| Store.SpliceIds | app.js:82 | With distinct ids, a splice removes exactly the id of the removed item |
| Store.RemoveItem | app.js:79-84 | An unknown id changes nothing; otherwise exactly that item is removed, and the cursor becomes the old cursor clamped into `[1, new pageCount]`, which for an in-range cursor is `min(cursor, new pageCount)` |
| Store.RemoveItemKeepsOrder | app.js:80-84 | Survivors keep their relative order, so the list stays ranked; with distinct ids exactly that id disappears |
| Store.GoPrev | app.js:168-174 | Items are untouched; the cursor moves back by one exactly when it is above 1, and an in-range cursor moves exactly when the page before exists |
| Store.GoNext | app.js:175-181 | Items are untouched; the cursor moves forward by one exactly when it is below pageCount, and an in-range cursor moves exactly when the next page exists |
| Store.Render | app.js:98-99 | Render keeps the same items and ranks them; the cursor becomes the old cursor clamped into `[1, pageCount]`; a ranked, in-range state is left as it is |
| Store.Show | app.js:101-110 | The label shows the cursor clamped into `[1, pageCount]` over pageCount; the rows are that page's slice of the ranked list, at most 10 of them, and none only when the list is empty; a ranked, in-range state shows its own page |
| Store.ButtonsMatchNavigation | app.js:104-105 | The previous (next) button is enabled exactly when goPrev (goNext) would change the drawn state |
| Store.ShowIdempotent | app.js:98-110 | Drawing is a pure read: rendering the rendered state changes nothing and draws the same view |
| Session.Apply | app.js:139-204 | The handlers the page wires up: a non-blank add grows the list by one and a blank one leaves it alone, a level change keeps its length, a removal of a known id shrinks it by one, paging leaves the items untouched |
| Session.ApplyKeepsGood | app.js:50-87 | Each action keeps a state ranked, with distinct ids, levels in bounds and the cursor in range; only an add brings in an id |
| Session.RunKeepsGood | app.js:198-204 | Any sequence of actions whose adds use fresh ids keeps those four properties |
| Session.SessionInvariant | app.js:7-10 | From the empty list, every session keeps ids distinct, the list ranked, levels in `[0, 999]` and the cursor on an existing page |
| Session.RenderOfGood | app.js:98-99 | In such a state render changes nothing |
| Persistence.LoadPage | app.js:22 | A non-zero integer page is kept; anything else becomes 1; the result is never 0 |
| Persistence.LoadState | app.js:16-27 | Nothing stored, text that fails to parse, or text that parses to `null` gives the empty state on page 1; a parsed object gives its items (or none if not an array) and its page fallback |
| Persistence.Boot | app.js:207-213 | Whatever is stored, the app starts with the stored items, ranked, on the loaded page clamped into `[1, pageCount]` |
| Persistence.SaveState | app.js:13-15 | What saveState writes, loadState reads back: the same items, and the same page unless it is 0, which comes back as 1 |
| Persistence.LoadSaved | app.js:13-22 | Loading what was saved gives back the same state whenever the cursor is in range |
| Persistence.BootSaved | app.js:207-212 | Reopening after a save restores a good session exactly |
| Scenarios.AddsGrowList | app.js:53 | Each non-blank add grows the list by exactly one |
| Scenarios.ElevenWordsTwoPages | app.js:40-42 | Eleven words added to the empty list give two pages, with 10 rows on page 1 and 1 on page 2 |
| Scenarios.RaisedToTopShowsFirstPage | app.js:68-72 | An item raised above every other level becomes the first item, and the cursor moves to page 1 |
| Scenarios.TopAfterSort | app.js:68 | Sorting a list whose item i alone holds the highest level puts that item first |
| Scenarios.OthersStayBelow | app.js:68 | When one item holds the only highest level, every other item is still below it after sorting |
| Scenarios.HighestIsFirst | app.js:34-39 | In a ranked list, an item whose level beats every other is at index 0 |
| Scenarios.LevelFloorAndCeiling | app.js:67 | A `-` at level 0 stays at 0, and a `+` at 999 stays at 999 |
| Scenarios.RemovingLastPageItem | app.js:83-84 | Removing an item while the last page holds a single item and is shown drops one page and moves the cursor back one page |
| Scenarios.TwentyOneItemsOnPageThree | app.js:79-84 | With 21 items and page 3 shown, any removal leaves page 2 shown |
| Scenarios.BlankInputIgnored | app.js:191-192 | `""` and `"   "` given to the add handler change nothing |
| Scenarios.AddWordStoresBlankAsEmpty | app.js:50-53 | addWord on its own accepts `"   "` and stores an item whose word is `""` |

## Left out

- DOM construction, event listeners, `confirm`, focus handling and `setupHandlers` are user interface code. Only the values `render` computes are modelled: the page label, the button states and the rows. The remove action stands for a removal the user has already confirmed.
- `saveState`/`loadState` use `localStorage` and `JSON.stringify`/`JSON.parse`, which are foreign I/O. A stored value is given already parsed, as far as `loadState` looks at it. Type checks on individual item fields do not exist in the source and are not modelled.
- `uid()` and `Date.now()` are nondeterministic. They are parameters, and id freshness is a premise of the lemmas that need it.
- `service-worker.js` is asset caching and fetch interception with no sequential logic of the list; it is not part of this model.
- JavaScript numbers are doubles. Levels and timestamps are modelled as unbounded integers, so precision loss above 2^53 and fractional levels from hand-edited storage are not modelled.
- Paging.Slice: only non-negative arguments are modelled. `render` slices only after clamping the page to at least 1, so negative indices never reach `slice`.
- Session.Apply does not repeat the `render()` call each handler makes after saving; `Session.RenderOfGood` shows that call changes nothing in the states a session reaches.
