# IDHL-Intel dashboard core in Dafny

IDHL-Intel is a SvelteKit reporting dashboard for digital marketing clients.
This project models the parts of it that decide things and proves what they
promise.

**Report-layout store** (`src/lib/stores/reportLayouts.js`)
- The grid engine that packs report cards on a four-column grid. This covers the span, row and column normalisers, `canFit`, `occupy`, the row-major `findNextFit` search and the greedy `stabilizeLayout` repack.
- The migration of stored items.
- Every exported mutation, as transforms of the per-client map of reports.
- The debounced save machine, driven by schedule and fire events.
- The Svelte `writable` store is a class, `ReportStore.ReportLayoutStore`. Its fields are the store value and the save state.

**Analytics helpers**
- The UTC calendar of `src/lib/analytics/date.js`: ISO date parsing and printing, day and month arithmetic, and the bucket generators, written as loops.
- The comparison ranges and deltas of `comparison.js`.
- The metric-id normalisation of `normalize.js`, checked against the key table of `constants.js`.
- The FNV-1a hash and the Mulberry32 generator of `seededRandom.js`. The generator is a class whose state field advances on every draw.

**Custom-graph store** (`src/lib/stores/customAnalysisGraphs.js`)
- The migration of stored graphs.
- Add and remove, per client.

**AI endpoints**
- Chat: the request checks, the last user turn, the question merging and metric mentions, and the in-place graph-spec repair with its split-to-series correction.
- Report: the in-place `normalizeGraphSpec`, `normalizeKeywordSpec`, and the card loop with its three-card check.
- Keywords: the intent normalisation, the list cleaning with its first-wins de-duplication, and the parse of the reply.
- The language model calls and the JSON parse of their replies happen outside the model. Each endpoint takes the model's reply text and what it parses to as parameters, the latter `None` when it was not JSON. The 502 answers that the source sends with `raw: content` carry that text.

**Routing and analytics endpoints**
- The route guard of `src/hooks.server.js`.
- The query-string defaulting and validation of the breakdown and brand-split analytics endpoints.

**Shared modules** model the JavaScript semantics the code relies on:
- `JsText`: `trim`, ASCII `toLowerCase`, `split`, and integer printing.
- `JsNumber`: `Number` values with NaN and the infinities, `Math.round`, `Math.min` and `Math.max`.
- `JsValues`: JSON values, truthiness, `||`, property access, `String(...)` and `Number(...)`.

**Parameters** stand in for the environment:
- today's date;
- the fresh-id source behind `uid()`;
- the parsed `localStorage` contents;
- whether a request has a signed-in user;
- the outcome of a save request.

## Model

| member | source | states |
|---|---|---|
| JsText.TrimShape | src/lib/analytics/normalize.js:24 | `.trim()` gives a result no longer than its input that neither starts nor ends with white space |
| JsText.TrimStartShape | src/lib/analytics/normalize.js:24 | the leading white space dropped by a trim is white space, and the rest is a suffix of the input |
| JsText.TrimEndShape | src/lib/analytics/normalize.js:24 | the trailing white space dropped by a trim is white space, and the rest is a prefix of the input |
| JsText.TrimNoSpace | src/lib/analytics/normalize.js:24 | a trim leaves text without outer white space unchanged |
| JsText.TrimIdempotent | src/lib/analytics/normalize.js:24 | trimming twice is trimming once |
| JsText.Lower | src/lib/analytics/normalize.js:28 | `.toLowerCase()` keeps the length and lowers each ASCII capital |
| JsText.LowerAppend | src/lib/analytics/normalize.js:28 | lowering distributes over concatenation |
| JsText.CollapseSpaces | src/app_routes/api/ai/keywords/+server.js:29 | collapsing white-space runs leaves only single spaces as white space |
| JsText.SplitPieces | src/lib/analytics/date.js:7 | no piece of a split holds the separator, and joining the pieces gives the text back |
| JsText.SplitNone | src/lib/analytics/date.js:7 | a text without the separator splits into itself |
| JsText.SplitJoin | src/lib/analytics/date.js:7 | splitting at a first separator gives the piece before it, then the split of the rest |
| JsText.NatToStringValue | src/lib/analytics/date.js:22-27 | a number's decimal digits read back as that number |
| JsText.Pad2Value | src/lib/analytics/date.js:22-27 | `padStart(2, '0')` of a number below 100 is two digits that read back as it |
| JsNumber.Round | src/app_routes/api/ai/report/+server.js:217 | `Math.round` keeps NaN and infinities, and rounds a finite number to an integer within a half of it |
| JsNumber.MathMax | src/app_routes/api/analytics/breakdown/+server.js:34 | `Math.max` is NaN when an argument is, and otherwise the larger argument |
| JsNumber.MathMin | src/app_routes/api/analytics/breakdown/+server.js:34 | `Math.min` is NaN when an argument is, and otherwise the smaller argument |
| JsNumber.ClampToInt | src/app_routes/api/analytics/breakdown/+server.js:34 | the clamp of an integral number lies in the bounds and equals both orders of `Math.min` and `Math.max` |
| JsValues.Or | src/app_routes/api/ai/chat/+server.js:91 | JavaScript `or` of a and b is a when a is truthy and b otherwise |
| JsValues.Field | src/app_routes/api/ai/chat/+server.js:90 | `v?.key` is undefined on anything other than an object, and the property's value when the object has it |
| JsValues.StringOr | src/app_routes/api/ai/chat/+server.js:326 | `String` of v, or the fallback, is the fallback for a falsy v and a non-empty string itself |
| JsValues.StringToNumber | src/app_routes/api/analytics/breakdown/+server.js:34 | `Number` of a blank text is 0 |
| JsValues.ToNumber | src/app_routes/api/ai/keywords/+server.js:67 | `Number` of a number is itself, of `null` 0, and of undefined or an object NaN |
| JsValues.NumberOfString | src/app_routes/api/analytics/breakdown/+server.js:34 | an integer's text, or its string form, reads back as that integer |
| JsValues.IntegerLiteralNumber | src/app_routes/api/analytics/breakdown/+server.js:34 | a trimmed integer literal reads as its value |
| LayoutItems.MaxColFor | src/lib/stores/reportLayouts.js:71 | the last starting column `COLS - span + 1` for a span in 1..4, never below 1 |
| LayoutItems.NormalizeSpan | src/lib/stores/reportLayouts.js:56-60 | 2 for a non-finite number, else the rounded value clamped to [1, 4], case by case |
| LayoutItems.NormalizeRow | src/lib/stores/reportLayouts.js:62-66 | 0 for a non-finite number, else the rounded value floored at 0 |
| LayoutItems.NormalizeCol | src/lib/stores/reportLayouts.js:68-73 | 0 for a non-finite number, else the rounded value clamped to [0, max(1, COLS - normalizeSpan(span) + 1)] |
| LayoutItems.NormalizeFixpoints | src/lib/stores/reportLayouts.js:56-73 | the three normalisers leave values already in their ranges unchanged |
| LayoutItems.ToObj | src/lib/stores/reportLayouts.js:147 | a placed item read back as a stored object keeps id, spec, span, row and col |
| LayoutItems.ToObjs | src/lib/stores/reportLayouts.js:147 | the stored form of a list, element by element |
| LayoutGrid.Cells | src/lib/stores/reportLayouts.js:79-81 | the cells of a card are exactly `(row, c)` for `col <= c < col + span` |
| LayoutGrid.CanFit | src/lib/stores/reportLayouts.js:75-83 | the loop returns true exactly when the row is at least 1, the column is in [1, COLS - span + 1] and none of the card's cells is taken |
| LayoutGrid.Occupy | src/lib/stores/reportLayouts.js:85-89 | the new occupancy is the old one plus the card's cells |
| LayoutGrid.StartRow | src/lib/stores/reportLayouts.js:92 | the scan starts at `startRow` when that is at least 1, else at 1 |
| LayoutGrid.PreferredCol | src/lib/stores/reportLayouts.js:97 | the preferred column clamped to [1, maxCol] |
| LayoutGrid.OtherFit | src/lib/stores/reportLayouts.js:101-104 | the first column other than `pref` at which the card fits, and none before it; None exactly when no such column exists |
| LayoutGrid.RowFit | src/lib/stores/reportLayouts.js:97-104 | the preferred column whenever it fits, otherwise the leftmost fitting column; None exactly when the row is full |
| LayoutGrid.Search | src/lib/stores/reportLayouts.js:96-107 | the first row below 500 with room and its column, every row before it full; None exactly when every row from the start to 499 is full |
| LayoutGrid.NextFit | src/lib/stores/reportLayouts.js:91-110 | either a fitting slot with every earlier row full and the preferred column taken when it fits, or the fallback (start row, 1) after every row below 500 was full; (start row, 1) when the span is wider than the grid |
| LayoutGrid.FindNextFit | src/lib/stores/reportLayouts.js:91-110 | the row and column loops compute `NextFit` |
| LayoutGrid.EmptyRowFits | src/lib/stores/reportLayouts.js:75-83 | any valid card fits at column 1 of an empty row |
| LayoutGrid.SearchFindsEmptyRow | src/lib/stores/reportLayouts.js:96-107 | the scan from `s` finds a slot no lower than the first empty row below 500 |
| LayoutGrid.EmptyRowExists | src/lib/stores/reportLayouts.js:96-107 | when at most `k` rows are taken, one of the rows `s .. s + k` is empty |
| LayoutGrid.RowsOfOccupy | src/lib/stores/reportLayouts.js:85-89 | placing a card adds at most its own row to the rows in use |
| LayoutGrid.NextFitFits | src/lib/stores/reportLayouts.js:91-110 | with at most `k` rows taken and the start row plus `k` below 500, `findNextFit` returns a slot that fits, no lower than start + k |
| LayoutStabilize.NormalizeObj | src/lib/stores/reportLayouts.js:114-120 | a normalised item keeps the spec, takes the stored id or else the fresh one, and has normalised geometry |
| LayoutStabilize.NormalizeAll | src/lib/stores/reportLayouts.js:114-120 | one normalised item per input, in order, the i-th drawing the i-th fresh id |
| LayoutStabilize.IndexOf | src/lib/stores/reportLayouts.js:122 | the first position holding the id, or None when no item has it |
| LayoutStabilize.WithoutId | src/lib/stores/reportLayouts.js:123 | exactly the items whose id differs, never longer than the input |
| LayoutStabilize.WithoutIdUnique | src/lib/stores/reportLayouts.js:123 | filtering by id keeps ids distinct |
| LayoutStabilize.Ordered | src/lib/stores/reportLayouts.js:122-123 | the placing order holds only items of the normalised list and is never longer than it |
| LayoutStabilize.Place | src/lib/stores/reportLayouts.js:128-145 | a normalised item is always placed validly; one with a location that fits stays where it is |
| LayoutStabilize.PlaceAll | src/lib/stores/reportLayouts.js:125-148 | one placed item per item, differing only in row and column, each valid |
| LayoutStabilize.PlaceAllStep | src/lib/stores/reportLayouts.js:127-148 | one turn of the loop: the item placed against the current cells, which then take its cells |
| LayoutStabilize.LastIndexOf | src/lib/stores/reportLayouts.js:153 | `map.get(id)` on a Map built from pairs: the last item with that id, None exactly when none has it |
| LayoutStabilize.Restore | src/lib/stores/reportLayouts.js:153-154 | one item per normalised item |
| LayoutStabilize.LockedIndex | src/lib/stores/reportLayouts.js:122 | the locked item, when found, holds the locked id |
| LayoutStabilize.Stabilize | src/lib/stores/reportLayouts.js:112-155 | one item out per item in |
| LayoutStabilize.PlaceItem | src/lib/stores/reportLayouts.js:128-145 | the loop body computes `Place` with the item's own span |
| LayoutStabilize.OrderedNormalized | src/lib/stores/reportLayouts.js:122-123 | every item of the placing order is normalised |
| LayoutStabilize.StabilizeLayout | src/lib/stores/reportLayouts.js:112-155 | the method with its occupancy loop computes `Stabilize` |
| LayoutProperties.FitsBesideNoOverlap | src/lib/stores/reportLayouts.js:140-146 | a card that fits beside another card's cells does not overlap it |
| LayoutProperties.NoOverlapStillFits | src/lib/stores/reportLayouts.js:140-146 | a card that fits and does not overlap `p` still fits once `p` is placed |
| LayoutProperties.PlaceFits | src/lib/stores/reportLayouts.js:128-146 | below the row limit, the loop body puts an item at a slot that fits |
| LayoutProperties.PlaceAllDisjoint | src/lib/stores/reportLayouts.js:125-148 | below the row limit the placed cards fit the starting grid and share no cell |
| LayoutProperties.ConsFits | src/lib/stores/reportLayouts.js:146-147 | a fitting card followed by disjoint cards that fit beside it gives a disjoint list |
| LayoutProperties.OrderedCoversIds | src/lib/stores/reportLayouts.js:122-123 | every normalised id appears in the placing order |
| LayoutProperties.RestoreFinds | src/lib/stores/reportLayouts.js:153-154 | the restore step finds every normalised id among the placed items, so no item falls back to its unplaced form |
| LayoutProperties.StabilizeKeepsIds | src/lib/stores/reportLayouts.js:113-115 | one item per input, in input order, with the stored id or else the i-th fresh id |
| LayoutProperties.StabilizeValid | src/lib/stores/reportLayouts.js:112-155 | every returned item has span in [1, 4], row at least 1 and lies inside the 4-column grid |
| LayoutProperties.RestoreValid | src/lib/stores/reportLayouts.js:153-154 | restoring from valid placements that hold every id gives valid items |
| LayoutProperties.StabilizeNoOverlap | src/lib/stores/reportLayouts.js:112-155 | with distinct ids and rows below the limit, no two returned cards share a cell |
| LayoutProperties.NormalizedPlaceable | src/lib/stores/reportLayouts.js:114-120 | under the row bound every normalised item leaves room for the search |
| LayoutProperties.OrderedPlaceable | src/lib/stores/reportLayouts.js:122-123 | the placing order keeps that room |
| LayoutProperties.RestoreDisjoint | src/lib/stores/reportLayouts.js:153-154 | restoring distinct ids from a disjoint placement gives a disjoint list |
| LayoutProperties.StabilizeKeepsLocked | src/lib/stores/reportLayouts.js:122-147 | the locked item is placed first on an empty grid and keeps its normalised location whenever it has one |
| LayoutProperties.NormalizeStoredItem | src/lib/stores/reportLayouts.js:114-120 | normalising a valid stored item gives it back |
| LayoutProperties.PlaceAllStable | src/lib/stores/reportLayouts.js:139-147 | cards that already fit and share no cell are left where they are |
| LayoutProperties.StableMembersApart | src/lib/stores/reportLayouts.js:75-83 | distinct members of a stable layout do not overlap |
| LayoutProperties.OrderedStable | src/lib/stores/reportLayouts.js:122-123 | the placing order of a stable layout is stable |
| LayoutProperties.RestoreStable | src/lib/stores/reportLayouts.js:153-154 | restoring a stable layout from its own placing order gives it back |
| LayoutProperties.StableFixpoint | src/lib/stores/reportLayouts.js:112-155 | a stable layout comes back unchanged, whatever item is locked |
| LayoutProperties.StabilizePlacesAll | src/lib/stores/reportLayouts.js:112-155 | items with ids come back one for one, ids kept, each placed validly |
| LayoutProperties.StabilizeStable | src/lib/stores/reportLayouts.js:112-155 | under the row bound, with distinct ids and non-empty fresh ids, the output is stable: valid, distinct ids, no shared cell |
| LayoutProperties.StabilizeIdempotent | src/lib/stores/reportLayouts.js:112-155 | re-stabilising the output, with any locked id and any id source, changes nothing |
| LayoutProperties.OverlapPastRowLimit | src/lib/stores/reportLayouts.js:96-109 | the row bound is needed: two full-width cards stored at row 600 both stay at (600, 1) and overlap |
| ReportLayouts.ObjectsOf | src/lib/stores/reportLayouts.js:49-51 | the objects of a stored list, exactly the object entries (`.filter(Boolean)` drops the rest) |
| ReportLayouts.Migrate | src/lib/stores/reportLayouts.js:29-47 | an object with truthy id and spec keeps both, its other fields and normalised geometry; any other object gets the fresh id, its spec or itself as spec, row 0 and col 0; the span is normalised in both cases |
| ReportLayouts.MigrateAll | src/lib/stores/reportLayouts.js:28-51 | the k-th object is migrated with the k-th fresh id |
| ReportLayouts.NormalizeItems | src/lib/stores/reportLayouts.js:25-54 | a value that is not an array gives `[]`; an array gives one item per object entry |
| ReportLayouts.ToEntries | src/lib/stores/reportLayouts.js:282 | the items a report holds, as the entries of a stored array |
| ReportLayouts.LoadEntry | src/lib/stores/reportLayouts.js:170-178 | the title is the stored title, or 'Report' when empty, cut to 60 characters for an object value and 'Report' otherwise; the items come from `value.items`, from the array itself, or are empty |
| ReportLayouts.Current | src/lib/stores/reportLayouts.js:281 | the client's report, or an empty one titled 'Report'; the mutation rows below state what each keeps of it |
| ReportLayouts.Renormalize | src/lib/stores/reportLayouts.js:282 | `normalizeItems` of the current items; `ReportLayoutsProperties.RenormalizeShape` states that all come out placed and with an id |
| ReportLayouts.Occupancy | src/lib/stores/reportLayouts.js:284-285 | every card's cells are taken, and at most one row per card |
| ReportLayouts.EnsureReport | src/lib/stores/reportLayouts.js:258-264 | an empty report is added for a new client, an existing one is returned as it is, an empty client id changes nothing, other clients are untouched |
| ReportLayouts.SetReportTitle | src/lib/stores/reportLayouts.js:266-275 | the title becomes the given one, or 'Report' when empty, not truncated; the items and the other clients stay |
| ReportLayouts.AddReportItem | src/lib/stores/reportLayouts.js:277-294 | without a client or a truthy spec nothing changes; otherwise the re-normalised items plus one appended card, title and other clients kept |
| ReportLayouts.RequestedRow | src/lib/stores/reportLayouts.js:304 | the requested row rounded, 1 when missing, at least 1: an integer of at least 1, or Infinity exactly when the row is Infinity |
| ReportLayouts.RequestedCol | src/lib/stores/reportLayouts.js:305 | the rounded column clamped to [1, max(1, COLS - span + 1)] |
| ReportLayouts.AddReportItemAt | src/lib/stores/reportLayouts.js:296-310 | without a client or a truthy spec nothing changes; otherwise the re-normalised items with the new card appended and re-packed with it locked |
| ReportLayouts.RemoveId | src/lib/stores/reportLayouts.js:316 | exactly the items whose id differs |
| ReportLayouts.RemoveReportItem | src/lib/stores/reportLayouts.js:312-319 | without a client or an id nothing changes; otherwise the re-normalised items without that id, not re-packed |
| ReportLayouts.Move | src/lib/stores/reportLayouts.js:329-331 | the two splices give a permutation with the moved item at the target index |
| ReportLayouts.Reordered | src/lib/stores/reportLayouts.js:326-331 | None exactly when either id is missing; otherwise a permutation with `from`'s item at `to`'s index |
| ReportLayouts.ReorderReportItems | src/lib/stores/reportLayouts.js:321-335 | nothing changes for a missing argument, equal ids or an unknown id; otherwise the report holds the reordered items with row and col as they were |
| ReportLayouts.WithSpan | src/lib/stores/reportLayouts.js:342-344 | every item with the id gets the new span, the others stay |
| ReportLayouts.SetReportItemSpan | src/lib/stores/reportLayouts.js:337-348 | without a client or an id nothing changes; otherwise the respanned items re-packed with the item locked |
| ReportLayouts.WithSpec | src/lib/stores/reportLayouts.js:354 | every item with the id gets the new spec, the others stay |
| ReportLayouts.SetReportItemSpec | src/lib/stores/reportLayouts.js:350-357 | without a client or an id nothing changes; otherwise the spec is replaced, even by a falsy one, and nothing is re-packed |
| ReportLayouts.PlacedAt | src/lib/stores/reportLayouts.js:367-372 | the list handed to `stabilizeLayout` has one object per item |
| ReportLayouts.PlaceReportItem | src/lib/stores/reportLayouts.js:359-376 | nothing changes for a missing argument or an unknown id; otherwise the item moved to the requested slot and the list re-packed with it locked |
| ReportLayouts.HydrateReport | src/lib/stores/reportLayouts.js:249-255 | the client's report gets the title or 'Report' cut to 60 characters and the normalised items; other clients stay |
| ReportLayoutsProperties.MigrateNormalized | src/lib/stores/reportLayouts.js:29-47 | a migrated object carries integral, normalised geometry |
| ReportLayoutsProperties.NormalizeMigrated | src/lib/stores/reportLayouts.js:53 | normalising a migrated object keeps its span, spec and any id |
| ReportLayoutsProperties.NormalizeItemsShape | src/lib/stores/reportLayouts.js:25-54 | one valid item per object entry, in order, with the normalised span; a current item keeps id and spec, a legacy one gets the k-th fresh id and its spec or itself as spec |
| ReportLayoutsProperties.ObjectsOfEntries | src/lib/stores/reportLayouts.js:49-51 | stored items read back as their own objects |
| ReportLayoutsProperties.RenormalizeStable | src/lib/stores/reportLayouts.js:282 | re-normalising a stable layout with truthy specs gives it back, so mutations start from what is stored |
| ReportLayoutsProperties.RenormalizeFalsySpec | src/lib/stores/reportLayouts.js:31-42 | an item whose spec is falsy is taken for a legacy item next time: fresh id, itself as spec |
| ReportLayoutsProperties.RenormalizeShape | src/lib/stores/reportLayouts.js:25-54 | re-normalised stored items are all placed and all have an id |
| ReportLayoutsProperties.AppendedItemFits | src/lib/stores/reportLayouts.js:284-290 | the appended card has the fresh id, the spec and the normalised span, is valid and overlaps no existing card |
| ReportLayoutsProperties.AddReportItemFits | src/lib/stores/reportLayouts.js:277-294 | `addReportItem` keeps the existing cards as a prefix and appends exactly one card that overlaps none of them |
| ReportLayoutsProperties.NormalizeStoredAll | src/lib/stores/reportLayouts.js:114-120 | placed items with ids are left as they are at the head of any list |
| ReportLayoutsProperties.IndexOfFirst | src/lib/stores/reportLayouts.js:364 | the first index holding an id is what `findIndex` returns |
| ReportLayoutsProperties.InsertedAtLands | src/lib/stores/reportLayouts.js:303-308 | the new card ends up last, exactly at the requested row and clamped column; every other card keeps its id and every card is placed |
| ReportLayoutsProperties.InsertedShape | src/lib/stores/reportLayouts.js:307-308 | one more card than before, ids in place, every card valid |
| ReportLayoutsProperties.StabilizeAppended | src/lib/stores/reportLayouts.js:307-308 | re-packing with one more object keeps every id in place and places every card |
| ReportLayoutsProperties.InsertedLocked | src/lib/stores/reportLayouts.js:303-308 | the new card keeps the requested slot |
| ReportLayoutsProperties.AddReportItemAtLands | src/lib/stores/reportLayouts.js:296-310 | at the store level the new card sits last at `max(1, round(row))` and the clamped column |
| ReportLayoutsProperties.IndexOfSameIds | src/lib/stores/reportLayouts.js:364 | lists with the same ids position by position find an id at the same index |
| ReportLayoutsProperties.PlacedAtNormalized | src/lib/stores/reportLayouts.js:367-372 | normalising the list handed to `stabilizeLayout` gives the items with the chosen one at the requested slot |
| ReportLayoutsProperties.ReplacedLands | src/lib/stores/reportLayouts.js:367-374 | the chosen card lands exactly at the requested slot; every card keeps its id and is placed |
| ReportLayoutsProperties.ReplacedShape | src/lib/stores/reportLayouts.js:371-374 | same length, ids in place, every card valid |
| ReportLayoutsProperties.ReplacedLocked | src/lib/stores/reportLayouts.js:367-374 | the locked card keeps the requested slot |
| ReportLayoutsProperties.PlaceReportItemLands | src/lib/stores/reportLayouts.js:359-376 | at the store level the card sits at `max(1, round(row))` and the clamped column |
| ReportLayoutsProperties.RemoveKeepsGeometry | src/lib/stores/reportLayouts.js:312-319 | on a stable layout, removal keeps exactly the other cards, each where it was |
| ReportLayoutsProperties.SetSpecKeepsGeometry | src/lib/stores/reportLayouts.js:350-357 | on a stable layout only the chosen cards' specs change |
| ReportLayoutsProperties.ReorderKeepsCards | src/lib/stores/reportLayouts.js:321-335 | on a stable layout, reordering permutes the cards without moving any of them on the grid |
| ReportLayoutsProperties.NextFitPreferred | src/lib/stores/reportLayouts.js:96-99 | after full rows, a row where the preferred column fits returns that slot |
| ReportLayoutsProperties.ExamplePacking | src/lib/stores/reportLayouts.js:127-148 | A (span 4 at 1,1), B (span 2 at 1,3), C (span 4 at 2,1): B is pushed to row 2 and C to row 3 |
| ReportLayoutsProperties.ExampleMovesB | src/lib/stores/reportLayouts.js:139-144 | B does not fit beside A and moves to (2, 3) |
| ReportLayoutsProperties.ExampleMovesC | src/lib/stores/reportLayouts.js:139-144 | C does not fit beside B in row 2 and moves to (3, 1) |
| ReportLayoutsProperties.NormalizeStored | src/lib/stores/reportLayouts.js:114-120 | placed items with ids come back from the normalisers unchanged |
| ReportLayoutsProperties.ExampleOrder | src/lib/stores/reportLayouts.js:122-123 | with A locked the placing order is A, B, C |
| ReportLayoutsProperties.ExampleRestore | src/lib/stores/reportLayouts.js:150-154 | restoring the order gives the placed A, B, C back |
| ReportLayoutsProperties.ExampleRespan | src/lib/stores/reportLayouts.js:342-345 | widening A to 4 keeps A at (1,1) and moves B to (2,3) and C to (3,1) |
| ReportLayoutsProperties.WidenLockedExample | src/lib/stores/reportLayouts.js:337-348 | the same example through `setReportItemSpan` on the store |
| ReportSaves.Serialize | src/lib/stores/reportLayouts.js:190-195 | the title or 'Report' cut to 60 characters, and one re-normalised item per item |
| ReportSaves.SerializeStable | src/lib/stores/reportLayouts.js:190-195 | a stable layout with truthy specs serialises to its own items, whatever fresh ids were available |
| ReportSaves.Schedule | src/lib/stores/reportLayouts.js:216-233 | a client that is not hydrated changes nothing; only the scheduled client's state changes; the save invariant is kept |
| ReportSaves.PublishTo | src/lib/stores/reportLayouts.js:236-241 | clients outside the run are untouched and the invariant is kept |
| ReportSaves.Publish | src/lib/stores/reportLayouts.js:235-243 | only hydrated clients change and the invariant is kept |
| ReportSaves.Hydrate | src/lib/stores/reportLayouts.js:245-248 | the client joins the hydrated set and is marked to skip one save; nothing else changes; an empty id changes nothing |
| ReportSaves.Fire | src/lib/stores/reportLayouts.js:197-214 | the timer is dropped; nothing is sent exactly when the snapshot equals the last saved one; a sent snapshot is remembered only when the server answers ok |
| ReportSaves.ScheduleDebounces | src/lib/stores/reportLayouts.js:224-232 | scheduling twice leaves a single timer, holding the later report |
| ReportSaves.ScheduleView | src/lib/stores/reportLayouts.js:216-233 | the scheduled client's new state depends only on its own old state |
| ReportSaves.PublishToClient | src/lib/stores/reportLayouts.js:237-241 | in one run a hydrated client is scheduled exactly once, with its own report |
| ReportSaves.HydrateRecordsBaseline | src/lib/stores/reportLayouts.js:218-222 | hydrating and then publishing records the report as the baseline without arming a timer, and consumes the mark |
| ReportSaves.EchoNotSent | src/lib/stores/reportLayouts.js:197-201 | after hydration, a later notification with the same stable report arms a timer that sends nothing |
| ReportSaves.RehydrateKeepsPendingTimer | src/lib/stores/reportLayouts.js:218-222 | a timer armed before a second hydration survives it and fires with the earlier report |
| ReportStore.ToMapKeys | src/lib/stores/reportLayouts.js:168-179 | every key of the built object comes from an entry |
| ReportStore.ToMapStep | src/lib/stores/reportLayouts.js:178 | one more assignment `next[clientId] = meta` |
| ReportStore.ToMapLast | src/lib/stores/reportLayouts.js:169-178 | a key holds the value of its last entry |
| ReportStore.Loaded | src/lib/stores/reportLayouts.js:169-178 | each entry migrated with its own fresh ids |
| ReportStore.LoadAll | src/lib/stores/reportLayouts.js:168-180 | exactly the parsed client ids, each title at most 60 characters |
| ReportStore.LoadAllEntry | src/lib/stores/reportLayouts.js:169-178 | a client keeps the report migrated from its entry |
| ReportStore.LoadInitial | src/lib/stores/reportLayouts.js:157-181 | `{}` when nothing parses to an object; otherwise the loop computes `LoadAll` |
| ReportStore.ReportLayoutStore.constructor | src/lib/stores/reportLayouts.js:183-188 | the store starts from `loadInitial()` with nothing hydrated, marked, timed or remembered |
| ReportStore.ReportLayoutStore.ScheduleSave | src/lib/stores/reportLayouts.js:216-233 | the reports stay; the save state becomes `Schedule` of the old one |
| ReportStore.ReportLayoutStore.Notify | src/lib/stores/reportLayouts.js:235-243 | the subscriber loop computes `Publish` |
| ReportStore.ReportLayoutStore.Commit | src/lib/stores/reportLayouts.js:236-241 | `update` sets the value and then runs the subscriber |
| ReportStore.ReportLayoutStore.FireSaveTimer | src/lib/stores/reportLayouts.js:228-231 | the timer callback computes `Fire`, the reports unchanged |
| ReportStore.ReportLayoutStore.HydrateReportLayout | src/lib/stores/reportLayouts.js:245-256 | an empty id changes nothing; otherwise `HydrateReport` on the value and the save state hydrated then published |
| ReportStore.ReportLayoutStore.EnsureReport | src/lib/stores/reportLayouts.js:258-264 | the new value is `EnsureReport` of the old one, then published |
| ReportStore.ReportLayoutStore.SetReportTitle | src/lib/stores/reportLayouts.js:266-275 | the new value is `SetReportTitle` of the old one, then published |
| ReportStore.ReportLayoutStore.AddReportItem | src/lib/stores/reportLayouts.js:277-294 | without a client or a truthy spec nothing happens; otherwise `AddReportItem`, then published |
| ReportStore.ReportLayoutStore.AddReportItemAt | src/lib/stores/reportLayouts.js:296-310 | as above with `AddReportItemAt` |
| ReportStore.ReportLayoutStore.RemoveReportItem | src/lib/stores/reportLayouts.js:312-319 | as above with `RemoveReportItem` |
| ReportStore.ReportLayoutStore.ReorderReportItems | src/lib/stores/reportLayouts.js:321-335 | the early return changes nothing; otherwise `ReorderReportItems`, published even when an id is unknown |
| ReportStore.ReportLayoutStore.SetReportItemSpan | src/lib/stores/reportLayouts.js:337-348 | as above with `SetReportItemSpan` |
| ReportStore.ReportLayoutStore.SetReportItemSpec | src/lib/stores/reportLayouts.js:350-357 | as above with `SetReportItemSpec` |
| ReportStore.ReportLayoutStore.PlaceReportItem | src/lib/stores/reportLayouts.js:359-376 | as above with `PlaceReportItem`, published even when the id is unknown |
| UtcCalendar.YearDays | src/lib/analytics/date.js:8 | a year has 366 days exactly when it is a Gregorian leap year, else 365 |
| UtcCalendar.DaysInMonth | src/lib/analytics/date.js:60-63 | 28 to 31 days, 29 exactly for February of a leap year |
| UtcCalendar.YearStartStep | src/lib/analytics/date.js:8 | consecutive years start one year-length apart |
| UtcCalendar.YearStartMono | src/lib/analytics/date.js:8 | later years start later |
| UtcCalendar.MonthStart | src/lib/analytics/date.js:8 | the day offset of a month within its year; month 13 is the year's end |
| UtcCalendar.MonthStartNext | src/lib/analytics/date.js:8 | consecutive months start one month-length apart |
| UtcCalendar.MonthStartMono | src/lib/analytics/date.js:8 | later months start later |
| UtcCalendar.YearUp | src/lib/analytics/date.js:23 | searching up finds the year that holds a day |
| UtcCalendar.YearDown | src/lib/analytics/date.js:23 | searching down finds the year that holds a day |
| UtcCalendar.YearOf | src/lib/analytics/date.js:23 | `getUTCFullYear`: the year whose days include the given day |
| UtcCalendar.YearUnique | src/lib/analytics/date.js:23 | that year is unique |
| UtcCalendar.MonthFrom | src/lib/analytics/date.js:24 | the month scan finds the month holding a day of the year |
| UtcCalendar.MonthOf | src/lib/analytics/date.js:24 | `getUTCMonth() + 1`: the month whose days include the given day of the year |
| UtcCalendar.MonthUnique | src/lib/analytics/date.js:24 | that month is unique |
| UtcCalendar.CivilOf | src/lib/analytics/date.js:23-25 | the calendar date of a day number is a valid date that maps back to the same day |
| UtcCalendar.CivilRoundTrip | src/lib/analytics/date.js:8 | a valid calendar date converted to a day and back is itself |
| UtcCalendar.CivilOfParts | src/lib/analytics/date.js:23-25 | the date of a day is its year, month and day-of-month computed from the offsets |
| UtcCalendar.YearOfMono | src/lib/analytics/date.js:23 | later days fall in the same or later years |
| UtcCalendar.YearOfFrom | src/lib/analytics/date.js:23 | a day at or after a year's start is in that year or later |
| UtcCalendar.MakeYear | src/lib/analytics/date.js:8 | `Date.UTC` takes a year outside 0..99 as it is (0..99 mean 1900..1999) |
| UtcCalendar.MakeDayIs | src/lib/analytics/date.js:8 | `Date.UTC(y, m, d)` with an in-range month is the day of that calendar date, with day overflow carried |
| UtcCalendar.MakeDay | src/lib/analytics/date.js:8 | `Date.UTC(y, monthIndex, day)` as a day number, the year read through `MakeYear`; `UtcCalendar.MakeDayIs` ties it to the calendar date |
| UtcCalendar.MonthLength | src/lib/analytics/date.js:62 | the length of a month whose index may lie outside 1..12, rolled over into adjacent years |
| UtcCalendar.DayZeroLength | src/lib/analytics/date.js:60-63 | day 0 of the next month is the last day of the month |
| Dates.NumberOfDigits | src/lib/analytics/date.js:7 | `Number` of a digit string is its decimal value |
| Dates.NumberOf | src/lib/analytics/date.js:7 | `Number` of a piece: blank text reads as 0 and trimmed decimal digits as their value (`Dates.NumberOfDigits`); any other text is NaN, signed text included (see Left out) |
| Dates.ParseIsoParts | src/lib/analytics/date.js:14-17 | the first three `-`-separated pieces as numbers, a missing or non-numeric one NaN to arithmetic; `DatesProperties.ParseFormat` reads a printed date back into its parts |
| Dates.ParseIsoDateUtc | src/lib/analytics/date.js:6-9 | the day of `Date.UTC` of the pieces, an Invalid Date exactly when one of them is missing or NaN (`Dates.Utc`) |
| Dates.ToIsoDateUtc | src/lib/analytics/date.js:22-27 | prints the calendar date of a day, and an Invalid Date as "NaN-NaN-NaN"; `DatesProperties.IsoRoundTrip` states the round trip |
| Dates.FormatIso | src/lib/analytics/date.js:24-26 | the `${y}-${pad(m)}-${pad(d)}` template; `DatesProperties.ParseFormat` splits it back into the numbers it printed |
| Dates.MonthText | src/lib/analytics/date.js:69-70 | `String(m)` of the destructured month: its number or NaN when the piece is there, "undefined" when it is not (`DatesProperties.YearOnlyMonths`) |
| Dates.AddDays | src/lib/analytics/date.js:34-37 | prints the parsed date moved by `days`; `DatesProperties.AddDaysInvalid` gives "NaN-NaN-NaN" for an unparsable date or a NaN count, and `DatesProperties.AddDaysIs` the shifted date otherwise |
| Dates.ShiftMonths | src/lib/analytics/date.js:46-52 | the year and month are NaN exactly when the year, the month or the count is; the day is NaN exactly when it was or they are; a kept day is at most the old day and at most 31 |
| Dates.AddMonths | src/lib/analytics/date.js:45-54 | prints the parts `ShiftMonths` computes; `DatesProperties.AddMonthsLands` and `DatesProperties.AddMonthsInvalid` give the landing and the NaN case |
| Dates.StartOfMonth | src/lib/analytics/date.js:68-71 | the year and month as destructured, then "01"; `DatesProperties.MonthBoundaries` and `DatesProperties.YearOnlyMonths` state the outcomes |
| Dates.EndOfMonth | src/lib/analytics/date.js:76-80 | the year and month as destructured, then the month's last day; same lemmas as `StartOfMonth` |
| Dates.SubYear | src/lib/analytics/date.js:137-148 | prints `SubYearDay` of the parsed date; `DatesProperties.SubYearLands` and `DatesProperties.SubYearInvalid` state the outcomes |
| Dates.Utc | src/lib/analytics/date.js:8 | `Date.UTC` gives a time exactly when every part is a number |
| Dates.ShiftDays | src/lib/analytics/date.js:36 | adding days gives a time exactly when both operands are numbers |
| Dates.JsRem | src/lib/analytics/date.js:50 | JavaScript `%`: truncating toward zero, so it agrees with `%` on non-negative operands and lies strictly between -12 and 12 |
| Dates.LastDayOfMonth | src/lib/analytics/date.js:60-63 | 28 to 31 for numeric arguments; for months 1..12 the month length of the `Date.UTC` year, 29 exactly for a leap February |
| Dates.LastDayOfMonthDate | src/lib/analytics/date.js:60-63 | the result is the day-of-month of day 0 of the next month |
| Dates.MonthsInclusive | src/lib/analytics/date.js:87-93 | defined exactly when both years and months parse; then end index minus start index plus 1; 1 within one month |
| Dates.DaysInclusive | src/lib/analytics/date.js:100-104 | defined exactly when both dates parse; then the day difference plus 1 |
| Dates.WalkNext | src/lib/analytics/date.js:113-116 | one yielded cursor, then the walk from the next one |
| Dates.WalkEnd | src/lib/analytics/date.js:113 | the walk stops once the test fails |
| Dates.RunWalk | src/lib/analytics/date.js:111-131 | the while loop yields exactly the cursors of `Walk` |
| Dates.IterateBuckets | src/lib/analytics/date.js:111-117 | the cursors from `startIso`, `stepDays` apart, while they are not after `endIso` |
| Dates.IterateMonthBuckets | src/lib/analytics/date.js:124-131 | the month starts from the start's month while not after the end's month start |
| DatesProperties.DigitsNoDash | src/lib/analytics/date.js:7 | a digit string has no dash to split at |
| DatesProperties.ParseFormat | src/lib/analytics/date.js:14-17 | splitting a printed date gives its parts back |
| DatesProperties.ReadCivil | src/lib/analytics/date.js:6-17 | a printed valid date with a year of at least 100 parses to its parts and its day |
| DatesProperties.PrintCivil | src/lib/analytics/date.js:22-27 | `toIsoDateUtc` of a date's day prints that date |
| DatesProperties.IsoRoundTrip | src/lib/analytics/date.js:6-27 | print and parse are inverse on valid dates with a year of at least 100; four-digit years print as 10 characters |
| DatesProperties.DayRoundTrip | src/lib/analytics/date.js:6-27 | parsing the printed form of a day gives the day back |
| DatesProperties.ShiftParsed | src/lib/analytics/date.js:35-36 | shifting a parsed date adds the days |
| DatesProperties.AddDaysIs | src/lib/analytics/date.js:34-37 | `addDays` prints the shifted day |
| DatesProperties.AddDaysInvalid | src/lib/analytics/date.js:34-37 | an unparsable date or a non-number of days gives "NaN-NaN-NaN" |
| DatesProperties.AddDaysMoves | src/lib/analytics/date.js:34-37 | the result of `addDays` parses to the shifted day |
| DatesProperties.AddDaysCompose | src/lib/analytics/date.js:34-37 | adding a days then b days is adding a + b days |
| DatesProperties.DaysInclusiveIs | src/lib/analytics/date.js:100-104 | the count of two parsed dates is their difference plus 1 |
| DatesProperties.DaysInclusiveAddDays | src/lib/analytics/date.js:100-104 | from a date to `addDays(date, k)` is k + 1 days |
| DatesProperties.LandingIs | src/lib/analytics/date.js:45-54 | the month index advances by `months` and the day is kept, or clamped to the last day of the target month |
| DatesProperties.ShiftMonthsLands | src/lib/analytics/date.js:46-52 | `addMonths` on parsed parts gives that landing |
| DatesProperties.MonthIndexParts | src/lib/analytics/date.js:49-51 | for a non-negative index JavaScript `%` agrees with the Euclidean one |
| DatesProperties.AddMonthsLands | src/lib/analytics/date.js:45-54 | `addMonths` prints the landing, which parses back when the year is at least 100 |
| DatesProperties.AddMonthsInvalid | src/lib/analytics/date.js:45-54 | a missing year or month, or a non-number of months, gives "NaN-NaN-NaN" |
| DatesProperties.MonthBoundaries | src/lib/analytics/date.js:68-80 | `startOfMonth` prints the month's day 1 and `endOfMonth` its last day, and both parse back |
| DatesProperties.YearOnlyMonths | src/lib/analytics/date.js:68-80 | for text without `-`, `startOfMonth` prints the year, then "-undefined-01", and `endOfMonth` the year, then "-undefined-NaN" |
| DatesProperties.YearOnlyExample | src/lib/analytics/date.js:68-80 | `startOfMonth("2024")` is "2024-undefined-01" and `endOfMonth("2024")` is "2024-undefined-NaN" |
| DatesProperties.PrevYearDayIs | src/lib/analytics/date.js:137-147 | the year-earlier date is valid, February 29 falling to February 28 |
| DatesProperties.LeapDayBack | src/lib/analytics/date.js:142-146 | 29 February after a common year: `Date.UTC` lands in March, so the 28th is taken |
| DatesProperties.SameDayBack | src/lib/analytics/date.js:142-147 | any other valid date exists a year earlier and `Date.UTC` gives it |
| DatesProperties.SubYearLands | src/lib/analytics/date.js:137-148 | `subYear` prints the same month and day a year earlier, or February 28 for February 29 |
| DatesProperties.SubYearInvalid | src/lib/analytics/date.js:137-148 | an unparsable date gives "NaN-NaN-NaN" |
| DatesProperties.WalkImages | src/lib/analytics/date.js:111-131 | a walk whose test and step follow a day sequence yields the images of that sequence |
| DatesProperties.CursorTest | src/lib/analytics/date.js:113 | the loop test on a parsed cursor is a comparison of days |
| DatesProperties.CursorStep | src/lib/analytics/date.js:115 | the loop step on a parsed cursor prints the shifted day |
| DatesProperties.PrintedDayTest | src/lib/analytics/date.js:113 | the loop test on a printed day compares days |
| DatesProperties.PrintedDayNext | src/lib/analytics/date.js:115 | the loop step on a printed day prints the shifted day |
| DatesProperties.PrintedWalk | src/lib/analytics/date.js:111-117 | the buckets from a printed day are the printed days of the arithmetic sequence |
| DatesProperties.BucketsFirst | src/lib/analytics/date.js:113-115 | the first bucket is the start, the rest start one step later |
| DatesProperties.BucketsWalk | src/lib/analytics/date.js:111-117 | the buckets from a parsed start are the start, then printed days one step apart |
| DatesProperties.DaySeqSpan | src/lib/analytics/date.js:111-117 | the k-th bucket is start + k * step, none after the end, and the sequence stops only past the end or at the bound |
| DatesProperties.DaySeqDaily | src/lib/analytics/date.js:111-117 | with step 1 there are end - start + 1 buckets, up to the bound |
| DatesProperties.DailyCount | src/lib/analytics/date.js:111-117 | counting the first bucket and the rest gives end - start + 1 |
| DatesProperties.DailyBucketsCount | src/lib/analytics/date.js:100-117 | daily buckets number exactly `daysInclusive(start, end)` |
| DatesProperties.Next | src/lib/analytics/date.js:129 | the next month has the next month index |
| DatesProperties.FirstDayNext | src/lib/analytics/date.js:129 | the next month starts one month-length later |
| DatesProperties.IndexUnique | src/lib/analytics/date.js:87-93 | a month is fixed by its index |
| DatesProperties.FirstDayMono | src/lib/analytics/date.js:127 | a later month index starts on a later day |
| DatesProperties.IndexOrder | src/lib/analytics/date.js:127 | comparing month starts by time is comparing month indices |
| DatesProperties.LandingNext | src/lib/analytics/date.js:129 | one month on from day 1 is day 1 of the next month |
| DatesProperties.MonthStepNext | src/lib/analytics/date.js:129 | the month loop step moves to the next month's first day |
| DatesProperties.PrintedMonthTest | src/lib/analytics/date.js:127 | the month loop test compares month indices |
| DatesProperties.MonthBucketsNext | src/lib/analytics/date.js:127-129 | one month start yielded, then the walk from the next month |
| DatesProperties.MonthBucketsEnd | src/lib/analytics/date.js:127 | the month walk stops after the end month |
| DatesProperties.MonthBucketsWalk | src/lib/analytics/date.js:124-131 | the walk yields the first days of consecutive months |
| DatesProperties.After | src/lib/analytics/date.js:129 | k months later has index + k |
| DatesProperties.AfterNext | src/lib/analytics/date.js:129 | k months after the next month is k + 1 months after |
| DatesProperties.MonthSeqSpan | src/lib/analytics/date.js:124-131 | the k-th month is k months after the start, none after the end, end - start + 1 of them up to the bound |
| DatesProperties.MonthBucketsSpan | src/lib/analytics/date.js:124-131 | `iterateMonthBuckets` yields the first days of every month from the start's month to the end's |
| DatesProperties.MonthBucketsCount | src/lib/analytics/date.js:87-131 | the month buckets number exactly `monthsInclusive(start, end)` |
| Comparison.Neg | src/lib/analytics/comparison.js:34 | unary minus of a number, NaN staying NaN |
| Comparison.ComputeCompareRange | src/lib/analytics/comparison.js:16-43 | a range exactly when start and end are non-empty and the mode is 'mom' or 'yoy'; 'mom' gives the month-over-month range and 'yoy' both ends a year earlier |
| Comparison.MomRange | src/lib/analytics/comparison.js:20-35 | the month branch for a month-aligned range, the day branch otherwise; `Comparison.MomIsMonths` and `Comparison.MomIsDays` state each |
| Comparison.EmptyInvalid | src/lib/analytics/comparison.js:17 | the empty string is not a date, so the guard loses nothing |
| Comparison.ParsedNonEmpty | src/lib/analytics/comparison.js:17 | a range whose ends parse passes the guard |
| Comparison.DaysBack | src/lib/analytics/comparison.js:32-34 | `-(len - 1)` is the day difference negated |
| Comparison.DayBeforeThenBack | src/lib/analytics/comparison.js:33-34 | the day-shifted compare end and start print those days |
| Comparison.MomDaysParts | src/lib/analytics/comparison.js:32-35 | the unaligned month-over-month range ends the day before the start and spans as many days |
| Comparison.MomIsDays | src/lib/analytics/comparison.js:20-35 | a range that is not month aligned takes the day-shifted branch |
| Comparison.PrintedRead | src/lib/analytics/comparison.js:33-34 | the printed compare ends parse back to their days |
| Comparison.PrintedSpan | src/lib/analytics/comparison.js:32-35 | the printed compare range spans e - s + 1 days |
| Comparison.SpanOf | src/lib/analytics/comparison.js:32 | two parsed dates span their difference plus 1 days |
| Comparison.MomDaysLands | src/lib/analytics/comparison.js:32-35 | for an unaligned range of L days the result is the L days ending the day before the start |
| Comparison.MonthBeforeEnds | src/lib/analytics/comparison.js:27 | the month before ends the day before the month starts |
| Comparison.LandingsValid | src/lib/analytics/comparison.js:27-28 | both month landings are valid first days, the right number of months back |
| Comparison.MomIsMonths | src/lib/analytics/comparison.js:22-30 | a month-aligned range takes the month branch |
| Comparison.AlignedStart | src/lib/analytics/comparison.js:23 | a start equal to its own month start is day 1 |
| Comparison.MonthsBackStart | src/lib/analytics/comparison.js:28 | the compare start is day 1 of the month `months` before |
| Comparison.MonthBackEnd | src/lib/analytics/comparison.js:27 | the compare end is the last day of the previous month |
| Comparison.MomMonthsParts | src/lib/analytics/comparison.js:26-29 | the month branch's compare start and end |
| Comparison.MonthsOf | src/lib/analytics/comparison.js:26 | the month count of two parsed dates |
| Comparison.MomMonthsLands | src/lib/analytics/comparison.js:22-30 | an aligned range of k months compares with the k whole months before it |
| Comparison.MonthsBefore | src/lib/analytics/comparison.js:26-29 | the aligned compare range covers exactly as many months as the range |
| Comparison.MonthBeforeLast | src/lib/analytics/comparison.js:27 | the aligned compare range ends the day before the range starts |
| Comparison.YoyLands | src/lib/analytics/comparison.js:38-40 | 'yoy' gives the same month and day a year earlier at both ends |
| Comparison.ComputeDelta | src/lib/analytics/comparison.js:49-53 | `deltaAbs` is current minus compare; `deltaPct` is null exactly when compare is 0, and otherwise `deltaAbs / compare` |
| MetricIds.AliasesKnown | src/lib/analytics/normalize.js:3-14 | every alias names a metric of `METRIC_META`, so the check after an alias hit never fails |
| MetricIds.DropSeparators | src/lib/analytics/normalize.js:28 | what follows a run of white space and hyphens, with none left at its head |
| MetricIds.Underscored | src/lib/analytics/normalize.js:28 | `replace(/[\s-]+/g, '_')`: no white space or hyphen is left, and the result is never longer |
| MetricIds.UnderscoredNoSeparator | src/lib/analytics/normalize.js:28 | a string with no separator is left as it is |
| MetricIds.UpperChar | src/lib/analytics/normalize.js:32 | `toUpperCase` of a lower-case ASCII letter is the upper-case letter whose lower case it is; digits stay |
| MetricIds.Camel | src/lib/analytics/normalize.js:32 | `replace(/_([a-z0-9])/g, ...)` never lengthens the key |
| MetricIds.CamelUndoesSnakeCase | src/lib/analytics/normalize.js:32 | camel-casing the snake-case spelling of an identifier with no `_` gives it back |
| MetricIds.SnakeCaseChars | src/lib/analytics/normalize.js:28-32 | the snake-case spelling consists of lower-case letters, digits and `_` |
| MetricIds.SnakeCaseIsKey | src/lib/analytics/normalize.js:24-28 | the snake-case spelling of a camel identifier survives trimming and the lookup-key rewrite |
| MetricIds.CamelNoUnderscore | src/lib/analytics/normalize.js:32 | a key with no `_` is its own camel form |
| MetricIds.NormalizeMetricId | src/lib/analytics/normalize.js:23-36 | empty after trimming gives ""; a metric id is kept; else the alias of the lookup key; else its camel form when that is a metric; else the trimmed input |
| MetricIds.NormalizedKnownOrTrimmed | src/lib/analytics/normalize.js:23-36 | the result is a metric id or the trimmed input |
| MetricIds.NormalizeIdempotent | src/lib/analytics/normalize.js:23-36 | normalising twice is normalising once |
| MetricIds.KeysTrimmed | src/lib/analytics/constants.js:39 | every metric id is non-empty and trimmed |
| MetricIds.SnakeSpellingNormalizes | src/lib/analytics/normalize.js:28-33 | the snake-case spelling of a metric id normalises to that id |
| MetricIds.NormalizeMetricIdAsWritten | src/lib/analytics/normalize.js:23-36 | as written, with `METRIC_META[...]` seeing inherited object keys: the result is a metric id, an inherited key or the trimmed input |
| MetricIds.CamelJoin | src/lib/analytics/normalize.js:32 | an `_` followed by a letter or digit becomes that character upper-cased |
| MetricIds.SnakeWordKey | src/lib/analytics/normalize.js:24-28 | a snake word survives trimming and the key rewrite |
| MetricIds.ValueOfKey | src/lib/analytics/normalize.js:24-28 | "value_of" is its own lookup key |
| MetricIds.ValueOfCamel | src/lib/analytics/normalize.js:32 | "value_of" camel-cases to "valueOf" |
| MetricIds.InheritedSpellingAccepted | src/lib/analytics/normalize.js:32-33 | a spelling whose camel form is an inherited key is turned into it as written, and left alone by the corrected lookup |
| MetricIds.ValueOfUnknown | src/lib/analytics/normalize.js:26-30 | "value_of" is neither a key of `METRIC_META` nor an alias |
| MetricIds.ValueOfInherited | src/lib/analytics/normalize.js:33 | "valueOf" is an inherited key, not a metric |
| MetricIds.InheritedNameAccepted | src/lib/analytics/normalize.js:32-33 | as written "value_of" becomes "valueOf", a name that is no metric; the corrected lookup leaves "value_of" as it is |
| MetricIds.AsWrittenAgrees | src/lib/analytics/normalize.js:23-36 | the own-key normaliser and the source's agree unless the trimmed input or its camel-cased key is a name inherited from `Object.prototype` |
| SeededRandom.ToUint32 | src/lib/analytics/seededRandom.js:10 | `>>> 0`: the value in [0, 2^32) congruent to x modulo 2^32 |
| SeededRandom.ToInt32 | src/lib/analytics/seededRandom.js:20-21 | the signed 32-bit wrap: the value in [-2^31, 2^31) congruent to x modulo 2^32 |
| SeededRandom.ToInt32Absorbs | src/lib/analytics/seededRandom.js:20-21 | an inner wrap before adding does not change the wrapped sum |
| SeededRandom.Imul | src/lib/analytics/seededRandom.js:8 | `Math.imul`: the low 32 bits of the product; multiplying by 1 changes nothing |
| SeededRandom.FnvFrom | src/lib/analytics/seededRandom.js:6-9 | folding no code units leaves the hash as it is |
| SeededRandom.Fnv | src/lib/analytics/seededRandom.js:4-11 | the hash of the empty string is the offset basis 2166136261 |
| SeededRandom.FnvFromAppend | src/lib/analytics/seededRandom.js:6-9 | hashing a + b is hashing b from the hash of a |
| SeededRandom.FnvSnoc | src/lib/analytics/seededRandom.js:7-8 | one more code unit is one more FNV-1a step |
| SeededRandom.FnvPrefixStep | src/lib/analytics/seededRandom.js:6-9 | loop step i extends the hash of the first i code units by one |
| SeededRandom.FnvVectors | src/lib/analytics/seededRandom.js:4-11 | the published 32-bit FNV-1a values: "a" hashes to 0xe40c292c and "foobar" to 0xbf9cf968 |
| SeededRandom.HashStringToUint32 | src/lib/analytics/seededRandom.js:4-11 | the loop computes the FNV-1a hash of the code units |
| SeededRandom.Ratio | src/lib/analytics/seededRandom.js:24 | division by 2^32 gives a value in [0, 1) that times 2^32 is the integer back |
| SeededRandom.Draw | src/lib/analytics/seededRandom.js:22-24 | the mixed output lies in [0, 1) |
| SeededRandom.StateAfter | src/lib/analytics/seededRandom.js:20-21 | after n calls the state is seed + n * 0x6d2b79f5 modulo 2^32, as a signed 32-bit value |
| SeededRandom.StateAfterStep | src/lib/analytics/seededRandom.js:20-21 | one more call adds the increment once more |
| SeededRandom.DrawAt | src/lib/analytics/seededRandom.js:19-25 | the n-th value drawn lies in [0, 1) |
| SeededRandom.DrawAtSeedModulo | src/lib/analytics/seededRandom.js:18 | seeds equal modulo 2^32 draw the same values |
| SeededRandom.ShiftModulo | src/lib/analytics/seededRandom.js:21 | adding to congruent values keeps them congruent |
| SeededRandom.Mulberry32.constructor | src/lib/analytics/seededRandom.js:17-18 | the generator starts with state `seed >>> 0` and no draws |
| SeededRandom.Mulberry32.Next | src/lib/analytics/seededRandom.js:19-25 | each call advances the state by the increment and returns the n-th draw of the seed, in [0, 1) |
| SeededRandom.NewSeededRandom | src/lib/analytics/seededRandom.js:31-33 | a fresh generator seeded with the FNV-1a hash of the key |
| CustomGraphs.Migrate | src/lib/stores/customAnalysisGraphs.js:21-26 | a graph with truthy id and spec is kept as it is; any other object gets the fresh id and itself as spec, and is then current |
| CustomGraphs.ObjectsOf | src/lib/stores/customAnalysisGraphs.js:26-28 | exactly the object entries of the array |
| CustomGraphs.NormalizeClientGraphs | src/lib/stores/customAnalysisGraphs.js:18-29 | `[]` for a value that is not an array; otherwise the k-th object migrated with the k-th fresh id |
| CustomGraphs.ToEntries | src/lib/stores/customAnalysisGraphs.js:55-57 | the stored form of a list of graphs |
| CustomGraphs.ObjectsOfEntries | src/lib/stores/customAnalysisGraphs.js:26-28 | stored graphs read back as themselves |
| CustomGraphs.NormalizedCurrent | src/lib/stores/customAnalysisGraphs.js:18-29 | with non-empty fresh ids every graph that comes out has an id and a spec |
| CustomGraphs.NormalizeKeepsCurrent | src/lib/stores/customAnalysisGraphs.js:23 | current graphs come back unchanged |
| CustomGraphs.NormalizeIdempotent | src/lib/stores/customAnalysisGraphs.js:52-57 | normalising the normalised shape that is persisted changes nothing, whatever ids would be drawn |
| CustomGraphs.Added | src/lib/stores/customAnalysisGraphs.js:64-71 | an empty client id changes nothing; otherwise the client's normalised graphs plus one with the first fresh id; other clients stay |
| CustomGraphs.AddAppendsOne | src/lib/stores/customAnalysisGraphs.js:64-71 | on current graphs, adding appends exactly one graph |
| CustomGraphs.WithoutId | src/lib/stores/customAnalysisGraphs.js:79 | exactly the graphs with another id |
| CustomGraphs.WithoutAbsentId | src/lib/stores/customAnalysisGraphs.js:79 | removing an absent id changes nothing |
| CustomGraphs.WithoutIdIdempotent | src/lib/stores/customAnalysisGraphs.js:79 | removing an id twice is removing it once |
| CustomGraphs.WithoutIndex | src/lib/stores/customAnalysisGraphs.js:80 | an index in range drops exactly that graph, shifting the rest; any other index changes nothing |
| CustomGraphs.Removed | src/lib/stores/customAnalysisGraphs.js:73-83 | an empty client id changes nothing; otherwise the client's list never grows and other clients stay |
| CustomGraphs.RemoveFromCurrent | src/lib/stores/customAnalysisGraphs.js:77-80 | a string removes every graph with that id; an index in range removes that position; a selector that is neither removes nothing |
| CustomGraphs.SelectFrom | src/lib/stores/customAnalysisGraphs.js:77-80 | removal keeps only graphs that were there |
| CustomGraphs.AddKeepsCurrent | src/lib/stores/customAnalysisGraphs.js:64-71 | adding keeps every stored graph current |
| CustomGraphs.RemoveKeepsCurrent | src/lib/stores/customAnalysisGraphs.js:73-83 | removing keeps every stored graph current |
| CustomGraphs.CustomGraphStore.constructor | src/lib/stores/customAnalysisGraphs.js:31-47 | the store holds every parsed client with its normalised graphs |
| CustomGraphs.CustomGraphStore.AddCustomGraph | src/lib/stores/customAnalysisGraphs.js:64-71 | the new store value is `Added` of the old one |
| CustomGraphs.CustomGraphStore.RemoveCustomGraph | src/lib/stores/customAnalysisGraphs.js:73-83 | the new store value is `Removed` of the old one |
| Chat.Cleaned | src/app_routes/api/ai/chat/+server.js:17-19 | every kept entry is trimmed and non-empty, and there are never more of them |
| Chat.CleanedMembers | src/app_routes/api/ai/chat/+server.js:17-19 | an entry is kept exactly when it is the non-empty trimmed form of some element |
| Chat.CleanedIdentity | src/app_routes/api/ai/chat/+server.js:17-19 | entries that are already clean pass unchanged |
| Chat.AsStringArray | src/app_routes/api/ai/chat/+server.js:15-21 | a value that is not an array gives `[]`; otherwise a prefix of the cleaned entries, at most `limit` of them, all of them when fewer |
| Chat.AsStringArrayClean | src/app_routes/api/ai/chat/+server.js:15-21 | a clean array within the limit comes back as it was |
| Chat.Joined | src/app_routes/api/ai/chat/+server.js:39 | the joined question is trimmed, non-empty and starts where the first part starts |
| Chat.MergedFrom | src/app_routes/api/ai/chat/+server.js:27-46 | the merge of the remaining entries has at most one question per entry |
| Chat.MergedClean | src/app_routes/api/ai/chat/+server.js:27-46 | every merged question is trimmed and non-empty |
| Chat.MergeWrappedClarifyQuestions | src/app_routes/api/ai/chat/+server.js:23-49 | the loop with its skip-ahead computes the merge of the whole list (`[]` when it is not an array) |
| Chat.PushEntry | src/app_routes/api/ai/chat/+server.js:31-45 | one non-empty entry yields one question and uses one entry, or two when an open option list continues in the next |
| Chat.MergedWithoutOpenLists | src/app_routes/api/ai/chat/+server.js:31-45 | without an unclosed option list nothing is merged: the result is the cleaned list |
| Chat.MergedStep | src/app_routes/api/ai/chat/+server.js:28-45 | an empty entry is skipped, an unclosed option list followed by its continuation is joined with it, any other entry is kept |
| Chat.ClarifyingQuestions | src/app_routes/api/ai/chat/+server.js:328-330 | the first two (or all, when fewer) of the merged, cleaned first four entries; each non-empty and trimmed |
| Chat.ClarifyingQuestionsClean | src/app_routes/api/ai/chat/+server.js:328-330 | clean questions without option lists come back unchanged, cut to two |
| Chat.Hits | src/app_routes/api/ai/chat/+server.js:56-71 | one match outcome per metric the code looks for |
| Chat.SelectUpTo | src/app_routes/api/ai/chat/+server.js:56-71 | the first k tests push at most k ids |
| Chat.Dedupe | src/app_routes/api/ai/chat/+server.js:73 | `Array.from(new Set(xs))`: the same members, without repeats, never longer |
| Chat.DedupeDistinct | src/app_routes/api/ai/chat/+server.js:73 | a sequence without repeats passes unchanged |
| Chat.HitsAt | src/app_routes/api/ai/chat/+server.js:56-71 | each of the nine tests checks exactly the phrases the source checks |
| Chat.MentionIdsAt | src/app_routes/api/ai/chat/+server.js:61-71 | the nine ids pushed, in the source's order |
| Chat.NormalizeMetricMention | src/app_routes/api/ai/chat/+server.js:51-74 | the method computes `Mentioned(text)` |
| Chat.PushPurchaseAndSessionMentions | src/app_routes/api/ai/chat/+server.js:56-65 | the first three tests push the ids of those that pass |
| Chat.PushSearchMentions | src/app_routes/api/ai/chat/+server.js:66-68 | the next three tests extend that |
| Chat.PushOutcomeMentions | src/app_routes/api/ai/chat/+server.js:69-71 | the last three tests complete it |
| Chat.SelectedWitness | src/app_routes/api/ai/chat/+server.js:56-71 | a pushed id comes from a passed test |
| Chat.SelectedAt | src/app_routes/api/ai/chat/+server.js:56-71 | a passed test pushes its id |
| Chat.SelectPrefix | src/app_routes/api/ai/chat/+server.js:56-71 | earlier tests' ids are a prefix of what later tests give |
| Chat.SelectedInOrder | src/app_routes/api/ai/chat/+server.js:56-71 | the pushed ids keep the test order |
| Chat.SelectedDistinct | src/app_routes/api/ai/chat/+server.js:56-73 | distinct candidate ids give distinct pushed ids |
| Chat.MentionIdsKnown | src/app_routes/api/ai/chat/+server.js:61-71 | the candidate ids are nine distinct metric ids |
| Chat.MentionedDistinct | src/app_routes/api/ai/chat/+server.js:51-74 | the result is the ids of the passed tests, in test order, distinct, all metric ids |
| Chat.MentionedIff | src/app_routes/api/ai/chat/+server.js:51-74 | a metric is mentioned exactly when its test passes on the lowercased text |
| Chat.Mentioned | src/app_routes/api/ai/chat/+server.js:51-74 | the distinct ids whose tests pass on the lowercased text, in table order (`Chat.MentionedDistinct`, `Chat.MentionedIff`) |
| Chat.SessionsInEngagedSessions | src/app_routes/api/ai/chat/+server.js:63-65 | "sessions" occurs inside "engaged sessions" |
| Chat.EngagedSessionsMentionsBoth | src/app_routes/api/ai/chat/+server.js:63-65 | a text mentioning engaged sessions mentions both engagedSessions and sessions |
| Chat.SplitRequestAppend | src/app_routes/api/ai/chat/+server.js:76-79 | a split request stays one whatever text is added on either side |
| Chat.IsSplitRequest | src/app_routes/api/ai/chat/+server.js:76-79 | the lowercased text holds " vs ", "versus" or "split"; `Chat.SplitRequestAppend` and `Chat.SplitRequestUpperCase` state its behaviour |
| Chat.SplitRequestUpperCase | src/app_routes/api/ai/chat/+server.js:77-78 | the test is case-insensitive: "SPLIT" is a split request |
| GraphSpecs.Prop | src/app_routes/api/ai/chat/+server.js:244 | a property the reply does not have reads as `undefined` |
| GraphSpecs.FromProps | src/app_routes/api/ai/chat/+server.js:244 | the spec's fields are the reply object's properties |
| GraphSpecs.RangeValue | src/app_routes/api/ai/chat/+server.js:252 | `{ start, end }` is a truthy object with those two fields |
| GraphSpecs.StrArray | src/app_routes/api/ai/chat/+server.js:278-282 | an array of strings, element by element |
| GraphSpecs.GraphSpec.constructor | src/app_routes/api/ai/chat/+server.js:244 | the mutable spec object starts with the given fields |
| ChatGraphSpec.LastUserTextEmpty | src/app_routes/api/ai/chat/+server.js:97-100 | the last user text is empty exactly when no message is a user turn with content |
| ChatGraphSpec.LastUserText | src/app_routes/api/ai/chat/+server.js:97-100 | the content of the last user turn; `LastUserTextEmpty` and `LastUserTextFound` state both directions |
| ChatGraphSpec.LastUserTextFound | src/app_routes/api/ai/chat/+server.js:97-100 | otherwise it is the content of the last such message, and no later message is a user turn |
| ChatGraphSpec.WordFromAt | src/app_routes/api/ai/chat/+server.js:269-271 | the word search from k finds the word exactly when some position j at or after k holds it with word boundaries |
| ChatGraphSpec.WordExamples | src/app_routes/api/ai/chat/+server.js:269 | `/\bpie\b/i` matches "Pie" but not "pies" |
| ChatGraphSpec.FilterText | src/app_routes/api/ai/chat/+server.js:247-248 | a filter's text is trimmed |
| ChatGraphSpec.EntryTexts | src/app_routes/api/ai/chat/+server.js:279 | one text per element, the empty string for a falsy one |
| ChatGraphSpec.NormalizedIds | src/app_routes/api/ai/chat/+server.js:281 | each entry through `normalizeMetricId` |
| ChatGraphSpec.Prefix | src/app_routes/api/ai/chat/+server.js:282 | `slice(0, n)`: a prefix of at most n elements, all of them when there are fewer |
| ChatGraphSpec.WithVersion | src/app_routes/api/ai/chat/+server.js:322 | the version becomes truthy; a truthy version and every other field stay |
| ChatGraphSpec.FillFromFilters | src/app_routes/api/ai/chat/+server.js:246-258 | the in-place fill of range, compare mode, granularity and limit computes `Filled` |
| ChatGraphSpec.FillRange | src/app_routes/api/ai/chat/+server.js:250-254 | the range steps change the range alone |
| ChatGraphSpec.RangeFilled | src/app_routes/api/ai/chat/+server.js:246-254 | a non-object range becomes `null`, and with both filter dates set a missing or half range becomes the filters' (`ChatGraphSpec.FixedRange`) |
| ChatGraphSpec.Filled | src/app_routes/api/ai/chat/+server.js:246-265 | the spec after the fill steps, whose outcomes `ChatGraphSpec.FixedRange`, `FixedDefaults`, `FixedLimit` and `FixedDimension` state |
| ChatGraphSpec.MetricsNormalized | src/app_routes/api/ai/chat/+server.js:273-287 | the metric list of a series chart normalised and cut to four, other kinds' list `null`, a truthy metric normalised (`ChatGraphSpec.PreparedMetrics`, `SpecMetricIdsShape`) |
| ChatGraphSpec.Prepared | src/app_routes/api/ai/chat/+server.js:244-287 | the spec before the split correction; `ChatGraphSpec.PreparedKeeps` states that kind, chart type, title and version stay |
| ChatGraphSpec.Rewritten | src/app_routes/api/ai/chat/+server.js:290-321 | the replacement spec of a split request; `ChatGraphSpec.SplitToLine` and `ChatGraphSpec.SplitToPie` state both cases |
| ChatGraphSpec.Corrected | src/app_routes/api/ai/chat/+server.js:289-321 | the spec unchanged unless the split correction applies, else `Rewritten` (`ChatGraphSpec.FixedKind`) |
| ChatGraphSpec.FixedSpec | src/app_routes/api/ai/chat/+server.js:244-323 | the repaired spec, whose properties the `Fixed...` lemmas below state |
| ChatGraphSpec.NormalizeSpecMetrics | src/app_routes/api/ai/chat/+server.js:274-287 | the in-place metric steps compute `MetricsNormalized` |
| ChatGraphSpec.FixUpGraphSpec | src/app_routes/api/ai/chat/+server.js:244-323 | the whole repair, in place or as a new object, computes `FixedSpec` |
| ChatGraphSpec.ChartWishes | src/app_routes/api/ai/chat/+server.js:267-271 | `wantsPie` and `wantsLine` as the source computes them |
| ChatGraphSpec.CorrectSplit | src/app_routes/api/ai/chat/+server.js:289-321 | the split correction computes `Corrected` |
| ChatGraphSpec.PreparedKeeps | src/app_routes/api/ai/chat/+server.js:245-287 | the fill and normalise steps keep kind, chart type, title and version |
| ChatGraphSpec.FixedUncorrected | src/app_routes/api/ai/chat/+server.js:291-322 | without the split correction the result is the prepared spec with its version filled |
| ChatGraphSpec.FixedKind | src/app_routes/api/ai/chat/+server.js:291-321 | the kind changes only for a breakdown asked as a split naming at least two metrics, and then to a multi-series line or a pie split |
| ChatGraphSpec.FixedDimension | src/app_routes/api/ai/chat/+server.js:260-265 | a breakdown has a valid dimension, its own when valid; any other kind has none |
| ChatGraphSpec.NormalizedEntry | src/app_routes/api/ai/chat/+server.js:279-281 | a clean entry normalises to a metric id or to itself, never to "" |
| ChatGraphSpec.SpecMetricIdsShape | src/app_routes/api/ai/chat/+server.js:276-282 | at most four non-empty ids, each a metric id or trimmed |
| ChatGraphSpec.PreparedMetrics | src/app_routes/api/ai/chat/+server.js:274-285 | series kinds carry the normalised metric list, other kinds `null` |
| ChatGraphSpec.FixedKindAndMetrics | src/app_routes/api/ai/chat/+server.js:276-321 | a corrected spec is a series kind with the first four mentioned metrics; otherwise kind and metrics are the prepared ones |
| ChatGraphSpec.StrArrayMetricList | src/app_routes/api/ai/chat/+server.js:131 | up to four non-empty strings form a valid metric list |
| ChatGraphSpec.MentionedMetricList | src/app_routes/api/ai/chat/+server.js:298 | the mentioned metrics cut to four form a valid metric list |
| ChatGraphSpec.FixedMetrics | src/app_routes/api/ai/chat/+server.js:276-321 | series kinds come back with a valid metric list, other kinds with `null` |
| ChatGraphSpec.SpecMetricIdsKnown | src/app_routes/api/ai/chat/+server.js:276-282 | a list of up to four metric ids passes unchanged |
| ChatGraphSpec.KnownMetricsKept | src/app_routes/api/ai/chat/+server.js:276-282 | a series spec with known metric ids keeps its metrics |
| ChatGraphSpec.EarlyMentionKept | src/app_routes/api/ai/chat/+server.js:298 | a metric found by one of the first three tests survives the cut to four |
| ChatGraphSpec.EngagedSessionsEarly | src/app_routes/api/ai/chat/+server.js:63-65 | "engaged sessions" puts engagedSessions and sessions within the first four |
| ChatGraphSpec.InStrArray | src/app_routes/api/ai/chat/+server.js:298 | a member of the list is a member of its array |
| ChatGraphSpec.EngagedSessionsKept | src/app_routes/api/ai/chat/+server.js:289-298 | such a text names at least two metrics and keeps both in the array |
| ChatGraphSpec.EngagedSessionsSplit | src/app_routes/api/ai/chat/+server.js:289-321 | the source's own case: a "sessions vs engaged sessions" breakdown asked as a line or pie becomes a series chart of both metrics |
| ChatGraphSpec.FixedLimit | src/app_routes/api/ai/chat/+server.js:258 | a missing limit becomes 10 for a breakdown and `null` otherwise; a given one stays; a corrected spec has none |
| ChatGraphSpec.FixedRange | src/app_routes/api/ai/chat/+server.js:250-254 | with both filter dates a complete range object is kept and anything else replaced by the filters; without them a range object stays and anything else becomes `null` |
| ChatGraphSpec.FixedDefaults | src/app_routes/api/ai/chat/+server.js:256-257 | missing compare mode and granularity come from the filters; a corrected spec always has both, and a pie split compares with 'off' |
| ChatGraphSpec.SplitToLine | src/app_routes/api/ai/chat/+server.js:292-305 | asked as a line, the split becomes a multi-series line of the mentioned metrics |
| ChatGraphSpec.SplitToPie | src/app_routes/api/ai/chat/+server.js:306-319 | asked as a pie, the split becomes a pie split of the mentioned metrics |
| ChatGraphSpec.SplitWithoutChartStays | src/app_routes/api/ai/chat/+server.js:291-321 | asked as neither, the breakdown stays |
| ChatGraphSpec.FixedVersion | src/app_routes/api/ai/chat/+server.js:322 | the result always has a truthy version, its own when it had one |
| ChatGraphSpec.FixedKeepsKindUncorrected | src/app_routes/api/ai/chat/+server.js:244-323 | repairing an uncorrected spec keeps its kind |
| ChatEndpoint.Messages | src/app_routes/api/ai/chat/+server.js:90 | the messages are `body.messages` when it is an array and empty otherwise |
| ChatEndpoint.ContextOf | src/app_routes/api/ai/chat/+server.js:91 | the context is truthy exactly when `body.context` is |
| ChatEndpoint.FiltersOf | src/app_routes/api/ai/chat/+server.js:246 | the filters are always a truthy value, `{}` when the context has none |
| ChatEndpoint.CheckRequest | src/app_routes/api/ai/chat/+server.js:81-100 | the request fails exactly when the key is blank, the message list is empty or the context is not an object; a blank key gives 500 and the other failures 400; on success the result is the last user text |
| ChatEndpoint.StringEntries | src/app_routes/api/ai/chat/+server.js:328-329 | an array gives one text per entry; anything else gives nothing |
| ChatEndpoint.SpecReplyFor | src/app_routes/api/ai/chat/+server.js:243-323 | a falsy spec gives none, an object is repaired, and any other value is returned as it was given |
| ChatEndpoint.ReplyFor | src/app_routes/api/ai/chat/+server.js:325-332 | a missing mode reads as "answer" and a missing answer as ""; there are at most two questions |
| ChatEndpoint.ChatResponse | src/app_routes/api/ai/chat/+server.js:81-332 | a failed request check passes its error through; model output that is not JSON, or is falsy, gives 502 with the model's text as `raw`; the reply succeeds exactly when the check passes and the output is truthy JSON |
| ChatEndpoint.Respond | src/app_routes/api/ai/chat/+server.js:81-332 | repairing the graph spec object in place and merging the questions gives `ChatResponse` |
| ChatEndpoint.ReplyWellFormed | src/app_routes/api/ai/chat/+server.js:243-332 | every question is non-empty and trimmed; a repaired spec has a version, a valid dimension when it is a breakdown, and a valid metric list when it is a series kind |
| ChatEndpoint.ReplyKeepsText | src/app_routes/api/ai/chat/+server.js:326-327 | a non-empty mode and answer from the model are kept |
| ReportEndpoint.MetricIdOf | src/app_routes/api/ai/report/+server.js:25-28 | a falsy value gives ""; any other result is a metric id or the value's text trimmed |
| ReportEndpoint.NonEmptyOnly | src/app_routes/api/ai/report/+server.js:29 | `.filter(Boolean)` keeps only non-empty members of the input and drops nothing from a list without empty entries |
| ReportEndpoint.ReportMetricIds | src/app_routes/api/ai/report/+server.js:26-30 | at most four ids, none of them empty |
| ReportEndpoint.ApplyDefaults | src/app_routes/api/ai/report/+server.js:16-21 | the in-place defaults compute `Defaulted` |
| ReportEndpoint.NormalizeMetricsAndDimension | src/app_routes/api/ai/report/+server.js:24-37 | the in-place metric and dimension steps compute `MetricsAndDimension` |
| ReportEndpoint.NormalizeGraphSpec | src/app_routes/api/ai/report/+server.js:15-40 | `normalizeGraphSpec` on a spec object computes `Normalized` |
| ReportEndpoint.Defaulted | src/app_routes/api/ai/report/+server.js:16-21 | version, range, comparison, granularity and limit defaulted; its outcomes are stated by `ReportEndpoint.NormalizedShape` |
| ReportEndpoint.MetricsAndDimension | src/app_routes/api/ai/report/+server.js:24-37 | the metric list and metric normalised and the dimension fixed to a valid one or `null` |
| ReportEndpoint.Normalized | src/app_routes/api/ai/report/+server.js:15-40 | `Defaulted`, then `MetricsAndDimension` |
| ReportEndpoint.NormalizedShape | src/app_routes/api/ai/report/+server.js:15-40 | a normalised spec has a version, a range object or `null`, a compare mode, a granularity and its own kind; a breakdown has a limit and a valid dimension, any other kind no dimension; metrics are never undefined, and an array of them is a valid metric list |
| ReportEndpoint.MetricIdOfFixpoint | src/app_routes/api/ai/report/+server.js:25 | normalising a normalised metric id again changes nothing |
| ReportEndpoint.ReportMetricIdsFixpoint | src/app_routes/api/ai/report/+server.js:26-30 | rebuilding the metric list from its own output changes nothing |
| ReportEndpoint.NormalizedIdempotent | src/app_routes/api/ai/report/+server.js:15-40 | `normalizeGraphSpec` is idempotent |
| ReportEndpoint.KeywordLimit | src/app_routes/api/ai/report/+server.js:52-55 | the limit is between 5 and 200; it is 25 when absent, NaN or 0, and an integer from 5 to 200 is kept |
| ReportEndpoint.KeywordSpecOf | src/app_routes/api/ai/report/+server.js:42-57 | the title is at most 60 characters and defaults to "Organic Keywords"; the variant is one of the four, its own when listed and "avg_position" otherwise; the group is non-empty and defaults to "all"; the limit is between 5 and 200 |
| ReportEndpoint.KeywordValue | src/app_routes/api/ai/report/+server.js:44-56 | a keyword spec's object has version 1 and kind keyword_tracking |
| ReportEndpoint.KeywordSpecRoundTrip | src/app_routes/api/ai/report/+server.js:42-57 | normalising the object of a keyword spec the endpoint can build gives that spec back |
| ReportEndpoint.CardSpan | src/app_routes/api/ai/report/+server.js:217 | a span is 1 to 4; it is 2 when absent, NaN or 0, and a whole number from 1 to 4 is kept |
| ReportEndpoint.CardOf | src/app_routes/api/ai/report/+server.js:217-227 | an entry gives a card exactly when its spec is an object; a keyword spec gives a keyword card of span 4 |
| ReportEndpoint.CardsOf | src/app_routes/api/ai/report/+server.js:216-228 | there are never more cards than raw entries |
| ReportEndpoint.BuildCards | src/app_routes/api/ai/report/+server.js:214-228 | the loop builds `CardsOf` the entries |
| ReportEndpoint.CardSpans | src/app_routes/api/ai/report/+server.js:217-227 | every card spans one to four columns, and a keyword card spans four |
| ReportEndpoint.CardCount | src/app_routes/api/ai/report/+server.js:216-228 | there is one card per raw entry whose spec is an object |
| ReportEndpoint.CardsRaw | src/app_routes/api/ai/report/+server.js:213 | a reply without a cards array has no raw cards |
| ReportEndpoint.ReplyResponse | src/app_routes/api/ai/report/+server.js:212-234 | the reply succeeds exactly when at least three cards are usable, and then has a title of at most 60 characters, "Report" by default, and exactly those cards; otherwise it is a 502 |
| ReportEndpoint.ReportResponse | src/app_routes/api/ai/report/+server.js:59-234 | a blank key gives 500 and a blank prompt 400; output that is not JSON, or is falsy, gives 502 with the model's text as `raw`; the endpoint succeeds exactly when there is a key, a prompt, a truthy parsed reply and three usable cards |
| ReportEndpoint.RespondToReply | src/app_routes/api/ai/report/+server.js:212-234 | the card loop gives `ReplyResponse` |
| ReportEndpoint.Respond | src/app_routes/api/ai/report/+server.js:59-234 | the endpoint's code path gives `ReportResponse` |
| Keywords.IntentOf | src/app_routes/api/ai/keywords/+server.js:16-20 | each of the three other intent words maps to its category exactly; every other text maps to Informational |
| Keywords.NormalizeIntent | src/app_routes/api/ai/keywords/+server.js:14-21 | an intent always normalises to one of the four categories |
| Keywords.InformationalFixpoint | src/app_routes/api/ai/keywords/+server.js:14-21 | Informational normalises to itself |
| Keywords.CommercialFixpoint | src/app_routes/api/ai/keywords/+server.js:14-21 | Commercial normalises to itself |
| Keywords.TransactionalFixpoint | src/app_routes/api/ai/keywords/+server.js:14-21 | Transactional normalises to itself |
| Keywords.LlmFixpoint | src/app_routes/api/ai/keywords/+server.js:14-21 | LLM normalises to itself |
| Keywords.IntentWord | src/app_routes/api/ai/keywords/+server.js:15 | a trimmed word is categorised by its lower-case form |
| Keywords.IntentIgnoresCase | src/app_routes/api/ai/keywords/+server.js:15-17 | " COMMERCIAL " is Commercial |
| Keywords.StripMarkers | src/app_routes/api/ai/keywords/+server.js:28 | the intended marker strip leaves a suffix that does not start with a dash, star, bullet, digit, dot, parenthesis or space |
| Keywords.StripMarkersAsWritten | src/app_routes/api/ai/keywords/+server.js:28 | the strip as written leaves a suffix that does not start with one of the class's characters, read as the mojibake characters instead of the bullet |
| Keywords.CleanEntryShape | src/app_routes/api/ai/keywords/+server.js:27-30 | a cleaned entry is trimmed, does not start with a marker, and has no whitespace other than single spaces |
| Keywords.CleanEntry | src/app_routes/api/ai/keywords/+server.js:27-30 | one cleaned entry; `Keywords.CleanEntryShape` states its shape and `Keywords.BulletStripped` the bullet |
| Keywords.StripAgrees | src/app_routes/api/ai/keywords/+server.js:28 | stripping with either marker class gives the same text when the classes agree on every character |
| Keywords.CleanAgrees | src/app_routes/api/ai/keywords/+server.js:27-30 | the corrected cleaning equals the source's on entries without U+2022, U+00E2, U+20AC and U+00A2 |
| Keywords.CollapseSingleSpaced | src/app_routes/api/ai/keywords/+server.js:29 | collapsing whitespace leaves text that is already single-spaced unchanged |
| Keywords.StripLeading | src/app_routes/api/ai/keywords/+server.js:28 | a leading marker is dropped and the strip goes on |
| Keywords.BulletNoMarkerAsWritten | src/app_routes/api/ai/keywords/+server.js:28 | as written, a text starting with the bullet U+2022 is not stripped at all |
| Keywords.BulletTextSpaced | src/app_routes/api/ai/keywords/+server.js:29 | a bullet, a space and clean text are single-spaced |
| Keywords.BulletKeptAsWritten | src/app_routes/api/ai/keywords/+server.js:27-30 | as written, "• t" comes out with its bullet |
| Keywords.BulletStripped | src/app_routes/api/ai/keywords/+server.js:27-30 | with the intended class, "• t" comes out as t |
| Keywords.KeysPush | src/app_routes/api/ai/keywords/+server.js:32-34 | adding an entry adds its lower-case key to the seen set |
| Keywords.KeysMembers | src/app_routes/api/ai/keywords/+server.js:25-34 | the seen set is exactly the lower-case forms of the entries kept |
| Keywords.CleanEntries | src/app_routes/api/ai/keywords/+server.js:26-30 | one cleaned text per item, in order |
| Keywords.CollectStops | src/app_routes/api/ai/keywords/+server.js:36 | once the limit is reached, later items change nothing |
| Keywords.CollectStep | src/app_routes/api/ai/keywords/+server.js:31-36 | until then, each item is pushed in turn |
| Keywords.CleanList | src/app_routes/api/ai/keywords/+server.js:23-39 | the loop computes `Collected` of the array's entries, or of nothing when it is not an array |
| Keywords.Collected | src/app_routes/api/ai/keywords/+server.js:23-39 | the cleaned entries the loop keeps, in order: each non-empty and none equal to an earlier one after lower-casing (`Keywords.CollectClean`), at most `limit` of them when `limit` is at least 1 (`Keywords.CollectBound`), and of entries that agree after lower-casing the first is kept (`Keywords.CollectKeepsFirst`) |
| Keywords.CollectedShape | src/app_routes/api/ai/keywords/+server.js:23-39 | what the loop collects is at most `limit` entries for a limit of at least 1, each non-empty and trimmed, no two equal after lower-casing |
| Keywords.CollectBound | src/app_routes/api/ai/keywords/+server.js:36 | there are never more entries than items, and no more than the limit (a limit below one still lets one entry through, as the check comes after the push) |
| Keywords.CollectClean | src/app_routes/api/ai/keywords/+server.js:31-35 | every entry is non-empty and one of the cleaned texts, and no two entries share a lower-case form |
| Keywords.CollectComplete | src/app_routes/api/ai/keywords/+server.js:31-36 | unless the limit stopped the loop, every non-empty cleaned text is represented by its lower-case form |
| Keywords.CollectInOrder | src/app_routes/api/ai/keywords/+server.js:26-36 | the entries keep the order of the items |
| Keywords.CollectKeepsFirst | src/app_routes/api/ai/keywords/+server.js:32-35 | every keyword kept is an entry with no earlier non-empty entry of the same lower-cased form |
| Keywords.Lines | src/app_routes/api/ai/keywords/+server.js:52 | one line per newline-separated piece |
| Keywords.LineValues | src/app_routes/api/ai/keywords/+server.js:53 | each line becomes a string entry |
| Keywords.KeywordEntries | src/app_routes/api/ai/keywords/+server.js:45-53 | a JSON array reply is used as it is |
| Keywords.ParsedKeywords | src/app_routes/api/ai/keywords/+server.js:41-54 | blank content gives no keywords |
| Keywords.ParseKeywords | src/app_routes/api/ai/keywords/+server.js:41-54 | the code path gives `ParsedKeywords` |
| Keywords.ParsedKeywordsShape | src/app_routes/api/ai/keywords/+server.js:41-54 | at most count keywords, each non-empty and trimmed, with no two equal ignoring case |
| Keywords.KeywordCount | src/app_routes/api/ai/keywords/+server.js:67 | the count is 1 to 50; it is 25 when absent or 0, and an integer from 1 to 50 is kept |
| Keywords.KeywordsResponse | src/app_routes/api/ai/keywords/+server.js:56-137 | a blank key gives 500 and a blank topic 400; with both, the answer is the parsed keywords exactly when there is at least one, and otherwise 502 "AI returned no keywords." with the model's text as `raw`; a success carries at most count keywords |
| Keywords.Respond | src/app_routes/api/ai/keywords/+server.js:56-137 | the endpoint's code path gives `KeywordsResponse` |
| Hooks.Handle | src/hooks.server.js:56-71 | a request goes on to `resolve` exactly when the user is signed in or the path is not protected; otherwise an API path gets a 401 JSON error and any other path a 303 redirect to `/login` |
| Hooks.DifferAt | src/hooks.server.js:9-28 | a path that starts with one prefix does not start with another prefix that differs from it at a position both have |
| Hooks.StaticApart | src/hooks.server.js:9-18 | no dashboard or API path is a static or asset path |
| Hooks.IsStaticOrAsset | src/hooks.server.js:9-18 | build output, favicons, robots.txt, the manifest, icons and static paths; `Hooks.StaticApart` |
| Hooks.IsAuthRoute | src/hooks.server.js:20-22 | the login page and the auth API; `Hooks.OpenRoutesResolve` |
| Hooks.IsProtectedRoute | src/hooks.server.js:24-28 | the dashboard and the API outside the other two groups; `Hooks.ProtectedExactly` |
| Hooks.ProtectedExactly | src/hooks.server.js:20-28 | the protected paths are exactly the dashboard and the API outside `/api/auth/` |
| Hooks.UnauthenticatedApi | src/hooks.server.js:60-66 | an unauthenticated API call outside the auth API gets 401 |
| Hooks.UnauthenticatedDashboard | src/hooks.server.js:60-68 | an unauthenticated dashboard visit is redirected to the login page |
| Hooks.OpenRoutesResolve | src/hooks.server.js:20-27 | the login page, the auth API and static files are served whether or not someone is signed in |
| AnalyticsQuery.ParamOr | src/app_routes/api/analytics/breakdown/+server.js:14-16 | a parameter that is absent or empty reads as its fallback, and any other keeps its own value |
| AnalyticsQuery.RangeOf | src/app_routes/api/analytics/breakdown/+server.js:25-26 | the end defaults to the day before today and the start to 27 days before the end |
| AnalyticsQuery.DefaultEnd | src/app_routes/api/analytics/breakdown/+server.js:25 | without an end, the range ends the day before today |
| AnalyticsQuery.DefaultWindow | src/app_routes/api/analytics/breakdown/+server.js:26 | without a start, the range covers the 28 days up to and including its end |
| Breakdown.BreakdownLimit | src/app_routes/api/analytics/breakdown/+server.js:33-34 | the limit is between 1 and 50, and 10 when the text reads as NaN or 0 |
| Breakdown.LimitOfNumber | src/app_routes/api/analytics/breakdown/+server.js:33-34 | a written integer is kept from 1 to 50, cut to 50 above, raised to 1 below, and 0 gives 10 |
| Breakdown.BreakdownRequest | src/app_routes/api/analytics/breakdown/+server.js:13-44 | the request is accepted exactly when the metric, the dimension and the compare mode are all valid; otherwise it gets the 400 for the first check that fails, in source order; an accepted request carries valid values, a limit from 1 to 50, the query's range and the client id, with "mock-client" as the default |
| Breakdown.SessionsKnown | src/app_routes/api/analytics/breakdown/+server.js:15 | the default metric, sessions, is a metric id already |
| Breakdown.DefaultLimit | src/app_routes/api/analytics/breakdown/+server.js:33-34 | the default limit text reads as 10 |
| Breakdown.EmptyQueryDefaults | src/app_routes/api/analytics/breakdown/+server.js:13-44 | an empty query asks for the mock client's sessions by page, with comparison off and ten rows |
| BrandSplit.BrandSplitRequest | src/app_routes/api/analytics/brand-split/+server.js:11-39 | the request is accepted exactly when the metric, the compare mode and the granularity are all valid; otherwise it gets the 400 for the first check that fails, in source order; an accepted request carries valid values, the query's range and the client id, with "mock-client" as the default |
| BrandSplit.ClicksKnown | src/app_routes/api/analytics/brand-split/+server.js:13 | the default metric, clicks, is a metric id already |
| BrandSplit.EmptyQueryDefaults | src/app_routes/api/analytics/brand-split/+server.js:11-39 | an empty query asks for the mock client's clicks, with comparison off and automatic granularity |

## Left out

**I/O and the environment**
- `localStorage`, `JSON.parse` and `JSON.stringify`: the stores receive the parsed stored value, and the endpoints receive the parsed model reply. The save payload is compared as the serialised meta value, not as JSON text.
- `fetch` and the timers behind `saveToServer` and `scheduleSave`: a save is a schedule event, then a fire event with an ok flag.
- The ids from `crypto.randomUUID`, `Date.now` and `Math.random` in `uid()`: an injected id stream.
- The OpenAI requests, their JSON-schema literals, the prompts, and the 502 responses for an unreachable or failing model: the model's reply arrives already parsed.
- `todayIsoUtc()`, a clock read: today's date is a parameter.

**Plumbing**
- The Svelte `writable` and `subscribe` mechanics: a store is a class field, and the subscriber (`src/lib/stores/reportLayouts.js:235-243`) is the `Notify` loop over hydrated clients.
- The persistence subscriber of `src/lib/stores/customAnalysisGraphs.js:49-62`: only the normalised shape it writes is modelled.
- The PocketBase client, its token refresh and the cookie export in `src/hooks.server.js:31-54` and `73-84`: whether the user is signed in is a parameter.
- The calls into the analytics provider in the breakdown and brand-split endpoints, and the 500 their `catch` returns: an accepted request yields the provider's parameters. `src/lib/analytics/provider.js` and `src/lib/analytics/mockProvider.js` are not part of this model.

**Floating point and Unicode**
- The float division behind a draw and behind `deltaPct` is exact real division, and `Number(...)` is read exactly. `Math.round` of a finite number is `floor(x + 0.5)`.
- `JsValues.StringToNumber`: reads blank, signed decimal integer and `Infinity` texts. Any other text, including a fractional, exponent or hexadecimal one, reads as NaN. So such a `limit` is modelled as its default.
- JSON numbers in a parsed value (`JsValues.Value.Num`) are integers, so a fractional `span`, `count` or keyword `limit` in a reply or request body is not modelled.
- `Lower`: lowers ASCII capitals only, with no Unicode case folding.
- `ReportLayouts.LoadEntry`: cuts the title at 60 Unicode characters, where `.slice(0, 60)` counts UTF-16 code units. A title with characters outside the Basic Multilingual Plane keeps more of them here: 40 emoji keep 30 in the source and all 40 in the model. The source's cut can also end in half of a surrogate pair, which a Dafny string cannot hold.
- `ReportLayouts.HydrateReport`: the same 60-character title cut as `ReportLayouts.LoadEntry`, with the same difference. The store's `HydrateReportLayout` inherits it.
- `ReportSaves.Serialize`: the same title cut, with the same difference.
- `ReportEndpoint.KeywordSpecOf`: the same cut of the keyword card's title, with the same difference.
- `ReportEndpoint.ReplyResponse`: the same cut of the report title, with the same difference.
- `ReportEndpoint.RespondToReply`: the same cut of the report title, with the same difference; `ReportEndpoint.Respond` inherits it.
- `Dates.NumberOf`: reads blank text and unsigned decimal digits only. `Number` also reads a leading `+`, a fraction, an exponent and a hexadecimal literal: "+5" is 5 for the source and NaN here, so "2024-+5-01" is a date for the source and "NaN-NaN-NaN" in the model. A minus sign never reaches a piece, because it is the separator.

**Bounds and preconditions**
- `Dates.IterateBuckets` and `Dates.IterateMonthBuckets`: a generator's run is a loop bounded by a `limit` parameter, a fuel bound, and the lemmas speak of a limit large enough for the range. Runs longer than the limit are not modelled.
- `Date.UTC` maps years 0 to 99 to 1900 to 1999, and `UtcCalendar.MakeYear` models this. Lemmas about printed dates require years of at least 100, and the round trip needs four-digit years.
- `Dates.Utc`: has no limit on the time value. `Date.UTC` gives NaN more than 8.64e15 ms (100,000,000 days) from the epoch, which is past the years -271821 and 275760, and the model still computes a day there. So `addDays("300000-01-01", 0)` is "NaN-NaN-NaN" in the source and a date in the model, and the lemmas that ask for a year of at least 100 also cover such years.
- `Dates.ShiftDays`: the same missing limit for `new Date(t)` of a shifted time.
- `Dates.LastDayOfMonth`: the same missing limit for `Date.UTC(year, month1to12, 0)`; it gives a month length where the source gives NaN.
- `LayoutStabilize.StabilizeLayout`: the no-overlap property requires every search to stay below row 500. `LayoutProperties.OverlapPastRowLimit` shows that the unchecked fallback can overlap past that row.
- `ReportEndpoint.NormalizeGraphSpec` and `ReportEndpoint.KeywordSpecOf`: model these functions for object specs only. Their `null` result for any other value is unreachable, because the card loop skips such specs first. The same holds for the chat repair, which runs on objects only.

**Deliberate deviations**
- `Breakdown.BreakdownRequest` and `BrandSplit.BrandSplitRequest`: check the metric against the own keys of `METRIC_META`. As written, `METRIC_META[...]` also accepts inherited names such as `toString` (see Findings).
- `Keywords.CleanEntries`: strips the intended bullet U+2022, not the three characters U+00E2, U+20AC and U+00A2 that line 28 holds (see Findings). It differs from the source only on entries with one of those four characters in their leading run. "• seo tools" loses its bullet here and keeps it in the source. "€5 deals" becomes "deals" in the source and stays whole here. `Keywords.CleanAgrees` proves that entries without those characters clean alike.
- `Keywords.CleanList`: the same marker class as `Keywords.CleanEntries`. `Keywords.ParsedKeywords`, `Keywords.ParseKeywords`, `Keywords.KeywordsResponse` and `Keywords.Respond` inherit it.
- `ChatGraphSpec.NormalizedIds`: normalises with the own-key `MetricIds.NormalizeMetricId` (see Findings). It differs from the source only on an entry whose trimmed text or camel-cased key is a name inherited from `Object.prototype`: "value_of" stays "value_of" here and becomes "valueOf" in the source. `MetricIds.AsWrittenAgrees` proves that every other entry normalises alike.
- `ChatGraphSpec.MetricsNormalized`: the same own-key normaliser for the metric list and the single metric. `ChatGraphSpec.Prepared`, `ChatGraphSpec.FixedSpec` and `ChatEndpoint.ChatResponse` inherit it.
- `ChatGraphSpec.NormalizeSpecMetrics`: the same as `ChatGraphSpec.MetricsNormalized`, in place. `ChatGraphSpec.FixUpGraphSpec` and `ChatEndpoint.Respond` inherit it.
- `ReportEndpoint.MetricIdOf`: the same own-key normaliser for the report cards' metrics. `ReportEndpoint.Normalized`, `ReportEndpoint.NormalizeGraphSpec` and `ReportEndpoint.ReportResponse` inherit it.
- Widening the locked item in the three-card example keeps A at (1, 1) and moves B to (2, 3) and C to (3, 1), as `ReportLayoutsProperties.WidenLockedExample` proves.
- Re-hydrating a client while one of its saves is pending leaves that timer armed, and the save of older meta still fires. `ReportSaves.RehydrateKeepsPendingTimer` states this. It is not claimed as a finding, because the intent is unclear.

## Findings

| source | as written | input that shows it | evidently intended | confidence | as-written member | corrected member |
|---|---|---|---|---|---|---|
| src/lib/analytics/normalize.js:26-33 | `METRIC_META[v]` is truthy for names inherited from `Object.prototype`, so a name like `valueOf` counts as a metric | `normalizeMetricId("value_of")` returns "valueOf", and the breakdown endpoint accepts `metric=toString` | only the table's own keys are metrics, so "value_of" stays as it is | not executed | MetricIds.InheritedNameAccepted | MetricIds.NormalizeMetricId |
| src/app_routes/api/ai/keywords/+server.js:28 | the marker class holds the three characters U+00E2, U+20AC and U+00A2, the UTF-8 bytes of a bullet read as Windows-1252, and not the bullet itself | "• seo tools" is kept with its bullet | a leading bullet U+2022 is stripped like the other list markers, giving "seo tools" | not executed | Keywords.BulletKeptAsWritten | Keywords.BulletStripped |
