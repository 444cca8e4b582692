# zenith data layer in Dafny

A model of the data-handling layer of **zenith**, an event-registration
dashboard that keeps its registrants in a Google spreadsheet. The model covers:

- **Addresses and headers.** `toA1` renders a 0-based column and a 1-based row as an
  A1 address. `mapHeaders` maps each trimmed, lower-cased header to its column.
- **The two readers.** Each `readEntries` turns the sheet's grid (a header row and
  then data rows) into `Entry` records.
- **Unique ids.** `generateUniqueIds` and `writeUniqueIdsForMissing` build one
  one-cell write per data row whose "unique id" cell is blank.
- **The caches.** There are two copies of the time-to-live cache, and
  `refreshEntriesCache` clears one of them.
- **The page services.** The `getEntries` server action and the `GET /api/entries`
  route serve one page of the registrants. On a HIT they serve it from the cache. On
  a MISS they load it from the mock list or the sheet and cache it for 30 seconds.
- **The client handlers.** Entries table: the search filter, the row selection and the
  page navigation. Send dialog: its review → sending → complete steps and its counts.

Inputs stand in for everything outside the program:

- **The sheet read.** The outcome of `values.get` is an input: `Fetched(grid)` or
  `FetchFailed(message)`.
- **The batch write.** A failure of `batchUpdate` is an input `batchError`. The request body sent is an
  output.
- **The configuration.** The `config` object is a `Config` value. The credentials in it decide
  `isEnvReady`.
- **The clock.** `Date.now()` is a parameter `now`.
- **Random ids.** `nano()` is a supplied function `draws`: `draws(k)` is the k-th value drawn, any 8 characters of the
  id alphabet.
- **The mock list.** It is a parameter `mock`.

Stateful parts are classes with `modifies` frames:

- `TtlCache.Cache` is one module-level store.
- `EntriesTable.TableState` holds the React state of the table.
- `ConfirmSend.SendDialog` holds the dialog's step and progress.

Each of their methods is tied to a pure function of the old state (`Serve`,
`Respond`, `Toggled`, `Confirmed`, …). The properties are proved about those
functions.

Modules, one per file:

- `Wrappers`, `Text`: ASCII trim, lower-casing, `includes`, decimal text.
- `Utils`: src/lib/utils.ts.
- `AppConfig`: the config and record types.
- `Addresses`: range strings and their reader.
- `Rows`: the row parsing shared by both readers.
- `IdAssign`: the id format, the update loop and the grid after the batch.
- `GoogleSheets`, `SheetActions`, `IdActions`.
- `TtlCache`, `CacheActions`.
- `Paging`: JavaScript `slice` and `totalPages`.
- `EntriesAction`, `EntriesRoute`, `EntriesTable`, `ConfirmSend`.

Behaviour of the code worth knowing, which the model follows:

- The `source` field of a MISS is `"sheets"` when the sheet was read and `"mock"` otherwise.
- `totalPages` is not always `max(1, ceil(total/pageSize))`:
  - the route answers null for a page size of 0 (`EntriesRoute.PagesField`);
  - the catch of `getEntries` answers 0.
- An out-of-range page is not always empty. A negative page reads from the end of the
  list, because `slice` counts negative bounds from the end
  (`Paging.NegativePageFromEnd`).
- The route's 500 response carries only `{ error }`.
- Both id writers address the k-th blank row as `toA1(uniqueIdColIndex, idx + 2)`, an
  absolute sheet address computed from grid positions. This is right only for a range
  that starts at cell A1, as the default "Entries!A:H" does (see "## Findings").
- The cache expiry of a MISS counts from the second `Date.now()` reading, taken by
  `cacheSet` after the awaited sheet read, not from the start of the call.

## Model

| member | source | states |
|---|---|---|
| Utils.ToA1 | src/lib/utils.ts:20-30 | the loop's result is `A1(col, row)`: the bijective base-26 letters of `col + 1`, followed by the row in decimal |
| Utils.LettersUpper | src/lib/utils.ts:23-28 | the letter prefix uses only 'A'..'Z', and it is empty exactly for the number 0, so every column gets at least one letter |
| Utils.LettersRoundTrip | src/lib/utils.ts:23-29 | decoding the letters of a positive number gives that number back |
| Utils.DecodeRoundTrip | src/lib/utils.ts:23-29 | every string of capitals is the numeral of the number it decodes to, so the letter encoding is onto |
| Utils.ColumnLettersInjective | src/lib/utils.ts:23-29 | distinct columns get distinct letter prefixes |
| Utils.ColumnLettersLength | src/lib/utils.ts:24-28 | the prefix has one letter iff col < 26, and two letters iff 26 <= col < 702 |
| Utils.ColumnLettersExamples | src/lib/utils.ts:20-30 | column 0 is "A", 25 is "Z", 26 is "AA" and 701 is "ZZ"; `toA1(2, 17)` is "C17" |
| Utils.A1RoundTrip | src/lib/utils.ts:20-30 | reading an address back gives its column and row, so `toA1` has an inverse |
| Utils.A1Injective | src/lib/utils.ts:20-30 | distinct cells have distinct addresses |
| Utils.MapHeaders | src/lib/utils.ts:12-18 | the `forEach` builds `HeaderMap(headers)`, in which each key maps to the last column carrying it |
| Utils.HeaderMap | src/lib/utils.ts:12-18 | the map `mapHeaders` returns, as a Dafny map; `HeaderMapSpec` states its keys and values |
| Utils.HeaderMapSpec | src/lib/utils.ts:12-17 | every header's normalised form is a key; every key maps to an index in range whose header normalises to that key; no later header has that key, so the later index wins |
| Utils.HeaderMapKeysNormalized | src/lib/utils.ts:15 | every key is trimmed and lower-cased |
| Utils.NormalizeIsNormalized | src/lib/utils.ts:15 | trimming and lower-casing once gives a fixed point of both |
| Text.TrimSpec | src/lib/google-sheets.ts:83 | `trim()` returns the infix of its input that drops the leading and trailing spaces, and this infix neither starts nor ends with a space |
| Text.BlankIffAllSpace | src/actions/id.ts:71-72 | a cell is blank after trimming exactly when every character is a space |
| Text.TrimIdempotent | src/lib/google-sheets.ts:83 | trimming twice is trimming once |
| Text.ContainsFound | src/components/entries-table.tsx:72-75 | when `includes` holds, the query occurs at some offset (`Text.ContainsAt` is the converse) |
| Text.ContainsAt | src/components/entries-table.tsx:72-75 | a query occurring at some offset makes `includes` hold |
| Text.DecimalRoundTrip | src/lib/utils.ts:29 | the decimal text of a row number reads back as that number |
| Addresses.SheetName | src/actions/id.ts:75 | `range.split("!")[0]` contains no "!" |
| Addresses.CellRangeRoundTrip | src/lib/google-sheets.ts:147-149 | the range `<sheet>!<a1>:<a1>` of cell (col, row) reads back as exactly that cell of that sheet |
| Addresses.CellRangesRoundTrip | src/actions/id.ts:73-75 | the same round-trip, for every cell of a sheet at once |
| Addresses.CellRefRoundTrip | src/actions/sheet.ts:92 | the reference `<sheet>!<a1>` of a cell reads back as that cell |
| Rows.HeaderRow | src/lib/google-sheets.ts:74 | there is one trimmed header per header cell |
| Rows.ParseGrid | src/lib/google-sheets.ts:69-108 | an empty grid gives no entries and total 0; otherwise there is one entry per data row, in order, with `rowNumber = idx + 2` and `total = entries.length` |
| Rows.ParsedFields | src/lib/google-sheets.ts:79-106 | the record `ParseRow` builds for data row i, numbered `i + 2`: an absent header or a missing cell reads as "", and a present cell is trimmed; each field comes from its header; `uniqueId` is null iff its cell is ""; `mailSent` iff the "sent" cell lower-cases to "true", "1" or "yes" |
| Rows.GridField | src/lib/google-sheets.ts:74-84 | against the raw header row: a key has a column iff some trimmed, lower-cased header equals it; the column is the last such one, and the field is that column's trimmed cell, or "" when no header matches |
| Rows.FieldTrimmed | src/lib/google-sheets.ts:81-84 | every field the closure returns is already trimmed |
| Rows.UniqueIdNullIffBlank | src/lib/google-sheets.ts:101 | an entry's `uniqueId` is null exactly when its row's trimmed id cell is empty |
| GoogleSheets.ReadEntries | src/lib/google-sheets.ts:56-113 | undefined exactly when a credential is missing or the read fails; otherwise the parsed grid |
| GoogleSheets.ReadEntriesFields | src/lib/google-sheets.ts:92-105 | this reader takes e-mail, phone and transaction id from "email", "phone number" and "transaction id", gives no desk, and numbers rows from 2 |
| GoogleSheets.ReadEntriesEmpty | src/lib/google-sheets.ts:69-72 | an empty grid gives `{ entries: [], total: 0 }` |
| GoogleSheets.WriteUniqueIdsForMissing | src/lib/google-sheets.ts:115-172 | undefined on missing env, a failed read, a missing "unique id" column or a failed batch; 0 for an empty grid; otherwise the updates for the blank id cells, a batch sent only when there is at least one, and the count of updates |
| SheetActions.ReadEntries | src/actions/sheet.ts:27-85 | `{ entries: [], total: 0 }` on a missing credential or a failed read; otherwise the parsed grid with `total = entries.length` |
| SheetActions.FailureLooksEmpty | src/actions/sheet.ts:81-84 | a failed read gives the same listing as an empty sheet |
| SheetActions.ReadEntriesFields | src/actions/sheet.ts:63-77 | this reader takes e-mail, phone, transaction id and desk from "email address", "contact number", "utr number" and "desk", and numbers rows from 2 |
| SheetActions.UpdateMailSentStatus | src/actions/sheet.ts:87-96 | a write is requested exactly when the credentials are present, and it carries the given value |
| SheetActions.MailSentTarget | src/actions/sheet.ts:92 | the range always names cell A<rowNumber> of the "Boys" sheet, whatever range is configured |
| IdAssign.AlphabetFacts | src/actions/id.ts:9 | the alphabet has 32 symbols, exactly the capitals without I and O plus the digits 2-9 |
| IdAssign.GenerateUniqueId | src/actions/id.ts:11-13 | an id is 11 characters: "ET-" and then exactly the drawn suffix |
| IdAssign.GeneratedIdShape | src/actions/id.ts:11-13 | every id is "ET-" followed by the 8 drawn characters of the alphabet, 11 characters long |
| IdAssign.GeneratedNotBlank | src/actions/id.ts:11-13 | a generated id is never blank after trimming |
| IdAssign.BuildIdUpdates | src/actions/id.ts:67-79 | the `forEach` builds `IdUpdates` at origin A1: one write per blank row in row order, addressed `<sheet>!<a1>:<a1>` with `a1 = toA1(col, idx + 2)` |
| IdAssign.BlankIndicesSpec | src/actions/id.ts:70-72 | a data row is listed iff its trimmed id cell is empty, and a missing cell counts as empty; the list is strictly increasing |
| IdAssign.IdUpdatesSpec | src/actions/id.ts:70-79 | the k-th update writes the k-th drawn id to the sheet cell of the id cell of data row `b[k]`, where b lists the blank data rows; that is row `b[k] + 2` of the id column when the grid starts at A1; there is exactly one update per blank row |
| IdAssign.NeverOverwrites | src/actions/id.ts:71-75 | for writes addressed from the grid's origin, the k-th update's range names, in the configured sheet, the sheet cell that the blank id cell of an existing data row is read from |
| IdAssign.UpdateCountIsBlankCount | src/actions/id.ts:81-93 | the number of updates is the number of data rows with a blank id cell |
| IdAssign.ApplyIdUpdates | src/actions/id.ts:85-91 | for a grid read from any origin and writes addressed from it: after the batch, the header row is unchanged, every data row has a non-blank id, and a row whose id was present is unchanged |
| IdAssign.RerunFindsNothing | src/actions/id.ts:70-79 | for writes addressed from the grid's origin: after the batch is applied, a second scan finds no blank row and builds no update |
| IdAssign.OffsetRangeOverwrites | src/actions/id.ts:73-75 | as written, for a grid read from B1 with the id in grid column 1, the one blank row's write lands on the name cell, the id cell stays blank, and a rerun writes again |
| IdAssign.OffsetHeaderColumn | src/actions/id.ts:55-58 | in that grid `map["unique id"]` is 1 |
| IdAssign.BlankRowAddress | src/lib/utils.ts:20-30 | the code's address for that row is `toA1(1, 2)`, which is "B2" |
| IdActions.ErrorText | src/actions/id.ts:94-100 | the error text is never empty, and it is the thrown message when that is non-empty |
| IdActions.GenerateUniqueIds | src/actions/id.ts:40-101 | count 0 plus the missing-env message, the read error, or the missing-column message, with no write; an empty grid or no blank row gives count 0 and no error; otherwise the batch of updates, then their count, or count 0 and the batch error |
| IdActions.RerunWritesNothing | src/actions/id.ts:70-93 | for a range starting at A1, a second run after the batch sees the same id column and builds no update, so it reports 0 with no error |
| TtlCache.Cache.constructor | src/lib/entries-cache.ts:2 | the store starts empty |
| TtlCache.Cache.Get | src/lib/entries-cache.ts:4-12 | returns `Lookup` and leaves `AfterGet`: the value unless absent or expired; an expired item is deleted |
| TtlCache.Cache.Set | src/lib/entries-cache.ts:14-16 | stores the value with expiry `now + ttlMs` |
| TtlCache.Cache.Clear | src/lib/entries-cache.ts:18-21 | deletes one key for a non-empty key, otherwise empties the store |
| TtlCache.Lookup | src/lib/entries-cache.ts:4-12 | the value `cacheGet` returns: none when absent or past its expiry; `LookupSpec` and `SetThenGet` state it |
| TtlCache.LookupSpec | src/lib/entries-cache.ts:4-12 | a get finds a value iff the key is present and `now <= expiresAt`, and that value is the stored one |
| TtlCache.GetAbsent | src/lib/entries-cache.ts:5-6 | a get of an absent key returns null and changes nothing |
| TtlCache.SetThenGet | src/lib/entries-cache.ts:7-15 | after a set at t, a get at t' <= t + ttl returns the value (the boundary is inclusive); a later get returns null and removes the key |
| TtlCache.ExpiredGetRemovesOnlyKey | src/lib/entries-cache.ts:7-10 | an expired get removes its own key and keeps every other key and item |
| TtlCache.GetKeepsItems | src/lib/entries-cache.ts:4-12 | a get never alters an item it leaves in place |
| TtlCache.SetOverwrites | src/lib/entries-cache.ts:15 | set overwrites unconditionally: the last value and expiry win |
| TtlCache.SetKeepsOthers | src/lib/entries-cache.ts:15 | a set changes no other key |
| TtlCache.ClearOne | src/lib/entries-cache.ts:19 | clearing a non-empty key removes it and nothing else |
| TtlCache.ClearAll | src/lib/entries-cache.ts:19-20 | `clear()` and `clear("")` both empty the store |
| TtlCache.Cleared | src/actions/cache.ts:21-24 | `cacheClear` in both copies (src/lib/entries-cache.ts:18-21 is the same code): a truthy key deletes that key, anything else empties the store |
| CacheActions.RefreshEntriesCache | src/actions/cache.ts:32-47 | returns `{ ok: true, cleared: "entries" }` and deletes exactly the "entries" key |
| CacheActions.RefreshedEntriesMiss | src/actions/cache.ts:32-39 | after the refresh, a get of "entries" misses at any time, and every other key is kept |
| Paging.PageSlice | src/actions/entries.ts:52-54 | the page `slice((page-1)*pageSize, (page-1)*pageSize + pageSize)`; `PageSliceSpec`, `WindowSpec`, `PageZeroEmpty` and `NegativePageFromEnd` state what it holds |
| Paging.SliceBound | src/actions/entries.ts:52-54 | a slice bound is clamped into `[0, length]` |
| Paging.PageSliceSpec | src/actions/entries.ts:52-54 | for page >= 1 and pageSize >= 1: at most pageSize items, element i is item `(page-1)*pageSize + i`, exactly `min(pageSize, length - start)` items, empty from the end of the list on |
| Paging.WindowSpec | src/actions/entries.ts:97-99 | the slice from a non-negative start holds at most `size` items, and those are the list's items from that start |
| Paging.PageZeroEmpty | src/app/api/entries/route.ts:36-38 | page 0 is empty |
| Paging.NegativePageFromEnd | src/actions/entries.ts:44-54 | a negative page is the slice whose bounds count back from the end of the list |
| Paging.CeilDivSpec | src/actions/entries.ts:61 | `Math.ceil(a / b)` for b > 0 is the least q with `a <= q * b` |
| Paging.TotalPages | src/actions/entries.ts:61 | `Math.max(1, Math.ceil(total / pageSize))` is at least 1 |
| Paging.TotalPagesSpec | src/actions/entries.ts:61 | for a positive page size, totalPages >= 1, it covers every item, and for a non-empty list it is the least page count that does |
| Paging.NegativePageSizeOnePage | src/actions/entries.ts:106 | a negative page size gives one page |
| Paging.ItemOnPage | src/actions/entries.ts:97-106 | item i is element `i % pageSize` of page `i / pageSize + 1`, and that page is within totalPages |
| Paging.PastLastPageEmpty | src/actions/entries.ts:97-106 | every page past totalPages is empty |
| EntriesAction.Defaults | src/actions/entries.ts:44-45 | page is 1 when missing or 0; pageSize falls back to the configured size, then 50; neither is 0 |
| EntriesAction.LoadedNumbering | src/actions/entries.ts:69-80 | a loaded listing has `total = entries.length` and numbers every entry `idx + 2`, for mock and sheet alike; mock entries are otherwise unchanged |
| EntriesAction.Serve | src/actions/entries.ts:40-109 | the result and store of one call, from the store found: the cache is read at `now`, and a loaded listing is stored at `setNow`; its properties are `HitIffCached`, `ServedPage`, `MissThenHit` and `FailedReadServedEmpty` |
| EntriesAction.GetEntries | src/actions/entries.ts:40-121 | the result and the new cache store are those of `Serve`: the cached page on a HIT, otherwise the loaded page with the listing cached for 30000 ms from `setNow` |
| EntriesAction.HitIffCached | src/actions/entries.ts:46-51 | HIT iff not forced and the cache holds a live listing; `revalidate: true` is always a MISS |
| EntriesAction.ServedPage | src/actions/entries.ts:52-63 | the entries are the page slice of the served listing (at most pageSize of them), total is its total, totalPages >= 1, a HIT has no source, and a MISS says "mock" iff the mock list was used |
| EntriesAction.MissThenHit | src/actions/entries.ts:78-95 | after a MISS whose listing was stored at `setNow`, an unforced call starting by `setNow + 30000` (inclusive) is a HIT with the same total, serving the listing that was loaded |
| EntriesAction.FailedReadServedEmpty | src/actions/entries.ts:77-95 | a failed sheet read on a MISS gives an empty page with total 0, 1 page and no error, and that empty listing is cached until `setNow + 30000`, `setNow` being the clock after the read |
| EntriesAction.ErrorResult | src/actions/entries.ts:110-120 | the catch result: no entries, total 0, totalPages 0, MISS, the defaulted page and pageSize, and a non-empty error |
| EntriesRoute.Respond | src/app/api/entries/route.ts:23-98 | the response and store of one request, from the store found: the cache is read at `now`, and a loaded listing is stored at `setNow`; its properties are `RouteHitIffCached`, `RoutePage`, `FailedReadIsServerError`, `MissFailsIffReadFails` and `RouteMissThenHit` |
| EntriesRoute.Get | src/app/api/entries/route.ts:23-99 | the response and the new store are those of `Respond`, which repeats `getEntries` over the lib cache and reader, with the 500 path |
| EntriesRoute.RouteHitIffCached | src/app/api/entries/route.ts:30-35 | HIT iff `revalidate` is not exactly "true" and the cache holds a live listing |
| EntriesRoute.RoutePage | src/app/api/entries/route.ts:26-46 | a JSON response carries the page slice of the served listing and its total; totalPages >= 1 for a non-zero page size and null for 0; an explicit page 0 is empty; a source only on a MISS, "mock" iff mock data was used |
| EntriesRoute.FailedReadIsServerError | src/app/api/entries/route.ts:60-98 | without the mock fallback, a failed read on a MISS answers 500 with only the TypeError's message, and nothing is cached |
| EntriesRoute.MissFailsIffReadFails | src/app/api/entries/route.ts:59-76 | without the mock fallback, a MISS fails exactly when the sheet read fails |
| EntriesRoute.RouteMissThenHit | src/app/api/entries/route.ts:61-78 | after a successful MISS whose listing was stored at `setNow`, an unforced request starting by `setNow + 30000` is a HIT with the same total |
| EntriesTable.Filtered | src/components/entries-table.tsx:67-77 | the shown entries: all of them for a blank query, else `Matching`; `FilteredSpec` and `MatchingMembers` state what it keeps |
| EntriesTable.FilteredSpec | src/components/entries-table.tsx:67-77 | a whitespace-only query shows every entry; otherwise an entry is shown iff it matches |
| EntriesTable.MatchingMembers | src/components/entries-table.tsx:69-76 | the filter keeps exactly the entries whose lower-cased registration number, name, e-mail or transaction id contains the lower-cased untrimmed query |
| EntriesTable.MatchingConcat | src/components/entries-table.tsx:70-76 | the filter distributes over concatenation, so it keeps the original order |
| EntriesTable.NameMatchShown | src/components/entries-table.tsx:73 | a name holding the query at some offset, in any letter case, is shown |
| EntriesTable.ShownHasMatch | src/components/entries-table.tsx:69-76 | a shown entry has one of the four fields holding the lower-cased query |
| EntriesTable.RowIds | src/components/entries-table.tsx:93 | there is one id per shown row |
| EntriesTable.ToggleRowSpec | src/components/entries-table.tsx:104-109 | toggling flips that id only, and toggling twice restores the selection |
| EntriesTable.ToggleAllSpec | src/components/entries-table.tsx:97-102 | all shown ids are removed when all are selected, and added otherwise; ids not shown keep their state |
| EntriesTable.EmptyPageNotAllSelected | src/components/entries-table.tsx:94-95 | with no rows shown, `allOnPageSelected` is false |
| EntriesTable.NavigationSpec | src/components/entries-table.tsx:79-91 | next moves iff there is data and `page < totalPages`; prev moves iff `page > 1`; both keep page >= 1, and next stays within totalPages |
| EntriesTable.TableState.constructor | src/components/entries-table.tsx:45-48 | page 1, 50 rows, empty query, nothing selected |
| EntriesTable.TableState.ToggleRow | src/components/entries-table.tsx:104-109 | the selection becomes `Toggled(old, id)`; nothing else changes |
| EntriesTable.TableState.ToggleAllOnPage | src/components/entries-table.tsx:97-102 | the loop over the shown ids makes the selection `ToggledAll(old, currentIds)` |
| EntriesTable.TableState.NextPage | src/components/entries-table.tsx:79-85 | page becomes `NextPageOf`; the selection is cleared exactly when the page moves |
| EntriesTable.TableState.PrevPage | src/components/entries-table.tsx:86-91 | page becomes `PrevPageOf`; the selection is cleared exactly when the page moves |
| EntriesTable.TableState.ChangePageSize | src/components/entries-table.tsx:128-132 | page 1, selection cleared, the new page size |
| EntriesTable.TableState.SetQuery | src/components/entries-table.tsx:118 | only the query changes |
| EntriesTable.TableState.ClearSelection | src/components/entries-table.tsx:156 | only the selection changes, and it becomes empty |
| EntriesTable.TableState.Receive | src/components/entries-table.tsx:50-57 | a response replaces the data and keeps page, size, query and selection |
| ConfirmSend.EmailsToSend | src/components/confirm-send.tsx:74 | `Math.min`: at most the pending count and at most the limit, and equal to one of them |
| ConfirmSend.Remaining | src/components/confirm-send.tsx:75 | `Math.max(0, …)`: never negative, at least `pending - maxEmails`, and equal to 0 or to that difference |
| ConfirmSend.BatchSplit | src/components/confirm-send.tsx:74-75 | emailsToSend + remaining == pending; at most maxEmails go now; some remain iff pending > maxEmails |
| ConfirmSend.SendDisabledIff | src/components/confirm-send.tsx:254 | the send button is disabled iff nothing is pending or the limit is 0 |
| ConfirmSend.PendingShownSpec | src/components/confirm-send.tsx:304-306 | sent + failed + pending shown == total, and pending is within `[0, total]` for consistent counts |
| ConfirmSend.FailedLogsSpec | src/components/confirm-send.tsx:434-435 | the summary lists exactly the failed logs |
| ConfirmSend.FailedLogsConcat | src/components/confirm-send.tsx:434-435 | the summary keeps the logs' order |
| ConfirmSend.ConfirmStarts | src/components/confirm-send.tsx:90-99 | confirm moves to sending with total = emailsToSend, 0 sent, 0 failed, no logs, not complete |
| ConfirmSend.ReportsSpec | src/components/confirm-send.tsx:102-106 | while sending, the dialog shows the latest report; the step becomes complete iff some report has `isComplete`, and otherwise it stays sending |
| ConfirmSend.CompleteStays | src/components/confirm-send.tsx:102-106 | once complete, later reports replace the progress, but the step stays complete |
| ConfirmSend.FailureKeepsCounts | src/components/confirm-send.tsx:108-118 | a throw completes the dialog with `isComplete`, the Error's message or "Unknown error occurred", and the counts and logs so far; a failure title shows unless the message is "" |
| ConfirmSend.CloseSpec | src/components/confirm-send.tsx:121-136 | closing while sending changes nothing and keeps the dialog open; otherwise it resets to review with zeroed progress and reports the dialog closed |
| ConfirmSend.SendDialog.constructor | src/components/confirm-send.tsx:62-72 | review step with zeroed progress |
| ConfirmSend.SendDialog.Confirm | src/components/confirm-send.tsx:90-99 | the state becomes `Confirmed(old, pending, maxEmails)` |
| ConfirmSend.SendDialog.OnProgress | src/components/confirm-send.tsx:102-106 | the state becomes `Reported(old, p)` |
| ConfirmSend.SendDialog.ConfirmFailed | src/components/confirm-send.tsx:108-118 | the state becomes `Failed(old, thrown)` |
| ConfirmSend.SendDialog.Close | src/components/confirm-send.tsx:121-136 | the state and the closed report are `Closed(old)` |

## Left out

- **src/lib/generate.ts and src/actions/email.ts.** QR and ticket drawing, font and file I/O, and the SMTP
  loop are foreign calls.
- **Google API calls and JWT authentication.** They are inputs (`Fetch`, `batchError`) and outputs (the batch
  body, `MailSentWrite`).
- **`console.log`.** Omitted.
- **Randomness of `nanoid`.** Ids are supplied draws of the right shape. No uniqueness is claimed, because the code never
  checks for collisions.
- **`Date.now`.** Every reading is a parameter. The two services read it twice: `now` for the cache read and `setNow`, no earlier, for the cache write.
- **Concurrency.** Interleaved async calls, such as a cache read racing a set, are not modelled; each
  operation runs to completion.
- **Unicode.** `trim`, `toLowerCase` and `includes` are modelled over ASCII: spaces, tabs and line breaks,
  and the letters A-Z.
- **Number parsing of query strings.** `Number(...)` on a non-numeric or fractional value (NaN, 1.5) is not
  modelled. `Query` holds the integer each present, non-empty parameter reads as, so the sign of a zero is lost.
- **EntriesRoute.PagesField and EntriesRoute.RoutePage:** a `pageSize` of "-0" reads as 0. `Number("-0")` is
  negative zero, and for a non-empty listing `total / -0` is -Infinity, so the code answers `totalPages: 1`.
  The model answers null, as for 0. For an empty listing both answer null, because `0 / -0` is NaN.
- **Floating-point display values.** `progressPercentage` and the estimated time are omitted.
- **JSON serialisation.** It is modelled only for `totalPages`: a NaN or Infinity there becomes null.
- **The client table reading a null `totalPages`.** The client table takes `totalPages` as an integer.
- **EntriesRoute.UndefinedResultMessage.** This is the V8 text of the TypeError. Another engine words it differently.
- **EntriesAction.ErrorResult.** Nothing in the body of `getEntries` can throw, so `GetEntries` never returns it.
  - The server-action reader catches everything.
  - The inner catch rethrows only when the mock flag is off.
  - The mock branch of that catch is dead, because `useMock` is already true whenever the flag is set.
- **The route's mock fallback.** It is dead in the same way. There, the only reachable throw is the TypeError.
- **CacheActions.RefreshEntriesCache.** Its catch branch is omitted, because deleting a map key cannot throw.
- **The two caches.** They are two `Cache` objects. Each operation's `modifies` clause names only the cache it is given,
  so one store cannot change the other. No lemma states this separately.
- **Duplicate code.** `toA1` and `mapHeaders` appear in both src/lib/utils.ts and src/lib/google-sheets.ts, and the cache
  in both src/lib/entries-cache.ts and src/actions/cache.ts. Each is modelled once.
- **`ApplyWrite` and sheet names.** It does not compare sheet names: the grid is one sheet. It takes the range to extend right far enough for every column written.
- **IdActions.RerunWritesNothing and IdAssign.BuildIdUpdates:** the code's addresses are those of a grid read from A1. So re-run idempotence is stated for a range that starts at A1, such as the default "Entries!A:H". `IdAssign.OffsetRangeOverwrites` shows that it fails for other ranges.
- **Utils.HeaderMap:** it is a Dafny map, but the code builds a plain object. On that object, an assignment to the key `"__proto__"` sets the prototype and stores no number. So a header that normalises to `__proto__` is dropped by the code but is a key in the model.
- **Cell values.** A cell is a string. Sheets' numbers and booleans, and `toString` of them, are not modelled.
- **React plumbing.** Rendering, SWR fetching and revalidation, `window` events and toasts are omitted. Each table and dialog
  handler is one synchronous state update.
- **src/lib/config.ts.** The environment reads are the fields of `Config`.
- **The thin route wrappers and src/lib/supabase-optional.ts.** Not modelled: they only call the modelled operations.

## Findings

| source | as written | input that shows it | evidently intended | confidence | as-written member | corrected member |
|---|---|---|---|---|---|---|
| src/actions/id.ts:73-75 | the id of data row idx is written to `toA1(uniqueIdColIndex, idx + 2)`. That is an absolute sheet address built from positions in a grid that starts at the range's top-left cell. src/lib/google-sheets.ts:147-149 does the same. | `GOOGLE_SHEETS_RANGE="Entries!B:H"` with headers `name`, `unique id` in columns B and C, and one row `Ann` with a blank id. The write goes to B2 and overwrites `Ann`. The id stays blank, and every rerun writes again. | write to the id cell's own sheet cell, `toA1(originCol + uniqueIdColIndex, originRow + 1 + idx)` | medium; not executed; only for a range that does not start at A1 | IdAssign.OffsetRangeOverwrites | IdAssign.RerunFindsNothing |
