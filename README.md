# Store location updater: a verified model of the review workflow

The store location updater is a single React component (`src/App.js`). A user
uploads a spreadsheet of stores, reviews each store on a map, and moves a
draggable green marker away from the fixed red marker that shows the store's
original position. Saving records a correction in an edit ledger
(`updatedStores`). The ledger is then merged back onto the imported rows for
download.

This project models the component's logic in Dafny and proves what it promises.
The map widget, the spreadsheet codec and browser storage become inputs.

- `wrappers.dfy`, module `Wrappers`: `Option` (standing for JavaScript's `undefined`/`null`) and `Result`.
- `sheet.dfy`, module `Sheet`: cells, rows (`map<string, Cell>`), positions, and the required-column check of the upload.
- `ledger.dfy`, module `Ledger`: edit entries, `findIndex`/`find` by store name, and the replace-or-append upsert.
  Lemmas cover one upsert and any run of upserts.
- `export.dfy`, module `Export`: the merge of the ledger onto the rows, and the download guards.
- `review.dfy`, module `Review`: the component's state as a datatype, with one pure step function per event handler.
  It also holds the invariant `Valid` that every step preserves, and lemmas about the steps.
- `controller.dfy`, module `Controller`: class `Workflow`, whose fields are the component's state variables.
  Its methods update those fields in place. Each method is proved to perform the matching `Review` step and to keep `Valid`.
- `scenarios.dfy`, module `Scenarios`: concrete runs, including a client that drives `Workflow` through its contracts alone.

React runs the marker-position effect (src/App.js:181-226) after every render in
which the cursor, the rows or the map changed. The model therefore ends every
handler that changes one of those with `SyncMarkers`.

Worth knowing about the source, as the model shows it:

- Failed column check: the code empties the imported rows and resets the cursor to 0 (src/App.js:265-266).
  It does not keep the previous data. The model follows the code.
- Save & Next handler: it does not check the moved flag. Only the button's visibility does (src/App.js:613).
  The handler checks only that both markers and some rows exist.
  `Review.SaveAndNext` models the handler; `Review.SaveClick` adds the visibility gate, so a move never made cannot be confirmed.
  The invariant `Valid` shows that this guard is enough to keep `rows[cursor]` in range.
- Unparseable coordinates (`Scenarios.StaleAnchorOnUnresolvable`): the markers stay where the previous record put them.
  A drag followed by Save & Next then records the previous record's anchor as this store's old position.
- Skip & Next: it is disabled on the last record (src/App.js:693).
  So only Save & Next can finish the pass, and an unresolvable last record can be passed only by moving the marker.
- After the pass is finished, a successful geocode still sets the moved flag.
  Save & Next is then shown, but its guard refuses, because the red marker is hidden (`Review.FinishedIsTerminal`).

## Model

| member | source | states |
|---|---|---|
| `Sheet.MissingColumns` | src/App.js:249-257 | the result lists a required name exactly when there are no rows or the first row lacks it; it is a subsequence of `StoreName, Province, Latitude, Longitude` (so in that order) and at most four long |
| `Sheet.MissingFrom` | src/App.js:255-257 | the filter keeps exactly the names the first row lacks (all of them without a first row), in their original order |
| `Sheet.EmptySheetMissesAll` | src/App.js:255-257 | with zero rows all four required names are reported, in order |
| `Sheet.CompleteHeaderPasses` | src/App.js:255-259 | a first row holding all four columns passes the check, whatever the other columns and rows |
| `Ledger.FindIndex` | src/App.js:311-313 | the result is -1 exactly when no entry has the name; otherwise it is the first index whose entry has the name |
| `Ledger.Find` | src/App.js:352-354 | the result is absent exactly when no entry has the name; a found entry is the first entry in the ledger with that name, and in a duplicate-free ledger it is the only one |
| `Ledger.FirstIndexFound` | src/App.js:311-313 | any first index carrying a name is the one `findIndex` reports |
| `Ledger.Upsert` | src/App.js:310-323 | an existing name is overwritten at its first index and the length is kept; a new name is appended at the end; every other entry is unchanged |
| `Ledger.UpsertKeepsNamesUnique` | src/App.js:310-323 | an upsert into a ledger with at most one entry per store name keeps that property |
| `Ledger.UpsertLastWriteWins` | src/App.js:314-321 | after an upsert, looking up the saved name yields exactly the saved entry |
| `Ledger.UpsertLeavesOtherNames` | src/App.js:314-321 | after an upsert, looking up any other name yields what it yielded before |
| `Ledger.LastNamed` | src/App.js:310-323 | the last entry saved under a name in a run of saves, absent exactly when none has the name |
| `Ledger.UpsertAllKeepsNamesUnique` | src/App.js:310-323 | any run of saves, started on a duplicate-free ledger, leaves at most one entry per store name |
| `Ledger.UpsertAllLastWriteWins` | src/App.js:310-323 | after any run of saves, each name saved in the run maps to the last entry saved for it; other names keep their earlier lookup |
| `Export.Merge` | src/App.js:350-364 | same length and order as the imported rows; a row with no ledger entry is unchanged; a matched row gains the entry's new `Latitude`/`Longitude` and keeps every other column |
| `Export.MergeRowKeepsName` | src/App.js:357-361 | the merge never changes a row's `StoreName` |
| `Export.MergeRowIdempotent` | src/App.js:355-363 | merging one row twice with the same ledger is merging it once |
| `Export.MergeIdempotent` | src/App.js:350-364 | merging twice with the same ledger gives the same rows as merging once |
| `Export.MergeKeepsNames` | src/App.js:350-364 | every exported row carries the store name of the imported row at its position |
| `Export.ExportRows` | src/App.js:333-364 | no rows refuses with `NoImportedData`; rows but an empty ledger refuses with `NoEdits`; a missing codec refuses; otherwise the result is the merged rows |
| `Review.InitialIsValid` | src/App.js:23-28 | the initial state satisfies the workflow invariant |
| `Review.SyncMarkers` | src/App.js:181-226 | no change before the map exists; for a resolvable current record, red and green are its position and moved is cleared; for an unresolvable one only the status changes; with no current record both markers are hidden and moved is kept; rows, cursor and ledger never change; the invariant is re-established |
| `Review.RestoreLedger` | src/App.js:39-50 | a stored list replaces the ledger; an absent or unreadable one leaves it; nothing else but the status changes |
| `Review.LoadMap` | src/App.js:63-82 | the map becomes ready once, rows, cursor and ledger are untouched, the invariant is kept |
| `Review.Upload` | src/App.js:234-283 | an unread file changes only the status; a sheet missing columns empties the rows, resets the cursor to 0, hides the markers and reports exactly the missing names; a complete sheet replaces the rows and resets the cursor to 0; the ledger is kept |
| `Review.SaveAndNext` | src/App.js:287-330 | without both markers or without rows only the status changes; otherwise the rows are kept, the ledger is the upsert of the current entry, moved is cleared and the cursor advances by one; the invariant is kept |
| `Review.SaveClick` | src/App.js:613-651 | a click while the candidate has not been moved changes nothing (no ledger change, no cursor advance); a click on the shown button runs the Save & Next handler; the invariant is kept |
| `Review.SaveRecordsMove` | src/App.js:293-329 | after a save the ledger maps the current store to anchor → candidate, other stores are untouched, uniqueness is preserved, and the length grows by one exactly when the store was new |
| `Review.Skip` | src/App.js:654-693 | only a shown and enabled Skip does anything; it advances the cursor by one and never reaches the end of the rows; rows and ledger are untouched |
| `Review.DragEnd` | src/App.js:156-162 | green becomes the drop position and moved is set, so Save & Next is shown; red and everything else are unchanged |
| `Review.Search` | src/App.js:373-378 | a search without the geocoder or with an empty address changes only the status |
| `Review.GeocodeDone` | src/App.js:379-401 | a found location becomes green and sets moved, leaving red unchanged; a failed lookup changes only the status |
| `Review.Download` | src/App.js:333-371 | a download changes nothing but the status, which says whether the export went through or why not |
| `Review.FinishedIsTerminal` | src/App.js:216-225 | once every store is processed, Save & Next only sets the status and Skip & Next is neither shown nor does anything |
| `Controller.Workflow.constructor` | src/App.js:23-34 | the fields start at the initial state |
| `Controller.Workflow.RestoreLedger` | src/App.js:39-50 | the fields are updated as `Review.RestoreLedger` says, keeping the invariant |
| `Controller.Workflow.SyncMarkers` | src/App.js:181-226 | the fields are updated as `Review.SyncMarkers` says, establishing the invariant |
| `Controller.Workflow.LoadMap` | src/App.js:63-82 | the fields are updated as `Review.LoadMap` says, keeping the invariant |
| `Controller.Workflow.Upload` | src/App.js:229-284 | the fields are updated as `Review.Upload` says, keeping the invariant |
| `Controller.Workflow.SaveAndNext` | src/App.js:287-330 | the copy-and-assign or append on the ledger and the cursor increment perform `Review.SaveAndNext`, keeping the invariant |
| `Controller.Workflow.ClickSave` | src/App.js:613-651 | the click fires exactly when the button is shown, and the fields follow `Review.SaveClick` |
| `Controller.Workflow.Skip` | src/App.js:654-693 | the click fires exactly when the button is shown and enabled, and the fields follow `Review.Skip` |
| `Controller.Workflow.DragEnd` | src/App.js:156-162 | the fields are updated as `Review.DragEnd` says, keeping the invariant |
| `Controller.Workflow.Search` | src/App.js:373-378 | a request is sent exactly when the geocoder exists and the address is not empty; the fields follow `Review.Search` |
| `Controller.Workflow.GeocodeDone` | src/App.js:379-401 | the fields are updated as `Review.GeocodeDone` says, keeping the invariant |
| `Controller.Workflow.Download` | src/App.js:333-371 | the rows handed to the codec are `Export.ExportRows` of the current rows and ledger; only the status changes |
| `Scenarios.SaveFirstStore` | src/App.js:287-329 | importing three stores, dragging the first and saving gives a one-entry ledger with old and new position and the cursor on the second store |
| `Scenarios.ReEditReplaces` | src/App.js:314-318 | saving a store already in the ledger replaces its entry instead of adding a second one |
| `Scenarios.SkipUnresolvable` | src/App.js:209-215 | a record with `Latitude` "N/A" changes only the status and can be skipped |
| `Scenarios.StaleAnchorOnUnresolvable` | src/App.js:209-215 | on an unresolvable last record the saved old position is the previous record's anchor |

The predicates `Review.SaveShown` (src/App.js:613), `Review.SkipShown` and
`Review.SkipEnabled` (src/App.js:654-656, 693) and `Review.DownloadShown`
(src/App.js:699) give the visibility and enabled conditions of the buttons.

## Left out

- Rendering, inline styles, hover and focus handlers, and the message wording: these are presentation.
  Status lines are modelled only by kind (`Review.Status`).
  The summary list with `toFixed(6)` (src/App.js:742-791) is also presentation.
- Google Maps script loading, the `initMap` retry through `setTimeout`, and the marker objects with their `setMap`/`setPosition`/`panTo`/`setZoom`/`setCenter` calls (src/App.js:63-178, 387-392).
  These are foreign browser APIs. `LoadMap` models only the moment the map and its markers exist.
  Drag-end and geocode results arrive as input events carrying a position.
- The marker effect's early return while the map or markers are missing (src/App.js:183-185) is folded into one flag, `mapReady`.
- `FileReader`, `XLSX.read`, `sheet_to_json`, `json_to_sheet` and `writeFile` (src/App.js:233-246, 366-369): these are I/O and an external library.
  The upload receives the parsed rows or the way reading failed (`Review.FileRead`).
  The download returns the rows that would be written. A change event without a file (src/App.js:231) is not an event of the model.
- Writing the ledger to local storage (src/App.js:53-60): this is persistence I/O, and its only in-memory effect is a message on failure.
  Reading it (src/App.js:39-50) takes the outcome of `getItem`/`JSON.parse` as input.
- `parseFloat` and floating point: coordinates are an opaque `real` that is only copied and compared.
  Parsing is a parameter of the workflow (`Review.Parser`), where `None` stands for NaN.
- The address text field and `setAddress(currentStore.StoreName)` (src/App.js:191, 567-571): the address is an input of `Search`.
  `Search` and `GeocodeDone` are separate events, and the callback acts on the state at the time it arrives.
- Cell values other than text and numbers: the booleans and dates that `sheet_to_json` can produce are not modelled.
- Column order inside a row: a row is a map, so the key order of the JavaScript objects and the sheet's header order are not modelled.
- `Review.SaveAndNext`: when the cursor is past the end, the source would throw while reading `rows[cursor]`.
  The model returns the state unchanged in that case. `Valid` rules it out for every reachable state.
