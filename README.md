# Bytemaster data app: the edit-and-reconcile core in Dafny

Bytemaster is a Streamlit app on Databricks. Planners use it to review the
recommendations of three optimisation models (Substitution, Batch
Replacement, Production Increase) and to keep master data and user settings.
Every editing page works the same way:

- it reads a warehouse table into a frame;
- it keeps a working copy and an original copy in the session;
- it applies the data editor's reported cell edits to the working copy, each
  page with its own rules (who may change what, and which columns are
  restamped);
- on Save it works out which rows are new or changed and sends them as one
  parameterised `MERGE` per row (page C also sends `DELETE` statements).

The dashboard is read-only. It shows the same tables with multiselect
filters, count KPIs and a sort.

This project models that core:

- `Frames`: frames as values. A `Frame` has a column list and rows, and a row
  maps column labels to cells; a cell that is not there reads as `Null`. The
  module has the cell and column operations the pages use (`.at[...] =`,
  `concat`, `fillna`/`replace`, `drop`), the filter-widget chain
  (`isin` per selected column), the positional view the data editor reports
  edits against, and the string-form row comparison that decides what Save
  sends.
- `DatabaseQuery`: `getData`, `writeData` and `deleteData`.
  - The warehouse is a `Warehouse` object with a log of the statements it
    has executed.
  - Whether the connection opens, which execute fails and what a `SELECT`
    returns are its parameters.
  - The statement builders (`SELECT` parts, `ON`, `SET`, `INSERT`, `WHERE`)
    are functions, each with lemmas pinning down their text.
- `EmailList`: `validate_email_input`. It covers the comma split, the strip,
  the three rejection messages and the address pattern, plus the
  canonical `", "` join that the pages store.
- `UserSettings` (page C), `ModelRecommendation` (page A) and `MasterData`
  (page B): one class per page holding the session state (loaded flag,
  working and original frames, widget key and selection). Its methods are
  the page's load, add, edit-pass and save steps. Each method is specified
  by a function on frames (`RowEdit`, `EditPass`, `Upserts`, `Pending`,
  `ChangedRows`, ...), and the page's promises are proved as lemmas about
  those functions.
- `ValueOrder` and `Dashboard` (page D):
  - the dashboard's loader with its Feedback normalisation;
  - the valid filter columns;
  - the sorted distinct options and the latest-RunID default;
  - the two filter loops;
  - the count KPIs;
  - the descending sort of the model output.
- `Text` and `Wrappers`: `str.strip`, `str.split`, `", ".join`, decimal
  rendering and `Option`/`Result`.

The clock, the request header that carries the user's address, and the
widget state are parameters:

- `now`: the formatted timestamp;
- `header`: `X-Forwarded-Email`;
- `key`, `ui` and `batch`: the editor key a batch of edits was recorded
  under, the filter selections, and the data editor's `edited_rows` in
  dictionary order.

The model reproduces these behaviours of the code as written:

- Page A's save has no rollback: partial merges stay in effect when one
  execute fails.
- Page A's `valid_update_occurred` is never reset inside the edit loop.
  Once one entry has written, every later entry in the same pass is
  restamped and gets the current user's address.
- Page C skips an entry whose addresses fail validation and goes on with
  the rest of the batch.
- Page C compares the kept rows with the original by position after
  deleting. A deletion therefore shifts every later row and sends it again.
- Page B compares frames with `fillna('')` but without the string
  conversion. A cell that only changed type (the text `"1"` against the
  number `1`) counts as changed, while pages A and C would not send it.

## Model

| member | source | states |
|---|---|---|
| Text.Strip | pages/C_User_Settings.py:257-260 | the result has no leading or trailing blank |
| Text.StripIsSlice | pages/C_User_Settings.py:260 | strip removes exactly the leading and the trailing run of blanks |
| Text.StripIdempotent | pages/C_User_Settings.py:260 | stripping twice is stripping once |
| Text.StripEmptyIffBlank | pages/C_User_Settings.py:257 | `strip() == ""` exactly when every character is blank |
| Text.Split | pages/C_User_Settings.py:260 | `split(',')` yields at least one piece and no piece holds the separator |
| Text.JoinSplit | pages/C_User_Settings.py:260 | joining the pieces of a split with the separator gives back the string |
| Text.SplitJoin | pages/C_User_Settings.py:360 | splitting a join of separator-free pieces gives back the pieces |
| Text.JoinSnoc | pages/C_User_Settings.py:481 | joining one more piece appends the separator and the piece |
| Text.StripAll | pages/C_User_Settings.py:260 | the list comprehension strips each piece, in order |
| Text.Elements | pages/C_User_Settings.py:260 | the stripped comma pieces: at least one, each stripped and free of commas |
| Text.ElementsOfJoin | pages/C_User_Settings.py:360 | the pieces of a `", "` join of stripped, comma-free pieces are those pieces |
| Text.NatToString | pages/C_User_Settings.py:392 | decimal rendering of a counter: digits only, two or more from 10 up |
| Text.NatToStringInjective | pages/C_User_Settings.py:392 | distinct counters render differently |
| Text.NumberedKeyInjective | pages/A_Model_Recommendation.py:429 | a widget key prefix followed by distinct counters gives distinct keys |
| Frames.FillEmpty | pages/B_Master_Data.py:155 | `fillna('')` leaves no missing cell and keeps every present one |
| Frames.WithColumn | pages/C_User_Settings.py:285-286 | assigning a column adds its label at the end when absent and keeps the labels otherwise |
| Frames.UnionColumns | pages/C_User_Settings.py:371-374 | `concat` keeps the old labels in front and adds the new ones |
| Frames.SetCell | pages/C_User_Settings.py:431 | `.at[i, c] = v` changes that one cell, adding the column when absent, and nothing else |
| Frames.AppendRow | pages/A_Model_Recommendation.py:380-383 | `concat(..., ignore_index=True)` appends the row at the end |
| Frames.SetColumn | pages/C_User_Settings.py:484 | assigning a scalar column sets that cell in every row |
| Frames.DropColumn | pages/C_User_Settings.py:448 | `drop(columns=[c])` removes the column from the labels and every row and keeps the rest |
| Frames.FillMissing | pages/A_Model_Recommendation.py:270-274 | Feedback is added when absent; missing or empty cells become the default; every other cell is kept |
| Frames.Lookup | pages/A_Model_Recommendation.py:461 | `changes["c"]` is a value recorded under that label in the entry |
| Frames.KeysOf | pages/C_User_Settings.py:427 | the labels of an edited-rows entry, in dictionary order |
| Frames.WriteAll | pages/C_User_Settings.py:427-431 | writing an entry's cells changes only the target row and only the written labels; with distinct labels each written label holds its value |
| Frames.WriteAllStep | pages/C_User_Settings.py:427-431 | writing one more label is one more `.at` assignment |
| Frames.ActivePositions | pages/C_User_Settings.py:315-329 | the positions in the configuration of the filter columns that apply (present in the frame, non-empty selection), increasing, and no others |
| Frames.ActiveSelections | pages/C_User_Settings.py:315-329 | the filters that apply, each with the user's selection; entry k is the column at the k-th applying position of the configuration, so they follow configuration order |
| Frames.ActiveSelectionsComplete | pages/C_User_Settings.py:315-329 | every configured column present in the frame with a non-empty selection is filtered on |
| Frames.Filtered | pages/C_User_Settings.py:318-329 | the labels of the applied filters, in order |
| Frames.Keep | pages/C_User_Settings.py:328-329 | chained `isin` filters keep exactly the rows whose cell lies in every selection, and never more rows |
| Frames.ViewOf | pages/C_User_Settings.py:416 | the editor's positional index: increasing positions, exactly the rows that pass the filters |
| Frames.DisplayView | pages/C_User_Settings.py:416 | the positions the page's filter chain shows form an increasing view |
| Frames.Pick | pages/C_User_Settings.py:416 | `df_display.index[k]` maps the k-th displayed row to its row in the full frame |
| Frames.ViewShowsKept | pages/C_User_Settings.py:416 | the rows shown at the view's positions are exactly the filtered rows |
| Frames.KeepThenOne | pages/D_Dashboard.py:466-467 | filtering filtered rows once more filters by both selections |
| Frames.KeepSnoc | pages/D_Dashboard.py:467 | filtering is row by row: one more row is kept exactly when it passes |
| Frames.KeepNothingSelected | pages/D_Dashboard.py:465 | with no selection every row is kept |
| Frames.ModifiedBelow | pages/C_User_Settings.py:466-472 | the overlap positions whose string forms differ, as an increasing view |
| Frames.ModifiedPositions | pages/A_Model_Recommendation.py:514-520 | the changed mask ranges over the overlap only and marks exactly the rows whose string forms differ |
| Frames.NewRows | pages/A_Model_Recommendation.py:508-510 | the rows past the original length, in order, and none when the frame did not grow |
| Frames.Pending | pages/A_Model_Recommendation.py:502-521 | the rows to save: the new rows and then the modified ones |
| Frames.PendingSelfEmpty | pages/A_Model_Recommendation.py:523 | right after a load or a sync nothing is pending |
| Frames.PendingExact | pages/A_Model_Recommendation.py:519 | with equal column sets a row is modified exactly when some cell's string form differs |
| Frames.PendingFromCurrent | pages/A_Model_Recommendation.py:502-521 | every row sent is a row of the working frame |
| Frames.ModifiedBelowNone | pages/A_Model_Recommendation.py:519 | no differing row means no modified position |
| Frames.RowsWhere | pages/D_Dashboard.py:600 | a boolean mask keeps exactly the rows holding the value, in order: it is the `isin` filter on that one value |
| Frames.RowsWhereInOrder | pages/C_User_Settings.py:447-448 | the kept rows are the rows at the increasing positions whose cell holds the value |
| Frames.RowsWhereCount | pages/D_Dashboard.py:600 | the number of kept rows is the number of positions holding the value, repeated rows counted each time |
| Frames.RowsWhereAll | pages/C_User_Settings.py:448 | when every row holds the value, the mask keeps all rows |
| Frames.RowsWhereNone | pages/C_User_Settings.py:447 | when no row holds the value, the mask keeps none |
| DatabaseQuery.Warehouse.Completed | database_query.py:212-213 | how many statements run before the first failing execute: all before it succeed and the next one fails |
| DatabaseQuery.Warehouse.Execute | database_query.py:213 | an execute either fails and logs nothing, or logs its statement |
| DatabaseQuery.Warehouse.ExecuteAll | database_query.py:212-213 | the loop logs the statements up to the first failure and reports whether all ran |
| DatabaseQuery.Warehouse.Query | database_query.py:140-144 | a read succeeds with the table's frame when the connection opens and the execute succeeds, and fails with the driver's message otherwise |
| DatabaseQuery.SelectQueryShape | database_query.py:133-138 | the query is `SELECT * FROM t`, with the `ActiveFlag` clause appended exactly when the flag is truthy |
| DatabaseQuery.SelectQueryInjective | database_query.py:136-138 | different non-empty flags give different queries |
| DatabaseQuery.GetData | database_query.py:128-146 | success returns the table's frame and logs the query; failure raises `Failed to read data from t: ...` and logs nothing |
| DatabaseQuery.Dedup | database_query.py:167 | one order of `set(keys + updates)`: no repeats, same members |
| DatabaseQuery.DedupIsColumnOrder | database_query.py:167 | deduplicating the keys and updates is an admissible column order |
| DatabaseQuery.SelectParts | database_query.py:170-179 | one `AS c` part per column, in order |
| DatabaseQuery.SelectPartIsCast | database_query.py:173-179 | a part casts to timestamp exactly when its column name contains `Timestamp` |
| DatabaseQuery.BuildSelectParts | database_query.py:170-179 | the loop builds exactly the select parts |
| DatabaseQuery.SelectClauseEntries | database_query.py:181 | the comma-joined select clause splits back into its parts |
| DatabaseQuery.InsertColumnsEntries | database_query.py:185 | the insert column list splits back into the columns |
| DatabaseQuery.InsertValuesEntries | database_query.py:186 | insert value k is `source.` followed by column k |
| DatabaseQuery.SetClauseEntries | database_query.py:192 | the SET clause assigns `target.c = source.c` for exactly the update columns, in order |
| DatabaseQuery.OnClauseSnoc | database_query.py:189 | the ON clause joins one `target.k = source.k` per key with ` AND ` |
| DatabaseQuery.Params | database_query.py:210 | a record's parameters are exactly the given columns (the combined ones for a MERGE, the join keys for a DELETE), with that row's cells |
| DatabaseQuery.MergeParamsAreKeysAndUpdates | database_query.py:167-210 | the parameters are exactly the keys and the update columns |
| DatabaseQuery.Statements | database_query.py:212-213 | one statement per row, in row order, with that row's parameters; used for both the MERGEs and the DELETEs |
| DatabaseQuery.Missing | database_query.py:210 | the combined columns the frame lacks |
| DatabaseQuery.WriteData | database_query.py:156-222 | an empty frame does nothing; otherwise a closed connection or a missing column raises `Database sync failed: ...` with nothing logged; otherwise the merges up to the first failure are logged and a failure is reported |
| DatabaseQuery.FirstMissing | database_query.py:256 | the first join key the frame lacks, or none when it has them all |
| DatabaseQuery.DeleteData | database_query.py:230-260 | an empty frame does nothing; a closed connection or a missing key fails with nothing logged; otherwise the deletes up to the first failure are logged |
| DatabaseQuery.WhereClauseSingle | database_query.py:246-249 | with one key the WHERE clause is `k = :k` |
| DatabaseQuery.WhereClauseSnoc | database_query.py:246-249 | one more join key adds one more `k = :k` at the end, after ` AND ` |
| DatabaseQuery.DeleteParamsAreKeys | database_query.py:246-257 | each DELETE is `DELETE FROM <table> WHERE <clause>` with exactly the join keys as parameters, holding that record's values |
| EmailList.Find | pages/C_User_Settings.py:261 | the first position of a character, or the length when it is absent |
| EmailList.FullMatchIsPattern | pages/C_User_Settings.py:261 | the matcher accepts exactly the strings of the address pattern |
| EmailList.FullMatchSound | pages/C_User_Settings.py:261 | an accepted address splits at its first `@` and at the first `.` after it |
| EmailList.PatternSplitFound | pages/C_User_Settings.py:261 | any split of the pattern's shape is found by the matcher |
| EmailList.RegexMatchStripped | pages/C_User_Settings.py:261-268 | on a stripped piece, `email_regex.match` is the full pattern match |
| EmailList.CheckElements | pages/C_User_Settings.py:263-271 | the pieces pass exactly when none is empty, none has a space and all match, and the message is empty exactly then |
| EmailList.FirstFailureWins | pages/C_User_Settings.py:263-271 | the scan returns the message of the first failing piece: empty piece, then a space, then the pattern |
| EmailList.ValidateFirstFailure | pages/C_User_Settings.py:257-271 | a non-blank input is refused with the message of its first failing element |
| EmailList.ValidateEmailInput | pages/C_User_Settings.py:252-271 | the loop returns the verdict and the message of the first offending piece |
| EmailList.CanonicalElements | pages/C_User_Settings.py:360 | the stored `", "` form has the same stripped pieces as the input |
| EmailList.CanonicalIdempotent | pages/C_User_Settings.py:430 | cleaning an already cleaned value changes nothing |
| EmailList.CanonicalSameVerdict | pages/C_User_Settings.py:360 | the cleaned value gets the same verdict and message as the raw input |
| EmailList.CanonicalKeepsValid | pages/C_User_Settings.py:360 | cleaning a valid input gives a valid value |
| EmailList.SingleElementCanonical | pages/C_User_Settings.py:360 | one piece is cleaned to its stripped text |
| EmailList.SeveralElementsCanonical | pages/C_User_Settings.py:257 | input with a comma is never blank, cleaned or not |
| EmailList.TwoPiecesHaveSeparator | pages/C_User_Settings.py:260 | two pieces mean the separator occurs |
| EmailList.NotBlank | pages/C_User_Settings.py:257 | a string holding a non-blank character is not blank |
| EmailList.BlankInputRejected | pages/C_User_Settings.py:257-258 | a missing input and every input made only of blanks, the empty one included, give `Email field cannot be empty.` |
| EmailList.DoubledCommaRejected | pages/C_User_Settings.py:264-265 | `a,,b` is refused with the empty-email message |
| EmailList.SingleAddressVerdict | pages/C_User_Settings.py:263-271 | for comma-free non-blank input: the space message, else the invalid-format message naming the piece, else success |
| UserSettings.WithDeleteColumn | pages/C_User_Settings.py:285-286 | a Delete column holding false is added when the table has none; the rows are otherwise as read |
| UserSettings.EmailInput | pages/C_User_Settings.py:256-259 | a falsy editor value (None, False, a zero number) takes the empty-field branch; a text is passed as is and any other value as str(value) |
| UserSettings.FalsyInputRejected | pages/C_User_Settings.py:256-257 | None, "", False and a zero number are all refused with "Email field cannot be empty." |
| UserSettings.CleanChange | pages/C_User_Settings.py:428-430 | only a text ApprovedMailID value is rewritten; every other label and value is kept |
| UserSettings.CleanChanges | pages/C_User_Settings.py:427-430 | each entry cell is cleaned, in order |
| UserSettings.RowEdit | pages/C_User_Settings.py:416-434 | one entry changes only its target row |
| UserSettings.EditPass | pages/C_User_Settings.py:415-436 | an edit pass keeps the number of rows |
| UserSettings.EditPassKeepsDelete | pages/C_User_Settings.py:415-436 | the Delete column survives every edit pass |
| UserSettings.PlantIds | pages/C_User_Settings.py:352 | `astype(str).tolist()` of the PlantId column, one per row |
| UserSettings.Marked | pages/C_User_Settings.py:447 | the rows to delete keep the frame's labels |
| UserSettings.Kept | pages/C_User_Settings.py:448 | the kept rows no longer carry a Delete column |
| UserSettings.AddAcceptedIff | pages/C_User_Settings.py:344-355 | a new user is accepted exactly when both fields are non-empty, the addresses validate and the PlantId is not already present |
| UserSettings.DuplicatePlantRefused | pages/C_User_Settings.py:352-355 | a PlantId already present is refused with `PlantId '...' already exists!` |
| UserSettings.AddedUserAppends | pages/C_User_Settings.py:370-374 | adding a user appends one row and keeps every earlier row |
| UserSettings.AddedUserRow | pages/C_User_Settings.py:360-368 | the new row has the PlantId, the cleaned addresses and Delete false |
| UserSettings.AddedPlantIsNew | pages/C_User_Settings.py:352-356 | after an accepted add, no earlier row has the new PlantId |
| UserSettings.AddedAddressesValid | pages/C_User_Settings.py:345-360 | the stored addresses of an accepted user validate and are already clean |
| UserSettings.RejectedRowUntouched | pages/C_User_Settings.py:419-424 | an entry with invalid addresses leaves the frame as it was and reports one `Row edit failed: ` message |
| UserSettings.AcceptedRowWritten | pages/C_User_Settings.py:427-434 | an accepted entry writes every label, with the addresses cleaned; it restamps the row unless Delete is the only change; a Delete-only change touches nothing else |
| UserSettings.StoredAddressesValid | pages/C_User_Settings.py:419-431 | an address edit that passed validation is stored in a valid, clean form |
| UserSettings.UntargetedRowKept | pages/C_User_Settings.py:415-436 | a row no entry targets is unchanged by the pass |
| UserSettings.EditPassMessages | pages/C_User_Settings.py:419-424 | the pass reports one message per refused entry |
| UserSettings.UpsertsAreKeptRows | pages/C_User_Settings.py:448-474 | every row sent for upsert is an unmarked working row without its Delete flag |
| UserSettings.MarkedNeverUpserted | pages/C_User_Settings.py:447-448 | marked rows are all flagged Delete; rows sent for upsert carry no Delete column |
| UserSettings.SaveIsSettled | pages/C_User_Settings.py:482-485 | after a save, a second save has nothing to delete and nothing to write |
| UserSettings.DeleteShiftsDiff | pages/C_User_Settings.py:459-474 | deleting row 0 in front of an unchanged row sends that row again, because the comparison is positional |
| UserSettings.WriteChanges | pages/C_User_Settings.py:427-431 | the loop writes the cleaned entry into the target row |
| UserSettings.RunDeletes | pages/C_User_Settings.py:455-457 | the marked rows' DELETEs are logged on success; nothing is sent when none is marked |
| UserSettings.RunUpserts | pages/C_User_Settings.py:459-478 | the MERGEs of the new and modified kept rows are logged on success; nothing is sent when none is pending |
| UserSettings.UserSettingsPage.LoadUserData | pages/C_User_Settings.py:274-292 | a successful read sets both copies to the table with a Delete column; a failed read keeps the state and reports `Error loading UserSettings: ...` |
| UserSettings.UserSettingsPage.EnsureLoaded | pages/C_User_Settings.py:298-303 | loads only when nothing is loaded: then both copies become the table with its Delete column and the SELECT is logged, or a failure keeps everything with `Error loading UserSettings: ...`; a loaded page is kept as it is and nothing runs |
| UserSettings.UserSettingsPage.AddUser | pages/C_User_Settings.py:344-381 | a refusal keeps the state; an accepted user is appended and the editor key advances |
| UserSettings.UserSettingsPage.EditRow | pages/C_User_Settings.py:416-434 | one entry's effect on the working frame and its messages are `RowEdit` |
| UserSettings.UserSettingsPage.ApplyEdits | pages/C_User_Settings.py:408-439 | a batch recorded under another key changes nothing; otherwise the working frame and the messages are the edit pass over the displayed view |
| UserSettings.UserSettingsPage.Save | pages/C_User_Settings.py:443-494 | nothing to save exactly when nothing is marked and nothing is pending; a save logs the deletes then the merges; it reports the `Deleted n rows.` and `Updated/Added m rows.` messages joined by a vertical bar between spaces, syncs the original to the kept rows, resets the Delete flags and advances the key; a failure reports `Save failed: ...` and leaves in the log the statements that ran before it, deletes before merges |
| ModelRecommendation.Config | pages/A_Model_Recommendation.py:241-260 | each model's table is `bytemaster.appdata.` followed by its name |
| ModelRecommendation.TimestampColumn | pages/A_Model_Recommendation.py:444 | the restamped column is never ActualSaving, Feedback or UserEmail |
| ModelRecommendation.Normalised | pages/A_Model_Recommendation.py:270-274 | the loaded frame has a Feedback column and the same rows |
| ModelRecommendation.RowEdit | pages/A_Model_Recommendation.py:449-472 | one entry changes only its target row; its refusal and write flags are `Refuses` and `Updates` |
| ModelRecommendation.EditPass | pages/A_Model_Recommendation.py:449-472 | an edit pass keeps the number of rows |
| ModelRecommendation.EditRecommendation | pages/A_Model_Recommendation.py:450-472 | the loop body computes exactly `RowEdit` |
| ModelRecommendation.ActualSavingLock | pages/A_Model_Recommendation.py:453-462 | an ActualSaving edit is refused exactly when the effective Feedback is Unactioned; an accepted one is written; a refused one leaves the cell |
| ModelRecommendation.FeedbackAlwaysWritten | pages/A_Model_Recommendation.py:465-467 | a Feedback edit is always written |
| ModelRecommendation.StampRule | pages/A_Model_Recommendation.py:462-472 | the write flag is set exactly when it already was, Feedback was edited or an ActualSaving edit was accepted; when set, the row gets the timestamp and the user; otherwise nothing changes |
| ModelRecommendation.PassFlagStep | pages/A_Model_Recommendation.py:446-472 | the pass's write flag after one more entry is that entry's step from the flag before |
| ModelRecommendation.FlagNeverReset | pages/A_Model_Recommendation.py:446-472 | once set, the write flag stays set for the rest of the pass |
| ModelRecommendation.StampedAfterFirstWrite | pages/A_Model_Recommendation.py:470-472 | after an earlier write, a later entry's row is restamped even when that entry writes nothing |
| ModelRecommendation.UntargetedRowKept | pages/A_Model_Recommendation.py:449-472 | a row no entry targets is unchanged by the pass |
| ModelRecommendation.RefusalKeepsEarlierWrites | pages/A_Model_Recommendation.py:456-486 | a refused entry after an accepted Feedback edit leaves that edit in place and flags the pass |
| ModelRecommendation.RefusalReported | pages/A_Model_Recommendation.py:459 | once an entry is refused, the pass reports a refusal |
| ModelRecommendation.AddedRecordAppends | pages/A_Model_Recommendation.py:380-383 | adding a record appends one row and keeps every earlier row |
| ModelRecommendation.AddedRecordRow | pages/A_Model_Recommendation.py:365-375 | the new row has the three ids, ActualSaving 0.0, Feedback Unactioned and the timestamp |
| ModelRecommendation.EditPassKeepsFeedback | pages/A_Model_Recommendation.py:449-472 | the Feedback column survives every edit pass |
| ModelRecommendation.RecommendationSession.LoadData | pages/A_Model_Recommendation.py:263-284 | a successful read sets both copies to the normalised table of that model; a failure keeps the state and reports `Error loading data for m: ...` |
| ModelRecommendation.RecommendationSession.EnsureLoaded | pages/A_Model_Recommendation.py:288-296 | loads the selected model only when nothing is loaded: both copies become its normalised table and the SELECT is logged, or a failure keeps everything; a loaded page is kept and nothing runs |
| ModelRecommendation.RecommendationSession.SwitchTab | pages/A_Model_Recommendation.py:309-316 | a tab switch selects the model, reads its table (both copies become the normalised table and the SELECT is logged; a failure keeps the copies and reports `Error loading data for <model>: ...`) and advances the editor key either way |
| ModelRecommendation.RecommendationSession.AddRecord | pages/A_Model_Recommendation.py:360-390 | a missing id is refused with `Missing ID fields!`; otherwise the record is appended and the key advances |
| ModelRecommendation.RecommendationSession.ApplyEdits | pages/A_Model_Recommendation.py:440-490 | a batch under another key changes nothing; otherwise the working frame is the edit pass, and a refusal advances the key |
| ModelRecommendation.RecommendationSession.Save | pages/A_Model_Recommendation.py:494-536 | with nothing pending nothing is sent; a save logs one MERGE per pending row, syncs the original and advances the key; a failure reports `Failed to save: ...`, keeps the snapshot and leaves the merges that ran before it in the log (no rollback) |
| MasterData.TimestampColumn | pages/B_Master_Data.py:134 | the restamped column is never ActiveFlag or UserEmail |
| MasterData.RowEdit | pages/B_Master_Data.py:137-144 | one entry keeps the number of rows |
| MasterData.EditPass | pages/B_Master_Data.py:137-144 | an edit pass keeps the number of rows |
| MasterData.ChangedBelow | pages/B_Master_Data.py:155 | the positions whose `fillna('')` rows differ, as an increasing view |
| MasterData.ChangedRows | pages/B_Master_Data.py:155-156 | the changed rows keep the labels, one per changed position |
| MasterData.EditMasterRow | pages/B_Master_Data.py:138-144 | the loop body computes exactly `RowEdit` |
| MasterData.ActiveFlagOnly | pages/B_Master_Data.py:138-143 | an entry without ActiveFlag changes nothing; one with it writes the flag, the timestamp and the user into its row |
| MasterData.UntargetedRowKept | pages/B_Master_Data.py:137-144 | a row no ActiveFlag entry targets is unchanged by the pass |
| MasterData.ChangedBelowNone | pages/B_Master_Data.py:155 | no differing row means no changed position |
| MasterData.NothingChangedAfterSync | pages/B_Master_Data.py:163 | right after a load or a sync nothing is changed |
| MasterData.TypeOnlyChangeIsSent | pages/B_Master_Data.py:155 | a cell that only changed type counts as changed here, though the string comparison of pages A and C would not count it |
| MasterData.MasterSession.LoadData | pages/B_Master_Data.py:23-39 | a successful read sets both copies and records the loaded type; a failure keeps the state |
| MasterData.MasterSession.Start | pages/B_Master_Data.py:44-53 | reloads exactly when nothing is loaded or the loaded type differs from the selection: both copies become the selected table and the SELECT is logged, or a failure keeps everything and reports `Error loading data for <table>: ...` |
| MasterData.MasterSession.Select | pages/B_Master_Data.py:66-71 | selecting another table forces a reload |
| MasterData.MasterSession.GoHome | pages/B_Master_Data.py:59-64 | going home drops the data and the loaded type |
| MasterData.MasterSession.ApplyEdits | pages/B_Master_Data.py:130-147 | a batch under another key changes nothing; otherwise the working frame is the edit pass over the displayed view |
| MasterData.MasterSession.Save | pages/B_Master_Data.py:151-167 | with nothing changed nothing is sent; a save logs one MERGE per changed row and syncs the original; a failure reports `Failed to save: ...`, keeps the snapshot and leaves the merges that ran before it in the log |
| ValueOrder.TextLessIrreflexive | pages/D_Dashboard.py:445 | no text sorts before itself |
| ValueOrder.TextLessTransitive | pages/D_Dashboard.py:445 | the text order is transitive |
| ValueOrder.TextLessTotal | pages/D_Dashboard.py:445 | distinct texts are ordered one way or the other |
| ValueOrder.LessIrreflexive | pages/D_Dashboard.py:445 | no cell sorts before itself |
| ValueOrder.LessTransitive | pages/D_Dashboard.py:445 | the cell order is transitive |
| ValueOrder.LessTotal | pages/D_Dashboard.py:445 | distinct cells are ordered one way or the other |
| ValueOrder.LessAsymmetric | pages/D_Dashboard.py:566 | two cells are never each below the other |
| ValueOrder.NullIsLeast | pages/D_Dashboard.py:566 | a missing cell is below every present one, so a descending sort puts it last |
| ValueOrder.InsertValue | pages/D_Dashboard.py:445 | inserting into the sorted options adds the value once at most |
| ValueOrder.InsertValueIncreasing | pages/D_Dashboard.py:445 | inserting keeps the options strictly increasing |
| ValueOrder.InsertRow | pages/D_Dashboard.py:566 | inserting a row keeps the multiset of rows plus that row |
| ValueOrder.InsertRowDescending | pages/D_Dashboard.py:566 | inserting into rows sorted by descending key keeps them sorted |
| ValueOrder.SortDescending | pages/D_Dashboard.py:566 | `sort_values` permutes the rows |
| ValueOrder.SortDescendingSorted | pages/D_Dashboard.py:566 | after the sort no row's key is below a later row's key |
| Dashboard.LoadDashboardData | pages/D_Dashboard.py:333-351 | a successful read returns the table, with Feedback normalised for model tables; a failure reports `Error loading data: Failed to read data from t: ...` and returns an empty frame |
| Dashboard.PreparedFeedback | pages/D_Dashboard.py:338-341 | model tables come back with Feedback present, never missing or empty, other cells as read; master tables as read |
| Dashboard.ValidFilters | pages/D_Dashboard.py:433-437 | exactly the configured filters the frame has, empty exactly when it has none of them, and all of them when it has every one |
| Dashboard.Column | pages/D_Dashboard.py:445 | a column's cells, row by row |
| Dashboard.Options | pages/D_Dashboard.py:445 | `sorted(dropna().unique())`: strictly increasing, no more than the rows, and exactly the column's present values |
| Dashboard.LastOptionIsMaximum | pages/D_Dashboard.py:449-451 | the RunID default, the last option, is the column's maximum |
| Dashboard.DistinctCountIsCardinality | pages/D_Dashboard.py:367-368 | `nunique()` is the number of distinct present values |
| Dashboard.IncreasingCardinality | pages/D_Dashboard.py:367-368 | strictly increasing options have no repeats |
| Dashboard.DashboardSelections | pages/D_Dashboard.py:441-462 | each selection is a valid filter with its non-empty choice, and every valid filter with a non-empty choice is included |
| Dashboard.CollectSelections | pages/D_Dashboard.py:443-462 | the first loop collects exactly the selections |
| Dashboard.ApplySelections | pages/D_Dashboard.py:464-467 | the second loop keeps exactly the rows passing every selection |
| Dashboard.RenderData | pages/D_Dashboard.py:427-469 | an empty frame or one with no valid filter is returned as it is; otherwise the frame is filtered by the selections |
| Dashboard.RenderedIsOrderedSelection | pages/D_Dashboard.py:464-469 | the filtered table is the loaded rows at increasing positions, exactly those in every selection |
| Dashboard.NoValidFilterKeepsAll | pages/D_Dashboard.py:436-437 | with no valid filter column nothing is filtered out |
| Dashboard.CountKpis | pages/D_Dashboard.py:356-369 | no cards for an empty frame; Total Recs is the row count; Plants and Components are the numbers of distinct non-null PlantId and ComponentId values (`nunique`), 0 without their column |
| Dashboard.AcceptedCount | pages/D_Dashboard.py:600 | Accepted Proposals is the number of rows whose Feedback is `Accept`, 0 without a Feedback column |
| Dashboard.SortColumn | pages/D_Dashboard.py:564 | RunID when present, else CreatedTimestamp when present, else no sort |
| Dashboard.ModelOutput | pages/D_Dashboard.py:564-566 | the model output keeps the labels and permutes the rows |
| Dashboard.ModelOutputSorted | pages/D_Dashboard.py:565-566 | with a sort column, the model output is sorted by descending key |

## Left out

- Widgets, layout, CSS, toasts, spinners, `time.sleep` and `st.rerun`. Each page step is a method; a rerun is the next call.
- The connection (`get_db_connection`, the Databricks SQL connector, OAuth through `auth/auth.py`). `config/config.py` is not part of this model. The warehouse's behaviour is the `Warehouse` parameters.
- `config/configuration.py` is not part of this model. The dashboard's table path and its configured filter columns are plain parameters (`table` of `Dashboard.LoadDashboardData`, `configured` of `Dashboard.RenderData`).
- `app.py`, `test.py`, `pages/B_Master_Data_old.py` and the commented-out earlier revisions in each page. None of them is live code of the pages.
- Frames.AppendRow, Frames.SetCell, Frames.Pending: pandas dtype upcasting is not modelled. A concat of a row lacking an integer column (such as RunID), or an `.at` write of a float into an int64 column, turns that column into float64. `astype(str)` of every untouched cell then reads `"5.0"` instead of `"5"`. The pages then re-send every overlapping row on the next save after such an add or edit. In the model each cell keeps its text, so `Pending` sends only the appended and edited rows.
- Number parsing, `pd.to_numeric`, float input, sums, the reduction percentage and the charts. A number is its text (`Number(repr)`), and the dashboard's money KPIs are not modelled.
- Timestamp parsing and formatting (`pd.to_datetime(...).dt.strftime`). The formatted clock reading is the parameter `now`, and loaded timestamps are kept as read.
- `st.cache_data` on the dashboard loader. Every call reads afresh.
- WriteData: the order of `list(set(keys + updates))` is not fixed in Python. The column order is a parameter constrained by `IsColumnOrder`.
- WriteData, DeleteData: the text of a pandas `KeyError` for a missing column is approximated as the quoted list of missing labels.
- DeleteData: the list-of-records input form is not modelled. The pages only pass a frame.
- Frames.Keep: covers `isin` with whole-value equality only. pandas equates `1`, `1.0` and `True` across types, and this model does not.
- ValueOrder.Less: compares two numbers by their text, as non-negative integers written without leading zeros. Fractions and negative numbers are not ordered numerically. Comparing values of different kinds ranks them (missing, flag, number, text) where Python would raise `TypeError`.
- ValueOrder.SortDescending: a stable insertion sort stands in for pandas' default sort, which is not guaranteed to be stable. The result is a sorted permutation either way, but ties may come out in a different order.
- UserSettings.UserSettingsPage.AddUser: requires a PlantId column. Without one, the page raises a `KeyError` that this model does not reproduce.
- UserSettings.CleanChange: only text values are cleaned. A non-text ApprovedMailID would make `.split` raise, which is not modelled.
- ModelRecommendation.RecommendationSession.ApplyEdits, MasterData.MasterSession.ApplyEdits, UserSettings.UserSettingsPage.ApplyEdits: require each entry's displayed position to lie inside the view (`BatchFits`). The data editor only reports such positions.
- Frames with no columns but some rows, and labels repeated in a column list, are not modelled separately.
- Access control: no permissions are checked on these pages, and none are modelled.
