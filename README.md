# video_annot in Dafny

A verified model of the two pieces of row logic in the video annotation tools.

**The video annotator window** (`player/annot_player_uni.py`). A reviewer works through the rows of a sessions CSV file. Each row names a session. The window:

- keeps a filtered view of row indices and a cursor into that view;
- skips the rows whose download failed or whose video file is missing;
- moves backwards and forwards;
- jumps to a session id;
- writes a status (attack, need_revision, real, virtual_camera) and a reason into the row under the cursor, saves, and moves on;
- keeps a loop flag and a playback speed between 0.25x and 4.0x.

`Annotator.VideoAnnotator` is a class with these fields. Its methods are proved against specification functions:

- `FilterView` builds the view;
- `NextPlayable` gives where the forward skip stops;
- `FindSession` finds a session in the view.

Speed is counted in quarter steps, so 0.25x..4.0x is 1..16. The video folder is a set of file names, and a session has a video when `<session_id>__alt_video.mp4` is in that set. The reason dialog is an `Option<string>` input, where `None` means the reviewer cancelled. Saving the CSV file sets a ghost copy `persisted` of the rows.

**The CSV tool** (`tool/csv_tool.py`). It has four actions, modelled over tables that have already been read: a header, plus rows mapping column names to cell text.

- *Update session status*: sessions whose download failed in a report become `download_error`, with the report's reason.
- *Count statuses*: one bucket per distinct status value, with its number of rows.
- *Find '-' rows*: the row numbers of the rows whose stripped status is `-`.
- *Flag persons with conflicts*: every `real` row of a person who also has an attack or virtual_camera row becomes `need_revision`. An attack row outweighs a virtual camera row when choosing the reason. The tool counts the rewritten rows.

A missing column that pandas would raise `KeyError` for is an `Err(MissingColumn(name))` result. An empty cell and an absent column both read as `""`.

Module `Rows` holds what both programs share:

- the row type;
- `dict.get` with a default;
- Python's `str.strip` over the characters for which `str.isspace` holds;
- the write of a status and a reason.

## Model

| member | source | states |
|---|---|---|
| Rows.StripRemovesPadding | player/annot_player_uni.py:154 | `s.strip()` is a slice of `s` with only whitespace before and after it, and it neither starts nor ends with whitespace |
| Rows.WithStatus | player/annot_player_uni.py:192-193 | after writing status and reason, the row has both columns with the written values, and every other column is as it was |
| Annotator.StatusKeysAreOneToOne | player/annot_player_uni.py:7-12 | the keys 1..4 reach every label, and no two keys give the same label |
| Annotator.VideoFileNameInjective | player/annot_player_uni.py:158-160 | the file name `<session_id>__alt_video.mp4` determines the session, so distinct sessions never share a video file |
| Annotator.Matching | player/annot_player_uni.py:146 | the indices below `n` of the rows whose status equals the filter: each listed row matches, every matching row is listed, in strictly increasing order |
| Annotator.FilterView | player/annot_player_uni.py:141-146 | "All" gives exactly `0..|rows|-1`; any other text gives exactly the rows whose status equals it, strictly increasing; every entry indexes a row |
| Annotator.NextPlayableIsFirstPlayable | player/annot_player_uni.py:150-170 | the forward skip never moves back and stops at the first position whose row is playable (status is not `download_error` after stripping, and the video exists), or at the end of the view |
| Annotator.FindSession | player/annot_player_uni.py:257-264 | the first view position at or after `from` whose row has the session id; none when no position has it |
| Annotator.ReasonToWrite | player/annot_player_uni.py:185-190 | `real` writes the reason `""`; the other labels write the dialog text; nothing is written exactly when a reason is needed and the dialog was cancelled |
| Annotator.Clamp | player/annot_player_uni.py:220-223 | `max(lo, min(hi, x))`: the result is within bounds, equals `x` when `x` is within them, and is the nearer bound otherwise |
| Annotator.VideoAnnotator.constructor | player/annot_player_uni.py:118-127 | loads the rows, shows every row, loop off at speed 1.0x, the cursor on the first playable row, and the player holding that row's video (or nothing when no row is playable) |
| Annotator.VideoAnnotator.PlayCurrentVideo | player/annot_player_uni.py:150-170 | the cursor moves forward to the first playable position, and that row's video is handed to the player; at the end of the view the player is untouched; rows, view, loop flag and speed are unchanged |
| Annotator.VideoAnnotator.ApplyFilter | player/annot_player_uni.py:141-148 | the view becomes `FilterView(rows, selected)`; the cursor restarts at 0 and then skips forward; the player holds the video of the row it stops on, or keeps its video when the skip runs off the end |
| Annotator.VideoAnnotator.PlayPreviousVideo | player/annot_player_uni.py:247-250 | the cursor goes to `max(0, c-1)`, then skips forward; the player holds the video of the row it stops on, or keeps its video at the end of the view; rows, view, loop flag and speed are unchanged |
| Annotator.VideoAnnotator.PlayNextVideo | player/annot_player_uni.py:252-255 | the cursor goes to `min(|view|-1, c+1)`, then skips forward; the player holds the video of the row it stops on, or keeps its video at the end of the view; rows, view, loop flag and speed are unchanged |
| Annotator.VideoAnnotator.SetStatus | player/annot_player_uni.py:185-195 | on a cancelled reason nothing changes; otherwise only the row under the cursor changes, to `WithStatus` of the label and reason, and the saved rows equal the rows |
| Annotator.VideoAnnotator.AdvanceAfterStatus | player/annot_player_uni.py:197-199 | the cursor goes one step forward, then skips forward; the player holds the video of the row it stops on, or keeps its video at the end of the view |
| Annotator.VideoAnnotator.JumpToSession | player/annot_player_uni.py:257-266 | the session id is stripped; on a hit the cursor goes to the first view position with that session id and skips forward, and the player holds the video of the row it stops on (or keeps its video at the end of the view); on a miss the cursor and the player are unchanged |
| Annotator.VideoAnnotator.ChangeSpeed | player/annot_player_uni.py:220-225 | the new speed is the old one plus the step, clamped to 0.25x..4.0x |
| Annotator.VideoAnnotator.ToggleLoop | player/annot_player_uni.py:227-229 | the loop flag is negated |
| Annotator.ToggleLoopTwice | player/annot_player_uni.py:227-228 | two loop toggles are the identity: the flag is as it was, and they change no other field |
| CsvTool.FailureMapKeys | tool/csv_tool.py:81-82 | a session is in the failure map exactly when some report row says `Result == "fail"` for it |
| CsvTool.LastFailureExists | tool/csv_tool.py:81-82 | a session with a failing report row has a last failing row |
| CsvTool.FailureMapHoldsLastReason | tool/csv_tool.py:82 | a failed session maps to the reason of its last failing report row, because later rows overwrite earlier ones |
| CsvTool.MergedRowIsMergedFrom | tool/csv_tool.py:84-89 | the written row marks a failed session `download_error` with the last failure's reason; any other session keeps its status and reason (`""` when absent); other cells are unchanged |
| CsvTool.WithColumn | tool/csv_tool.py:84-87 | assigning a column keeps the header as a prefix and adds exactly one column, the assigned one at the end, when it is new; otherwise the header is unchanged |
| CsvTool.MergeFailureReport | tool/csv_tool.py:76-89 | fails exactly when `Result`, `Session ID`, `Reason` or `session_id` is missing, and names that column; otherwise the header is the sessions header with `status` and then `reason_for_status` appended when absent, and every sessions row is kept in order and written as `MergedFrom` says |
| CsvTool.BumpCounts | tool/csv_tool.py:100 | counting one more value raises that value's count by one and the total by one |
| CsvTool.BumpValues | tool/csv_tool.py:100 | counting one more value adds it to the set of counted values |
| CsvTool.BumpPositive | tool/csv_tool.py:100 | counting keeps every bucket's count positive |
| CsvTool.BumpKeepsDistinct | tool/csv_tool.py:100 | counting keeps one bucket per distinct value |
| CsvTool.Tally | tool/csv_tool.py:100 | one bucket per distinct value (the empty cell included); each count is the value's number of occurrences; every count is positive; the counts add up to the length of the column |
| CsvTool.BucketCountIsCountOf | tool/csv_tool.py:100 | with distinct buckets, a bucket's count is the count for its value |
| CsvTool.CountStatuses | tool/csv_tool.py:96-103 | without a status column, the missing-column error; otherwise distinct buckets whose counts are the number of rows with each status, adding up to the number of rows, with every row's status among them |
| CsvTool.FindDashRows | tool/csv_tool.py:107-114 | the result holds exactly `i + 2` (the reader's record number, the header being 1) for each data row `i` whose stripped status is `-`, in strictly increasing order |
| CsvTool.ConflictReasonIgnoresOrder | tool/csv_tool.py:129-137 | the reason a person is flagged with does not depend on the order of the rows |
| CsvTool.BuildConflictMap | tool/csv_tool.py:129-137 | fails exactly when there is no person_id column and some row is attack or virtual_camera; otherwise maps exactly the persons with such a row, to the attack reason when one of their rows is attack and to the virtual camera reason otherwise |
| CsvTool.Propagated | tool/csv_tool.py:139-145 | the propagation keeps the number of rows |
| CsvTool.ConflictMapRewrites | tool/csv_tool.py:140-144 | with the map the first loop builds, the second loop's test is "flagged", and its rewrite is the propagation's |
| CsvTool.RewriteCountIsFlaggedCount | tool/csv_tool.py:139-145 | with that map, the second loop's count is the number of flagged rows |
| CsvTool.RewriteFlagged | tool/csv_tool.py:139-145 | every row becomes its rewrite under the map, in place, and the result is the number of rows rewritten |
| CsvTool.FlagPersonsWithConflicts | tool/csv_tool.py:125-145 | fails on a missing status column, or on a missing person_id column when some row is suspicious, leaving the rows as they were; otherwise the rows become `Propagated` of the old rows, and the result counts the flagged rows; the saved header gains `reason_for_status` at the end when a row was rewritten and the column was absent, and is unchanged otherwise |
| CsvTool.PropagationChangesExactlyFlagged | tool/csv_tool.py:140-144 | a row changes exactly when it is a `real` row of a flagged person; it then has status `need_revision`, the person's reason, and every other cell as it was |
| CsvTool.FlaggedCountIsChangedRows | tool/csv_tool.py:139-145 | `updated_rows` is the number of rows whose contents changed |
| CsvTool.PropagationKeepsConflicts | tool/csv_tool.py:129-145 | attack and virtual_camera rows are not rewritten and none is created, so every person's reason is the same after the propagation |
| CsvTool.PropagationIsIdempotent | tool/csv_tool.py:129-145 | a second propagation changes nothing and counts 0 rows |

## Left out

- The Qt widgets, layout, sliders, buttons, labels, message boxes, file dialogs and `main` (player/annot_player_uni.py:14-116, 268-305; tool/csv_tool.py:10-74, 157-162). They are user interface with no state of the model.
- The media player calls: `setMedia`, `play`, `pause`, `stop`, `setPosition` and `setPlaybackRate`. `toggle_play_pause` and `check_video_end` (player/annot_player_uni.py:231-245) only talk to the player, so they are not modelled. The model keeps only the file last handed to the player, as `media`.
- The 300 ms timer in `set_status` (player/annot_player_uni.py:195). `SetStatus` is followed by an explicit call of `AdvanceAfterStatus`.
- Reading and writing files: `csv.DictReader`/`DictWriter`, pandas `read_csv`/`to_csv`, and `os.path.exists`. The tables arrive already read, and the video folder is a set of file names. The output file of the merge and the save dialog of the conflict action are not modelled; the modelled result is the table or count that would be saved.
- pandas type coercion and missing values. `read_csv` without `dtype=str` may turn numeric session ids into numbers. `na_values` turns cells such as `NA` or `null` into NaN. Both are library behaviour and are not modelled. Every cell is text, and a NaN cell is `""`.
- `value_counts` sorts its buckets by decreasing count. `Tally` lists them in order of first occurrence; the contract states the counts, not the display order.
- The text of every result message, including the "No rows" message of the find action.
- Rows shorter than the header. `csv.DictReader` fills the missing cells with `None`, and `.strip()` on `None` raises. The model has no `None` cell.
- A NaN `person_id` in the conflict action. Python matches NaN dictionary keys by identity, so the grouping of such rows depends on pandas internals. In the model, all rows without a person share the person `""`.
- The merge on an empty sessions table. There pandas `apply` does not run the lambda on a real row, so the `KeyError` for a missing `session_id` column is not raised as such, and the assignment of the empty result fails in another way. The model reports the missing `session_id` column in that case as well.
- A NaN `Session ID` in the failure report. Python matches NaN dictionary keys by identity, so whether it matches the NaN `session_id` of a session depends on pandas internals. The model reads both as `""`, so such a failure marks the sessions that have no id.
- Saving after a status write (player/annot_player_uni.py:135-139). `DictWriter` raises `ValueError` when the header lacks a `status` or `reason_for_status` column, after the file has already been truncated. The model's `persisted` copy records every save as successful, so it does not capture that failure or the partly written file.
- `keyPressEvent` dispatch (player/annot_player_uni.py:201-218), beyond the `STATUSES` key map.
- `update_info_label` (player/annot_player_uni.py:172-183) builds the text of a label, so the text is not modelled. It reads `row['person_id']` (line 177) after every successful skip (line 167), and from `change_speed` and `toggle_loop`, so a file without a `person_id` column raises `KeyError` there; `Valid` excludes such files (below). After the skip has run off the end of a non-empty view, it reads one past the end and raises `IndexError`. This happens when the loop flag is toggled or the speed is changed in that state.
- Annotator.VideoAnnotator.Valid: requires every row to have a `session_id` and a `person_id` cell. The source reads them with `row['session_id']` and `row['person_id']` and raises `KeyError` without them. A file without `person_id` whose rows are all unplayable would load in the source, since no label is then built; the model does not cover that file.
- Annotator.VideoAnnotator.PlayNextVideo: requires a non-empty view. On an empty view the source sets the cursor to -1 and fails to index the view.
- Annotator.VideoAnnotator.SetStatus: requires the cursor to be inside the view for a label that gets written. At the end of the view the source fails to index it then; a cancelled reason dialog returns before the view is indexed, and the model accepts that call at any cursor.
- Annotator.VideoAnnotator.AdvanceAfterStatus: requires the cursor to be inside the view. The model runs the advance directly after `SetStatus`, which requires the same for a label that gets written. In the source the advance fires 300 ms later, so two status writes within that time queue two advances, and the second one puts the cursor at the length of the view plus one. The model does not represent that state.
- The cursor may equal the length of the view. This is the state after the skip has found no playable row; the source reaches it and keeps it.
