# AuditBot core, modelled in Dafny

AuditBot is a desktop disk auditor. Its main process walks a directory tree
depth-first in listing order and builds one record per file. Each record holds
the path, the content digest, the size, the access and modification times, the
lowercased extension, and a duplicate flag. A record is flagged when another
file of the same scan has the same digest; the first file seen with a digest is
flagged in place when its first twin turns up. The start-scan handler then:

- buckets the records by file type, with an empty extension counted under "unknown";
- sums the sizes and counts the flagged records;
- INSERTs OR REPLACEs every record into a `files` table keyed by path;
- appends one row to `scan_history` whose `space_saved` is the summed size of the flagged records.

The cleanup-files handler unlinks the requested paths one after the other. It
deletes a path's row when the unlink succeeds, and answers with one result per
path in input order. A failure is recorded in the results rather than thrown.

The window keeps the selection as a Set and the last scan's files. Its file
table is filtered by a search term and by an active filter: all, duplicates,
unused (last access more than ninety days ago) or cache (the path ends in a cache
pattern). After a clean-up it lists the files that were not removed, and its
dashboard shows the scan's figures.

The model has these modules:

- `Common`: Option, Result, and a filter over sequences with its lemmas.
- `Text`: ASCII lowercasing, suffix and substring tests.
- `Records`: the directory tree, the file record, and the path helpers.
- `Walk`: the specification of the walk, and the `Scanner` class, whose `WalkDir`
  and `Add` methods do the one-pass marking with a map from digest to first
  record. It also holds the lemmas on what the walk visits and what it flags.
- `Summary`: the per-type buckets and the totals, with their consistency lemmas.
- `Store`: the `Database` class with its `files` map and `history` sequence,
  and the `StartScan` method.
- `Cleanup`: the `FileSystem` class with `Unlink`, and the `CleanupFiles` method
  proved against the fold `Run`.
- `Classify`: the cache and unused classifiers and the status badge.
- `Renderer`: the table filter, the remaining-files filter, the selection set,
  the dashboard figures, and the `Window` class whose methods are the event handlers.

Things outside the program become parameters:

- The file system is a value of type `Entry`; an entry with `readable` false
  stands for a readdir, stat or readFile that throws.
- SHA-256 is a function parameter `hash`.
- The clock is an integer `now`, in milliseconds.
- The working directory is a parameter `cwd`.
- The confirmation dialog's answer is a boolean `confirmed`.

Some consequences of the code that a reader might not expect:

- `space_saved` (and the dashboard's savings) add up the size of every flagged
  record, the first copy of each group included. The program does not leave
  out one copy per group.
- A read error anywhere in the tree rejects the whole scan, and nothing is written.
- Records come in readdir order, with no sorting.
- `duplicateCount` counts flagged records, not groups.

After a clean-up the window updates the table, clears the selection and disables
the clean-up button; it does not update `currentFiles`, which still holds
the removed files, so a later search or filter change lists them again; the
model keeps this behaviour (`Renderer.Window.CleanupClicked` leaves
`currentFiles` as it was).

## Model

| member | source | states |
|---|---|---|
| Walk.ScanDirectory | auditbot-core.js:43-84 | the result is the reference walk `ScanSpec`: records in depth-first listing order, each flagged exactly when another record shares its digest, or the failing path when a read throws |
| Walk.Scanner.WalkDir | auditbot-core.js:47-80 | the walk of one directory succeeds exactly when the reference walk does, fails with the same path otherwise, and appends exactly the reference records to the scanner's (unflagged) record list while keeping the digest index valid |
| Walk.Scanner.WalkEntries | auditbot-core.js:50-79 | the loop over a directory's entries succeeds exactly when the reference loop `WalkChildren` does, stops with the same failing path otherwise, and appends exactly the reference records while keeping the digest index valid |
| Walk.Scanner.VisitEntry | auditbot-core.js:50-79 | one loop iteration: recurse into a directory, fail on an unreadable file, or add the file's record; the outcome matches the reference step `WalkChild` |
| Walk.Scanner.Add | auditbot-core.js:70-77 | appending a record keeps the invariant that `files` is the marked version of all records so far and that `hashMap` maps each digest to its first record |
| Walk.Scanner.constructor | auditbot-core.js:44-45 | the scan starts with no records and an empty digest map |
| Walk.Record | auditbot-core.js:60-68 | definition of the record of one file: its path, digest, size, times and file type, unflagged; see `WalkDirRecords` |
| Walk.MarkDuplicates | auditbot-core.js:70-77 | the flags the one-pass marking produces, one record per input record (the marking methods above are proved equal to it) |
| Walk.MarkAppendTwin | auditbot-core.js:70-72 | a new record whose digest was seen at index k flags both itself and record k and changes nothing else |
| Walk.MarkAppendFresh | auditbot-core.js:73-75 | a new record with an unseen digest is unflagged and no other flag changes |
| Walk.DuplicateIffGroupOfTwo | auditbot-core.js:70-75 | a record is flagged if and only if at least two records of the scan carry its digest |
| Walk.SameHashBothFlagged | auditbot-core.js:70-72 | two records with equal digests are both flagged, the first-seen one included |
| Walk.WalkDirRecords | auditbot-core.js:60-68 | every record the walk builds starts unflagged and has as type the lowercased extension of its path |
| Walk.WalkChildrenRecords | auditbot-core.js:50-79 | the same for the records of a directory's loop |
| Walk.WalkChildRecords | auditbot-core.js:53-77 | the same for the records of one entry |
| Walk.WalkChildrenStep | auditbot-core.js:50-79 | after a successful prefix, one more entry either aborts the loop with its failure or appends its records |
| Walk.WalkChildrenFailurePersists | auditbot-core.js:48-57 | a failure in a prefix of the entries is the failure of the whole loop: the first error aborts the walk |
| Walk.WalkDirSucceedsIffReadable | auditbot-core.js:48-57 | a walk succeeds if and only if its root is a directory and every entry under it can be read |
| Walk.WalkChildrenSucceedsIffReadable | auditbot-core.js:50-57 | a directory's loop succeeds if and only if every child subtree can be read |
| Walk.WalkChildSucceedsIffReadable | auditbot-core.js:53-57 | one entry succeeds if and only if its whole subtree can be read |
| Walk.WalkDirCount | auditbot-core.js:53-77 | a successful walk yields exactly one record per non-directory entry in the tree |
| Walk.WalkChildrenCount | auditbot-core.js:50-79 | the same count for a directory's loop |
| Records.Join | auditbot-core.js:51 | definition: directory, separator, entry name; its properties are in `BaseNameOfJoin` |
| Records.BaseNameOfJoin | auditbot-core.js:51 | a joined path starts with the directory and a separator, and its base name is the entry name |
| Records.BaseName | auditbot-core.js:66 | the whole last path segment: a suffix of the path without separator, preceded by a separator or reaching the start of the path |
| Records.ExtName | auditbot-core.js:66 | the extension is non-empty if and only if the base name has a dot after its first character; then it is the suffix of the base name from its last dot, with no further dot or separator |
| Records.FileType | auditbot-core.js:66 | the extension in lower case: same length, each character the lowercase of the extension's character at that position, empty exactly when the extension is, starting with a dot, with no capital letter |
| Records.FileTypeExample | auditbot-core.js:66 | "/a/b.TXT" has file type ".txt" |
| Store.StartScan | auditbot-core.js:107-173 | a failed walk returns its error and writes nothing; otherwise it returns the records with their per-type buckets, total size and duplicate count, upserts every record, and appends one history row with the scan's totals and `space_saved` |
| Store.Database.constructor | auditbot-core.js:19-39 | a new database starts with both tables empty |
| Store.Database.Upsert | auditbot-core.js:136-148 | INSERT OR REPLACE puts the record under its path and replaces any older row there |
| Store.Database.AppendHistory | auditbot-core.js:152-161 | a history row is appended and the files table is untouched |
| Store.Database.Delete | auditbot-core.js:180 | removes the row for a path (if any) and nothing else |
| Store.LastPathIndex | auditbot-core.js:136-148 | the index of a record with the path after which no record has it, or -1 |
| Store.LastWithPath | auditbot-core.js:136-148 | the record at the last index with the path, or none exactly when no record has that path |
| Store.Upserted | auditbot-core.js:136-148 | definition: each record in turn replaces the row at its path; its meaning is stated by `UpsertedAt` |
| Store.UpsertedAt | auditbot-core.js:116-148 | after the upserts, a scanned path holds the scan's last record for it, and any other path keeps its old row or stays absent |
| Store.LastWithPathDistinct | auditbot-core.js:136-148 | when a scan's paths are distinct, each record is the row left for its path |
| Store.UpsertIdempotent | auditbot-core.js:136-148 | storing the same scan twice leaves the same table as storing it once |
| Summary.ByType | auditbot-core.js:116-131 | definition: the buckets after the loop has seen the records; its meaning is stated by `ByTypeBucket` and `TotalOfByType` |
| Summary.SpaceSaved | auditbot-core.js:160 | definition of the `space_saved` value; `SpaceSavedIsDuplicateSize` and `DuplicatesWithinTotal` state what it is |
| Summary.TotalOfByType | auditbot-core.js:116-133 | the per-type buckets add up to the number of records, the total size and the duplicate count |
| Summary.ByTypeBucket | auditbot-core.js:116-130 | a bucket exists exactly for a type some record has (empty type as "unknown") and holds exactly those records' count, size and duplicates |
| Summary.SpaceSavedIsDuplicateSize | auditbot-core.js:160 | the stored `space_saved` equals the summed size of the flagged records, and is 0 when none is flagged |
| Summary.NoDuplicatesNoSize | auditbot-core.js:160 | with no flagged record the flagged size is 0 |
| Summary.DuplicatesWithinTotal | auditbot-core.js:116-133 | the duplicate count is at most the number of records, and the flagged size and `space_saved` are at most the total size |
| Cleanup.UnlinkError | auditbot-core.js:179 | unlink succeeds if and only if the path names a file the process may remove; otherwise it gives a non-empty message |
| Cleanup.FileSystem.Unlink | auditbot-core.js:179 | a successful unlink removes exactly that path from disk; a failed one changes nothing |
| Cleanup.FileSystem.constructor | auditbot-core.js:179 | the file system holds the given files |
| Cleanup.CleanupFiles | auditbot-core.js:175-187 | the results, the files left on disk and the rows left in the store are those of the reference fold `Run`; scan history is untouched |
| Cleanup.CleanupOutcome | auditbot-core.js:175-187 | one result per requested path in input order; a result succeeds if and only if its path was present, removable and not already requested earlier; a failure carries a non-empty message; exactly the removed paths leave disk and store |
| Cleanup.CleanupStep | auditbot-core.js:177-185 | one more requested path keeps that outcome |
| Cleanup.SuccessCount | auditbot-core.js:175-187 | the number of successes equals the number of removed files, for any request, repeated paths included |
| Cleanup.Step | auditbot-core.js:177-185 | definition of one iteration: on success the file and its row go and a success is appended, otherwise a failure with the message; its meaning is stated by `CleanupOutcome` |
| Cleanup.Run | auditbot-core.js:175-187 | definition: the iterations over the requested paths in order; `CleanupFiles` is proved equal to it and `CleanupOutcome` states its result |
| Classify.IsCacheFile | auditbot-core.js:87-97 | definition (also frontend-script.js:160-163): some cache pattern ends the lowercased path; written out by `IsCacheFileCases` |
| Classify.IsUnused | auditbot-core.js:100-104 | definition (also frontend-script.js:165-169): last access before the ninety-day cut-off; see `UnusedBoundary` |
| Classify.IsCacheFileCases | auditbot-core.js:87-97 | a path is a cache file if and only if, ignoring case, it ends in ".cache", ".tmp", ".temp", "thumbs.db" or ".log" |
| Classify.CacheByExtension | auditbot-core.js:87-97 | a file whose lowercased extension is ".cache", ".tmp", ".temp" or ".log" is a cache file |
| Classify.HiddenCacheFile | frontend-script.js:160-163 | the test looks at the whole path: "/home/.cache" is a cache file although its extension is empty |
| Classify.ThumbsSuffix | frontend-script.js:160-163 | any path ending in "thumbs.db", such as "/a/mythumbs.db", is a cache file |
| Classify.UnusedBoundary | auditbot-core.js:100-104 | a file is unused if and only if its last access is more than 90 days (7776000000 ms) before now; the cut-off instant itself is not unused, and an unused file stays unused as time goes on |
| Classify.StatusOf | frontend-script.js:146-158 | the badge is Duplicate exactly for flagged files, else Unused exactly for unused files, else Cache exactly for cache files, else Active |
| Classify.StatusText | frontend-script.js:153-158 | the label is the label of the first-match status `StatusOf` |
| Classify.StatusClass | frontend-script.js:146-151 | the colour classes are those of the first-match status `StatusOf` |
| Classify.StatusTextAndClassAgree | frontend-script.js:146-158 | label and colour both follow that badge, so two rows have the same label if and only if they have the same colour |
| Classify.LabelColourInjective | frontend-script.js:146-158 | the four labels differ from each other, and so do the four colour classes |
| Renderer.FilterFiles | frontend-script.js:256-266 | the shown rows keep the order of the files, all match the term and the filter, and every matching file is shown as often as it occurs in the files |
| Renderer.FilterAllShowsEverything | frontend-script.js:256-266 | with no term and the "all" filter every file is shown |
| Renderer.FilterUnknownShowsNothing | frontend-script.js:260-263 | a filter value other than all, duplicates, unused and cache shows nothing |
| Renderer.SearchIgnoresCase | frontend-script.js:257-259 | searching for a term or for its lowercase shows the same rows |
| Renderer.SearchNarrows | frontend-script.js:256-266 | a search shows the unsearched filtered list with the non-matching paths removed |
| Renderer.ShowHandlersAgree | frontend-script.js:34-55 | with an empty search box, each show button's first listener lists the same rows as its second listener (lines 293-315) |
| Renderer.Remaining | frontend-script.js:67-69 | the listed files that were not selected or whose deletion some result reports as failed, in their order, each as often as it occurs in the listed files |
| Renderer.RemainingAfterCleanup | frontend-script.js:67-71 | after cleaning up the selection, the table keeps exactly the files whose path was not removed from disk |
| Renderer.SetAdd | frontend-script.js:26 | adding to the selection adds the path at the end if it is new and never creates a repeat |
| Renderer.SetDelete | frontend-script.js:28 | deleting from the selection removes exactly that path and keeps the others in order |
| Renderer.KeepDistinct | frontend-script.js:28 | filtering a selection without repeats leaves none |
| Renderer.SelectAllElems | frontend-script.js:20-32 | checking select-all adds every listed path, unchecking it removes every listed path, and the selection stays free of repeats |
| Renderer.DashboardOf | frontend-script.js:85-91 | definition of the dashboard figures; `DashboardMatchesHistory` states how they relate to the stored history |
| Renderer.DashboardMatchesHistory | frontend-script.js:81-95 | the dashboard's file count, size, duplicates and savings equal the history row stored for the same scan, and the savings never exceed the total size |
| Renderer.Window.constructor | frontend-script.js:1-4 | the window starts with an empty selection, no files and the "all" filter (line 272) |
| Renderer.Window.UpdateCleanupButton | frontend-script.js:141-144 | the clean-up button is disabled exactly when nothing is selected |
| Renderer.Window.ToggleRow | frontend-script.js:128-135 | a row checkbox adds or deletes its path and keeps the button in step |
| Renderer.Window.SelectAllChanged | frontend-script.js:20-32 | select-all applies the change to each listed row in order, and keeps the selection free of repeats and the button in step |
| Renderer.Window.UpdateDashboard | frontend-script.js:81-95 | the window's files and total size become the scan's, and the dashboard shows its figures with the savings summed over flagged records |
| Renderer.Window.UpdateFileList | frontend-script.js:97-139 | the table lists the given files |
| Renderer.Window.ScanClicked | frontend-script.js:7-18 | a successful scan shows all its records unfiltered and its dashboard and is written to the store; a failed scan leaves window and store unchanged |
| Renderer.Window.CleanupClicked | frontend-script.js:57-78 | with an empty selection or no confirmation nothing changes; otherwise exactly the removable selected files leave disk and store, the alert reports their number, the table keeps the files not removed, and the selection is cleared |
| Renderer.Window.SearchInput | frontend-script.js:276-282 | the table shows the current files filtered by the new term and the active filter |
| Renderer.Window.FilterChanged | frontend-script.js:285-290 | the active filter becomes the chosen value and the table is filtered by it and the search box's current text |
| Renderer.Window.ShowClicked | frontend-script.js:293-315 | a show button sets the active filter to its kind and the table is filtered by it and the search box's current text, replacing the first listener's list (lines 34-55) |

## Left out

- Electron windows and IPC are not modelled. A handler is called directly, and its thrown error is a `Failure` value.
- SQLite is not modelled. Opening the database, SQL errors, ids, and ISO serialisation of dates are absent. `scan_date` is a `now` parameter.
- The store never fails in the model. A `db.run` that rejects after a successful unlink is therefore not modelled; the source would report that file as failed although it is gone.
- `Store.StartScan` is not atomic in the source. A failure between upserts would leave part of a scan written, and the model has no such failure.
- SHA-256 is a parameter. Distinct contents with equal digests would be flagged as duplicates, as in the source.
- Symbolic links, special files and path normalisation are left out. `Records.Join` is plain concatenation with "/" (path.join would also normalise "." and ".."), and every non-directory entry counts as a file.
- `Records.ExtName`: for the base name ".." the model gives "." where path.extname gives ""; readdir never returns that name. Trailing separators, which path.extname ignores, do not occur in joined paths of non-empty names.
- `Text.Lower` and the `/i` flag fold only ASCII letters. JavaScript case folding of other letters is not modelled.
- `Classify.IsUnused`: going back ninety calendar days with setDate is modelled as exactly 90 × 86400000 ms. Daylight-saving shifts are not modelled, and neither are invalid dates.
- formatSize, formatDate, the D3 chart and DOM rendering are not modelled. The chart's data is kept as `Dashboard.chart`.
- The checkbox state of each row is not modelled. Alerts are not modelled either; the alert's count is the return value of `CleanupClicked`.
- The 300 ms debounce of the search box is not modelled. `SearchInput` is the call that fires after it, with the value of the last edit. The filter drop-down and the show buttons read the box's live text, which is their `searchTerm` parameter; the window keeps no copy of it.
- The filter drop-down's displayed value is not a separate field. The show buttons set it to the same value as the active filter.
- The three show buttons are one method, `ShowClicked`, taking the button's kind.
- Logging with console.error and the "try again" alert of a rejected clean-up call are not modelled. In the model the clean-up call does not reject.
- The clean-up button starts disabled in the model. The page markup that sets its initial state is not part of this model.
- Database initialisation (auditbot-core.js:13-40) is not modelled beyond the constructor, and neither is window creation.
- Sizes, totals and timestamps are JavaScript numbers in the source, exact only up to 2^53; the model uses unbounded integers and does not model rounding above that.
