/** The window: the search and filter of the file table, the list left after a
    clean-up, the selection set, and the handlers that tie them to the scan and
    clean-up calls of the main process. */
module Renderer {
  import opened Common
  import opened Text
  import opened Records
  import opened Summary
  import opened Classify
  import Walk
  import Store
  import Cleanup

  // ---- search and filter

  /** An empty search term matches everything; otherwise the lowercased path
      contains the lowercased term. */
  predicate MatchesSearch(f: FileInfo, term: string) {
    term == "" || Contains(Lower(f.path), Lower(term))
  }

  /** The active filter: "all", or one of the three classifications; any other
      value matches nothing. */
  predicate MatchesFilter(f: FileInfo, activeFilter: string, now: int) {
    || activeFilter == "all"
    || (activeFilter == "duplicates" && f.isDuplicate)
    || (activeFilter == "unused" && IsUnused(f.lastAccessed, now))
    || (activeFilter == "cache" && IsCacheFile(f.path))
  }

  function Matches(term: string, activeFilter: string, now: int): FileInfo -> bool {
    f => MatchesSearch(f, term) && MatchesFilter(f, activeFilter, now)
  }

  /** The rows the table shows for a search term and the active filter: the
      matching files, in their order. */
  function FilterFiles(files: seq<FileInfo>, term: string, activeFilter: string, now: int): (r: seq<FileInfo>)
    ensures IsSubsequence(r, files)
    ensures forall i :: 0 <= i < |r| ==> MatchesSearch(r[i], term) && MatchesFilter(r[i], activeFilter, now)
    ensures forall i :: 0 <= i < |files| && MatchesSearch(files[i], term) && MatchesFilter(files[i], activeFilter, now) ==>
      files[i] in r
    ensures forall x :: multiset(r)[x] ==
                        if MatchesSearch(x, term) && MatchesFilter(x, activeFilter, now) then multiset(files)[x] else 0
  {
    KeepIsSubsequence(files, Matches(term, activeFilter, now));
    KeepMultiset(files, Matches(term, activeFilter, now));
    Keep(files, Matches(term, activeFilter, now))
  }

  /** No term and the "all" filter show every file. */
  lemma FilterAllShowsEverything(files: seq<FileInfo>, now: int)
    ensures FilterFiles(files, "", "all", now) == files
  {
    KeepAll(files, Matches("", "all", now));
  }

  /** A filter value other than the four known ones shows nothing. */
  lemma FilterUnknownShowsNothing(files: seq<FileInfo>, term: string, activeFilter: string, now: int)
    requires activeFilter !in ["all", "duplicates", "unused", "cache"]
    ensures FilterFiles(files, term, activeFilter, now) == []
  {
    KeepNone(files, Matches(term, activeFilter, now));
  }

  /** The search is case-insensitive in the term. */
  lemma SearchIgnoresCase(files: seq<FileInfo>, term: string, activeFilter: string, now: int)
    ensures FilterFiles(files, term, activeFilter, now) == FilterFiles(files, Lower(term), activeFilter, now)
  {
    LowerIdempotent(term);
    assert term == "" <==> Lower(term) == "" by {
      assert |Lower(term)| == |term|;
    }
    KeepCongruent(files, Matches(term, activeFilter, now), Matches(Lower(term), activeFilter, now));
  }

  function Searching(term: string): FileInfo -> bool {
    f => MatchesSearch(f, term)
  }

  /** A search only narrows the filtered list: it is the unsearched list with
      the non-matching paths taken out. */
  lemma SearchNarrows(files: seq<FileInfo>, term: string, activeFilter: string, now: int)
    ensures FilterFiles(files, term, activeFilter, now) ==
      Keep(FilterFiles(files, "", activeFilter, now), Searching(term))
  {
    KeepKeep(files, Matches("", activeFilter, now), Searching(term), Matches(term, activeFilter, now));
  }

  /** What the first-registered show buttons list: all duplicates, all unused
      files, all cache files. */
  predicate IsDuplicateRow(f: FileInfo) {
    f.isDuplicate
  }

  function IsUnusedRow(now: int): FileInfo -> bool {
    (f: FileInfo) => IsUnused(f.lastAccessed, now)
  }

  predicate IsCacheRow(f: FileInfo) {
    IsCacheFile(f.path)
  }

  function DuplicatesOf(files: seq<FileInfo>): seq<FileInfo> {
    Keep(files, IsDuplicateRow)
  }

  function UnusedOf(files: seq<FileInfo>, now: int): seq<FileInfo> {
    Keep(files, IsUnusedRow(now))
  }

  function CacheOf(files: seq<FileInfo>): seq<FileInfo> {
    Keep(files, IsCacheRow)
  }

  /** With an empty search box the two handlers of each show button render the
      same list. */
  lemma ShowHandlersAgree(files: seq<FileInfo>, now: int)
    ensures FilterFiles(files, "", "duplicates", now) == DuplicatesOf(files)
    ensures FilterFiles(files, "", "unused", now) == UnusedOf(files, now)
    ensures FilterFiles(files, "", "cache", now) == CacheOf(files)
  {
    KeepCongruent(files, Matches("", "duplicates", now), IsDuplicateRow);
    KeepCongruent(files, Matches("", "unused", now), IsUnusedRow(now));
    KeepCongruent(files, Matches("", "cache", now), IsCacheRow);
  }

  // ---- the list after a clean-up

  /** A file stays listed when it was not selected, or when some result reports
      that its deletion failed. */
  predicate StaysListed(f: FileInfo, selected: seq<Path>, results: seq<Cleanup.CleanupResult>) {
    f.path !in selected || exists j :: 0 <= j < |results| && results[j].path == f.path && !results[j].success
  }

  function Staying(selected: seq<Path>, results: seq<Cleanup.CleanupResult>): FileInfo -> bool {
    (f: FileInfo) => StaysListed(f, selected, results)
  }

  /** The table after a clean-up: the listed files that stay, in their order. */
  function Remaining(files: seq<FileInfo>, selected: seq<Path>, results: seq<Cleanup.CleanupResult>): (r: seq<FileInfo>)
    ensures IsSubsequence(r, files)
    ensures forall i :: 0 <= i < |r| ==> StaysListed(r[i], selected, results)
    ensures forall i :: 0 <= i < |files| && StaysListed(files[i], selected, results) ==> files[i] in r
    ensures forall x :: multiset(r)[x] == if StaysListed(x, selected, results) then multiset(files)[x] else 0
  {
    KeepIsSubsequence(files, Staying(selected, results));
    KeepMultiset(files, Staying(selected, results));
    Keep(files, Staying(selected, results))
  }

  function NotRemoved(removed: set<Path>): FileInfo -> bool {
    (f: FileInfo) => f.path !in removed
  }

  /** The files of a list whose path is not in `removed`. */
  function Unremoved(files: seq<FileInfo>, removed: set<Path>): seq<FileInfo> {
    Keep(files, NotRemoved(removed))
  }

  /** After cleaning up a selection (a set, so free of repeats), the list keeps
      exactly the files whose path was not removed from disk. */
  lemma RemainingAfterCleanup(files: seq<FileInfo>, present: set<Path>, locked: set<Path>,
                              rows: map<Path, FileInfo>, selected: seq<Path>)
    requires Distinct(selected)
    ensures Remaining(files, selected, Cleanup.Run(Cleanup.State([], present, rows), locked, selected).results) ==
      Unremoved(files, Cleanup.Removed(present, locked, selected))
  {
    var results := Cleanup.Run(Cleanup.State([], present, rows), locked, selected).results;
    var removed := Cleanup.Removed(present, locked, selected);
    Cleanup.CleanupOutcome(present, locked, rows, selected);
    forall i | 0 <= i < |files|
      ensures StaysListed(files[i], selected, results) == (files[i].path !in removed)
    {
      var p := files[i].path;
      if p in selected {
        var k :| 0 <= k < |selected| && selected[k] == p;
        assert selected[k] !in selected[..k];
        if !results[k].success {
          assert StaysListed(files[i], selected, results);
        }
        assert p in removed <==> results[k].success;
      }
    }
    KeepCongruent(files, Staying(selected, results), NotRemoved(removed));
  }

  // ---- the selection set

  /** Set.prototype.add on a set kept in insertion order. */
  function SetAdd(s: seq<Path>, x: Path): (r: seq<Path>)
    ensures Elems(r) == Elems(s) + {x}
    ensures Distinct(s) ==> Distinct(r)
    ensures x !in s ==> r == s + [x]
    ensures x in s ==> r == s
  {
    if x in s then s else s + [x]
  }

  /** Set.prototype.delete. */
  function SetDelete(s: seq<Path>, x: Path): (r: seq<Path>)
    ensures Elems(r) == Elems(s) - {x}
    ensures Distinct(s) ==> Distinct(r)
    ensures IsSubsequence(r, s)
  {
    KeepIsSubsequence(s, y => y != x);
    var r := Keep(s, y => y != x);
    assert Distinct(s) ==> Distinct(r) by {
      if Distinct(s) {
        KeepDistinct(s, y => y != x);
      }
    }
    r
  }

  /** Keep of a repeat-free sequence has no repeats. */
  lemma {:induction false} KeepDistinct(s: seq<Path>, p: Path -> bool)
    requires Distinct(s)
    ensures Distinct(Keep(s, p))
  {
    if s != [] {
      assert Distinct(s[1..]);
      KeepDistinct(s[1..], p);
      assert s[0] !in s[1..];
    }
  }

  /** The selection after the select-all box sets every listed checkbox to
      `checked`, one path after the other. */
  function SelectionAfter(s: seq<Path>, ps: seq<Path>, checked: bool): seq<Path> {
    if ps == [] then s
    else
      var prev := SelectionAfter(s, ps[..|ps| - 1], checked);
      if checked then SetAdd(prev, ps[|ps| - 1]) else SetDelete(prev, ps[|ps| - 1])
  }

  /** Select-all adds every listed path, its clearing removes every listed path,
      and the selection stays free of repeats. */
  lemma {:induction false} SelectAllElems(s: seq<Path>, ps: seq<Path>, checked: bool)
    requires Distinct(s)
    ensures checked ==> Elems(SelectionAfter(s, ps, checked)) == Elems(s) + Elems(ps)
    ensures !checked ==> Elems(SelectionAfter(s, ps, checked)) == Elems(s) - Elems(ps)
    ensures Distinct(SelectionAfter(s, ps, checked))
  {
    if ps != [] {
      var init := ps[..|ps| - 1];
      SelectAllElems(s, init, checked);
      assert Elems(ps) == Elems(init) + {ps[|ps| - 1]} by {
        assert ps == init + [ps[|ps| - 1]];
      }
    }
  }

  /** The paths of the listed rows, in row order. */
  function PathsOf(rows: seq<FileInfo>): seq<Path> {
    seq(|rows|, i requires 0 <= i < |rows| => rows[i].path)
  }

  // ---- the dashboard

  /** The four figures and the chart data of the dashboard. */
  datatype Dashboard = Dashboard(
    totalFiles: nat,
    totalSize: nat,
    duplicatesFound: nat,
    spaceSavings: nat,
    chart: map<string, TypeStats>)

  /** The dashboard for a scan result; the space savings are summed again in
      the window from the flagged records. */
  function DashboardOf(result: Store.ScanResult): Dashboard {
    Dashboard(|result.files|, result.totalSize, result.duplicateCount, DuplicateSize(result.files), result.filesByType)
  }

  /** The dashboard of a scan agrees with the history row written for it,
      although the window sums the savings without the duplicate-count guard,
      and none of its figures exceeds the total. */
  lemma DashboardMatchesHistory(fs: seq<FileInfo>, now: int)
    ensures var d := DashboardOf(Store.Summarize(fs));
      var h := Store.HistoryOf(fs, now);
      && d.totalFiles == h.totalFiles
      && d.totalSize == h.totalSize
      && d.duplicatesFound == h.duplicatesFound
      && d.spaceSavings == h.spaceSaved
      && d.spaceSavings <= d.totalSize
  {
    SpaceSavedIsDuplicateSize(fs);
    DuplicatesWithinTotal(fs);
  }

  // ---- the window's state and handlers

  class Window {
    /** selectedFiles, a Set kept in insertion order. */
    var selected: seq<Path>
    var currentFiles: seq<FileInfo>
    var totalSize: nat
    var activeFilter: string
    /** The rows of the file table. */
    var shown: seq<FileInfo>
    var cleanupDisabled: bool
    var dashboard: Dashboard

    /** The selection has no repeats and the clean-up button is disabled exactly
        when nothing is selected. */
    ghost predicate Valid()
      reads this
    {
      Distinct(selected) && cleanupDisabled == (|selected| == 0)
    }

    /** The page as loaded: nothing scanned or selected, the "all" filter. */
    constructor ()
      ensures Valid()
      ensures selected == [] && currentFiles == [] && shown == [] && totalSize == 0
      ensures activeFilter == "all"
    {
      selected := [];
      currentFiles := [];
      totalSize := 0;
      activeFilter := "all";
      shown := [];
      cleanupDisabled := true;
      dashboard := Dashboard(0, 0, 0, 0, map[]);
    }

    method UpdateCleanupButton()
      modifies this
      ensures cleanupDisabled == (|selected| == 0)
      ensures selected == old(selected) && currentFiles == old(currentFiles) && shown == old(shown)
      ensures totalSize == old(totalSize) && activeFilter == old(activeFilter)
      ensures dashboard == old(dashboard)
    {
      cleanupDisabled := |selected| == 0;
    }

    /** A row's checkbox changed to `checked`. */
    method ToggleRow(file: FileInfo, checked: bool)
      requires Valid()
      modifies this
      ensures Valid()
      ensures selected == if checked then SetAdd(old(selected), file.path) else SetDelete(old(selected), file.path)
      ensures currentFiles == old(currentFiles) && shown == old(shown) && totalSize == old(totalSize)
      ensures activeFilter == old(activeFilter) && dashboard == old(dashboard)
    {
      if checked {
        selected := SetAdd(selected, file.path);
      } else {
        selected := SetDelete(selected, file.path);
      }
      UpdateCleanupButton();
    }

    /** The select-all box changed to `checked`: every listed row follows it. */
    method SelectAllChanged(checked: bool)
      requires Valid()
      modifies this
      ensures Valid()
      ensures selected == SelectionAfter(old(selected), PathsOf(shown), checked)
      ensures currentFiles == old(currentFiles) && shown == old(shown) && totalSize == old(totalSize)
      ensures activeFilter == old(activeFilter) && dashboard == old(dashboard)
    {
      var paths := PathsOf(shown);
      var sel := selected;
      var i := 0;
      while i < |paths|
        invariant 0 <= i <= |paths|
        invariant sel == SelectionAfter(old(selected), paths[..i], checked)
        invariant Distinct(sel)
      {
        assert paths[..i + 1][..i] == paths[..i];
        if checked {
          sel := SetAdd(sel, paths[i]);
        } else {
          sel := SetDelete(sel, paths[i]);
        }
        i := i + 1;
      }
      assert paths[..i] == paths;
      selected := sel;
      UpdateCleanupButton();
    }

    method UpdateDashboard(result: Store.ScanResult)
      modifies this
      ensures currentFiles == result.files && totalSize == result.totalSize
      ensures dashboard == DashboardOf(result)
      ensures selected == old(selected) && shown == old(shown) && cleanupDisabled == old(cleanupDisabled)
      ensures activeFilter == old(activeFilter)
    {
      currentFiles := result.files;
      totalSize := result.totalSize;
      var spaceSaved := DuplicateSize(result.files);
      dashboard := Dashboard(|result.files|, result.totalSize, result.duplicateCount, spaceSaved, result.filesByType);
    }

    method UpdateFileList(files: seq<FileInfo>)
      modifies this
      ensures shown == files
      ensures selected == old(selected) && currentFiles == old(currentFiles) && totalSize == old(totalSize)
      ensures cleanupDisabled == old(cleanupDisabled) && dashboard == old(dashboard)
      ensures activeFilter == old(activeFilter)
    {
      shown := files;
    }

    /** The scan button: scan the working directory `cwd`, then show the whole
        result unfiltered. A failed scan only logs, and leaves the window as it was. */
    method ScanClicked(db: Store.Database, cwd: Path, root: Entry, hash: Content -> Digest, now: int)
      requires Valid()
      modifies this, db
      ensures Valid()
      ensures Walk.ScanSpec(cwd, root, hash).Success? ==>
        var fs := Walk.ScanSpec(cwd, root, hash).value;
        && currentFiles == fs && shown == fs
        && dashboard == DashboardOf(Store.Summarize(fs))
        && totalSize == TotalSize(fs)
        && db.files == Store.Upserted(old(db.files), fs)
        && db.history == old(db.history) + [Store.HistoryOf(fs, now)]
      ensures Walk.ScanSpec(cwd, root, hash).Failure? ==>
        && currentFiles == old(currentFiles) && shown == old(shown) && totalSize == old(totalSize)
        && dashboard == old(dashboard)
        && db.files == old(db.files) && db.history == old(db.history)
      ensures selected == old(selected) && activeFilter == old(activeFilter)
    {
      var result := Store.StartScan(db, cwd, root, hash, now);
      if result.Success? {
        UpdateDashboard(result.value);
        UpdateFileList(result.value.files);
      }
    }

    /** The clean-up button. With nothing selected, or when the user does not
        confirm, nothing happens. Otherwise the selection is cleaned up in its
        insertion order, the table keeps the listed files that were not removed,
        the selection is cleared, and the count of successes is what the alert
        reports. */
    method CleanupClicked(fs: Cleanup.FileSystem, db: Store.Database, confirmed: bool)
      returns (successCount: Option<nat>)
      requires Valid()
      modifies this, fs, db
      ensures Valid()
      ensures old(|selected|) == 0 || !confirmed ==>
        && successCount == None
        && selected == old(selected) && shown == old(shown)
        && fs.present == old(fs.present) && db.files == old(db.files)
      ensures old(|selected|) > 0 && confirmed ==>
        var removed := Cleanup.Removed(old(fs.present), fs.locked, old(selected));
        && fs.present == old(fs.present) - removed
        && db.files == old(db.files) - removed
        && successCount == Some(|removed|)
        && shown == Unremoved(old(currentFiles), removed)
        && selected == []
      ensures currentFiles == old(currentFiles) && totalSize == old(totalSize) && dashboard == old(dashboard)
      ensures activeFilter == old(activeFilter)
      ensures db.history == old(db.history)
    {
      if |selected| == 0 {
        return None;
      }
      if !confirmed {
        return None;
      }
      ghost var present, rows := fs.present, db.files;
      var results := Cleanup.CleanupFiles(fs, db, selected);
      Cleanup.CleanupOutcome(present, fs.locked, rows, selected);
      Cleanup.SuccessCount(present, fs.locked, rows, selected);
      RemainingAfterCleanup(currentFiles, present, fs.locked, rows, selected);
      var count := |Keep(results, Cleanup.Succeeded)|;
      UpdateFileList(Remaining(currentFiles, selected, results));
      selected := [];
      UpdateCleanupButton();
      return Some(count);
    }

    /** The debounced search handler firing with the box's value `value`. */
    method SearchInput(value: string, now: int)
      modifies this
      ensures shown == FilterFiles(currentFiles, value, activeFilter, now)
      ensures selected == old(selected) && currentFiles == old(currentFiles) && totalSize == old(totalSize)
      ensures cleanupDisabled == old(cleanupDisabled) && dashboard == old(dashboard)
      ensures activeFilter == old(activeFilter)
    {
      UpdateFileList(FilterFiles(currentFiles, value, activeFilter, now));
    }

    /** A new value of the filter drop-down; `searchTerm` is what the search
        box holds at that moment. */
    method FilterChanged(value: string, searchTerm: string, now: int)
      modifies this
      ensures activeFilter == value
      ensures shown == FilterFiles(currentFiles, searchTerm, value, now)
      ensures selected == old(selected) && currentFiles == old(currentFiles) && totalSize == old(totalSize)
      ensures cleanupDisabled == old(cleanupDisabled) && dashboard == old(dashboard)
    {
      activeFilter := value;
      UpdateFileList(FilterFiles(currentFiles, searchTerm, value, now));
    }

    /** A show button. Both listeners registered for it run, in registration
        order: the first lists every file of its kind, the second sets the
        filter and lists by filter and the search box's current `searchTerm`,
        replacing the first list. */
    method ShowClicked(kind: string, searchTerm: string, now: int)
      requires kind in ["duplicates", "unused", "cache"]
      modifies this
      ensures activeFilter == kind
      ensures shown == FilterFiles(currentFiles, searchTerm, kind, now)
      ensures selected == old(selected) && currentFiles == old(currentFiles) && totalSize == old(totalSize)
      ensures cleanupDisabled == old(cleanupDisabled) && dashboard == old(dashboard)
    {
      if kind == "duplicates" {
        UpdateFileList(DuplicatesOf(currentFiles));
      } else if kind == "unused" {
        UpdateFileList(UnusedOf(currentFiles, now));
      } else {
        UpdateFileList(CacheOf(currentFiles));
      }
      activeFilter := kind;
      UpdateFileList(FilterFiles(currentFiles, searchTerm, kind, now));
    }
  }
}
