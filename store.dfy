/** The persistent side of the start-scan handler: the `files` table keyed by
    path with INSERT OR REPLACE semantics, the append-only `scan_history`, and
    the handler that scans, aggregates and writes. */
module Store {
  import opened Common
  import opened Records
  import opened Summary
  import Walk

  /** One row of `scan_history` (its autoincrement id is not modelled). */
  datatype HistoryEntry = HistoryEntry(
    scanDate: int,
    totalFiles: nat,
    totalSize: nat,
    duplicatesFound: nat,
    spaceSaved: nat)

  /** What start-scan returns to the window. */
  datatype ScanResult = ScanResult(
    files: seq<FileInfo>,
    filesByType: map<string, TypeStats>,
    totalSize: nat,
    duplicateCount: nat)

  /** The value start-scan returns for the records `fs` of a scan. */
  function Summarize(fs: seq<FileInfo>): ScanResult {
    ScanResult(fs, ByType(fs), TotalSize(fs), DuplicateCount(fs))
  }

  /** The history row written for the records `fs` of a scan made at `now`. */
  function HistoryOf(fs: seq<FileInfo>, now: int): HistoryEntry {
    HistoryEntry(now, |fs|, TotalSize(fs), DuplicateCount(fs), SpaceSaved(fs))
  }

  /** The `files` table after INSERT OR REPLACE of each record of `fs`, in order. */
  function Upserted(rows: map<Path, FileInfo>, fs: seq<FileInfo>): map<Path, FileInfo> {
    if fs == [] then rows else Upserted(rows, fs[..|fs| - 1])[fs[|fs| - 1].path := fs[|fs| - 1]]
  }

  /** The index of the last record of `fs` with path `p`, or -1 when there is none. */
  function LastPathIndex(fs: seq<FileInfo>, p: Path): (i: int)
    ensures -1 <= i < |fs|
    ensures i >= 0 ==> fs[i].path == p
    ensures forall j :: i < j < |fs| ==> fs[j].path != p
  {
    if fs == [] then -1
    else if fs[|fs| - 1].path == p then |fs| - 1
    else LastPathIndex(fs[..|fs| - 1], p)
  }

  /** The last record of `fs` with path `p`, if any. */
  function LastWithPath(fs: seq<FileInfo>, p: Path): (r: Option<FileInfo>)
    ensures r.None? <==> forall i :: 0 <= i < |fs| ==> fs[i].path != p
    ensures r.Some? ==> var i := LastPathIndex(fs, p);
      0 <= i && r.value == fs[i] && r.value.path == p && forall j :: i < j < |fs| ==> fs[j].path != p
  {
    var i := LastPathIndex(fs, p);
    if i < 0 then None else Some(fs[i])
  }

  /** After the upserts, a scanned path holds the scan's (last) record for it and
      every other path keeps its old row or stays absent. */
  lemma {:induction false} UpsertedAt(rows: map<Path, FileInfo>, fs: seq<FileInfo>, p: Path)
    ensures LastWithPath(fs, p).Some? ==> p in Upserted(rows, fs) && Upserted(rows, fs)[p] == LastWithPath(fs, p).value
    ensures LastWithPath(fs, p).None? ==> (p in Upserted(rows, fs) <==> p in rows)
    ensures LastWithPath(fs, p).None? && p in rows ==> Upserted(rows, fs)[p] == rows[p]
  {
    if fs != [] {
      UpsertedAt(rows, fs[..|fs| - 1], p);
    }
  }

  /** In a scan whose paths are distinct, each record is exactly the row left for its path. */
  lemma LastWithPathDistinct(fs: seq<FileInfo>, i: nat)
    requires i < |fs|
    requires forall a, b :: 0 <= a < b < |fs| ==> fs[a].path != fs[b].path
    ensures LastWithPath(fs, fs[i].path) == Some(fs[i])
  {
    if i < |fs| - 1 {
      var init := fs[..|fs| - 1];
      assert init[i] == fs[i];
      LastWithPathDistinct(init, i);
    }
  }

  /** Upserting the same scan twice leaves the table as upserting it once. */
  lemma UpsertIdempotent(rows: map<Path, FileInfo>, fs: seq<FileInfo>)
    ensures Upserted(Upserted(rows, fs), fs) == Upserted(rows, fs)
  {
    var once := Upserted(rows, fs);
    var twice := Upserted(once, fs);
    forall p
      ensures p in twice <==> p in once
      ensures p in twice ==> twice[p] == once[p]
    {
      UpsertedAt(rows, fs, p);
      UpsertedAt(once, fs, p);
    }
  }

  /** The SQLite database: the `files` table as a map from its unique path, and
      `scan_history` as the sequence of its rows in insertion order. */
  class Database {
    var files: map<Path, FileInfo>
    var history: seq<HistoryEntry>

    constructor ()
      ensures files == map[] && history == []
    {
      files := map[];
      history := [];
    }

    /** INSERT OR REPLACE INTO files: replace any row with the same path. */
    method Upsert(f: FileInfo)
      modifies this
      ensures files == old(files)[f.path := f]
      ensures history == old(history)
    {
      files := files[f.path := f];
    }

    /** INSERT INTO scan_history. */
    method AppendHistory(e: HistoryEntry)
      modifies this
      ensures history == old(history) + [e]
      ensures files == old(files)
    {
      history := history + [e];
    }

    /** DELETE FROM files WHERE path = ?: no error when there is no such row. */
    method Delete(p: Path)
      modifies this
      ensures files == old(files) - {p}
      ensures history == old(history)
    {
      files := files - {p};
    }
  }

  /** The start-scan handler. A failed walk throws before anything is written.
      Otherwise one loop aggregates the records and upserts each one, and then one
      history row is appended; `now` is the database's CURRENT_TIMESTAMP. */
  method StartScan(db: Database, dirPath: Path, root: Entry, hash: Content -> Digest, now: int)
    returns (r: Result<ScanResult, Path>)
    modifies db
    ensures Walk.ScanSpec(dirPath, root, hash).Failure? ==>
      r == Failure(Walk.ScanSpec(dirPath, root, hash).error) &&
      db.files == old(db.files) && db.history == old(db.history)
    ensures Walk.ScanSpec(dirPath, root, hash).Success? ==>
      var fs := Walk.ScanSpec(dirPath, root, hash).value;
      r == Success(Summarize(fs)) &&
      db.files == Upserted(old(db.files), fs) &&
      db.history == old(db.history) + [HistoryOf(fs, now)]
  {
    var scanned := Walk.ScanDirectory(dirPath, root, hash);
    if scanned.Failure? {
      return Failure(scanned.error);
    }
    var files := scanned.value;
    var filesByType: map<string, TypeStats> := map[];
    var totalSize := 0;
    var duplicateCount := 0;
    var i := 0;
    while i < |files|
      invariant 0 <= i <= |files|
      invariant filesByType == ByType(files[..i])
      invariant totalSize == TotalSize(files[..i])
      invariant duplicateCount == DuplicateCount(files[..i])
      invariant db.files == Upserted(old(db.files), files[..i])
      invariant db.history == old(db.history)
    {
      var file := files[i];
      assert files[..i + 1][..i] == files[..i];
      filesByType := Tally(filesByType, file);
      totalSize := totalSize + file.size;
      if file.isDuplicate {
        duplicateCount := duplicateCount + 1;
      }
      db.Upsert(file);
      i := i + 1;
    }
    assert files[..i] == files;
    var spaceSaved := if duplicateCount > 0 then DuplicateSize(files) else 0;
    db.AppendHistory(HistoryEntry(now, |files|, totalSize, duplicateCount, spaceSaved));
    return Success(ScanResult(files, filesByType, totalSize, duplicateCount));
  }
}
