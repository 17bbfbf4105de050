/** The aggregation done by the start-scan handler over the scanned records:
    per-type buckets, the total size, the duplicate count and space saved. */
module Summary {
  import opened Records

  /** One bucket of `filesByType`. */
  datatype TypeStats = TypeStats(count: nat, size: nat, duplicates: nat)

  function Zero(): TypeStats { TypeStats(0, 0, 0) }

  function Plus(a: TypeStats, b: TypeStats): TypeStats {
    TypeStats(a.count + b.count, a.size + b.size, a.duplicates + b.duplicates)
  }

  /** What one record adds to its bucket. */
  function Contribution(f: FileInfo): TypeStats {
    TypeStats(1, f.size, if f.isDuplicate then 1 else 0)
  }

  /** The bucket of a record: its file type, or "unknown" when the type is empty. */
  function TypeKey(f: FileInfo): string {
    if f.fileType == "" then "unknown" else f.fileType
  }

  /** One iteration of the loop: create the bucket if missing, then bump it. */
  function Tally(m: map<string, TypeStats>, f: FileInfo): map<string, TypeStats> {
    var key := TypeKey(f);
    var bucket := if key in m then m[key] else Zero();
    m[key := Plus(bucket, Contribution(f))]
  }

  /** `filesByType` after the loop has seen `fs`. */
  function ByType(fs: seq<FileInfo>): map<string, TypeStats> {
    if fs == [] then map[] else Tally(ByType(fs[..|fs| - 1]), fs[|fs| - 1])
  }

  /** `totalSize` after the loop has seen `fs`. */
  function TotalSize(fs: seq<FileInfo>): nat {
    if fs == [] then 0 else TotalSize(fs[..|fs| - 1]) + fs[|fs| - 1].size
  }

  /** `duplicateCount` after the loop has seen `fs`: flagged records, not groups. */
  function DuplicateCount(fs: seq<FileInfo>): nat {
    if fs == [] then 0 else DuplicateCount(fs[..|fs| - 1]) + (if fs[|fs| - 1].isDuplicate then 1 else 0)
  }

  /** The summed size of the records flagged as duplicates. */
  function DuplicateSize(fs: seq<FileInfo>): nat {
    if fs == [] then 0 else DuplicateSize(fs[..|fs| - 1]) + (if fs[|fs| - 1].isDuplicate then fs[|fs| - 1].size else 0)
  }

  /** The `space_saved` column: the duplicate size, guarded by `duplicateCount > 0`. */
  function SpaceSaved(fs: seq<FileInfo>): nat {
    if DuplicateCount(fs) > 0 then DuplicateSize(fs) else 0
  }

  /** The sum of all buckets of a type map. */
  ghost function Total(m: map<string, TypeStats>): TypeStats
    decreases |m|
  {
    if m == map[] then Zero()
    else
      var k :| k in m;
      Plus(m[k], Total(m - {k}))
  }

  /** The sum does not depend on which bucket is taken first. */
  lemma {:induction false} TotalPick(m: map<string, TypeStats>, k: string)
    requires k in m
    ensures Total(m) == Plus(m[k], Total(m - {k}))
    decreases |m|
  {
    var j :| j in m && Total(m) == Plus(m[j], Total(m - {j}));
    if j != k {
      var rest := m - {j} - {k};
      assert m - {k} - {j} == rest;
      TotalPick(m - {j}, k);
      assert Total(m - {j}) == Plus(m[k], Total(rest));
      TotalPick(m - {k}, j);
      assert Total(m - {k}) == Plus(m[j], Total(rest));
      calc {
        Total(m);
        Plus(m[j], Total(m - {j}));
        Plus(m[j], Plus(m[k], Total(rest)));
        Plus(m[k], Plus(m[j], Total(rest)));
        Plus(m[k], Total(m - {k}));
      }
    }
  }

  /** Adding a record to the buckets adds its contribution to their sum. */
  lemma TotalTally(m: map<string, TypeStats>, f: FileInfo)
    ensures Total(Tally(m, f)) == Plus(Total(m), Contribution(f))
  {
    var key := TypeKey(f);
    var m' := Tally(m, f);
    TotalPick(m', key);
    if key in m {
      assert m' - {key} == m - {key};
      TotalPick(m, key);
    } else {
      assert m' - {key} == m;
    }
  }

  /** Aggregate consistency: the buckets' counts add up to the number of
      records, their sizes to `totalSize` and their duplicates to `duplicateCount`. */
  lemma {:induction false} TotalOfByType(fs: seq<FileInfo>)
    ensures Total(ByType(fs)) == TypeStats(|fs|, TotalSize(fs), DuplicateCount(fs))
  {
    if fs != [] {
      TotalOfByType(fs[..|fs| - 1]);
      TotalTally(ByType(fs[..|fs| - 1]), fs[|fs| - 1]);
    }
  }

  /** Reference definition of one bucket: the contributions of the records
      whose key is `key`, summed. */
  function BucketOf(fs: seq<FileInfo>, key: string): TypeStats {
    if fs == [] then Zero()
    else Plus(BucketOf(fs[..|fs| - 1], key), Share(fs[|fs| - 1], key))
  }

  function Share(f: FileInfo, key: string): TypeStats {
    if TypeKey(f) == key then Contribution(f) else Zero()
  }

  /** A bucket exists exactly for the keys some record maps to, and holds exactly
      those records' count, size and duplicates; an empty extension lands in "unknown". */
  lemma {:induction false} ByTypeBucket(fs: seq<FileInfo>, key: string)
    ensures key in ByType(fs) <==> BucketOf(fs, key).count > 0
    ensures key in ByType(fs) ==> ByType(fs)[key] == BucketOf(fs, key)
    ensures key !in ByType(fs) ==> BucketOf(fs, key) == Zero()
  {
    if fs != [] {
      var init, last := fs[..|fs| - 1], fs[|fs| - 1];
      ByTypeBucket(init, key);
      TallyBucket(ByType(init), BucketOf(init, key), last, key);
    }
  }

  /** One iteration of the loop keeps a bucket equal to its reference sum. */
  lemma TallyBucket(m: map<string, TypeStats>, b: TypeStats, f: FileInfo, key: string)
    requires key in m <==> b.count > 0
    requires key in m ==> m[key] == b
    requires key !in m ==> b == Zero()
    ensures key in Tally(m, f) <==> Plus(b, Share(f, key)).count > 0
    ensures key in Tally(m, f) ==> Tally(m, f)[key] == Plus(b, Share(f, key))
    ensures key !in Tally(m, f) ==> Plus(b, Share(f, key)) == Zero()
  {
  }

  /** The stored `space_saved` is the size of every flagged record, one copy per
      group included; the `duplicateCount > 0` guard changes nothing. */
  lemma {:induction false} SpaceSavedIsDuplicateSize(fs: seq<FileInfo>)
    ensures SpaceSaved(fs) == DuplicateSize(fs)
    ensures DuplicateCount(fs) == 0 ==> SpaceSaved(fs) == 0
  {
    NoDuplicatesNoSize(fs);
  }

  lemma {:induction false} NoDuplicatesNoSize(fs: seq<FileInfo>)
    ensures DuplicateCount(fs) == 0 ==> DuplicateSize(fs) == 0
  {
    if fs != [] {
      NoDuplicatesNoSize(fs[..|fs| - 1]);
    }
  }

  /** The duplicates are some of the records: neither their number nor their
      size exceeds the whole. */
  lemma {:induction false} DuplicatesWithinTotal(fs: seq<FileInfo>)
    ensures DuplicateCount(fs) <= |fs|
    ensures DuplicateSize(fs) <= TotalSize(fs)
    ensures SpaceSaved(fs) <= TotalSize(fs)
  {
    if fs != [] {
      DuplicatesWithinTotal(fs[..|fs| - 1]);
    }
  }
}
