/** scanDirectory and its inner walkDir: a depth-first walk in listing order
    that records every non-directory entry and marks duplicates in one pass
    with a map from digest to the first record seen with that digest. */
module Walk {
  import opened Common
  import opened Records

  /** The record walkDir builds for a file entry at `path`, before duplicate marking. */
  function Record(path: Path, e: Entry, hash: Content -> Digest): FileInfo
    requires e.File?
  {
    FileInfo(path, hash(e.content), e.size, e.atime, e.mtime, FileType(path), false)
  }

  /** walkDir(path) on entry `e`: reading a non-directory or an unreadable
      directory fails with that path; otherwise the records of its children. */
  function WalkDirSpec(path: Path, e: Entry, hash: Content -> Digest): Result<seq<FileInfo>, Path>
    decreases e, 1
  {
    if e.File? || !e.readable then Failure(path)
    else WalkChildren(path, e.children, hash)
  }

  /** The loop of walkDir over `cs`, in order; the first failure aborts it. */
  function WalkChildren(dir: Path, cs: seq<Entry>, hash: Content -> Digest): Result<seq<FileInfo>, Path>
    decreases cs, 0
  {
    if cs == [] then Success([])
    else
      match WalkChildren(dir, cs[..|cs| - 1], hash)
      case Failure(p) => Failure(p)
      case Success(init) =>
        match WalkChild(dir, cs[|cs| - 1], hash)
        case Failure(p) => Failure(p)
        case Success(last) => Success(init + last)
  }

  /** One iteration: recurse into a directory, or stat and read a file. */
  function WalkChild(dir: Path, c: Entry, hash: Content -> Digest): Result<seq<FileInfo>, Path>
    decreases c, 2
  {
    var p := Join(dir, c.name);
    if c.Dir? then WalkDirSpec(p, c, hash)
    else if !c.readable then Failure(p)
    else Success([Record(p, c, hash)])
  }

  /** Some other record in the same scan has the same digest. */
  predicate HasTwin(fs: seq<FileInfo>, i: int)
    requires 0 <= i < |fs|
  {
    exists j :: 0 <= j < |fs| && j != i && fs[j].hash == fs[i].hash
  }

  /** The flags the scan is meant to produce: a record is a duplicate exactly
      when another record of the scan shares its digest. */
  function MarkDuplicates(raw: seq<FileInfo>): (fs: seq<FileInfo>)
    ensures |fs| == |raw|
  {
    seq(|raw|, i requires 0 <= i < |raw| => raw[i].(isDuplicate := HasTwin(raw, i)))
  }

  /** What scanDirectory(dirPath) returns, or the path whose read threw. */
  function ScanSpec(dirPath: Path, root: Entry, hash: Content -> Digest): Result<seq<FileInfo>, Path> {
    match WalkDirSpec(dirPath, root, hash)
    case Failure(p) => Failure(p)
    case Success(raw) => Success(MarkDuplicates(raw))
  }

  /** The state shared by walkDir's recursive calls: the `files` array and `hashMap`. */
  class Scanner {
    var files: seq<FileInfo>
    /** The records appended so far, before any flag was set. */
    ghost var raw: seq<FileInfo>
    /** Digest to the index in `files` of the first record with that digest. */
    var hashMap: map<Digest, nat>

    ghost predicate Valid()
      reads this
    {
      && (forall h :: h in hashMap ==>
            hashMap[h] < |files| && files[hashMap[h]].hash == h &&
            forall j :: 0 <= j < hashMap[h] ==> files[j].hash != h)
      && (forall i :: 0 <= i < |files| ==> files[i].hash in hashMap)
      && files == MarkDuplicates(raw)
    }

    constructor ()
      ensures Valid() && files == [] && raw == [] && hashMap == map[]
    {
      files := [];
      raw := [];
      hashMap := map[];
    }

    /** Lines 70-77: flag a repeated digest on the new record and on the first
        record with that digest, then append the new record. */
    method Add(info: FileInfo)
      requires Valid()
      requires !info.isDuplicate
      modifies this
      ensures Valid()
      ensures raw == old(raw) + [info]
    {
      var r := info;
      if info.hash in hashMap {
        var k := hashMap[info.hash];
        MarkAppendTwin(raw, r, k);
        files := files[k := files[k].(isDuplicate := true)] + [r.(isDuplicate := true)];
      } else {
        assert forall i :: 0 <= i < |raw| ==> raw[i].hash == files[i].hash;
        MarkAppendFresh(raw, r);
        hashMap := hashMap[info.hash := |files|];
        files := files + [r];
      }
      raw := raw + [r];
    }

    /** walkDir(currentPath) where `dir` is the entry found at that path.
        Returns the path whose read failed, if one did. */
    method WalkDir(currentPath: Path, dir: Entry, hash: Content -> Digest) returns (err: Option<Path>)
      requires Valid()
      modifies this
      decreases dir, 1
      ensures Valid()
      ensures err == None <==> WalkDirSpec(currentPath, dir, hash).Success?
      ensures err.Some? ==> WalkDirSpec(currentPath, dir, hash) == Failure(err.value)
      ensures err == None ==> raw == old(raw) + WalkDirSpec(currentPath, dir, hash).value
    {
      if dir.File? || !dir.readable {
        return Some(currentPath);
      }
      err := WalkEntries(currentPath, dir, hash);
    }

    /** The loop of walkDir (lines 50-79) over the entries of the directory `dir`. */
    method WalkEntries(currentPath: Path, dir: Entry, hash: Content -> Digest) returns (err: Option<Path>)
      requires Valid() && dir.Dir?
      modifies this
      decreases dir, 0
      ensures Valid()
      ensures err == None <==> WalkChildren(currentPath, dir.children, hash).Success?
      ensures err.Some? ==> WalkChildren(currentPath, dir.children, hash) == Failure(err.value)
      ensures err == None ==> raw == old(raw) + WalkChildren(currentPath, dir.children, hash).value
    {
      var entries := dir.children;
      err := None;
      var i := 0;
      while i < |entries|
        invariant 0 <= i <= |entries|
        invariant err == None
        invariant Valid()
        invariant WalkChildren(currentPath, entries[..i], hash).Success?
        invariant raw == old(raw) + WalkChildren(currentPath, entries[..i], hash).value
      {
        WalkChildrenStep(currentPath, entries, i, hash);
        err := VisitEntry(currentPath, entries[i], hash);
        if err.Some? {
          WalkChildrenFailurePersists(currentPath, entries, i + 1, hash);
          return;
        }
        i := i + 1;
      }
      assert entries[..i] == entries;
    }

    /** One iteration of walkDir's loop (lines 51-78) for `entry` in directory `dir`. */
    method VisitEntry(dir: Path, entry: Entry, hash: Content -> Digest) returns (err: Option<Path>)
      requires Valid()
      modifies this
      decreases entry, 2
      ensures Valid()
      ensures err == None <==> WalkChild(dir, entry, hash).Success?
      ensures err.Some? ==> WalkChild(dir, entry, hash) == Failure(err.value)
      ensures err == None ==> raw == old(raw) + WalkChild(dir, entry, hash).value
    {
      var fullPath := Join(dir, entry.name);
      if entry.Dir? {
        err := WalkDir(fullPath, entry, hash);
      } else if !entry.readable {
        err := Some(fullPath);
      } else {
        Add(Record(fullPath, entry, hash));
        err := None;
      }
    }
  }

  /** scanDirectory: walk the tree from `dirPath`; a read error anywhere aborts the scan. */
  method ScanDirectory(dirPath: Path, root: Entry, hash: Content -> Digest)
    returns (r: Result<seq<FileInfo>, Path>)
    ensures r == ScanSpec(dirPath, root, hash)
  {
    var scanner := new Scanner();
    var err := scanner.WalkDir(dirPath, root, hash);
    if err.Some? {
      return Failure(err.value);
    }
    assert scanner.raw == WalkDirSpec(dirPath, root, hash).value;
    return Success(scanner.files);
  }

  // ---- lemmas behind the one-pass marking

  /** Appending a record whose digest already occurs at `k`: the new record
      and record `k` become duplicates; nothing else changes. */
  lemma MarkAppendTwin(raw: seq<FileInfo>, r: FileInfo, k: nat)
    requires k < |raw| && raw[k].hash == r.hash
    ensures MarkDuplicates(raw + [r]) ==
      MarkDuplicates(raw)[k := MarkDuplicates(raw)[k].(isDuplicate := true)] + [r.(isDuplicate := true)]
  {
    var s := raw + [r];
    var lhs := MarkDuplicates(s);
    var rhs := MarkDuplicates(raw)[k := MarkDuplicates(raw)[k].(isDuplicate := true)] + [r.(isDuplicate := true)];
    forall i | 0 <= i < |s|
      ensures lhs[i] == rhs[i]
    {
      if i == |raw| {
        assert s[k].hash == s[i].hash;
      } else if i == k {
        assert s[|raw|].hash == s[i].hash;
      } else if raw[i].hash == r.hash {
        assert s[k].hash == s[i].hash;
        assert raw[k].hash == raw[i].hash;
        assert HasTwin(raw, i);
      } else {
        TwinAppend(raw, r, i);
      }
    }
  }

  /** Appending a record with a digest not seen before: the new record is not
      a duplicate and no flag changes. */
  lemma MarkAppendFresh(raw: seq<FileInfo>, r: FileInfo)
    requires forall i :: 0 <= i < |raw| ==> raw[i].hash != r.hash
    ensures MarkDuplicates(raw + [r]) == MarkDuplicates(raw) + [r.(isDuplicate := false)]
  {
    var s := raw + [r];
    var lhs := MarkDuplicates(s);
    var rhs := MarkDuplicates(raw) + [r.(isDuplicate := false)];
    forall i | 0 <= i < |s|
      ensures lhs[i] == rhs[i]
    {
      if i < |raw| {
        TwinAppend(raw, r, i);
      }
    }
  }

  /** For an earlier record, a twin among `raw + [r]` is a twin among `raw` or `r` itself. */
  lemma TwinAppend(raw: seq<FileInfo>, r: FileInfo, i: nat)
    requires i < |raw|
    ensures HasTwin(raw + [r], i) <==> HasTwin(raw, i) || raw[i].hash == r.hash
  {
    var s := raw + [r];
    if HasTwin(raw, i) {
      var j :| 0 <= j < |raw| && j != i && raw[j].hash == raw[i].hash;
      assert s[j].hash == s[i].hash;
    }
    if raw[i].hash == r.hash {
      assert s[|raw|].hash == s[i].hash;
    }
    if HasTwin(s, i) {
      var j :| 0 <= j < |s| && j != i && s[j].hash == s[i].hash;
      if j < |raw| {
        assert raw[j].hash == raw[i].hash;
      }
    }
  }

  /** The records a walk builds: none is flagged yet, and each one's type is
      the lowercased extension of its path. */
  predicate FreshRecords(fs: seq<FileInfo>) {
    forall k :: 0 <= k < |fs| ==> !fs[k].isDuplicate && fs[k].fileType == FileType(fs[k].path)
  }

  lemma {:induction false} WalkDirRecords(path: Path, e: Entry, hash: Content -> Digest)
    requires WalkDirSpec(path, e, hash).Success?
    ensures FreshRecords(WalkDirSpec(path, e, hash).value)
    decreases e, 1
  {
    WalkChildrenRecords(path, e.children, hash);
  }

  lemma {:induction false} WalkChildrenRecords(dir: Path, cs: seq<Entry>, hash: Content -> Digest)
    requires WalkChildren(dir, cs, hash).Success?
    ensures FreshRecords(WalkChildren(dir, cs, hash).value)
    decreases cs, 0
  {
    if cs != [] {
      WalkChildrenRecords(dir, cs[..|cs| - 1], hash);
      WalkChildRecords(dir, cs[|cs| - 1], hash);
    }
  }

  lemma {:induction false} WalkChildRecords(dir: Path, c: Entry, hash: Content -> Digest)
    requires WalkChild(dir, c, hash).Success?
    ensures FreshRecords(WalkChild(dir, c, hash).value)
    decreases c, 2
  {
    if c.Dir? {
      WalkDirRecords(Join(dir, c.name), c, hash);
    }
  }

  /** One more iteration of walkDir's loop after a successful prefix. */
  lemma WalkChildrenStep(dir: Path, cs: seq<Entry>, i: nat, hash: Content -> Digest)
    requires i < |cs|
    requires WalkChildren(dir, cs[..i], hash).Success?
    ensures WalkChild(dir, cs[i], hash).Failure? ==>
      WalkChildren(dir, cs[..i + 1], hash) == WalkChild(dir, cs[i], hash)
    ensures WalkChild(dir, cs[i], hash).Success? ==>
      WalkChildren(dir, cs[..i + 1], hash) ==
        Success(WalkChildren(dir, cs[..i], hash).value + WalkChild(dir, cs[i], hash).value)
  {
    assert cs[..i + 1][..i] == cs[..i];
  }

  /** Once a prefix of a directory's entries has failed, the whole loop fails the same way. */
  lemma {:induction false} WalkChildrenFailurePersists(dir: Path, cs: seq<Entry>, n: nat, hash: Content -> Digest)
    requires n <= |cs|
    requires WalkChildren(dir, cs[..n], hash).Failure?
    ensures WalkChildren(dir, cs, hash) == WalkChildren(dir, cs[..n], hash)
    decreases |cs|
  {
    if n < |cs| {
      var init := cs[..|cs| - 1];
      assert init[..n] == cs[..n];
      WalkChildrenFailurePersists(dir, init, n, hash);
    } else {
      assert cs[..n] == cs;
    }
  }


  // ---- what the walk visits

  /** Every entry under `e`, `e` included, can be read. */
  predicate Readable(e: Entry)
    decreases e
  {
    e.readable && (e.Dir? ==> forall k :: 0 <= k < |e.children| ==> Readable(e.children[k]))
  }

  /** The number of non-directory entries under `e` (itself, if it is one). */
  function FileCount(e: Entry): nat
    decreases e, 1
  {
    if e.File? then 1 else FileCountAll(e.children)
  }

  function FileCountAll(cs: seq<Entry>): nat
    decreases cs, 0
  {
    if cs == [] then 0 else FileCountAll(cs[..|cs| - 1]) + FileCount(cs[|cs| - 1])
  }

  /** The walk from a path succeeds exactly when that path is a directory and
      every entry under it can be read: any read error aborts the whole scan. */
  lemma {:induction false} WalkDirSucceedsIffReadable(path: Path, e: Entry, hash: Content -> Digest)
    ensures WalkDirSpec(path, e, hash).Success? <==> e.Dir? && Readable(e)
    decreases e, 1
  {
    if e.Dir? && e.readable {
      WalkChildrenSucceedsIffReadable(path, e.children, hash);
    }
  }

  lemma {:induction false} WalkChildrenSucceedsIffReadable(dir: Path, cs: seq<Entry>, hash: Content -> Digest)
    ensures WalkChildren(dir, cs, hash).Success? <==> forall k :: 0 <= k < |cs| ==> Readable(cs[k])
    decreases cs, 0
  {
    if cs != [] {
      var init, c := cs[..|cs| - 1], cs[|cs| - 1];
      WalkChildrenSucceedsIffReadable(dir, init, hash);
      WalkChildSucceedsIffReadable(dir, c, hash);
      assert WalkChildren(dir, cs, hash).Success? <==>
        WalkChildren(dir, init, hash).Success? && WalkChild(dir, c, hash).Success?;
      AllReadableSplit(cs, init, c);
    }
  }

  lemma {:induction false} WalkChildSucceedsIffReadable(dir: Path, c: Entry, hash: Content -> Digest)
    ensures WalkChild(dir, c, hash).Success? <==> Readable(c)
    decreases c, 2
  {
    if c.Dir? {
      WalkDirSucceedsIffReadable(Join(dir, c.name), c, hash);
    }
  }

  lemma AllReadableSplit(cs: seq<Entry>, init: seq<Entry>, c: Entry)
    requires cs == init + [c]
    ensures (forall k :: 0 <= k < |cs| ==> Readable(cs[k])) <==>
      (forall k :: 0 <= k < |init| ==> Readable(init[k])) && Readable(c)
  {
    assert forall k :: 0 <= k < |init| ==> init[k] == cs[k];
    assert cs[|init|] == c;
  }

  /** A successful walk yields one record per non-directory entry, and no record
      for a directory. */
  lemma {:induction false} WalkDirCount(path: Path, e: Entry, hash: Content -> Digest)
    requires WalkDirSpec(path, e, hash).Success?
    ensures |WalkDirSpec(path, e, hash).value| == FileCount(e)
    decreases e, 1
  {
    WalkChildrenCount(path, e.children, hash);
  }

  lemma {:induction false} WalkChildrenCount(dir: Path, cs: seq<Entry>, hash: Content -> Digest)
    requires WalkChildren(dir, cs, hash).Success?
    ensures |WalkChildren(dir, cs, hash).value| == FileCountAll(cs)
    decreases cs, 0
  {
    if cs != [] {
      WalkChildrenCount(dir, cs[..|cs| - 1], hash);
      var c := cs[|cs| - 1];
      if c.Dir? {
        WalkDirCount(Join(dir, c.name), c, hash);
      }
    }
  }

  // ---- duplicate groups

  /** The positions of the records that carry digest `h`. */
  function Group(fs: seq<FileInfo>, h: Digest): set<nat> {
    set j | 0 <= j < |fs| && fs[j].hash == h
  }

  /** A record is flagged exactly when its hash group has at least two members:
      every member of a group of two or more is flagged, a singleton is not. */
  lemma DuplicateIffGroupOfTwo(raw: seq<FileInfo>, i: nat)
    requires i < |raw|
    ensures MarkDuplicates(raw)[i].isDuplicate <==> |Group(raw, raw[i].hash)| >= 2
  {
    var g := Group(raw, raw[i].hash);
    assert i in g;
    if HasTwin(raw, i) {
      var j :| 0 <= j < |raw| && j != i && raw[j].hash == raw[i].hash;
      assert {i, j} <= g;
      assert |{i, j}| == 2;
      SubsetCard({i, j}, g);
    } else {
      assert g == {i};
    }
  }

  lemma SubsetCard(a: set<nat>, b: set<nat>)
    requires a <= b
    ensures |a| <= |b|
  {
    assert b == a + (b - a);
  }

  /** Two records of one scan with the same digest are both flagged. */
  lemma SameHashBothFlagged(raw: seq<FileInfo>, i: nat, j: nat)
    requires i < |raw| && j < |raw| && i != j
    requires raw[i].hash == raw[j].hash
    ensures MarkDuplicates(raw)[i].isDuplicate && MarkDuplicates(raw)[j].isDuplicate
  {
    assert HasTwin(raw, i);
    assert raw[i].hash == raw[j].hash;
    assert HasTwin(raw, j);
  }
}
