/** The two classifiers shared by the main process and the window: cache files
    by the ending of their path, unused files by their last access time, and the
    status badge the file table derives from them. */
module Classify {
  import opened Text
  import opened Records

  /** The endings that mark a cache file, each matched case-insensitively at
      the end of the whole path. */
  function CachePatterns(): seq<string> {
    [".cache", ".tmp", ".temp", "thumbs.db", ".log"]
  }

  /** Some cache pattern matches the end of the path, ignoring case. */
  predicate IsCacheFile(p: Path) {
    exists i :: 0 <= i < |CachePatterns()| && EndsWith(Lower(p), CachePatterns()[i])
  }

  /** The five patterns, written out. */
  lemma IsCacheFileCases(p: Path)
    ensures IsCacheFile(p) <==>
      EndsWith(Lower(p), ".cache") || EndsWith(Lower(p), ".tmp") || EndsWith(Lower(p), ".temp") ||
      EndsWith(Lower(p), "thumbs.db") || EndsWith(Lower(p), ".log")
  {
    var ps := CachePatterns();
    assert ps[0] == ".cache" && ps[1] == ".tmp" && ps[2] == ".temp" && ps[3] == "thumbs.db" && ps[4] == ".log";
  }

  /** A file whose extension, in any case, is one of the cache extensions is a
      cache file. */
  lemma CacheByExtension(p: Path)
    requires FileType(p) in [".cache", ".tmp", ".temp", ".log"]
    ensures IsCacheFile(p)
  {
    LowerEndsWith(p, ExtName(p));
    IsCacheFileCases(p);
  }

  /** The pattern sees the whole path, not the extension: a hidden `.cache` file
      has no extension yet is a cache file. */
  lemma HiddenCacheFile()
    ensures IsCacheFile("/home/.cache") && FileType("/home/.cache") == ""
  {
    var p := "/home/.cache";
    LowerOfLowercase(p);
    IsCacheFileCases(p);
    assert EndsWith(p, ".cache");
    HiddenHasNoExtension(p);
  }

  lemma HiddenHasNoExtension(p: Path)
    requires p == "/home/.cache"
    ensures FileType(p) == ""
  {
    assert p[5] == '/' && forall k :: 5 < k < |p| ==> p[k] != '/';
    var base := BaseName(p);
    assert base == p[6..] == ".cache";
    assert base[0] == '.' && forall k :: 0 < k < |base| ==> base[k] != '.';
    assert ExtName(p) == "";
  }

  /** Likewise any base name that merely ends in `thumbs.db`. */
  lemma ThumbsSuffix()
    ensures IsCacheFile("/a/mythumbs.db")
  {
    var p := "/a/mythumbs.db";
    LowerOfLowercase(p);
    IsCacheFileCases(p);
    assert p[|p| - 9..] == "thumbs.db";
  }

  const DayMs: int := 86400000

  /** The unused cut-off: ninety days before `now`, all timestamps in
      milliseconds since the epoch. */
  function NinetyDaysAgo(now: int): int {
    now - 90 * DayMs
  }

  /** Last accessed strictly before the cut-off. */
  predicate IsUnused(lastAccessed: int, now: int) {
    lastAccessed < NinetyDaysAgo(now)
  }

  /** The cut-off itself is still in use; one millisecond earlier is not, and
      an older access stays unused as time goes on. */
  lemma UnusedBoundary(lastAccessed: int, now: int, later: int)
    requires now <= later
    ensures !IsUnused(NinetyDaysAgo(now), now) && IsUnused(NinetyDaysAgo(now) - 1, now)
    ensures IsUnused(lastAccessed, now) <==> now - lastAccessed > 7776000000
    ensures IsUnused(lastAccessed, now) ==> IsUnused(lastAccessed, later)
  {
  }

  /** The badge of a row; the first of the checks that holds wins. */
  datatype Status = Duplicate | Unused | Cache | Active

  function StatusOf(f: FileInfo, now: int): (s: Status)
    ensures s == Duplicate <==> f.isDuplicate
    ensures s == Unused <==> !f.isDuplicate && IsUnused(f.lastAccessed, now)
    ensures s == Cache <==> !f.isDuplicate && !IsUnused(f.lastAccessed, now) && IsCacheFile(f.path)
    ensures s == Active <==> !f.isDuplicate && !IsUnused(f.lastAccessed, now) && !IsCacheFile(f.path)
  {
    if f.isDuplicate then Duplicate
    else if IsUnused(f.lastAccessed, now) then Unused
    else if IsCacheFile(f.path) then Cache
    else Active
  }

  /** The badge's label. */
  function StatusText(f: FileInfo, now: int): (r: string)
    ensures r == Label(StatusOf(f, now))
  {
    if f.isDuplicate then "Duplicate"
    else if IsUnused(f.lastAccessed, now) then "Unused"
    else if IsCacheFile(f.path) then "Cache"
    else "Active"
  }

  /** The badge's colour classes. */
  function StatusClass(f: FileInfo, now: int): (r: string)
    ensures r == Colour(StatusOf(f, now))
  {
    if f.isDuplicate then "bg-red-100 text-red-800"
    else if IsUnused(f.lastAccessed, now) then "bg-yellow-100 text-yellow-800"
    else if IsCacheFile(f.path) then "bg-purple-100 text-purple-800"
    else "bg-green-100 text-green-800"
  }

  function Label(s: Status): string {
    match s
    case Duplicate => "Duplicate"
    case Unused => "Unused"
    case Cache => "Cache"
    case Active => "Active"
  }

  function Colour(s: Status): string {
    match s
    case Duplicate => "bg-red-100 text-red-800"
    case Unused => "bg-yellow-100 text-yellow-800"
    case Cache => "bg-purple-100 text-purple-800"
    case Active => "bg-green-100 text-green-800"
  }

  /** Label and colour tell the four statuses apart. */
  lemma LabelColourInjective(s: Status, t: Status)
    ensures Label(s) == Label(t) <==> s == t
    ensures Colour(s) == Colour(t) <==> s == t
  {
    if s != t {
      assert Label(s)[0] != Label(t)[0];
      assert Colour(s)[3] != Colour(t)[3];
    }
  }

  /** The label and the colour come from the same check, so two rows carry the
      same label exactly when they carry the same colour. */
  lemma StatusTextAndClassAgree(f: FileInfo, g: FileInfo, now: int)
    ensures StatusText(f, now) == Label(StatusOf(f, now))
    ensures StatusClass(f, now) == Colour(StatusOf(f, now))
    ensures StatusText(f, now) == StatusText(g, now) <==> StatusClass(f, now) == StatusClass(g, now)
  {
    LabelColourInjective(StatusOf(f, now), StatusOf(g, now));
  }
}
