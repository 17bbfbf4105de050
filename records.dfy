/** The values the scanner works on: the directory tree it reads and the file
    records it produces (one row of the `files` table). */
module Records {
  import Text

  type Path = string

  /** A content digest (the hex string of a SHA-256 in the program). */
  type Digest = string

  newtype byte = x: int | 0 <= x < 256

  type Content = seq<byte>

  /** What `readdir` and `stat` would find. Every entry that is not a
      directory is a `File`. `readable` is false when reading the entry
      fails (for a directory its listing, for a file its `stat` or content).
      Timestamps are milliseconds since the epoch. */
  datatype Entry =
    | File(name: string, content: Content, size: nat, atime: int, mtime: int, readable: bool)
    | Dir(name: string, children: seq<Entry>, readable: bool)

  /** One file record; `fileType` is the lowercased extension. */
  datatype FileInfo = FileInfo(
    path: Path,
    hash: Digest,
    size: nat,
    lastAccessed: int,
    lastModified: int,
    fileType: string,
    isDuplicate: bool)

  /** path.join of a directory and an entry name. */
  function Join(dir: Path, name: string): Path {
    dir + "/" + name
  }

  /** The last segment of a path: everything after its last separator, or the
      whole path when it has none. */
  function BaseName(p: Path): (r: string)
    ensures Text.EndsWith(p, r)
    ensures forall k :: 0 <= k < |r| ==> r[k] != '/'
    ensures |r| == |p| || p[|p| - |r| - 1] == '/'
  {
    var slash := Text.LastIndexOf(p, '/');
    assert p[|p| - |p[slash + 1..]|..] == p[slash + 1..];
    p[slash + 1..]
  }

  /** A joined path starts with the directory and a separator, and its base
      name is the entry name. */
  lemma BaseNameOfJoin(dir: Path, name: string)
    requires forall k :: 0 <= k < |name| ==> name[k] != '/'
    ensures Text.StartsWith(Join(dir, name), dir + "/")
    ensures BaseName(Join(dir, name)) == name
  {
    var j := Join(dir, name);
    assert j[..|dir| + 1] == dir + "/";
    var slash := Text.LastIndexOf(j, '/');
    assert j[|dir|] == '/';
    assert forall k :: |dir| < k < |j| ==> j[k] == name[k - |dir| - 1];
    assert slash == |dir|;
    assert j[|dir| + 1..] == name;
  }

  /** path.extname: the base name from its last dot on, or "" when the base
      name has no dot after its first character. */
  function ExtName(p: Path): (r: string)
    ensures r == "" || (r[0] == '.' && Text.EndsWith(p, r))
    ensures forall k :: 1 <= k < |r| ==> r[k] != '.' && r[k] != '/'
    ensures r != "" <==> exists k :: 0 < k < |BaseName(p)| && BaseName(p)[k] == '.'
    ensures r != "" ==> Text.EndsWith(BaseName(p), r)
  {
    var base := BaseName(p);
    var dot := Text.LastIndexOf(base, '.');
    if dot <= 0 then
      assert forall k :: 0 < k < |base| ==> base[k] != '.';
      ""
    else
      assert 0 < dot < |base| && base[dot] == '.';
      assert Text.EndsWith(base, base[dot..]) by {
        assert base[|base| - |base[dot..]|..] == base[dot..];
      }
      Text.EndsWithTransitive(p, base, base[dot..]);
      base[dot..]
  }

  /** The `file_type` column: the extension in lowercase. */
  function FileType(p: Path): (r: string)
    ensures |r| == |ExtName(p)| && (r == "" <==> ExtName(p) == "")
    ensures r != "" ==> r[0] == '.'
    ensures forall k :: 0 <= k < |r| ==> !('A' <= r[k] <= 'Z')
    ensures forall k :: 0 <= k < |r| ==> r[k] == Text.LowerChar(ExtName(p)[k])
  {
    var e := ExtName(p);
    Text.LowerHasNoCapitals(e);
    assert e != "" ==> Text.Lower(e)[0] == Text.LowerChar(e[0]) == '.';
    Text.Lower(e)
  }

  /** An upper-case extension is stored in lower case. */
  lemma FileTypeExample()
    ensures FileType("/a/b.TXT") == ".txt"
  {
    var p := "/a/b.TXT";
    assert p[2] == '/' && forall k :: 2 < k < |p| ==> p[k] != '/';
    var base := BaseName(p);
    assert base == p[3..] == "b.TXT";
    assert base[1] == '.' && forall k :: 1 < k < |base| ==> base[k] != '.';
    assert ExtName(p) == base[1..] == ".TXT";
    var lower := Text.Lower(".TXT");
    assert lower[0] == '.' && lower[1] == 't' && lower[2] == 'x' && lower[3] == 't';
    assert lower == ".txt";
  }
}
