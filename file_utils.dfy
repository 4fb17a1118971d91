/**
 * The tree folds of the file utilities: collecting the files whose name
 * matches a pattern, summing file sizes, and choosing the unit in which a
 * byte count is shown. The size of a file is the length of its text.
 */
module FileUtils {
  import opened Results
  import opened FileSystem

  // ---------------------------------------------------------------------
  // findFiles
  // ---------------------------------------------------------------------

  /** A result with `prefix` put in front of its value; an error passes through. */
  function After(prefix: seq<Path>, r: Result<seq<Path>>): Result<seq<Path>> {
    match r
    case Err(e) => Err(e)
    case Ok(found) => Ok(prefix + found)
  }

  /**
   * traverse: the files inside `dir` whose name passes `pattern`,
   * depth-first in listing order, each directory's matches standing where
   * the directory is met. Directories are never reported.
   */
  function FindIn(fs: Fs, dir: Path, pattern: string -> bool): Result<seq<Path>>
    decreases |DirsBelow(Dirs(fs.nodes), dir)|, 1
  {
    match ReadDir(fs, dir)
    case Err(e) => Err(e)
    case Ok(names) => FindEntries(fs, dir, names, pattern)
  }

  /** The loop of traverse over the entries `names` still to visit. */
  function FindEntries(fs: Fs, dir: Path, names: seq<string>, pattern: string -> bool): Result<seq<Path>>
    decreases |DirsBelow(Dirs(fs.nodes), dir)|, 0, |names|
  {
    if names == [] then Ok([])
    else
      var p := dir + [names[0]];
      ChildIsBelow(dir, names[0]);
      if IsDir(fs, p) then
        SubdirHasFewerDirs(Dirs(fs.nodes), dir, p);
        match FindIn(fs, p, pattern)
        case Err(e) => Err(e)
        case Ok(inner) => After(inner, FindEntries(fs, dir, names[1..], pattern))
      else if pattern(names[0]) then After([p], FindEntries(fs, dir, names[1..], pattern))
      else FindEntries(fs, dir, names[1..], pattern)
  }

  /** findFiles: the matches of the walk from `dir`; an unreadable `dir` is an error. */
  method FindFiles(fs: Fs, dir: Path, pattern: string -> bool) returns (r: Result<seq<Path>>)
    ensures r == FindIn(fs, dir, pattern)
  {
    r := Traverse(fs, dir, pattern, []);
    var found := FindIn(fs, dir, pattern);
    if found.Ok? {
      assert [] + found.value == found.value;
    }
  }

  /** traverse: pushes the matches below `currentDir` onto `files`. */
  method Traverse(fs: Fs, currentDir: Path, pattern: string -> bool, files: seq<Path>) returns (r: Result<seq<Path>>)
    ensures r == After(files, FindIn(fs, currentDir, pattern))
    decreases |DirsBelow(Dirs(fs.nodes), currentDir)|
  {
    var entries := ReadDir(fs, currentDir);
    if entries.Err? {
      return Err(entries.error);
    }
    var names := entries.value;
    var acc := files;
    var i := 0;
    while i < |names|
      invariant 0 <= i <= |names|
      invariant After(files, FindEntries(fs, currentDir, names, pattern)) == After(acc, FindEntries(fs, currentDir, names[i..], pattern))
    {
      var entry := names[i];
      var fullPath := currentDir + [entry];
      assert names[i..] == [entry] + names[i + 1..];
      ChildIsBelow(currentDir, entry);
      if IsDir(fs, fullPath) {
        SubdirHasFewerDirs(Dirs(fs.nodes), currentDir, fullPath);
        var sub := Traverse(fs, fullPath, pattern, acc);
        if sub.Err? {
          return sub;
        }
        AfterAfter(acc, FindIn(fs, fullPath, pattern).value, FindEntries(fs, currentDir, names[i + 1..], pattern));
        acc := sub.value;
      } else if pattern(entry) {
        AfterAfter(acc, [fullPath], FindEntries(fs, currentDir, names[i + 1..], pattern));
        acc := acc + [fullPath];
      }
      i := i + 1;
    }
    assert acc + [] == acc;
    return Ok(acc);
  }

  lemma AfterAfter(a: seq<Path>, b: seq<Path>, r: Result<seq<Path>>)
    ensures After(a, After(b, r)) == After(a + b, r)
  {
    if r.Ok? {
      assert a + (b + r.value) == (a + b) + r.value;
    }
  }

  /** The paths of `found` whose first name below `dir` is one of `names`. */
  ghost predicate FoundExactly(fs: Fs, dir: Path, names: seq<string>, pattern: string -> bool, found: seq<Path>) {
    && Distinct(found)
    && forall p :: p in found <==> Below(dir, p) && p[|dir|] in names && IsFile(fs, p) && pattern(Name(p))
  }

  /**
   * On a valid file system, findFiles from a directory succeeds and reports
   * every file inside it whose name passes the pattern, once, and nothing
   * else: no directory and no file outside it.
   */
  lemma {:induction false} FindInExact(fs: Fs, dir: Path, pattern: string -> bool)
    requires Valid(fs) && IsDir(fs, dir)
    ensures FindIn(fs, dir, pattern).Ok?
    ensures var found := FindIn(fs, dir, pattern).value;
      && Distinct(found)
      && forall p :: p in found <==> Below(dir, p) && IsFile(fs, p) && pattern(Name(p))
    decreases |DirsBelow(Dirs(fs.nodes), dir)|, 1
  {
    var names := Listing(fs.order, fs.nodes, dir);
    ListedEntries(fs, dir);
    FindEntriesExact(fs, dir, names, pattern);
    forall p | Below(dir, p) && p in fs.nodes ensures p[|dir|] in names {
      EntryExists(fs, dir, p);
    }
  }

  /** The loop of findFiles over distinct existing entries finds exactly the matches under them. */
  lemma {:induction false} FindEntriesExact(fs: Fs, dir: Path, names: seq<string>, pattern: string -> bool)
    requires Valid(fs) && IsDir(fs, dir) && Distinct(names)
    requires forall n | n in names :: dir + [n] in fs.nodes
    ensures FindEntries(fs, dir, names, pattern).Ok?
    ensures FoundExactly(fs, dir, names, pattern, FindEntries(fs, dir, names, pattern).value)
    decreases |DirsBelow(Dirs(fs.nodes), dir)|, 0, |names|
  {
    if names == [] {
    } else {
      var n, rest := names[0], names[1..];
      var c := dir + [n];
      ChildIsBelow(dir, n);
      assert n in names;
      assert forall m | m in rest :: m in names;
      assert Distinct(rest) by {
        forall i, j | 0 <= i < j < |rest| ensures rest[i] != rest[j] { assert rest[i] == names[i + 1]; }
      }
      assert n !in rest by {
        forall i | 0 <= i < |rest| ensures rest[i] != n { assert rest[i] == names[i + 1]; }
      }
      FindEntriesExact(fs, dir, rest, pattern);
      var tail := FindEntries(fs, dir, rest, pattern).value;
      if IsDir(fs, c) {
        SubdirHasFewerDirs(Dirs(fs.nodes), dir, c);
        FindInExact(fs, c, pattern);
        DirEntryFound(fs, dir, n, rest, pattern, FindIn(fs, c, pattern).value, tail);
      } else {
        FileEntryFound(fs, dir, n, rest, pattern, tail);
      }
    }
  }

  /** The step of FindEntriesExact for an entry that is a directory. */
  lemma DirEntryFound(fs: Fs, dir: Path, n: string, rest: seq<string>, pattern: string -> bool, inner: seq<Path>, tail: seq<Path>)
    requires Valid(fs) && IsDir(fs, dir + [n]) && n !in rest
    requires FindIn(fs, dir + [n], pattern) == Ok(inner)
    requires FindEntries(fs, dir, rest, pattern) == Ok(tail)
    requires Distinct(inner) && forall p :: p in inner <==> Below(dir + [n], p) && IsFile(fs, p) && pattern(Name(p))
    requires FoundExactly(fs, dir, rest, pattern, tail)
    ensures FindEntries(fs, dir, [n] + rest, pattern) == Ok(inner + tail)
    ensures FoundExactly(fs, dir, [n] + rest, pattern, inner + tail)
  {
    var c := dir + [n];
    assert ([n] + rest)[0] == n && ([n] + rest)[1..] == rest;
    forall p ensures p in inner + tail <==> Below(dir, p) && p[|dir|] in [n] + rest && IsFile(fs, p) && pattern(Name(p)) {
      InsideEntry(dir, n, p);
      if Below(dir, p) && p[|dir|] == n {
        EntryOrInside(dir, p);
      }
    }
    forall i, j | 0 <= i < |inner| && 0 <= j < |tail| ensures inner[i] != tail[j] {
      assert inner[i] in inner && tail[j] in tail;
      InsideEntry(dir, n, inner[i]);
    }
    DistinctConcat(inner, tail);
  }

  /** The step of FindEntriesExact for an entry that is a file. */
  lemma FileEntryFound(fs: Fs, dir: Path, n: string, rest: seq<string>, pattern: string -> bool, tail: seq<Path>)
    requires Valid(fs) && IsFile(fs, dir + [n]) && n !in rest
    requires FindEntries(fs, dir, rest, pattern) == Ok(tail)
    requires FoundExactly(fs, dir, rest, pattern, tail)
    ensures FindEntries(fs, dir, [n] + rest, pattern) == Ok(if pattern(n) then [dir + [n]] + tail else tail)
    ensures FoundExactly(fs, dir, [n] + rest, pattern, if pattern(n) then [dir + [n]] + tail else tail)
  {
    var c := dir + [n];
    ChildIsBelow(dir, n);
    assert ([n] + rest)[0] == n && ([n] + rest)[1..] == rest;
    assert c[|dir|] == n;
    forall p | Below(dir, p) && p[|dir|] == n && p in fs.nodes ensures p == c {
      EntryOrInside(dir, p);
      OnlyFileAtOrBelow(fs, c, p);
    }
    if pattern(n) {
      assert c !in tail;
      DistinctConcat([c], tail);
    }
  }

  lemma DistinctConcat<T>(a: seq<T>, b: seq<T>)
    requires Distinct(a) && Distinct(b)
    requires forall i, j | 0 <= i < |a| && 0 <= j < |b| :: a[i] != b[j]
    ensures Distinct(a + b)
  {
  }

  // ---------------------------------------------------------------------
  // getDirectorySize
  // ---------------------------------------------------------------------

  /** The directories at `p` or inside it: the measure of the size walk. */
  function DirsAtOrBelow(dirs: set<Path>, p: Path): set<Path> {
    set q | q in dirs && AtOrBelow(p, q)
  }

  /** An entry of a directory has fewer directories at or below it than the directory. */
  lemma EntryHasFewerDirs(dirs: set<Path>, dir: Path, n: string)
    requires dir in dirs
    ensures |DirsAtOrBelow(dirs, dir + [n])| < |DirsAtOrBelow(dirs, dir)|
  {
    var inner, outer := DirsAtOrBelow(dirs, dir + [n]), DirsAtOrBelow(dirs, dir);
    forall q | q in inner ensures q in outer - {dir} {
      InsideEntry(dir, n, q);
    }
    SubsetCardinality(inner, outer - {dir});
  }

  /** calculateSize: the size of a file, or the summed sizes of what a directory holds. */
  function SizeOf(fs: Fs, p: Path): Result<nat>
    decreases |DirsAtOrBelow(Dirs(fs.nodes), p)|, 1
  {
    match Stat(fs, p)
    case Err(e) => Err(e)
    case Ok(node) =>
      if node.File? then Ok(|node.content|)
      else
        match ReadDir(fs, p)
        case Err(e) => Err(e)
        case Ok(names) => SizeEntries(fs, p, names)
  }

  /** The loop of calculateSize over the entries `names` of directory `dir`. */
  function SizeEntries(fs: Fs, dir: Path, names: seq<string>): Result<nat>
    requires IsDir(fs, dir)
    decreases |DirsAtOrBelow(Dirs(fs.nodes), dir)|, 0, |names|
  {
    if names == [] then Ok(0)
    else
      EntryHasFewerDirs(Dirs(fs.nodes), dir, names[0]);
      match SizeOf(fs, dir + [names[0]])
      case Err(e) => Err(e)
      case Ok(a) => Plus(a, SizeEntries(fs, dir, names[1..]))
  }

  function Plus(a: nat, r: Result<nat>): Result<nat> {
    match r
    case Err(e) => Err(e)
    case Ok(b) => Ok(a + b)
  }

  /** getDirectorySize: the total the walk from `dirPath` accumulates. */
  method GetDirectorySize(fs: Fs, dirPath: Path) returns (r: Result<nat>)
    ensures r == SizeOf(fs, dirPath)
  {
    r := CalculateSize(fs, dirPath, 0);
  }

  /** calculateSize: adds the size of `currentPath` to the running `size`. */
  method CalculateSize(fs: Fs, currentPath: Path, size: nat) returns (r: Result<nat>)
    ensures r == Plus(size, SizeOf(fs, currentPath))
    decreases |DirsAtOrBelow(Dirs(fs.nodes), currentPath)|
  {
    var stat := Stat(fs, currentPath);
    if stat.Err? {
      return Err(stat.error);
    }
    if stat.value.File? {
      return Ok(size + |stat.value.content|);
    }
    var entries := ReadDir(fs, currentPath);
    var names := entries.value;
    var total := size;
    var i := 0;
    while i < |names|
      invariant 0 <= i <= |names|
      invariant Plus(size, SizeEntries(fs, currentPath, names)) == Plus(total, SizeEntries(fs, currentPath, names[i..]))
    {
      assert names[i..] == [names[i]] + names[i + 1..];
      EntryHasFewerDirs(Dirs(fs.nodes), currentPath, names[i]);
      var sub := CalculateSize(fs, currentPath + [names[i]], total);
      if sub.Err? {
        return sub;
      }
      total := sub.value;
      i := i + 1;
    }
    return Ok(total);
  }

  /** The sizes of the files at `paths`, each counted once per occurrence. */
  function TotalSize(fs: Fs, paths: seq<Path>): nat {
    if paths == [] then 0
    else
      (if IsFile(fs, paths[0]) then |fs.nodes[paths[0]].content| else 0)
      + TotalSize(fs, paths[1..])
  }

  lemma {:induction false} TotalSizeConcat(fs: Fs, a: seq<Path>, b: seq<Path>)
    ensures TotalSize(fs, a + b) == TotalSize(fs, a) + TotalSize(fs, b)
  {
    if a == [] {
      assert a + b == b;
    } else {
      assert (a + b)[1..] == a[1..] + b;
      TotalSizeConcat(fs, a[1..], b);
    }
  }

  /** The pattern every name passes. */
  function AnyName(name: string): bool {
    true
  }

  /**
   * On a valid file system getDirectorySize of a file is its size, and of
   * a directory the summed sizes of exactly the files inside it, each
   * counted once.
   */
  lemma SizeIsSumOfFiles(fs: Fs, p: Path)
    requires Valid(fs) && p in fs.nodes
    ensures IsFile(fs, p) ==> SizeOf(fs, p) == Ok(|fs.nodes[p].content|)
    ensures IsDir(fs, p) ==> FindIn(fs, p, AnyName).Ok? && SizeOf(fs, p) == Ok(TotalSize(fs, FindIn(fs, p, AnyName).value))
  {
    if IsDir(fs, p) {
      FindInExact(fs, p, AnyName);
      SizeMatchesFound(fs, p);
    }
  }

  /** The size walk and the find walk with every name accepted visit the same files. */
  lemma {:induction false} SizeMatchesFound(fs: Fs, dir: Path)
    requires Valid(fs) && IsDir(fs, dir)
    ensures SizeOf(fs, dir) == After2Size(fs, FindIn(fs, dir, AnyName))
    decreases |DirsAtOrBelow(Dirs(fs.nodes), dir)|, 1
  {
    ListedEntries(fs, dir);
    SizeEntriesMatch(fs, dir, Listing(fs.order, fs.nodes, dir));
  }

  /** A find result turned into the total size of what it found. */
  function After2Size(fs: Fs, r: Result<seq<Path>>): Result<nat> {
    match r
    case Err(e) => Err(e)
    case Ok(found) => Ok(TotalSize(fs, found))
  }

  lemma {:induction false} SizeEntriesMatch(fs: Fs, dir: Path, names: seq<string>)
    requires Valid(fs) && IsDir(fs, dir)
    requires forall n | n in names :: dir + [n] in fs.nodes
    ensures SizeEntries(fs, dir, names) == After2Size(fs, FindEntries(fs, dir, names, AnyName))
    decreases |DirsAtOrBelow(Dirs(fs.nodes), dir)|, 0, |names|
  {
    if names != [] {
      var n, rest := names[0], names[1..];
      var c := dir + [n];
      assert names == [n] + rest;
      assert n in names;
      assert forall m | m in rest :: m in names;
      EntryHasFewerDirs(Dirs(fs.nodes), dir, n);
      SizeEntriesMatch(fs, dir, rest);
      if IsDir(fs, c) {
        SizeMatchesFound(fs, c);
        DirSizeStep(fs, dir, n, rest);
      } else {
        FileSizeStep(fs, dir, n, rest);
      }
    }
  }

  /** The step of SizeEntriesMatch for an entry that is a directory. */
  lemma DirSizeStep(fs: Fs, dir: Path, n: string, rest: seq<string>)
    requires IsDir(fs, dir) && IsDir(fs, dir + [n])
    requires SizeOf(fs, dir + [n]) == After2Size(fs, FindIn(fs, dir + [n], AnyName))
    requires SizeEntries(fs, dir, rest) == After2Size(fs, FindEntries(fs, dir, rest, AnyName))
    ensures SizeEntries(fs, dir, [n] + rest) == After2Size(fs, FindEntries(fs, dir, [n] + rest, AnyName))
  {
    assert ([n] + rest)[0] == n && ([n] + rest)[1..] == rest;
    var inner := FindIn(fs, dir + [n], AnyName);
    var tail := FindEntries(fs, dir, rest, AnyName);
    if inner.Ok? && tail.Ok? {
      TotalSizeConcat(fs, inner.value, tail.value);
    }
  }

  /** The step of SizeEntriesMatch for an entry that is a file. */
  lemma FileSizeStep(fs: Fs, dir: Path, n: string, rest: seq<string>)
    requires IsDir(fs, dir) && IsFile(fs, dir + [n])
    requires SizeEntries(fs, dir, rest) == After2Size(fs, FindEntries(fs, dir, rest, AnyName))
    ensures SizeEntries(fs, dir, [n] + rest) == After2Size(fs, FindEntries(fs, dir, [n] + rest, AnyName))
  {
    var c := dir + [n];
    assert ([n] + rest)[0] == n && ([n] + rest)[1..] == rest;
    var tail := FindEntries(fs, dir, rest, AnyName);
    if tail.Ok? {
      TotalSizeConcat(fs, [c], tail.value);
      assert TotalSize(fs, [c]) == |fs.nodes[c].content| by {
        assert [c][1..] == [];
      }
    }
  }

  // ---------------------------------------------------------------------
  // formatBytes
  // ---------------------------------------------------------------------

  const Units: seq<string> := ["B", "KB", "MB", "GB"]

  function Pow(b: nat, k: nat): (r: nat)
    ensures b > 0 ==> r > 0
  {
    if k == 0 then 1 else b * Pow(b, k - 1)
  }

  /**
   * formatBytes, without the rounding to two decimals: the count divided
   * down by 1024 while it is at least 1024 and a larger unit is left.
   * The unit chosen is the largest of B, KB, MB, GB whose power of 1024
   * does not exceed the count.
   */
  method FormatBytes(bytes: nat) returns (size: real, unitIndex: nat, unit: string)
    ensures unitIndex < |Units| && unit == Units[unitIndex]
    ensures unitIndex > 0 ==> bytes >= Pow(1024, unitIndex)
    ensures unitIndex < 3 ==> bytes < Pow(1024, unitIndex + 1)
    ensures size * Pow(1024, unitIndex) as real == bytes as real
    ensures bytes < 1024 ==> unit == "B"
  {
    size := bytes as real;
    unitIndex := 0;
    while size >= 1024.0 && unitIndex < |Units| - 1
      invariant unitIndex < |Units|
      invariant size * Pow(1024, unitIndex) as real == bytes as real
      invariant unitIndex > 0 ==> bytes >= Pow(1024, unitIndex)
    {
      var p := Pow(1024, unitIndex) as real;
      assert bytes as real >= 1024.0 * p;
      size := size / 1024.0;
      unitIndex := unitIndex + 1;
      assert Pow(1024, unitIndex) as real == 1024.0 * p;
    }
    if unitIndex < 3 {
      assert size < 1024.0;
      assert (bytes as real) < 1024.0 * Pow(1024, unitIndex) as real;
    }
    unit := Units[unitIndex];
  }
}
