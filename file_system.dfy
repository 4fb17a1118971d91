/**
 * The file system the generator reads and writes, modelled as a value.
 *
 * `nodes` maps every absolute path (a sequence of names, `[]` being the
 * root) to a file with its text or to a directory. `order` lists the paths
 * in the order they were created; a directory listing reports a
 * directory's entries in that order. `readOnly` holds the paths whose
 * creation or writing fails (a permission error or a full disk), so that
 * the failure paths of the callers can be exercised.
 */
module FileSystem {
  import opened Results

  type Path = seq<string>

  datatype Node = File(content: string) | Dir

  datatype Fs = Fs(nodes: map<Path, Node>, order: seq<Path>, readOnly: set<Path>)

  function Parent(p: Path): Path
    requires p != []
  {
    p[..|p| - 1]
  }

  function Name(p: Path): string
    requires p != []
  {
    p[|p| - 1]
  }

  /** `p` lies strictly inside directory `dir`. */
  predicate Below(dir: Path, p: Path) {
    |dir| < |p| && p[..|dir|] == dir
  }

  /** `p` is `dir` itself or lies inside it. */
  predicate AtOrBelow(dir: Path, p: Path) {
    |dir| <= |p| && p[..|dir|] == dir
  }

  predicate IsDir(fs: Fs, p: Path) {
    p in fs.nodes && fs.nodes[p].Dir?
  }

  predicate IsFile(fs: Fs, p: Path) {
    p in fs.nodes && fs.nodes[p].File?
  }

  predicate Distinct<T(==)>(s: seq<T>) {
    forall i, j | 0 <= i < j < |s| :: s[i] != s[j]
  }

  /**
   * What every real file system guarantees: the root is a directory, every
   * other entry has a non-empty name and sits in a directory, and the
   * creation order lists each existing entry exactly once.
   */
  ghost predicate Valid(fs: Fs) {
    && IsDir(fs, [])
    && (forall p | p in fs.nodes && p != [] :: Name(p) != "" && IsDir(fs, Parent(p)))
    && (forall p | p in fs.nodes :: p in fs.order)
    && (forall i | 0 <= i < |fs.order| :: fs.order[i] in fs.nodes)
    && Distinct(fs.order)
  }

  /** The set of directory paths; no operation of the generator removes a directory. */
  function Dirs(nodes: map<Path, Node>): set<Path> {
    set p | p in nodes && nodes[p].Dir?
  }

  function DirsBelow(dirs: set<Path>, dir: Path): set<Path> {
    set q | q in dirs && Below(dir, q)
  }

  lemma BelowTransitive(a: Path, b: Path, c: Path)
    requires Below(a, b) && Below(b, c)
    ensures Below(a, c)
  {
    assert c[..|a|] == c[..|b|][..|a|];
  }

  lemma ChildIsBelow(dir: Path, n: string)
    ensures Below(dir, dir + [n]) && Parent(dir + [n]) == dir && Name(dir + [n]) == n
  {
    assert (dir + [n])[..|dir|] == dir;
  }

  lemma SubsetCardinality<T>(a: set<T>, b: set<T>)
    requires a <= b
    ensures |a| <= |b|
  {
    assert b == a + (b - a);
  }

  /** A directory inside `dir` has fewer directories inside it than `dir` has: the measure of every walk. */
  lemma SubdirHasFewerDirs(dirs: set<Path>, dir: Path, c: Path)
    requires c in dirs && Below(dir, c)
    ensures |DirsBelow(dirs, c)| < |DirsBelow(dirs, dir)|
  {
    var inner, outer := DirsBelow(dirs, c), DirsBelow(dirs, dir);
    forall q | q in inner
      ensures q in outer - {c}
    {
      BelowTransitive(dir, c, q);
    }
    SubsetCardinality(inner, outer - {c});
  }

  /**
   * The names of the existing entries directly inside `dir`. A real listing
   * promises no order; the model lists entries in creation order.
   */
  function Listing(order: seq<Path>, nodes: map<Path, Node>, dir: Path): seq<string> {
    if order == [] then []
    else
      var p := order[|order| - 1];
      Listing(order[..|order| - 1], nodes, dir)
      + (if p in nodes && p != [] && Parent(p) == dir then [Name(p)] else [])
  }

  lemma ChildPath(dir: Path, n: string, q: Path)
    ensures (q != [] && Parent(q) == dir && Name(q) == n) <==> q == dir + [n]
  {
    if q == dir + [n] {
      ChildIsBelow(dir, n);
    }
    if q != [] && Parent(q) == dir && Name(q) == n {
      assert q == q[..|q| - 1] + [q[|q| - 1]];
    }
  }

  lemma {:induction false} ListingHas(order: seq<Path>, nodes: map<Path, Node>, dir: Path, n: string)
    ensures n in Listing(order, nodes, dir)
        <==> exists i | 0 <= i < |order| :: order[i] in nodes && order[i] == dir + [n]
    decreases |order|
  {
    if order != [] {
      var k := |order| - 1;
      var p := order[k];
      var init := order[..k];
      ListingHas(init, nodes, dir, n);
      ChildPath(dir, n, p);
      if n in Listing(order, nodes, dir) && n !in Listing(init, nodes, dir) {
        assert order[k] in nodes && order[k] == dir + [n];
      }
      if exists i | 0 <= i < |order| :: order[i] in nodes && order[i] == dir + [n] {
        var i :| 0 <= i < |order| && order[i] in nodes && order[i] == dir + [n];
        if i < k {
          assert init[i] == order[i];
        }
      }
      if n in Listing(init, nodes, dir) {
        var i :| 0 <= i < |init| && init[i] in nodes && init[i] == dir + [n];
        assert order[i] == init[i];
      }
    }
  }

  lemma {:induction false} ListingDistinct(order: seq<Path>, nodes: map<Path, Node>, dir: Path)
    requires Distinct(order)
    ensures Distinct(Listing(order, nodes, dir))
    decreases |order|
  {
    if order != [] {
      var k := |order| - 1;
      var p := order[k];
      var init := order[..k];
      ListingDistinct(init, nodes, dir);
      if p in nodes && p != [] && Parent(p) == dir {
        ListingHas(init, nodes, dir, Name(p));
        ChildPath(dir, Name(p), p);
        forall i | 0 <= i < |init|
          ensures init[i] != dir + [Name(p)]
        {
          assert init[i] == order[i];
        }
      }
    }
  }

  /** In a valid file system the listing of `dir` names each entry of `dir` exactly once. */
  lemma ListedEntries(fs: Fs, dir: Path)
    requires Valid(fs)
    ensures Distinct(Listing(fs.order, fs.nodes, dir))
    ensures forall n :: n in Listing(fs.order, fs.nodes, dir) <==> dir + [n] in fs.nodes
  {
    ListingDistinct(fs.order, fs.nodes, dir);
    forall n
      ensures n in Listing(fs.order, fs.nodes, dir) <==> dir + [n] in fs.nodes
    {
      ListingHas(fs.order, fs.nodes, dir, n);
      if dir + [n] in fs.nodes {
        var i :| 0 <= i < |fs.order| && fs.order[i] == dir + [n];
      }
    }
  }

  /** Two file systems with the same entries in the same creation order list every directory alike. */
  lemma {:induction false} ListingSameKeys(order: seq<Path>, a: map<Path, Node>, b: map<Path, Node>, dir: Path)
    requires a.Keys == b.Keys
    ensures Listing(order, a, dir) == Listing(order, b, dir)
    decreases |order|
  {
    if order != [] {
      ListingSameKeys(order[..|order| - 1], a, b, dir);
    }
  }

  /** Every proper prefix of an existing path is an existing directory. */
  lemma {:induction false} AncestorIsDir(fs: Fs, p: Path, k: nat)
    requires Valid(fs)
    ensures p in fs.nodes && k < |p| ==> IsDir(fs, p[..k])
    decreases |p| - k
  {
    if p in fs.nodes && k < |p| {
      if k == |p| - 1 {
        assert p[..k] == Parent(p);
      } else {
        AncestorIsDir(fs, p, k + 1);
        assert Parent(p[..k + 1]) == p[..k];
      }
    }
  }

  /** A file is the only existing path at or below itself. */
  lemma OnlyFileAtOrBelow(fs: Fs, f: Path, q: Path)
    requires Valid(fs) && IsFile(fs, f)
    ensures AtOrBelow(f, q) && q in fs.nodes ==> q == f
  {
    AncestorIsDir(fs, q, |f|);
    if |q| == |f| {
      assert q[..|f|] == q;
    }
  }

  /** What lies inside `dir` is an entry of `dir` or lies inside one. */
  lemma EntryOrInside(dir: Path, p: Path)
    requires Below(dir, p)
    ensures var c := dir + [p[|dir|]]; p == c || Below(c, p)
  {
    var c := dir + [p[|dir|]];
    assert p[..|dir| + 1] == c;
  }

  /** What lies inside the entry `dir + [n]` lies inside `dir`, under `n`. */
  lemma InsideEntry(dir: Path, n: string, p: Path)
    ensures AtOrBelow(dir + [n], p) ==> Below(dir, p) && p[|dir|] == n
  {
    if AtOrBelow(dir + [n], p) {
      assert p[..|dir|] == p[..|dir| + 1][..|dir|];
    }
  }

  /** Every existing path inside `dir` sits under an existing entry of `dir`. */
  lemma EntryExists(fs: Fs, dir: Path, p: Path)
    requires Valid(fs) && p in fs.nodes && Below(dir, p)
    ensures dir + [p[|dir|]] in fs.nodes
  {
    EntryOrInside(dir, p);
    AncestorIsDir(fs, p, |dir| + 1);
    assert p[..|dir| + 1] == dir + [p[|dir|]];
  }

  /** In a valid file system a directory lists no entry exactly when nothing lies inside it. */
  lemma EmptyListing(fs: Fs, dir: Path)
    requires Valid(fs)
    ensures Listing(fs.order, fs.nodes, dir) == [] <==> forall q | Below(dir, q) :: q !in fs.nodes
  {
    ListedEntries(fs, dir);
    var names := Listing(fs.order, fs.nodes, dir);
    forall q | Below(dir, q) && q in fs.nodes ensures names != [] {
      EntryExists(fs, dir, q);
    }
    if names != [] {
      assert names[0] in names;
      ChildIsBelow(dir, names[0]);
    }
  }

  /** fs.stat */
  function Stat(fs: Fs, p: Path): Result<Node> {
    if p in fs.nodes then Ok(fs.nodes[p]) else Err("ENOENT: no such file or directory")
  }

  /** fs.readdir: a snapshot of the names in `dir`. */
  function ReadDir(fs: Fs, dir: Path): Result<seq<string>> {
    if dir !in fs.nodes then Err("ENOENT: no such file or directory")
    else if fs.nodes[dir].File? then Err("ENOTDIR: not a directory")
    else Ok(Listing(fs.order, fs.nodes, dir))
  }

  /** fs.readFile */
  function ReadFile(fs: Fs, p: Path): Result<string> {
    if p !in fs.nodes then Err("ENOENT: no such file or directory")
    else if fs.nodes[p].Dir? then Err("EISDIR: illegal operation on a directory")
    else Ok(fs.nodes[p].content)
  }

  /** A write to `p` can succeed: `p` names a file slot in an existing directory and is not read-only. */
  predicate Writable(fs: Fs, p: Path) {
    p != [] && Name(p) != "" && p !in fs.readOnly && IsDir(fs, Parent(p)) && !IsDir(fs, p)
  }

  /**
   * fs.writeFile: creates or overwrites the file at `p`. A path whose last
   * name is empty (`dir/`) names its directory, so writing it fails like
   * writing any directory.
   */
  function Write(fs: Fs, p: Path, content: string): (r: Result<Fs>)
    ensures r.Ok? <==> Writable(fs, p)
    ensures r.Ok? ==> r.value.nodes == fs.nodes[p := File(content)] && r.value.readOnly == fs.readOnly
    ensures r.Ok? && Valid(fs) ==> Valid(r.value)
  {
    if p == [] || Name(p) == "" || IsDir(fs, p) then Err("EISDIR: illegal operation on a directory")
    else if p in fs.readOnly then Err("EACCES: permission denied")
    else if !IsDir(fs, Parent(p)) then Err("ENOENT: no such file or directory")
    else
      var r := Fs(fs.nodes[p := File(content)], if p in fs.nodes then fs.order else fs.order + [p], fs.readOnly);
      assert Valid(fs) ==> Valid(r) by {
        if Valid(fs) {
          forall q | q in r.nodes && q != []
            ensures Name(q) != "" && IsDir(r, Parent(q))
          {
            if q != p {
              assert Parent(q) != p by { assert IsDir(fs, Parent(q)); }
            }
          }
        }
      }
      Ok(r)
  }

  /** Removes the entries at or below `p` from a creation order. */
  function Drop(order: seq<Path>, p: Path): (r: seq<Path>)
    ensures forall q :: q in r <==> q in order && !AtOrBelow(p, q)
    ensures Distinct(order) ==> Distinct(r)
  {
    if order == [] then []
    else
      var last := order[|order| - 1];
      var init := Drop(order[..|order| - 1], p);
      assert order == order[..|order| - 1] + [last];
      if AtOrBelow(p, last) then init else init + [last]
  }

  /** fs-extra remove: deletes `p` and everything inside it; a missing path is not an error. */
  function Remove(fs: Fs, p: Path): (r: Fs)
    ensures r.nodes == map q | q in fs.nodes && !AtOrBelow(p, q) :: fs.nodes[q]
    ensures r.readOnly == fs.readOnly
    ensures Valid(fs) && p != [] ==> Valid(r)
  {
    var r := Fs(map q | q in fs.nodes && !AtOrBelow(p, q) :: fs.nodes[q], Drop(fs.order, p), fs.readOnly);
    assert Valid(fs) && p != [] ==> Valid(r) by {
      if Valid(fs) && p != [] {
        RemoveKeepsValid(fs, p, r);
      }
    }
    r
  }

  lemma ParentStaysOutside(p: Path, q: Path)
    requires q != []
    ensures AtOrBelow(p, Parent(q)) ==> AtOrBelow(p, q)
  {
    if AtOrBelow(p, Parent(q)) {
      assert q[..|p|] == Parent(q)[..|p|];
    }
  }

  lemma RemoveKeepsValid(fs: Fs, p: Path, r: Fs)
    requires Valid(fs) && p != []
    requires r == Fs(map q | q in fs.nodes && !AtOrBelow(p, q) :: fs.nodes[q], Drop(fs.order, p), fs.readOnly)
    ensures Valid(r)
  {
    assert IsDir(r, []);
    forall q | q in r.nodes && q != []
      ensures Name(q) != "" && IsDir(r, Parent(q))
    {
      assert q in fs.nodes && !AtOrBelow(p, q);
      ParentStaysOutside(p, q);
    }
    forall q | q in r.nodes
      ensures q in r.order
    {
    }
    forall i | 0 <= i < |r.order|
      ensures r.order[i] in r.nodes
    {
      assert r.order[i] in r.order;
    }
  }

  /** Creates the single directory `p`, whose parent must exist; an existing directory is kept. */
  function MakeDir(fs: Fs, p: Path): (r: Result<Fs>)
    ensures r.Ok? ==> r.value.nodes == fs.nodes[p := Dir] && r.value.readOnly == fs.readOnly
    ensures r.Ok? && Valid(fs) ==> Valid(r.value)
  {
    if IsDir(fs, p) then
      assert fs.nodes[p := Dir] == fs.nodes;
      Ok(fs)
    else if p in fs.nodes then Err("EEXIST: file already exists")
    else if p == [] || Name(p) == "" || !IsDir(fs, Parent(p)) then Err("ENOENT: no such file or directory")
    else if p in fs.readOnly then Err("EACCES: permission denied")
    else
      var r := Fs(fs.nodes[p := Dir], fs.order + [p], fs.readOnly);
      assert Valid(fs) ==> Valid(r) by {
        if Valid(fs) {
          forall q | q in r.nodes && q != []
            ensures Name(q) != "" && IsDir(r, Parent(q))
          {
            if q != p {
              assert Parent(q) != p by { assert IsDir(fs, Parent(q)); }
            }
          }
        }
      }
      Ok(r)
  }

  /**
   * fs-extra ensureDir (mkdir -p): creates every missing directory on the
   * way to `p`. It fails when one of them exists as a file.
   */
  function EnsureDir(fs: Fs, p: Path): (r: Result<Fs>)
    ensures r.Ok? ==> IsDir(r.value, p) && r.value.readOnly == fs.readOnly
    ensures r.Ok? ==> forall q | q in fs.nodes :: q in r.value.nodes && r.value.nodes[q] == fs.nodes[q]
    ensures r.Ok? ==> forall q | q in r.value.nodes && q !in fs.nodes :: r.value.nodes[q] == Dir && AtOrBelow(q, p)
    ensures r.Ok? && Valid(fs) ==> Valid(r.value)
    decreases |p|
  {
    if p == [] then
      if IsDir(fs, []) then Ok(fs) else Err("ENOENT: no such file or directory")
    else
      match EnsureDir(fs, Parent(p))
      case Err(e) => Err(e)
      case Ok(fs1) =>
        var r := MakeDir(fs1, p);
        assert r.Ok? ==> forall q | q in r.value.nodes && q !in fs.nodes :: AtOrBelow(q, p) by {
          if r.Ok? {
            forall q | q in r.value.nodes && q !in fs.nodes
              ensures AtOrBelow(q, p)
            {
              if q != p {
                assert AtOrBelow(q, Parent(p));
                assert p[..|q|] == Parent(p)[..|q|];
              }
            }
          }
        }
        r
  }

  /**
   * ensureDir can reach `p`: every path on the way to it, `p` included, is
   * a directory already or can be made one (a non-empty name that is not
   * read-only).
   */
  ghost predicate CanEnsure(fs: Fs, p: Path) {
    forall q | AtOrBelow(q, p) ::
      if q in fs.nodes then fs.nodes[q].Dir? else q != [] && Name(q) != "" && q !in fs.readOnly
  }

  /** On a valid file system ensureDir succeeds whenever it can reach the path. */
  lemma {:induction false} EnsureDirSucceeds(fs: Fs, p: Path)
    requires Valid(fs) && CanEnsure(fs, p)
    ensures EnsureDir(fs, p).Ok?
    decreases |p|
  {
    if p != [] {
      forall q | AtOrBelow(q, Parent(p)) ensures AtOrBelow(q, p) {
        assert p[..|q|] == Parent(p)[..|q|];
      }
      EnsureDirSucceeds(fs, Parent(p));
      var fs1 := EnsureDir(fs, Parent(p)).value;
      assert AtOrBelow(p, p);
      assert p in fs1.nodes ==> p in fs.nodes;
    }
  }
}
