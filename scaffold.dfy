/**
 * The scaffold: checks that the project directory is absent or empty,
 * creates it, lays out the directories and seed files of the project type,
 * runs the template pass, then optionally initialises git and installs the
 * dependencies. Every step but the git one passes its failure on and stops
 * the rest.
 */
module Scaffold {
  import opened Results
  import opened FileSystem
  import opened Config
  import opened TemplateEngine
  import opened ProjectBuilder
  import opened Render

  /**
   * What getProjectStructure returns: directories relative to the project
   * (`src/components` is the path `["src", "components"]`) and the seed
   * files as (name, text) pairs in insertion order.
   */
  datatype ProjectStructure = ProjectStructure(directories: seq<Path>, files: seq<(string, string)>)

  /** The lines of the .gitignore file: build output, dependencies, local settings and logs. */
  const GitignoreLines: seq<string> :=
    ["node_modules/", "dist/", "build/", ".env", ".env.local", "*.log", ".DS_Store", "coverage/", ".vscode/", ".idea/"]

  /** The lines of the README, which ends with a newline. */
  const ReadmeLines: seq<string> :=
    ["# Project", "", "Generated with R3 (River 3) Scaffold", "", "## Getting Started", "",
     "```bash", "npm install", "npm run dev", "```", "", "## Scripts", "",
     "- `npm run dev` - Start development server", "- `npm run build` - Build for production",
     "- `npm test` - Run tests", ""]

  const GitignoreContent: string := Join(GitignoreLines, "\n")

  const ReadmeContent: string := Join(ReadmeLines, "\n")

  const SeedFiles: seq<(string, string)> := [(".gitignore", GitignoreContent), ("README.md", ReadmeContent)]

  const BaseDirectories: seq<Path> := [["src"], ["tests"], ["docs"]]

  const WebappDirectories: seq<Path> := BaseDirectories + [["public"], ["src", "components"], ["src", "pages"], ["src", "styles"]]

  const ApiDirectories: seq<Path> := BaseDirectories + [["src", "routes"], ["src", "controllers"], ["src", "models"], ["src", "middleware"]]

  const CliDirectories: seq<Path> := BaseDirectories + [["src", "commands"], ["src", "utils"]]

  /** getProjectStructure: the base layout, extended for web apps, APIs and command-line tools. */
  function GetProjectStructure(t: ProjectType): ProjectStructure {
    match t
    case Webapp => ProjectStructure(WebappDirectories, SeedFiles)
    case Api => ProjectStructure(ApiDirectories, SeedFiles)
    case Cli => ProjectStructure(CliDirectories, SeedFiles)
    case _ => ProjectStructure(BaseDirectories, SeedFiles)
  }

  /**
   * Every project type's directories start with src, tests and docs; web
   * apps, APIs and command-line tools add their own after those, every
   * other type gets the three alone; the seed files are always the
   * .gitignore and the README, in that order.
   */
  lemma StructureByType(t: ProjectType)
    ensures var dirs := GetProjectStructure(t).directories;
      && |dirs| >= 3 && dirs[..3] == [["src"], ["tests"], ["docs"]]
      && (t.Webapp? ==> dirs[3..] == [["public"], ["src", "components"], ["src", "pages"], ["src", "styles"]])
      && (t.Api? ==> dirs[3..] == [["src", "routes"], ["src", "controllers"], ["src", "models"], ["src", "middleware"]])
      && (t.Cli? ==> dirs[3..] == [["src", "commands"], ["src", "utils"]])
      && (!(t.Webapp? || t.Api? || t.Cli?) ==> |dirs| == 3)
    ensures GetProjectStructure(t).files == [(".gitignore", GitignoreContent), ("README.md", ReadmeContent)]
  {
  }

  /** No name of the directories is `package.json`, and none is empty. */
  predicate SafeNames(dirs: seq<Path>) {
    forall d | d in dirs :: d != [] && forall i | 0 <= i < |d| :: d[i] != "package.json" && d[i] != ""
  }

  /** Each directory with a parent inside the project comes after that parent. */
  predicate ParentsFirst(dirs: seq<Path>) {
    forall i | 0 <= i < |dirs| && |dirs[i]| > 1 :: dirs[i][..|dirs[i]| - 1] in dirs[..i]
  }

  /**
   * A layout that can be laid out safely: distinct directories with
   * non-empty names, none called package.json, each after its parent, and
   * seed files with distinct names that are not templates.
   */
  predicate WellFormedLayout(s: ProjectStructure) {
    Distinct(s.directories) && SafeNames(s.directories) && ParentsFirst(s.directories) && SeedNamesOk(s.files)
  }

  /** The layout of every project type is well formed. */
  lemma StructureWellFormed(t: ProjectType)
    ensures WellFormedLayout(GetProjectStructure(t))
  {
    StructureDirsOk(t);
    StructureFilesOk(t);
  }

  lemma StructureDirsOk(t: ProjectType)
    ensures var d := GetProjectStructure(t).directories; Distinct(d) && SafeNames(d) && ParentsFirst(d)
  {
    var d := GetProjectStructure(t).directories;
    if t.Webapp? {
      assert d == WebappDirectories;
      WebappDirsOk();
    } else if t.Api? {
      assert d == ApiDirectories;
      ApiDirsOk();
    } else if t.Cli? {
      assert d == CliDirectories;
      CliDirsOk();
    } else {
      assert d == BaseDirectories;
      BaseDirsOk();
    }
  }

  lemma StructureFilesOk(t: ProjectType)
    ensures SeedNamesOk(GetProjectStructure(t).files)
  {
    assert GetProjectStructure(t).files == SeedFiles;
    SeedFilesOk();
  }

  lemma BaseDirsOk()
    ensures var d := BaseDirectories; Distinct(d) && SafeNames(d) && ParentsFirst(d)
  {
  }

  lemma WebappDirsOk()
    ensures var d := WebappDirectories; Distinct(d) && SafeNames(d) && ParentsFirst(d)
  {
    WebappDistinct();
    WebappSafeNames();
    WebappParentsFirst();
  }

  lemma WebappDistinct()
    ensures Distinct(WebappDirectories)
  {
  }

  lemma WebappSafeNames()
    ensures SafeNames(WebappDirectories)
  {
  }

  lemma WebappParentsFirst()
    ensures ParentsFirst(WebappDirectories)
  {
    var d := WebappDirectories;
    forall i | 0 <= i < |d| && |d[i]| > 1 ensures d[i][..|d[i]| - 1] in d[..i] {
      assert d[i][..1] == ["src"] == d[..i][0];
    }
  }

  lemma ApiDirsOk()
    ensures var d := ApiDirectories; Distinct(d) && SafeNames(d) && ParentsFirst(d)
  {
    ApiDistinct();
    ApiSafeNames();
    ApiParentsFirst();
  }

  lemma ApiDistinct()
    ensures Distinct(ApiDirectories)
  {
  }

  lemma ApiSafeNames()
    ensures SafeNames(ApiDirectories)
  {
  }

  lemma ApiParentsFirst()
    ensures ParentsFirst(ApiDirectories)
  {
    var d := ApiDirectories;
    forall i | 0 <= i < |d| && |d[i]| > 1 ensures d[i][..|d[i]| - 1] in d[..i] {
      assert d[i][..1] == ["src"] == d[..i][0];
    }
  }

  lemma CliDirsOk()
    ensures var d := CliDirectories; Distinct(d) && SafeNames(d) && ParentsFirst(d)
  {
    CliDistinct();
    CliSafeNames();
    CliParentsFirst();
  }

  lemma CliDistinct()
    ensures Distinct(CliDirectories)
  {
  }

  lemma CliSafeNames()
    ensures SafeNames(CliDirectories)
  {
  }

  lemma CliParentsFirst()
    ensures ParentsFirst(CliDirectories)
  {
    var d := CliDirectories;
    forall i | 0 <= i < |d| && |d[i]| > 1 ensures d[i][..|d[i]| - 1] in d[..i] {
      assert d[i][..1] == ["src"] == d[..i][0];
    }
  }

  /** The seed files have distinct names, none empty, none package.json, and none is a template. */
  predicate SeedNamesOk(files: seq<(string, string)>) {
    && (forall i, j | 0 <= i < j < |files| :: files[i].0 != files[j].0)
    && (forall i | 0 <= i < |files| :: files[i].0 != "" && files[i].0 != "package.json" && !IsTemplateFile(files[i].0))
  }

  lemma SeedFilesOk()
    ensures SeedNamesOk(SeedFiles)
  {
    assert ".gitignore"[6..] == "nore" && "README.md"[5..] == "E.md";
    assert !IsTemplateFile(".gitignore") && !IsTemplateFile("README.md");
  }

  /**
   * validateProjectPath: an existing path must be a directory without
   * entries; the error is what reading it raises, or the message that it
   * is not empty. `None` means the project may be created there.
   */
  function ValidateProjectPath(fs: Fs, projectPath: Path): (r: Option<string>)
    ensures r.Some? ==> projectPath in fs.nodes
  {
    if projectPath !in fs.nodes then None
    else
      match ReadDir(fs, projectPath)
      case Err(e) => Some(e)
      case Ok(files) =>
        if |files| > 0 then Some("Directory " + PathText(projectPath) + " already exists and is not empty")
        else None
  }

  /**
   * On a valid file system validation passes exactly when the path does not
   * exist, or is a directory with nothing inside it; an existing file fails.
   */
  lemma ValidateIff(fs: Fs, projectPath: Path)
    requires Valid(fs)
    ensures ValidateProjectPath(fs, projectPath).None?
        <==> projectPath !in fs.nodes || (IsDir(fs, projectPath) && forall q | Below(projectPath, q) :: q !in fs.nodes)
    ensures IsFile(fs, projectPath) ==> ValidateProjectPath(fs, projectPath) == Some("ENOTDIR: not a directory")
  {
    EmptyListing(fs, projectPath);
  }

  /** Nothing inside `root` is called package.json, and no file inside it is a template. */
  ghost predicate Clean(nodes: map<Path, Node>, root: Path) {
    forall q | q in nodes && Below(root, q) :: Name(q) != "package.json" && !(nodes[q].File? && IsTemplateFile(Name(q)))
  }

  /** How far a step of the layout got: the file system it leaves and the error that stopped it, if any. */
  datatype Progress = Progress(fs: Fs, failure: Option<string>)

  /** The directory loop: ensureDir for each directory under `root`, in order, up to the first failure. */
  function EnsureDirs(fs: Fs, root: Path, dirs: seq<Path>): Progress
    decreases |dirs|
  {
    if dirs == [] then Progress(fs, None)
    else
      match EnsureDir(fs, root + dirs[0])
      case Err(e) => Progress(fs, Some(e))
      case Ok(fs1) => EnsureDirs(fs1, root, dirs[1..])
  }

  /** The file loop: writeFile for each seed file under `root`, in order, up to the first failure. */
  function WriteFiles(fs: Fs, root: Path, files: seq<(string, string)>): Progress
    decreases |files|
  {
    if files == [] then Progress(fs, None)
    else
      match Write(fs, root + [files[0].0], files[0].1)
      case Err(e) => Progress(fs, Some(e))
      case Ok(fs1) => WriteFiles(fs1, root, files[1..])
  }

  /** Laying out `s` under `root`: the directory loop, then the file loop. */
  function LayOut(fs: Fs, root: Path, s: ProjectStructure): Progress {
    var dirs := EnsureDirs(fs, root, s.directories);
    if dirs.failure.Some? then dirs else WriteFiles(dirs.fs, root, s.files)
  }

  /** generateProjectStructure: the layout of the project type. */
  function GenerateStructure(fs: Fs, root: Path, t: ProjectType): Progress {
    LayOut(fs, root, GetProjectStructure(t))
  }

  /** `s` is laid out under `root`: its directories exist and each seed file holds its text. */
  ghost predicate Laid(fs: Fs, root: Path, s: ProjectStructure) {
    && (forall d | d in s.directories :: IsDir(fs, root + d))
    && (forall i | 0 <= i < |s.files| :: root + [s.files[i].0] in fs.nodes && fs.nodes[root + [s.files[i].0]] == File(s.files[i].1))
  }

  /**
   * The directory loop keeps every existing node, adds only directories on
   * the way to the listed ones, and when it completes every listed
   * directory exists.
   */
  lemma {:induction false} EnsureDirsEffect(fs: Fs, root: Path, dirs: seq<Path>)
    ensures var r := EnsureDirs(fs, root, dirs);
      && r.fs.readOnly == fs.readOnly
      && (forall q | q in fs.nodes :: q in r.fs.nodes && r.fs.nodes[q] == fs.nodes[q])
      && (r.failure.None? ==> forall d | d in dirs :: IsDir(r.fs, root + d))
      && (Valid(fs) ==> Valid(r.fs))
      && (Clean(fs.nodes, root) && SafeNames(dirs) ==> Clean(r.fs.nodes, root))
    decreases |dirs|
  {
    if dirs != [] {
      match EnsureDir(fs, root + dirs[0])
      case Err(_) =>
      case Ok(fs1) =>
        EnsureDirsEffect(fs1, root, dirs[1..]);
        OneDirKeepsClean(fs, root, dirs[0]);
        if SafeNames(dirs) {
          assert SafeNames(dirs[1..]) by {
            forall d | d in dirs[1..] ensures d in dirs { }
          }
        }
        forall d | d in dirs ensures d == dirs[0] || d in dirs[1..] {
          var i :| 0 <= i < |dirs| && dirs[i] == d;
          if i > 0 { assert dirs[1..][i - 1] == d; }
        }
    }
  }

  /** Creating one listed directory adds only directories named after parts of its path. */
  lemma OneDirKeepsClean(fs: Fs, root: Path, d: Path)
    ensures var r := EnsureDir(fs, root + d);
      r.Ok? && Clean(fs.nodes, root) && (forall i | 0 <= i < |d| :: d[i] != "package.json") ==> Clean(r.value.nodes, root)
  {
    var r := EnsureDir(fs, root + d);
    if r.Ok? && Clean(fs.nodes, root) && (forall i | 0 <= i < |d| :: d[i] != "package.json") {
      forall q | q in r.value.nodes && Below(root, q)
        ensures Name(q) != "package.json" && !(r.value.nodes[q].File? && IsTemplateFile(Name(q)))
      {
        if q !in fs.nodes {
          assert AtOrBelow(q, root + d);
          assert q[|q| - 1] == (root + d)[|q| - 1] == d[|q| - 1 - |root|];
        }
      }
    }
  }

  /**
   * The file loop changes only the written files and never a directory;
   * when it completes each file holds its text, provided the names are
   * distinct.
   */
  lemma WriteFilesEffect(fs: Fs, root: Path, files: seq<(string, string)>)
    ensures var r := WriteFiles(fs, root, files);
      && r.fs.readOnly == fs.readOnly
      && Dirs(r.fs.nodes) == Dirs(fs.nodes)
      && (forall q | q in fs.nodes && (q == [] || Parent(q) != root || forall i | 0 <= i < |files| :: Name(q) != files[i].0) ::
            q in r.fs.nodes && r.fs.nodes[q] == fs.nodes[q])
      && (r.failure.None? && SeedNamesOk(files) ==>
            forall i | 0 <= i < |files| :: root + [files[i].0] in r.fs.nodes && r.fs.nodes[root + [files[i].0]] == File(files[i].1))
      && (Valid(fs) ==> Valid(r.fs))
      && (Clean(fs.nodes, root) && SeedNamesOk(files) ==> Clean(r.fs.nodes, root))
  {
    WriteFilesFrame(fs, root, files);
    WriteFilesContents(fs, root, files);
    WriteFilesClean(fs, root, files);
  }

  /** The file loop keeps the read-only set, the directories and every node it does not write. */
  lemma {:induction false} WriteFilesFrame(fs: Fs, root: Path, files: seq<(string, string)>)
    ensures var r := WriteFiles(fs, root, files);
      && r.fs.readOnly == fs.readOnly
      && Dirs(r.fs.nodes) == Dirs(fs.nodes)
      && (forall q | q in fs.nodes && (q == [] || Parent(q) != root || forall i | 0 <= i < |files| :: Name(q) != files[i].0) ::
            q in r.fs.nodes && r.fs.nodes[q] == fs.nodes[q])
      && (Valid(fs) ==> Valid(r.fs))
    decreases |files|
  {
    if files != [] {
      var p := root + [files[0].0];
      ChildIsBelow(root, files[0].0);
      match Write(fs, p, files[0].1)
      case Err(_) =>
      case Ok(fs1) =>
        WriteFilesFrame(fs1, root, files[1..]);
        var r := WriteFiles(fs1, root, files[1..]);
        assert Dirs(fs1.nodes) == Dirs(fs.nodes);
        forall q | q in fs.nodes && (q == [] || Parent(q) != root || forall i | 0 <= i < |files| :: Name(q) != files[i].0)
          ensures q in r.fs.nodes && r.fs.nodes[q] == fs.nodes[q]
        {
          ChildPath(root, files[0].0, q);
          assert q != p;
          assert q == [] || Parent(q) != root || forall i | 0 <= i < |files[1..]| :: Name(q) != files[1..][i].0 by {
            if q != [] && Parent(q) == root {
              forall i | 0 <= i < |files[1..]| ensures Name(q) != files[1..][i].0 { assert files[1..][i] == files[i + 1]; }
            }
          }
        }
    }
  }

  /** When the file loop completes over distinct names, each file holds its text. */
  lemma {:induction false} WriteFilesContents(fs: Fs, root: Path, files: seq<(string, string)>)
    ensures var r := WriteFiles(fs, root, files);
      r.failure.None? && SeedNamesOk(files) ==>
        forall i | 0 <= i < |files| :: root + [files[i].0] in r.fs.nodes && r.fs.nodes[root + [files[i].0]] == File(files[i].1)
    decreases |files|
  {
    if files != [] {
      var p := root + [files[0].0];
      match Write(fs, p, files[0].1)
      case Err(_) =>
      case Ok(fs1) =>
        WriteFilesContents(fs1, root, files[1..]);
        WriteFilesFrame(fs1, root, files[1..]);
        var r := WriteFiles(fs1, root, files[1..]);
        SeedNamesTail(files);
        if r.failure.None? && SeedNamesOk(files) {
          forall i | 0 <= i < |files|
            ensures root + [files[i].0] in r.fs.nodes && r.fs.nodes[root + [files[i].0]] == File(files[i].1)
          {
            if i == 0 {
              assert p in fs1.nodes && fs1.nodes[p] == File(files[0].1);
              ChildIsBelow(root, files[0].0);
              forall j | 0 <= j < |files[1..]| ensures Name(p) != files[1..][j].0 { assert files[1..][j] == files[j + 1]; }
            } else {
              assert files[1..][i - 1] == files[i];
            }
          }
        }
    }
  }

  /** The file loop keeps a clean project clean when no name is package.json or a template. */
  lemma {:induction false} WriteFilesClean(fs: Fs, root: Path, files: seq<(string, string)>)
    ensures Clean(fs.nodes, root) && SeedNamesOk(files) ==> Clean(WriteFiles(fs, root, files).fs.nodes, root)
    decreases |files|
  {
    if files != [] {
      var p := root + [files[0].0];
      match Write(fs, p, files[0].1)
      case Err(_) =>
      case Ok(fs1) =>
        WriteFilesClean(fs1, root, files[1..]);
        SeedNamesTail(files);
        if Clean(fs.nodes, root) && SeedNamesOk(files) {
          forall q | q in fs1.nodes && Below(root, q)
            ensures Name(q) != "package.json" && !(fs1.nodes[q].File? && IsTemplateFile(Name(q)))
          {
            if q == p {
              assert Name(q) == files[0].0;
            }
          }
        }
    }
  }

  lemma SeedNamesTail(files: seq<(string, string)>)
    ensures files != [] && SeedNamesOk(files) ==> SeedNamesOk(files[1..])
  {
    if files != [] && SeedNamesOk(files) {
      forall i, j | 0 <= i < j < |files[1..]| ensures files[1..][i].0 != files[1..][j].0 {
        assert files[1..][i] == files[i + 1] && files[1..][j] == files[j + 1];
      }
      forall i | 0 <= i < |files[1..]| ensures files[1..][i].0 != "" && files[1..][i].0 != "package.json" && !IsTemplateFile(files[1..][i].0) {
        assert files[1..][i] == files[i + 1];
      }
    }
  }

  /**
   * Laying out a well-formed layout keeps every directory and every file
   * other than the seed files, and when it completes the layout is laid.
   */
  lemma LayOutEffect(fs: Fs, root: Path, s: ProjectStructure)
    ensures var r := LayOut(fs, root, s);
      && r.fs.readOnly == fs.readOnly
      && (r.failure.None? && WellFormedLayout(s) ==> Laid(r.fs, root, s))
      && (forall q | q in fs.nodes && (q == [] || Parent(q) != root || forall i | 0 <= i < |s.files| :: Name(q) != s.files[i].0) ::
            q in r.fs.nodes && r.fs.nodes[q] == fs.nodes[q])
      && (Valid(fs) ==> Valid(r.fs))
      && (Clean(fs.nodes, root) && WellFormedLayout(s) ==> Clean(r.fs.nodes, root))
  {
    EnsureDirsEffect(fs, root, s.directories);
    var a := EnsureDirs(fs, root, s.directories);
    if a.failure.None? {
      WriteFilesEffect(a.fs, root, s.files);
      var r := WriteFiles(a.fs, root, s.files);
      forall d | d in s.directories ensures IsDir(r.fs, root + d) {
        assert root + d in Dirs(a.fs.nodes);
      }
    }
  }

  lemma SeedNames()
    ensures |SeedFiles| == 2 && SeedFiles[0].0 == ".gitignore" && SeedFiles[1].0 == "README.md"
  {
  }

  /**
   * When generateProjectStructure completes, every directory of the
   * project type exists under the project and each seed file holds its
   * literal text. Nothing that existed is lost: directories all stay, and
   * files other than the seed files keep their content.
   */
  lemma GeneratedLayout(fs: Fs, root: Path, t: ProjectType)
    ensures var r := GenerateStructure(fs, root, t);
      && r.fs.readOnly == fs.readOnly
      && (r.failure.None? ==> Laid(r.fs, root, GetProjectStructure(t)))
      && (forall q | q in fs.nodes && q != root + [".gitignore"] && q != root + ["README.md"] ::
            q in r.fs.nodes && r.fs.nodes[q] == fs.nodes[q])
      && (Valid(fs) ==> Valid(r.fs))
      && (Clean(fs.nodes, root) ==> Clean(r.fs.nodes, root))
  {
    var s := GetProjectStructure(t);
    StructureWellFormed(t);
    LayOutEffect(fs, root, s);
    SeedNames();
    assert s.files == SeedFiles;
    var gitignore, readme := s.files[0].0, s.files[1].0;
    forall q | q in fs.nodes && q != root + [gitignore] && q != root + [readme] && q != [] && Parent(q) == root
      ensures forall i | 0 <= i < |s.files| :: Name(q) != s.files[i].0
    {
      ChildPath(root, gitignore, q);
      ChildPath(root, readme, q);
      forall i | 0 <= i < |s.files| ensures Name(q) != s.files[i].0 {
        assert i == 0 || i == 1;
      }
    }
  }

  /** A walk over a clean tree finds no template: it converts nothing and changes nothing. */
  lemma CleanWalkIsQuiet(fs: Fs, root: Path, ctx: Context)
    requires Valid(fs) && Clean(fs.nodes, root)
    ensures ProcessDir(fs, root, ctx).processed == [] && ProcessDir(fs, root, ctx).fs == fs
  {
    DirConvertsTemplates(fs, root, ctx);
    DirKeeps(fs, root, ctx);
    NonEmptyHasMember(ProcessDir(fs, root, ctx).processed);
  }

  /** A walk of an existing clean directory completes: every entry it lists can be stat-ed and none is a template. */
  lemma {:induction false} CleanWalkSucceeds(fs: Fs, dir: Path, ctx: Context)
    requires Valid(fs) && IsDir(fs, dir) && Clean(fs.nodes, dir)
    ensures ProcessDir(fs, dir, ctx).failure.None?
    decreases |DirsBelow(Dirs(fs.nodes), dir)|, 1, 0
  {
    ListedEntries(fs, dir);
    CleanEntriesSucceed(fs, dir, Listing(fs.order, fs.nodes, dir), ctx);
  }

  /** The loop of a clean walk over existing entries completes. */
  lemma {:induction false} CleanEntriesSucceed(fs: Fs, dir: Path, names: seq<string>, ctx: Context)
    requires Valid(fs) && Clean(fs.nodes, dir)
    requires forall n | n in names :: dir + [n] in fs.nodes
    ensures ProcessEntries(fs, dir, names, ctx).failure.None?
    decreases |DirsBelow(Dirs(fs.nodes), dir)|, 0, |names|
  {
    if names != [] {
      var n, rest := names[0], names[1..];
      var c := dir + [n];
      ChildIsBelow(dir, n);
      assert names == [n] + rest;
      assert forall m | m in rest :: m in names;
      if fs.nodes[c].Dir? {
        DirEntryStep(fs, dir, n, rest, ctx);
        SubdirHasFewerDirs(Dirs(fs.nodes), dir, c);
        forall q | q in fs.nodes && Below(c, q) ensures Below(dir, q) {
          BelowTransitive(dir, c, q);
        }
        CleanWalkSucceeds(fs, c, ctx);
        CleanWalkIsQuiet(fs, c, ctx);
        CleanEntriesSucceed(fs, dir, rest, ctx);
      } else {
        OtherEntryStep(fs, dir, n, rest, ctx);
        CleanEntriesSucceed(fs, dir, rest, ctx);
      }
    }
  }

  lemma NonEmptyHasMember<T>(s: seq<T>)
    ensures |s| > 0 ==> s[0] in s
  {
  }

  /** A clean project directory holds no package.json. */
  lemma CleanHasNoPackageJson(nodes: map<Path, Node>, root: Path)
    requires Clean(nodes, root)
    ensures root + ["package.json"] !in nodes
  {
    ChildIsBelow(root, "package.json");
  }

  /** A path that passed validation on a valid file system has nothing inside it. */
  lemma ValidatedIsEmpty(fs: Fs, root: Path)
    requires Valid(fs) && ValidateProjectPath(fs, root).None?
    ensures forall q | Below(root, q) :: q !in fs.nodes
  {
    ValidateIff(fs, root);
    forall q | Below(root, q) ensures q !in fs.nodes {
      AncestorIsDir(fs, q, |root|);
    }
  }

  /** So it is clean. */
  lemma ValidatedIsClean(fs: Fs, root: Path)
    requires Valid(fs) && ValidateProjectPath(fs, root).None?
    ensures Clean(fs.nodes, root)
  {
    ValidatedIsEmpty(fs, root);
  }

  /** Creating the project directory adds nothing inside it. */
  lemma RootKeepsClean(fs: Fs, root: Path)
    ensures EnsureDir(fs, root).Ok? && Clean(fs.nodes, root) ==> Clean(EnsureDir(fs, root).value.nodes, root)
  {
    var r := EnsureDir(fs, root);
    if r.Ok? && Clean(fs.nodes, root) {
      forall q | q in r.value.nodes && Below(root, q)
        ensures Name(q) != "package.json" && !(r.value.nodes[q].File? && IsTemplateFile(Name(q)))
      {
        assert q in fs.nodes || AtOrBelow(q, root);
      }
    }
  }

  /**
   * On a valid file system, once validation has passed and the project
   * directory and its layout exist, the project holds no template and no
   * package.json: the template pass converts nothing and changes nothing.
   */
  lemma SkeletonIsQuiet(fs: Fs, root: Path, t: ProjectType, ctx: Context)
    ensures Valid(fs) && ValidateProjectPath(fs, root).None? && EnsureDir(fs, root).Ok? ==>
      var g := GenerateStructure(EnsureDir(fs, root).value, root, t);
      && Valid(g.fs) && root + ["package.json"] !in g.fs.nodes
      && ProcessDir(g.fs, root, ctx).processed == [] && ProcessDir(g.fs, root, ctx).fs == g.fs
  {
    if Valid(fs) && ValidateProjectPath(fs, root).None? && EnsureDir(fs, root).Ok? {
      var fs1 := EnsureDir(fs, root).value;
      ValidatedIsClean(fs, root);
      RootKeepsClean(fs, root);
      GeneratedLayout(fs1, root, t);
      var g := GenerateStructure(fs1, root, t);
      CleanWalkIsQuiet(g.fs, root, ctx);
      CleanHasNoPackageJson(g.fs.nodes, root);
    }
  }

  /** The steps of create, in the order they start. */
  datatype Step = Validate | EnsureRoot | Structure | Templates | Git | Install

  /** ScaffoldOptions: the absent optional flags are false. */
  datatype ScaffoldOptions = ScaffoldOptions(
    projectName: string,
    projectPath: Path,
    config: R3Config,
    skipInstall: bool,
    skipGit: bool,
    verbose: bool)

  /** The steps create starts when nothing fails. */
  function Planned(options: ScaffoldOptions): seq<Step> {
    [Validate, EnsureRoot, Structure, Templates]
    + (if options.skipGit then [] else [Git])
    + (if options.skipInstall then [] else [Install])
  }

  /**
   * The planned steps begin with the four fixed ones; git, when planned,
   * comes fifth, and installation, when planned, comes last.
   */
  lemma PlannedSteps(options: ScaffoldOptions)
    ensures var p := Planned(options);
      && |p| >= 4
      && p[..1] == [Validate] && p[..2] == [Validate, EnsureRoot] && p[..3] == [Validate, EnsureRoot, Structure]
      && p[..4] == [Validate, EnsureRoot, Structure, Templates]
      && (Git in p <==> !options.skipGit) && (Install in p <==> !options.skipInstall)
      && (!options.skipGit ==> p[4] == Git)
      && (!options.skipInstall ==> p[|p| - 1] == Install && Install !in p[..|p| - 1])
      && |p| == 4 + (if options.skipGit then 0 else 1) + (if options.skipInstall then 0 else 1)
  {
  }

  /** How create ends: the host it leaves, the error it throws, if any, and the steps it started. */
  datatype Outcome = Outcome(host: Host, err: Option<string>, trace: seq<Step>)

  /** create, step by step: each failing step ends the run with its error; git failures are only logged. */
  function CreateRun(h: Host, options: ScaffoldOptions, year: int): Outcome {
    match ValidateProjectPath(h.fs, options.projectPath)
    case Some(e) => Outcome(h, Some(e), [Validate])
    case None =>
      match EnsureDir(h.fs, options.projectPath)
      case Err(e) => Outcome(h, Some(e), [Validate, EnsureRoot])
      case Ok(fs1) => AfterRoot(h.(fs := fs1), options, year)
  }

  /** create once the project directory exists: the layout, then the rest. */
  function AfterRoot(h: Host, options: ScaffoldOptions, year: int): Outcome {
    var g := GenerateStructure(h.fs, options.projectPath, options.config.projectType);
    if g.failure.Some? then Outcome(h.(fs := g.fs), g.failure, [Validate, EnsureRoot, Structure])
    else AfterLayout(h.(fs := g.fs), options, year)
  }

  /** create once the layout exists: the template pass, then the rest. */
  function AfterLayout(h: Host, options: ScaffoldOptions, year: int): Outcome {
    var w := ProcessDir(h.fs, options.projectPath, CreateContext(options.config, year));
    if w.failure.Some? then Outcome(h.(fs := w.fs), w.failure, [Validate, EnsureRoot, Structure, Templates])
    else Finish(h.(fs := w.fs), options)
  }

  /** create once the templates are rendered: git unless skipped, then installation unless skipped. */
  function Finish(h: Host, options: ScaffoldOptions): Outcome {
    var p := options.projectPath;
    var h1 := if options.skipGit then h else GitSetUp(h, p);
    var steps := [Validate, EnsureRoot, Structure, Templates] + (if options.skipGit then [] else [Git]);
    if options.skipInstall then Outcome(h1, None, steps)
    else Outcome(Installation(h1, p).0, Installation(h1, p).1, steps + [Install])
  }

  /**
   * The last stage runs every remaining planned step and leaves the file
   * system alone; only installation can make it fail, and without a
   * package.json nothing fails and only the git commands are run.
   */
  lemma FinishEffect(h: Host, options: ScaffoldOptions)
    ensures var o := Finish(h, options);
      && o.host.fs == h.fs && o.host.failing == h.failing
      && o.trace == Planned(options)
      && (o.err.Some? ==> o.trace[|o.trace| - 1] == Install)
      && (options.projectPath + ["package.json"] !in h.fs.nodes ==>
            o.err.None? && o.host.issued == h.issued + (if options.skipGit then [] else UpToFailure(h.failing, GitCommands(options.projectPath))))
  {
    PlannedSteps(options);
    if options.skipInstall {
      FinishSkipsInstall(h, options);
    } else {
      FinishInstalls(h, options);
    }
  }

  lemma FinishSkipsInstall(h: Host, options: ScaffoldOptions)
    requires options.skipInstall
    ensures var o := Finish(h, options);
      && o.host.fs == h.fs && o.host.failing == h.failing && o.err.None?
      && o.trace == [Validate, EnsureRoot, Structure, Templates] + (if options.skipGit then [] else [Git])
      && o.host.issued == h.issued + (if options.skipGit then [] else UpToFailure(h.failing, GitCommands(options.projectPath)))
  {
  }

  lemma FinishInstalls(h: Host, options: ScaffoldOptions)
    requires !options.skipInstall
    ensures var o := Finish(h, options);
      && o.host.fs == h.fs && o.host.failing == h.failing
      && o.trace == [Validate, EnsureRoot, Structure, Templates] + (if options.skipGit then [] else [Git]) + [Install]
      && (options.projectPath + ["package.json"] !in h.fs.nodes ==>
            o.err.None? && o.host.issued == h.issued + (if options.skipGit then [] else UpToFailure(h.failing, GitCommands(options.projectPath))))
  {
  }

  /** From the template pass on, create follows the plan: see CreateFollowsPlan. */
  lemma LayoutStageFollowsPlan(h: Host, options: ScaffoldOptions, year: int)
    ensures var o := AfterLayout(h, options, year);
      && o.host.failing == h.failing
      && 0 < |o.trace| <= |Planned(options)| && o.trace == Planned(options)[..|o.trace|]
      && (o.err.None? ==> o.trace == Planned(options))
      && (o.err.Some? ==> o.trace[|o.trace| - 1] != Git)
  {
    var w := ProcessDir(h.fs, options.projectPath, CreateContext(options.config, year));
    if w.failure.None? {
      FinishEffect(h.(fs := w.fs), options);
    } else {
      PlannedSteps(options);
    }
  }

  /** From the layout on, create follows the plan: see CreateFollowsPlan. */
  lemma RootStageFollowsPlan(h: Host, options: ScaffoldOptions, year: int)
    ensures var o := AfterRoot(h, options, year);
      && o.host.failing == h.failing
      && 0 < |o.trace| <= |Planned(options)| && o.trace == Planned(options)[..|o.trace|]
      && (o.err.None? ==> o.trace == Planned(options))
      && (o.err.Some? ==> o.trace[|o.trace| - 1] != Git)
  {
    PlannedSteps(options);
    LayoutStageFollowsPlan(h.(fs := GenerateStructure(h.fs, options.projectPath, options.config.projectType).fs), options, year);
  }

  /**
   * create starts the planned steps in order and stops at the first that
   * fails; it completes exactly when every planned step ran, and git never
   * makes it fail.
   */
  lemma CreateFollowsPlan(h: Host, options: ScaffoldOptions, year: int)
    ensures var o := CreateRun(h, options, year);
      && o.host.failing == h.failing
      && 0 < |o.trace| <= |Planned(options)| && o.trace == Planned(options)[..|o.trace|]
      && (o.err.None? ==> o.trace == Planned(options))
      && (o.err.Some? ==> o.trace[|o.trace| - 1] != Git)
  {
    PlannedSteps(options);
    if ValidateProjectPath(h.fs, options.projectPath).None? && EnsureDir(h.fs, options.projectPath).Ok? {
      RootStageFollowsPlan(h.(fs := EnsureDir(h.fs, options.projectPath).value), options, year);
    }
  }

  /** When validation fails, create throws its error and changes nothing. */
  lemma CreateRejects(h: Host, options: ScaffoldOptions, year: int)
    ensures var o := CreateRun(h, options, year);
      ValidateProjectPath(h.fs, options.projectPath).Some? ==>
        o.host == h && o.trace == [Validate] && o.err == ValidateProjectPath(h.fs, options.projectPath)
  {
  }

  /**
   * A template pass that finds nothing to do leaves the file system as it
   * is, and without a package.json the rest runs only the git commands and
   * cannot fail at installation.
   */
  lemma QuietLayoutStage(h: Host, options: ScaffoldOptions, year: int)
    ensures var p := options.projectPath;
      var w := ProcessDir(h.fs, p, CreateContext(options.config, year));
      var o := AfterLayout(h, options, year);
      w.fs == h.fs && p + ["package.json"] !in h.fs.nodes ==>
        && o.host.fs == h.fs
        && o.host.issued == h.issued + (if Git in o.trace then UpToFailure(h.failing, GitCommands(p)) else [])
        && (o.err.Some? ==> o.trace[|o.trace| - 1] != Install)
  {
    var w := ProcessDir(h.fs, options.projectPath, CreateContext(options.config, year));
    if w.failure.None? {
      FinishEffect(h.(fs := w.fs), options);
    }
  }

  /** Once the project directory exists and is clean, the rest of create keeps the file system valid; see CreateOnValid. */
  lemma RootStageOnValid(h: Host, options: ScaffoldOptions, year: int)
    ensures var o := AfterRoot(h, options, year);
      Valid(h.fs) && Clean(h.fs.nodes, options.projectPath) ==>
        && Valid(o.host.fs)
        && o.host.issued == h.issued + (if Git in o.trace then UpToFailure(h.failing, GitCommands(options.projectPath)) else [])
        && (o.err.Some? ==> o.trace[|o.trace| - 1] != Install)
        && (o.err.None? ==> Laid(o.host.fs, options.projectPath, GetProjectStructure(options.config.projectType)))
  {
    var p := options.projectPath;
    if Valid(h.fs) && Clean(h.fs.nodes, p) {
      GeneratedLayout(h.fs, p, options.config.projectType);
      var g := GenerateStructure(h.fs, p, options.config.projectType);
      if g.failure.None? {
        CleanWalkIsQuiet(g.fs, p, CreateContext(options.config, year));
        CleanHasNoPackageJson(g.fs.nodes, p);
        QuietLayoutStage(h.(fs := g.fs), options, year);
      }
    }
  }

  /**
   * On a valid file system create keeps it valid, runs no command but the
   * git ones, and never gets installation to fail: the fresh project holds
   * no package.json, so installation is always skipped. When it completes,
   * the layout of the project type is in place.
   */
  lemma CreateOnValid(h: Host, options: ScaffoldOptions, year: int)
    ensures var o := CreateRun(h, options, year);
      Valid(h.fs) ==>
        && Valid(o.host.fs)
        && o.host.issued == h.issued + (if Git in o.trace then UpToFailure(h.failing, GitCommands(options.projectPath)) else [])
        && (o.err.Some? ==> o.trace[|o.trace| - 1] != Install)
        && (o.err.None? ==> Laid(o.host.fs, options.projectPath, GetProjectStructure(options.config.projectType)))
  {
    var p := options.projectPath;
    if Valid(h.fs) && ValidateProjectPath(h.fs, p).None? && EnsureDir(h.fs, p).Ok? {
      ValidatedIsClean(h.fs, p);
      RootKeepsClean(h.fs, p);
      RootStageOnValid(h.(fs := EnsureDir(h.fs, p).value), options, year);
    }
  }

  /** Nothing at or below `root` is read-only. */
  ghost predicate WritableBelow(fs: Fs, root: Path) {
    forall q | q in fs.readOnly :: !AtOrBelow(root, q)
  }

  /** Everything inside `root` is a directory, and none lies under an entry called one of `names`. */
  ghost predicate OnlyDirsBelow(fs: Fs, root: Path, names: set<string>) {
    forall q | q in fs.nodes && Below(root, q) :: fs.nodes[q].Dir? && q[|root|] !in names
  }

  /**
   * The directory loop completes inside an existing directory that holds
   * only directories and has nothing read-only below it, and it keeps it so;
   * the entries it adds are named after the first names of the listed
   * directories, so the `names` no listed directory starts with stay free.
   */
  lemma {:induction false} EnsureDirsSucceed(fs: Fs, root: Path, dirs: seq<Path>, names: set<string>)
    requires Valid(fs) && IsDir(fs, root) && WritableBelow(fs, root) && OnlyDirsBelow(fs, root, names)
    requires SafeNames(dirs) && forall d | d in dirs :: d != [] && d[0] !in names
    ensures var r := EnsureDirs(fs, root, dirs);
      && r.failure.None? && Valid(r.fs) && IsDir(r.fs, root)
      && WritableBelow(r.fs, root) && OnlyDirsBelow(r.fs, root, names)
    decreases |dirs|
  {
    if dirs != [] {
      assert dirs[0] in dirs;
      EnsureOneDir(fs, root, dirs[0], names);
      var fs1 := EnsureDir(fs, root + dirs[0]).value;
      assert SafeNames(dirs[1..]) && forall d | d in dirs[1..] :: d != [] && d[0] !in names by {
        forall d | d in dirs[1..] ensures d in dirs { }
      }
      EnsureDirsSucceed(fs1, root, dirs[1..], names);
    }
  }

  /** One step of the directory loop of EnsureDirsSucceed. */
  lemma EnsureOneDir(fs: Fs, root: Path, d: Path, names: set<string>)
    requires Valid(fs) && IsDir(fs, root) && WritableBelow(fs, root) && OnlyDirsBelow(fs, root, names)
    requires d != [] && d[0] !in names && forall i | 0 <= i < |d| :: d[i] != ""
    ensures var r := EnsureDir(fs, root + d);
      && r.Ok? && Valid(r.value) && IsDir(r.value, root)
      && WritableBelow(r.value, root) && OnlyDirsBelow(r.value, root, names)
  {
    var target := root + d;
    CanEnsureInside(fs, root, d, names);
    EnsureDirSucceeds(fs, target);
    var fs1 := EnsureDir(fs, target).value;
    forall q | q in fs1.nodes && Below(root, q)
      ensures fs1.nodes[q].Dir? && q[|root|] !in names
    {
      if q !in fs.nodes {
        assert AtOrBelow(q, target);
        assert q[|root|] == target[|root|] == d[0];
      }
    }
  }

  /** ensureDir can reach a directory with non-empty names inside `root`. */
  lemma CanEnsureInside(fs: Fs, root: Path, d: Path, names: set<string>)
    requires Valid(fs) && IsDir(fs, root) && WritableBelow(fs, root) && OnlyDirsBelow(fs, root, names)
    requires forall i | 0 <= i < |d| :: d[i] != ""
    ensures CanEnsure(fs, root + d)
  {
    var target := root + d;
    forall q | AtOrBelow(q, target)
      ensures if q in fs.nodes then fs.nodes[q].Dir? else q != [] && Name(q) != "" && q !in fs.readOnly
    {
      assert q == target[..|q|];
      if |q| <= |root| {
        assert q == root[..|q|];
        AncestorIsDir(fs, root, |q|);
        assert |q| == |root| ==> q == root;
      } else {
        assert q[..|root|] == root;
        assert Name(q) == d[|q| - 1 - |root|];
      }
    }
  }

  /**
   * The file loop completes inside an existing directory with nothing
   * read-only below it when no file name is empty or names a directory.
   */
  lemma {:induction false} WriteFilesSucceed(fs: Fs, root: Path, files: seq<(string, string)>)
    requires Valid(fs) && IsDir(fs, root) && WritableBelow(fs, root)
    requires forall i | 0 <= i < |files| :: files[i].0 != "" && !IsDir(fs, root + [files[i].0])
    ensures WriteFiles(fs, root, files).failure.None?
    decreases |files|
  {
    if files != [] {
      var p := root + [files[0].0];
      ChildIsBelow(root, files[0].0);
      assert Writable(fs, p);
      var fs1 := Write(fs, p, files[0].1).value;
      forall i | 0 <= i < |files[1..]|
        ensures files[1..][i].0 != "" && !IsDir(fs1, root + [files[1..][i].0])
      {
        assert files[1..][i] == files[i + 1];
      }
      WriteFilesSucceed(fs1, root, files[1..]);
    }
  }

  /** No directory of a layout starts with the name of a seed file, so the seed files always find a free slot. */
  lemma StructureLeavesSeedSlots(t: ProjectType)
    ensures forall d | d in GetProjectStructure(t).directories :: d != [] && d[0] !in SeedSlotNames
  {
    forall d | d in GetProjectStructure(t).directories ensures d != [] && d[0] !in SeedSlotNames {
      assert d[0] in {"src", "tests", "docs", "public"};
    }
  }

  /** The names of the seed files of every layout. */
  const SeedSlotNames: set<string> := {".gitignore", "README.md"}

  /**
   * A layout fits an empty directory: its directory names are safe, no
   * directory starts with a seed file's name, and every seed file has a
   * non-empty name among `names`.
   */
  predicate Fits(s: ProjectStructure, names: set<string>) {
    && SafeNames(s.directories)
    && (forall d | d in s.directories :: d != [] && d[0] !in names)
    && (forall i | 0 <= i < |s.files| :: s.files[i].0 != "" && s.files[i].0 in names)
  }

  /**
   * A fitting layout is laid out completely inside an existing, empty
   * directory with nothing read-only below it.
   */
  lemma LayOutSucceeds(fs: Fs, p: Path, s: ProjectStructure, names: set<string>)
    requires Valid(fs) && IsDir(fs, p) && WritableBelow(fs, p)
    requires forall q | Below(p, q) :: q !in fs.nodes
    requires Fits(s, names)
    ensures LayOut(fs, p, s).failure.None?
  {
    EnsureDirsSucceed(fs, p, s.directories, names);
    var a := EnsureDirs(fs, p, s.directories);
    forall i | 0 <= i < |s.files| ensures s.files[i].0 != "" && !IsDir(a.fs, p + [s.files[i].0]) {
      ChildIsBelow(p, s.files[i].0);
    }
    WriteFilesSucceed(a.fs, p, s.files);
  }

  /**
   * generateProjectStructure completes inside an existing, empty project
   * directory with nothing read-only below it.
   */
  lemma LayoutSucceeds(fs: Fs, p: Path, t: ProjectType)
    requires Valid(fs) && IsDir(fs, p) && WritableBelow(fs, p)
    requires forall q | Below(p, q) :: q !in fs.nodes
    ensures GenerateStructure(fs, p, t).failure.None?
  {
    StructureFits(t);
    LayOutSucceeds(fs, p, GetProjectStructure(t), SeedSlotNames);
  }

  /** Every project type's layout fits. */
  lemma StructureFits(t: ProjectType)
    ensures Fits(GetProjectStructure(t), SeedSlotNames)
  {
    StructureSafeNames(t);
    StructureLeavesSeedSlots(t);
    SeedFilesFit();
    assert GetProjectStructure(t).files == SeedFiles;
  }

  lemma StructureSafeNames(t: ProjectType)
    ensures SafeNames(GetProjectStructure(t).directories)
  {
    StructureDirsOk(t);
  }

  lemma SeedFilesFit()
    ensures forall i | 0 <= i < |SeedFiles| :: SeedFiles[i].0 != "" && SeedFiles[i].0 in SeedSlotNames
  {
    SeedNames();
    forall i | 0 <= i < |SeedFiles| ensures SeedFiles[i].0 != "" && SeedFiles[i].0 in SeedSlotNames {
      assert i == 0 || i == 1;
    }
  }

  /**
   * Once an empty project directory exists with nothing read-only below
   * it, the rest of create completes: see CreateSucceeds.
   */
  lemma RootStageSucceeds(h: Host, options: ScaffoldOptions, year: int)
    requires Valid(h.fs) && IsDir(h.fs, options.projectPath) && WritableBelow(h.fs, options.projectPath)
    requires forall q | Below(options.projectPath, q) :: q !in h.fs.nodes
    ensures var o := AfterRoot(h, options, year);
      && o.err.None? && o.trace == Planned(options)
      && Valid(o.host.fs)
      && Laid(o.host.fs, options.projectPath, GetProjectStructure(options.config.projectType))
      && o.host.issued == h.issued + (if options.skipGit then [] else UpToFailure(h.failing, GitCommands(options.projectPath)))
  {
    var p := options.projectPath;
    var t := options.config.projectType;
    var ctx := CreateContext(options.config, year);
    LayoutSucceeds(h.fs, p, t);
    GeneratedLayout(h.fs, p, t);
    var g := GenerateStructure(h.fs, p, t);
    assert IsDir(g.fs, p) by {
      ChildIsBelow(p, ".gitignore");
      ChildIsBelow(p, "README.md");
    }
    assert Clean(h.fs.nodes, p);
    CleanWalkSucceeds(g.fs, p, ctx);
    CleanWalkIsQuiet(g.fs, p, ctx);
    CleanHasNoPackageJson(g.fs.nodes, p);
    FinishEffect(h.(fs := g.fs), options);
  }

  /**
   * create completes when the project directory is missing or empty,
   * ensureDir can reach it and nothing at or below it is read-only, whatever
   * commands fail, git's included: every planned step runs, the layout of
   * the project type is in place, the tree stays valid, and the commands
   * run are the git ones, up to the first failure, unless git is skipped.
   */
  lemma CreateSucceeds(h: Host, options: ScaffoldOptions, year: int)
    requires Valid(h.fs) && ValidateProjectPath(h.fs, options.projectPath).None?
    requires CanEnsure(h.fs, options.projectPath) && WritableBelow(h.fs, options.projectPath)
    ensures var o := CreateRun(h, options, year);
      && o.err.None? && o.trace == Planned(options)
      && Valid(o.host.fs)
      && Laid(o.host.fs, options.projectPath, GetProjectStructure(options.config.projectType))
      && o.host.issued == h.issued + (if options.skipGit then [] else UpToFailure(h.failing, GitCommands(options.projectPath)))
  {
    var p := options.projectPath;
    ValidatedIsEmpty(h.fs, p);
    EnsureDirSucceeds(h.fs, p);
    var fs1 := EnsureDir(h.fs, p).value;
    forall q | Below(p, q) ensures q !in fs1.nodes {
      assert q !in h.fs.nodes;
    }
    RootStageSucceeds(h.(fs := fs1), options, year);
  }

  /**
   * A CLI project with git and installation skipped: create completes with
   * src, tests, docs, src/commands and src/utils in place, the .gitignore and
   * README holding their texts, and no command run.
   */
  lemma CreateCliSkippingBoth(h: Host, options: ScaffoldOptions, year: int)
    requires Valid(h.fs) && ValidateProjectPath(h.fs, options.projectPath).None?
    requires CanEnsure(h.fs, options.projectPath) && WritableBelow(h.fs, options.projectPath)
    requires options.config.projectType == Cli && options.skipGit && options.skipInstall
    ensures var o := CreateRun(h, options, year);
      var p := options.projectPath;
      && o.err.None? && o.host.issued == h.issued
      && o.trace == [Validate, EnsureRoot, Structure, Templates]
      && IsDir(o.host.fs, p + ["src"]) && IsDir(o.host.fs, p + ["tests"]) && IsDir(o.host.fs, p + ["docs"])
      && IsDir(o.host.fs, p + ["src", "commands"]) && IsDir(o.host.fs, p + ["src", "utils"])
      && p + [".gitignore"] in o.host.fs.nodes && o.host.fs.nodes[p + [".gitignore"]] == File(GitignoreContent)
      && p + ["README.md"] in o.host.fs.nodes && o.host.fs.nodes[p + ["README.md"]] == File(ReadmeContent)
  {
    CreateSucceeds(h, options, year);
    LaidCli(CreateRun(h, options, year).host.fs, options.projectPath);
  }

  /** The CLI layout, spelled out. */
  lemma LaidCli(fs: Fs, p: Path)
    requires Laid(fs, p, GetProjectStructure(Cli))
    ensures IsDir(fs, p + ["src"]) && IsDir(fs, p + ["tests"]) && IsDir(fs, p + ["docs"])
    ensures IsDir(fs, p + ["src", "commands"]) && IsDir(fs, p + ["src", "utils"])
    ensures p + [".gitignore"] in fs.nodes && fs.nodes[p + [".gitignore"]] == File(GitignoreContent)
    ensures p + ["README.md"] in fs.nodes && fs.nodes[p + ["README.md"]] == File(ReadmeContent)
  {
    var s := GetProjectStructure(Cli);
    assert s.directories == CliDirectories;
    assert s.files == SeedFiles;
    forall i | 0 <= i < 5 ensures IsDir(fs, p + CliDirectories[i]) {
      assert CliDirectories[i] in s.directories;
    }
    assert CliDirectories[1] == ["tests"] && CliDirectories[2] == ["docs"];
    assert CliDirectories[3] == ["src", "commands"] && CliDirectories[4] == ["src", "utils"];
    SeedNames();
  }

  /** The scaffold object; it owns the template engine it runs. */
  class R3Scaffold {
    var templateEngine: TemplateEngine

    constructor()
      ensures fresh(templateEngine) && templateEngine.templateCache == map[]
    {
      templateEngine := new TemplateEngine();
    }

    /** generateProjectStructure: creates the directories, then writes the seed files. */
    method GenerateProjectStructure(fs: Fs, projectPath: Path, config: R3Config) returns (r: Progress)
      ensures r == GenerateStructure(fs, projectPath, config.projectType)
    {
      var structure := GetProjectStructure(config.projectType);
      var cur := fs;
      var i := 0;
      while i < |structure.directories|
        invariant 0 <= i <= |structure.directories|
        invariant EnsureDirs(fs, projectPath, structure.directories) == EnsureDirs(cur, projectPath, structure.directories[i..])
      {
        var dir := structure.directories[i];
        assert structure.directories[i..][1..] == structure.directories[i + 1..];
        var made := EnsureDir(cur, projectPath + dir);
        if made.Err? {
          return Progress(cur, Some(made.error));
        }
        cur := made.value;
        i := i + 1;
      }
      i := 0;
      while i < |structure.files|
        invariant 0 <= i <= |structure.files|
        invariant GenerateStructure(fs, projectPath, config.projectType) == WriteFiles(cur, projectPath, structure.files[i..])
      {
        var (filePath, content) := structure.files[i];
        assert structure.files[i..][1..] == structure.files[i + 1..];
        var written := Write(cur, projectPath + [filePath], content);
        if written.Err? {
          return Progress(cur, Some(written.error));
        }
        cur := written.value;
        i := i + 1;
      }
      return Progress(cur, None);
    }

    /**
     * create: validate, create the project directory, lay out the
     * structure, run the template pass, then git and the installation
     * unless skipped. `trace` lists the steps started; `err` is what create
     * throws. The clock's year for the template context is a parameter.
     */
    method Create(h: Host, options: ScaffoldOptions, year: int) returns (h': Host, err: Option<string>, trace: seq<Step>)
      ensures Outcome(h', err, trace) == CreateRun(h, options, year)
    {
      var projectPath := options.projectPath;
      trace := [Validate];
      var invalid := ValidateProjectPath(h.fs, projectPath);
      if invalid.Some? {
        return h, invalid, trace;
      }
      trace := [Validate, EnsureRoot];
      var root := EnsureDir(h.fs, projectPath);
      if root.Err? {
        return h, Some(root.error), trace;
      }
      h' := h.(fs := root.value);
      assert CreateRun(h, options, year) == AfterRoot(h', options, year);
      trace := [Validate, EnsureRoot, Structure];
      var generated := GenerateProjectStructure(h'.fs, projectPath, options.config);
      ghost var rooted := h';
      h' := h'.(fs := generated.fs);
      if generated.failure.Some? {
        return h', generated.failure, trace;
      }
      assert AfterRoot(rooted, options, year) == AfterLayout(h', options, year);
      trace := [Validate, EnsureRoot, Structure, Templates];
      var walk := templateEngine.ProcessTemplates(h'.fs, projectPath, options.config, year);
      ghost var laid := h';
      h' := h'.(fs := walk.fs);
      if walk.failure.Some? {
        return h', walk.failure, trace;
      }
      assert AfterLayout(laid, options, year) == Finish(h', options);
      if !options.skipGit {
        trace := trace + [Git];
        h' := InitGit(h', projectPath);
      }
      if !options.skipInstall {
        trace := trace + [Install];
        h', err := InstallDependencies(h', projectPath);
        if err.Some? {
          return;
        }
      }
      err := None;
    }
  }
}
