/**
 * The template engine: after the project skeleton exists it walks the
 * project directory, and every file whose name ends in `.ejs`, `.hbs` or
 * `.tpl` is rendered against a context built from the configuration,
 * written to the same path without that extension, and removed.
 */
module TemplateEngine {
  import opened Results
  import opened FileSystem
  import opened Render
  import opened Config

  predicate EndsWith(s: string, suffix: string) {
    |suffix| <= |s| && s[|s| - |suffix|..] == suffix
  }

  /** isTemplateFile: the name ends in one of the three template extensions. */
  predicate IsTemplateFile(name: string) {
    EndsWith(name, ".ejs") || EndsWith(name, ".hbs") || EndsWith(name, ".tpl")
  }

  /** The replacement of /\.(ejs|hbs|tpl)$/ by the empty string in a file name. */
  function StripExtension(name: string): string {
    if |name| >= 4 && name[|name| - 4] == '.' && name[|name| - 3..] in {"ejs", "hbs", "tpl"}
    then name[..|name| - 4]
    else name
  }

  /**
   * The extension is stripped exactly from template names, and then it is
   * the last four characters that go.
   */
  lemma StripExactlyTemplates(name: string)
    ensures StripExtension(name) != name <==> IsTemplateFile(name)
    ensures IsTemplateFile(name) ==> StripExtension(name) == name[..|name| - 4]
  {
    var n := |name|;
    if n >= 4 {
      var t := name[n - 4..];
      assert t[0] == name[n - 4] && t[1..] == name[n - 3..];
      assert EndsWith(name, ".ejs") <==> t == ".ejs";
      assert EndsWith(name, ".hbs") <==> t == ".hbs";
      assert EndsWith(name, ".tpl") <==> t == ".tpl";
      assert t == [t[0]] + t[1..];
    }
  }

  /** Where processFile writes the rendered template at `p`. */
  function OutputPath(p: Path): (q: Path)
    requires p != []
    ensures q != [] && Parent(q) == Parent(p) && Name(q) == StripExtension(Name(p))
  {
    Parent(p) + [StripExtension(Name(p))]
  }

  /** The slash-separated text of a path, as path.join builds it. */
  function PathText(p: Path): string {
    if p == [] then "" else PathText(Parent(p)) + "/" + Name(p)
  }

  /**
   * For a template, replacing the extension in the last name is the same as
   * replacing it at the end of the whole path text, as the source does:
   * the output path's text is the template path's text without its last
   * four characters.
   */
  lemma OutputPathText(p: Path)
    requires p != [] && IsTemplateFile(Name(p))
    ensures var t := PathText(p); |t| >= 4 && PathText(OutputPath(p)) == t[..|t| - 4]
  {
    StripExactlyTemplates(Name(p));
    var q := OutputPath(p);
    assert PathText(q) == PathText(Parent(p)) + "/" + Name(p)[..|Name(p)| - 4];
    assert PathText(p) == PathText(Parent(p)) + "/" + Name(p);
  }

  /** `undefined` for an absent optional field, its text otherwise. */
  function OptionalText(o: Option<string>): Value {
    match o
    case None => Undefined
    case Some(s) => Text(s)
  }

  /**
   * createContext: the configuration's fields under their context keys,
   * plus the current year, which the caller passes in.
   */
  function CreateContext(config: R3Config, year: int): Context {
    map[
      "projectName" := Text(config.name),
      "projectVersion" := Text(config.version),
      "author" := OptionalText(config.author),
      "description" := OptionalText(config.description),
      "license" := OptionalText(config.license),
      "year" := Number(year),
      "features" := List(config.features),
      "projectType" := Text(TypeValue(config.projectType))]
  }

  /** Every key of the context can be named by a placeholder. */
  lemma ContextKeysAreWords(config: R3Config, year: int)
    ensures forall k | k in CreateContext(config, year) :: IsWord(k)
  {
    ShortKeysAreWords();
    LongKeysAreWords();
  }

  lemma ShortKeysAreWords()
    ensures IsWord("author") && IsWord("license") && IsWord("year") && IsWord("features")
  {
  }

  lemma LongKeysAreWords()
    ensures IsWord("projectName") && IsWord("projectVersion") && IsWord("description") && IsWord("projectType")
  {
  }

  lemma ContextEntries(config: R3Config, year: int)
    ensures var ctx := CreateContext(config, year);
      && "projectName" in ctx && ctx["projectName"] == Text(config.name)
      && "author" in ctx && ctx["author"] == OptionalText(config.author)
      && "year" in ctx && ctx["year"] == Number(year)
      && "features" in ctx && ctx["features"] == List(config.features)
  {
  }

  /** `{{projectName}}` renders to the project's name, or stays as it is when the name is empty. */
  lemma ContextName(config: R3Config, year: int)
    ensures RenderTemplate(Placeholder("projectName"), CreateContext(config, year))
         == if config.name == "" then Placeholder("projectName") else config.name
  {
    ContextKeysAreWords(config, year);
    ContextEntries(config, year);
    Single("projectName", CreateContext(config, year));
  }

  /** `{{year}}` renders to the year in decimal. */
  lemma ContextYear(config: R3Config, year: nat)
    requires year > 0
    ensures RenderTemplate(Placeholder("year"), CreateContext(config, year)) == Digits(year)
  {
    ContextKeysAreWords(config, year);
    ContextEntries(config, year);
    Single("year", CreateContext(config, year));
  }

  /** `{{features}}` renders to the features joined with commas; no features give the empty text. */
  lemma ContextFeatures(config: R3Config, year: int)
    ensures RenderTemplate(Placeholder("features"), CreateContext(config, year)) == Join(config.features, ",")
  {
    ContextKeysAreWords(config, year);
    ContextEntries(config, year);
    Single("features", CreateContext(config, year));
  }

  /** An absent author leaves `{{author}}` in the text. */
  lemma ContextMissingAuthor(config: R3Config, year: int)
    requires config.author.None?
    ensures RenderTemplate(Placeholder("author"), CreateContext(config, year)) == Placeholder("author")
  {
    ContextKeysAreWords(config, year);
    ContextEntries(config, year);
    Single("author", CreateContext(config, year));
  }

  /** A template that is one placeholder renders to that placeholder's replacement. */
  lemma Single(key: string, ctx: Context)
    requires IsWord(key)
    ensures RenderTemplate(Placeholder(key), ctx) == Replacement(ctx, key)
  {
    RenderPlaceholder(key, "", ctx);
    assert Placeholder(key) + "" == Placeholder(key);
    assert RenderTemplate("", ctx) == "";
  }

  /**
   * The outcome of a walk: the file system it leaves, the templates it
   * converted in order, and the error that stopped it, if any.
   */
  datatype Walk = Walk(fs: Fs, processed: seq<Path>, failure: Option<string>)

  /** A walk that follows steps which converted `done`. */
  function Then(done: seq<Path>, w: Walk): Walk {
    Walk(w.fs, done + w.processed, w.failure)
  }

  lemma ThenThen(done: seq<Path>, more: seq<Path>, w: Walk)
    ensures Then(done, Then(more, w)) == Then(done + more, w)
  {
    assert done + (more + w.processed) == done + more + w.processed;
  }

  /** The nodes outside `dir` are the same in `a` and `b`. */
  ghost predicate SameOutside(a: map<Path, Node>, b: map<Path, Node>, dir: Path) {
    forall q | !Below(dir, q) :: (q in a <==> q in b) && (q in a ==> a[q] == b[q])
  }

  /**
   * processFile: read the template, render it, write the result to the
   * output path, then remove the template. A failing step stops the rest.
   */
  function ConvertFile(fs: Fs, p: Path, ctx: Context): (w: Walk)
    requires p != [] && IsTemplateFile(Name(p))
    ensures Dirs(w.fs.nodes) <= Dirs(fs.nodes)
  {
    StripExactlyTemplates(Name(p));
    match ReadFile(fs, p)
    case Err(e) => Walk(fs, [], Some(e))
    case Ok(content) =>
      var out := OutputPath(p);
      match Write(fs, out, RenderTemplate(content, ctx))
      case Err(e) => Walk(fs, [], Some(e))
      case Ok(fs1) =>
        assert !AtOrBelow(p, out);
        Walk(Remove(fs1, p), [p], None)
  }

  /**
   * A conversion succeeds exactly when the template is a file and its
   * output path can be written. On failure nothing changes. On success
   * the template and everything at or below it are gone, the output path
   * holds the rendered text, every other node is unchanged and the tree
   * stays valid.
   */
  lemma ConvertFileSpec(fs: Fs, p: Path, ctx: Context)
    requires p != [] && IsTemplateFile(Name(p))
    ensures var w := ConvertFile(fs, p, ctx);
      && (w.failure.None? <==> IsFile(fs, p) && Writable(fs, OutputPath(p)))
      && (w.failure.Some? ==> w.fs == fs && w.processed == [])
      && (w.failure.None? ==> w.processed == [p])
      && (w.failure.None? ==> forall q | !AtOrBelow(p, q) && q != OutputPath(p) ::
            (q in w.fs.nodes <==> q in fs.nodes) && (q in fs.nodes ==> w.fs.nodes[q] == fs.nodes[q]))
      && (w.failure.None? ==> OutputPath(p) in w.fs.nodes && w.fs.nodes[OutputPath(p)] == File(RenderTemplate(fs.nodes[p].content, ctx)))
      && (w.failure.None? ==> forall q | AtOrBelow(p, q) :: q !in w.fs.nodes)
      && w.fs.readOnly == fs.readOnly
      && (Valid(fs) ==> Valid(w.fs))
  {
    StripExactlyTemplates(Name(p));
    var out := OutputPath(p);
    assert !AtOrBelow(p, out);
  }

  lemma NarrowerFrame(a: map<Path, Node>, b: map<Path, Node>, inner: Path, outer: Path)
    requires Below(outer, inner) && SameOutside(a, b, inner)
    ensures SameOutside(a, b, outer)
  {
    forall q | !Below(outer, q)
      ensures (q in a <==> q in b) && (q in a ==> a[q] == b[q])
    {
      if Below(inner, q) {
        BelowTransitive(outer, inner, q);
      }
    }
  }

  /** A walk never removes a directory, so the measure of the remaining walk does not grow. */
  lemma FewerDirsBelow(a: set<Path>, b: set<Path>, dir: Path)
    requires a <= b
    ensures |DirsBelow(a, dir)| <= |DirsBelow(b, dir)|
  {
    SubsetCardinality(DirsBelow(a, dir), DirsBelow(b, dir));
  }

  /** The walk of a subdirectory, on what is left of the tree, has a smaller measure than the walk of its parent. */
  lemma SubdirMeasure(now: set<Path>, start: set<Path>, dir: Path, n: string)
    requires now <= start && dir + [n] in now
    ensures |DirsBelow(now, dir + [n])| < |DirsBelow(start, dir)|
  {
    ChildIsBelow(dir, n);
    SubdirHasFewerDirs(now, dir, dir + [n]);
    FewerDirsBelow(now, start, dir);
  }

  /**
   * processDirectory: lists `dir` once and handles its entries in listing
   * order, descending into directories and converting template files.
   */
  function ProcessDir(fs: Fs, dir: Path, ctx: Context): (w: Walk)
    ensures Dirs(w.fs.nodes) <= Dirs(fs.nodes)
    decreases |DirsBelow(Dirs(fs.nodes), dir)|, 1
  {
    match ReadDir(fs, dir)
    case Err(e) => Walk(fs, [], Some(e))
    case Ok(names) => ProcessEntries(fs, dir, names, ctx)
  }

  /** The loop of processDirectory over the entries `names` still to handle. */
  function ProcessEntries(fs: Fs, dir: Path, names: seq<string>, ctx: Context): (w: Walk)
    ensures Dirs(w.fs.nodes) <= Dirs(fs.nodes)
    decreases |DirsBelow(Dirs(fs.nodes), dir)|, 0, |names|
  {
    if names == [] then Walk(fs, [], None)
    else
      var p := dir + [names[0]];
      ChildIsBelow(dir, names[0]);
      match Stat(fs, p)
      case Err(e) => Walk(fs, [], Some(e))
      case Ok(node) =>
        if node.Dir? then
          SubdirHasFewerDirs(Dirs(fs.nodes), dir, p);
          var w1 := ProcessDir(fs, p, ctx);
          if w1.failure.Some? then w1
          else
            FewerDirsBelow(Dirs(w1.fs.nodes), Dirs(fs.nodes), dir);
            var w2 := ProcessEntries(w1.fs, dir, names[1..], ctx);
            Then(w1.processed, w2)
        else if IsTemplateFile(names[0]) then
          var w1 := ConvertFile(fs, p, ctx);
          if w1.failure.Some? then w1
          else
            FewerDirsBelow(Dirs(w1.fs.nodes), Dirs(fs.nodes), dir);
            var w2 := ProcessEntries(w1.fs, dir, names[1..], ctx);
            Then(w1.processed, w2)
        else ProcessEntries(fs, dir, names[1..], ctx)
  }

  /** One step of the loop: an entry that cannot be stat-ed stops it with that error. */
  lemma MissingEntryStep(fs: Fs, dir: Path, n: string, rest: seq<string>, ctx: Context)
    requires dir + [n] !in fs.nodes
    ensures ProcessEntries(fs, dir, [n] + rest, ctx) == Walk(fs, [], Some(Stat(fs, dir + [n]).error))
  {
    var names := [n] + rest;
    assert names[0] == n && names[1..] == rest;
  }

  /** One step of the loop: an entry that is a directory is walked, then the loop goes on unless that failed. */
  lemma DirEntryStep(fs: Fs, dir: Path, n: string, rest: seq<string>, ctx: Context)
    requires IsDir(fs, dir + [n])
    ensures var w1 := ProcessDir(fs, dir + [n], ctx);
      ProcessEntries(fs, dir, [n] + rest, ctx)
      == if w1.failure.Some? then w1 else Then(w1.processed, ProcessEntries(w1.fs, dir, rest, ctx))
  {
    var names := [n] + rest;
    assert names[0] == n && names[1..] == rest;
    ChildIsBelow(dir, n);
  }

  /** One step of the loop: a template file is converted, then the loop goes on unless that failed. */
  lemma TemplateEntryStep(fs: Fs, dir: Path, n: string, rest: seq<string>, ctx: Context)
    requires IsFile(fs, dir + [n]) && IsTemplateFile(n)
    ensures var w1 := ConvertFile(fs, dir + [n], ctx);
      ProcessEntries(fs, dir, [n] + rest, ctx)
      == if w1.failure.Some? then w1 else Then([dir + [n]], ProcessEntries(w1.fs, dir, rest, ctx))
  {
    var names := [n] + rest;
    assert names[0] == n && names[1..] == rest;
    ChildIsBelow(dir, n);
  }

  /** One step of the loop: any other file is skipped. */
  lemma OtherEntryStep(fs: Fs, dir: Path, n: string, rest: seq<string>, ctx: Context)
    requires IsFile(fs, dir + [n]) && !IsTemplateFile(n)
    ensures ProcessEntries(fs, dir, [n] + rest, ctx) == ProcessEntries(fs, dir, rest, ctx)
  {
    var names := [n] + rest;
    assert names[0] == n && names[1..] == rest;
  }

  /**
   * What a walk of `dir` keeps: the read-only marks, every node outside
   * `dir`, the validity of the tree, and the whole file system when it
   * converts nothing.
   */
  ghost predicate Keeps(fs: Fs, dir: Path, w: Walk) {
    && w.fs.readOnly == fs.readOnly
    && SameOutside(fs.nodes, w.fs.nodes, dir)
    && (w.processed == [] ==> w.fs == fs)
    && (Valid(fs) ==> Valid(w.fs))
  }

  lemma KeepsThen(fs: Fs, dir: Path, w1: Walk, w2: Walk)
    requires Keeps(fs, dir, w1) && Keeps(w1.fs, dir, w2)
    ensures Keeps(fs, dir, Then(w1.processed, w2))
  {
  }

  lemma {:induction false} DirKeeps(fs: Fs, dir: Path, ctx: Context)
    ensures Keeps(fs, dir, ProcessDir(fs, dir, ctx))
    decreases |DirsBelow(Dirs(fs.nodes), dir)|, 1, 0
  {
    match ReadDir(fs, dir)
    case Err(_) =>
    case Ok(names) => EntriesKeep(fs, dir, names, ctx);
  }

  lemma {:induction false} EntriesKeep(fs: Fs, dir: Path, names: seq<string>, ctx: Context)
    ensures Keeps(fs, dir, ProcessEntries(fs, dir, names, ctx))
    decreases |DirsBelow(Dirs(fs.nodes), dir)|, 0, |names|
  {
    if names != [] {
      var n, rest := names[0], names[1..];
      var c := dir + [n];
      ChildIsBelow(dir, n);
      assert names == [n] + rest;
      if c !in fs.nodes {
        MissingEntryStep(fs, dir, n, rest, ctx);
      } else if fs.nodes[c].Dir? {
        DirEntryStep(fs, dir, n, rest, ctx);
        SubdirHasFewerDirs(Dirs(fs.nodes), dir, c);
        DirKeeps(fs, c, ctx);
        var w1 := ProcessDir(fs, c, ctx);
        NarrowerFrame(fs.nodes, w1.fs.nodes, c, dir);
        if w1.failure.None? {
          FewerDirsBelow(Dirs(w1.fs.nodes), Dirs(fs.nodes), dir);
          EntriesKeep(w1.fs, dir, rest, ctx);
          KeepsThen(fs, dir, w1, ProcessEntries(w1.fs, dir, rest, ctx));
        }
      } else if IsTemplateFile(n) {
        TemplateEntryStep(fs, dir, n, rest, ctx);
        ConvertFileSpec(fs, c, ctx);
        var w1 := ConvertFile(fs, c, ctx);
        if w1.failure.None? {
          FileFrame(fs, w1, c, dir);
          FewerDirsBelow(Dirs(w1.fs.nodes), Dirs(fs.nodes), dir);
          EntriesKeep(w1.fs, dir, rest, ctx);
          KeepsThen(fs, dir, w1, ProcessEntries(w1.fs, dir, rest, ctx));
        }
      } else {
        OtherEntryStep(fs, dir, n, rest, ctx);
        EntriesKeep(fs, dir, rest, ctx);
      }
    }
  }

  lemma FileFrame(fs: Fs, w: Walk, p: Path, dir: Path)
    requires p != [] && Parent(p) == dir && IsTemplateFile(Name(p))
    requires forall q | !AtOrBelow(p, q) && q != OutputPath(p) ::
      (q in w.fs.nodes <==> q in fs.nodes) && (q in fs.nodes ==> w.fs.nodes[q] == fs.nodes[q])
    ensures SameOutside(fs.nodes, w.fs.nodes, dir)
  {
    forall q | !Below(dir, q)
      ensures (q in fs.nodes <==> q in w.fs.nodes) && (q in fs.nodes ==> fs.nodes[q] == w.fs.nodes[q])
    {
      EntryInside(p, q);
    }
  }

  /** Whatever lies at or below an entry of `Parent(p)`, or replaces it, lies inside `Parent(p)`. */
  lemma EntryInside(p: Path, q: Path)
    requires p != []
    ensures AtOrBelow(p, q) ==> Below(Parent(p), q)
    ensures q == OutputPath(p) ==> Below(Parent(p), q)
  {
    if AtOrBelow(p, q) {
      assert q[..|Parent(p)|] == q[..|p|][..|Parent(p)|];
    }
    if q == OutputPath(p) {
      ChildIsBelow(Parent(p), Name(q));
    }
  }

  /** A template file present in `nodes`. */
  ghost predicate TemplateAt(nodes: map<Path, Node>, p: Path) {
    p in nodes && nodes[p].File? && p != [] && IsTemplateFile(Name(p))
  }

  /** `p` lies inside `dir`, under one of the entries `names`. */
  ghost predicate UnderEntry(dir: Path, names: seq<string>, p: Path) {
    Below(dir, p) && p[|dir|] in names
  }

  lemma DistinctConcat<T>(a: seq<T>, b: seq<T>)
    requires Distinct(a) && Distinct(b) && forall x | x in a :: x !in b
    ensures Distinct(a + b)
  {
    forall i, j | 0 <= i < j < |a + b|
      ensures (a + b)[i] != (a + b)[j]
    {
      if i < |a| && j >= |a| {
        assert (a + b)[i] in a && (a + b)[j] == b[j - |a|];
      }
    }
  }

  /** The walk `w` converted templates of `nodes` that lie under the entries `names` of `dir`, each once. */
  ghost predicate ConvertsUnder(nodes: map<Path, Node>, dir: Path, names: seq<string>, w: Walk) {
    && Distinct(w.processed)
    && (forall p | p in w.processed :: TemplateAt(nodes, p) && UnderEntry(dir, names, p))
    && (w.failure.None? ==> forall p | TemplateAt(nodes, p) && UnderEntry(dir, names, p) :: p in w.processed)
  }

  /**
   * The template pass of a directory converts each template that exists
   * inside it at the start exactly once and converts nothing else; when it
   * stops at an error, what it converted is still among those templates.
   */
  lemma {:induction false} DirConvertsTemplates(fs: Fs, dir: Path, ctx: Context)
    requires Valid(fs)
    ensures var w := ProcessDir(fs, dir, ctx);
      && Distinct(w.processed)
      && (forall p | p in w.processed :: TemplateAt(fs.nodes, p) && Below(dir, p))
      && (w.failure.None? ==> forall p | TemplateAt(fs.nodes, p) && Below(dir, p) :: p in w.processed)
    decreases |DirsBelow(Dirs(fs.nodes), dir)|, 1, 0, 0
  {
    match ReadDir(fs, dir)
    case Err(_) =>
    case Ok(names) =>
      ListedEntries(fs, dir);
      EntriesConvertTemplates(fs, dir, names, ctx);
      forall p | TemplateAt(fs.nodes, p) && Below(dir, p)
        ensures UnderEntry(dir, names, p)
      {
        EntryExists(fs, dir, p);
      }
  }

  /** The loop over the entries `names` of `dir` converts exactly the templates under them. */
  lemma {:induction false} EntriesConvertTemplates(fs: Fs, dir: Path, names: seq<string>, ctx: Context)
    requires Valid(fs) && Distinct(names)
    requires forall n | n in names :: dir + [n] in fs.nodes
    ensures ConvertsUnder(fs.nodes, dir, names, ProcessEntries(fs, dir, names, ctx))
    decreases |DirsBelow(Dirs(fs.nodes), dir)|, 0, |names|, 1
  {
    if names != [] {
      var n, rest := names[0], names[1..];
      var c := dir + [n];
      ChildIsBelow(dir, n);
      assert c in fs.nodes;
      DistinctTail(names);
      assert names == [n] + rest;
      if fs.nodes[c].Dir? {
        DirEntryConverts(fs, dir, n, rest, ctx);
      } else if IsTemplateFile(n) {
        TemplateEntryConverts(fs, dir, n, rest, ctx);
      } else {
        OtherEntryConverts(fs, dir, n, rest, ctx);
      }
    }
  }

  lemma DistinctTail<T>(s: seq<T>)
    ensures s != [] && Distinct(s) ==> s[0] !in s[1..] && Distinct(s[1..])
  {
    if s != [] && Distinct(s) {
      forall j | 0 <= j < |s| - 1 ensures s[1..][j] != s[0] { assert s[1..][j] == s[j + 1]; }
      forall i, j | 0 <= i < j < |s| - 1 ensures s[1..][i] != s[1..][j] { assert s[1..][i] == s[i + 1] && s[1..][j] == s[j + 1]; }
    }
  }

  /** The step for a file that is not a template: the rest of the loop alone. */
  lemma {:induction false} OtherEntryConverts(fs: Fs, dir: Path, n: string, rest: seq<string>, ctx: Context)
    requires Valid(fs) && Distinct(rest) && n !in rest
    requires forall m | m in rest :: dir + [m] in fs.nodes
    requires IsFile(fs, dir + [n]) && !IsTemplateFile(n)
    ensures ConvertsUnder(fs.nodes, dir, [n] + rest, ProcessEntries(fs, dir, [n] + rest, ctx))
    decreases |DirsBelow(Dirs(fs.nodes), dir)|, 0, |rest| + 1, 0
  {
    var names := [n] + rest;
    var c := dir + [n];
    ChildIsBelow(dir, n);
    OtherEntryStep(fs, dir, n, rest, ctx);
    EntriesConvertTemplates(fs, dir, rest, ctx);
    forall p | TemplateAt(fs.nodes, p) && UnderEntry(dir, names, p)
      ensures p[|dir|] in rest
    {
      EntryOrInside(dir, p);
      OnlyFileAtOrBelow(fs, c, p);
    }
  }

  /** The step for an entry that is a directory: its walk, then the rest of the loop. */
  lemma {:induction false} DirEntryConverts(fs: Fs, dir: Path, n: string, rest: seq<string>, ctx: Context)
    requires Valid(fs) && Distinct(rest) && n !in rest
    requires forall m | m in rest :: dir + [m] in fs.nodes
    requires IsDir(fs, dir + [n])
    ensures ConvertsUnder(fs.nodes, dir, [n] + rest, ProcessEntries(fs, dir, [n] + rest, ctx))
    decreases |DirsBelow(Dirs(fs.nodes), dir)|, 0, |rest| + 1, 0
  {
    var c := dir + [n];
    ChildIsBelow(dir, n);
    DirEntryStep(fs, dir, n, rest, ctx);
    SubdirHasFewerDirs(Dirs(fs.nodes), dir, c);
    DirConvertsTemplates(fs, c, ctx);
    DirKeeps(fs, c, ctx);
    var w1 := ProcessDir(fs, c, ctx);
    forall p | p in w1.processed ensures UnderEntry(dir, [n] + rest, p) {
      InsideEntry(dir, n, p);
    }
    if w1.failure.None? {
      FewerDirsBelow(Dirs(w1.fs.nodes), Dirs(fs.nodes), dir);
      forall m | m in rest ensures dir + [m] in w1.fs.nodes {
        assert !Below(c, dir + [m]);
      }
      EntriesConvertTemplates(w1.fs, dir, rest, ctx);
      var w2 := ProcessEntries(w1.fs, dir, rest, ctx);
      forall p | UnderEntry(dir, rest, p)
        ensures TemplateAt(w1.fs.nodes, p) <==> TemplateAt(fs.nodes, p)
      {
        InsideEntry(dir, n, p);
      }
      DirEntryCombine(fs, w1.fs.nodes, dir, n, rest, w1.processed, w2);
    }
  }

  /** Joins what the walk of the directory entry `dir + [n]` converted with what the rest of the loop converted. */
  lemma DirEntryCombine(fs: Fs, after: map<Path, Node>, dir: Path, n: string, rest: seq<string>, done: seq<Path>, w2: Walk)
    requires Valid(fs) && IsDir(fs, dir + [n]) && n !in rest
    requires Distinct(done) && forall p | p in done :: TemplateAt(fs.nodes, p) && Below(dir + [n], p)
    requires forall p | TemplateAt(fs.nodes, p) && Below(dir + [n], p) :: p in done
    requires forall p | UnderEntry(dir, rest, p) :: TemplateAt(after, p) <==> TemplateAt(fs.nodes, p)
    requires ConvertsUnder(after, dir, rest, w2)
    ensures ConvertsUnder(fs.nodes, dir, [n] + rest, Then(done, w2))
  {
    var c := dir + [n];
    var names := [n] + rest;
    var w := Then(done, w2);
    forall p | p in done ensures p !in w2.processed && UnderEntry(dir, names, p) {
      InsideEntry(dir, n, p);
    }
    DistinctConcat(done, w2.processed);
    forall p | p in w.processed ensures TemplateAt(fs.nodes, p) && UnderEntry(dir, names, p) {
      if p !in done {
        assert p in w2.processed;
      }
    }
    forall p | w.failure.None? && TemplateAt(fs.nodes, p) && UnderEntry(dir, names, p) ensures p in w.processed {
      if p[|dir|] == n {
        EntryOrInside(dir, p);
      } else {
        assert p[|dir|] in rest;
      }
    }
  }

  /** The step for a template file: its conversion, then the rest of the loop. */
  lemma {:induction false} TemplateEntryConverts(fs: Fs, dir: Path, n: string, rest: seq<string>, ctx: Context)
    requires Valid(fs) && Distinct(rest) && n !in rest
    requires forall m | m in rest :: dir + [m] in fs.nodes
    requires IsFile(fs, dir + [n]) && IsTemplateFile(n)
    ensures ConvertsUnder(fs.nodes, dir, [n] + rest, ProcessEntries(fs, dir, [n] + rest, ctx))
    decreases |DirsBelow(Dirs(fs.nodes), dir)|, 0, |rest| + 1, 0
  {
    var names := [n] + rest;
    var c := dir + [n];
    ChildIsBelow(dir, n);
    TemplateEntryStep(fs, dir, n, rest, ctx);
    ConvertFileSpec(fs, c, ctx);
    var w1 := ConvertFile(fs, c, ctx);
    if w1.failure.None? {
      FewerDirsBelow(Dirs(w1.fs.nodes), Dirs(fs.nodes), dir);
      ConversionKeepsSiblings(fs, dir, n, rest, ctx);
      EntriesConvertTemplates(w1.fs, dir, rest, ctx);
      var w2 := ProcessEntries(w1.fs, dir, rest, ctx);
      TemplateEntryCombine(fs, w1.fs.nodes, dir, n, rest, w2);
    }
  }

  /** Joins the converted template `dir + [n]` with what the rest of the loop converted. */
  lemma TemplateEntryCombine(fs: Fs, after: map<Path, Node>, dir: Path, n: string, rest: seq<string>, w2: Walk)
    requires Valid(fs) && IsFile(fs, dir + [n]) && IsTemplateFile(n) && n !in rest
    requires forall p | UnderEntry(dir, rest, p) :: TemplateAt(after, p) <==> TemplateAt(fs.nodes, p)
    requires ConvertsUnder(after, dir, rest, w2)
    ensures ConvertsUnder(fs.nodes, dir, [n] + rest, Then([dir + [n]], w2))
  {
    var c := dir + [n];
    var names := [n] + rest;
    ChildIsBelow(dir, n);
    var w := Then([c], w2);
    assert c !in w2.processed by {
      forall p | p in w2.processed ensures p != c {
        InsideEntry(dir, n, p);
      }
    }
    DistinctConcat([c], w2.processed);
    forall p | p in w.processed ensures TemplateAt(fs.nodes, p) && UnderEntry(dir, names, p) {
      if p != c {
        assert p in w2.processed;
      }
    }
    forall p | w.failure.None? && TemplateAt(fs.nodes, p) && UnderEntry(dir, names, p) ensures p in w.processed {
      if p[|dir|] == n {
        EntryOrInside(dir, p);
        OnlyFileAtOrBelow(fs, c, p);
      } else {
        assert p[|dir|] in rest;
      }
    }
  }

  /**
   * Converting the template entry `n` keeps the sibling entries `rest` and
   * what is under them: an output file that lands on a sibling replaces a
   * file with a file of the same name.
   */
  lemma ConversionKeepsSiblings(fs: Fs, dir: Path, n: string, rest: seq<string>, ctx: Context)
    requires Valid(fs) && n !in rest
    requires forall m | m in rest :: dir + [m] in fs.nodes
    requires IsFile(fs, dir + [n]) && IsTemplateFile(n)
    requires ConvertFile(fs, dir + [n], ctx).failure.None?
    ensures var w1 := ConvertFile(fs, dir + [n], ctx);
      && (forall m | m in rest :: dir + [m] in w1.fs.nodes)
      && (forall p | UnderEntry(dir, rest, p) :: TemplateAt(w1.fs.nodes, p) <==> TemplateAt(fs.nodes, p))
  {
    var c := dir + [n];
    ChildIsBelow(dir, n);
    ConvertFileSpec(fs, c, ctx);
    var w1 := ConvertFile(fs, c, ctx);
    var out := OutputPath(c);
    forall m | m in rest ensures dir + [m] in w1.fs.nodes {
      InsideEntry(dir, n, dir + [m]);
    }
    forall p | UnderEntry(dir, rest, p)
      ensures TemplateAt(w1.fs.nodes, p) <==> TemplateAt(fs.nodes, p)
    {
      InsideEntry(dir, n, p);
      if p == out {
        assert out == dir + [p[|dir|]];
      }
    }
  }

  /** The output paths of the converted templates `ps`. */
  ghost function Outputs(ps: seq<Path>): set<Path> {
    set q | q in ps && q != [] :: OutputPath(q)
  }

  /** From `a` to `b`, only the converted templates `ps` and their output paths changed. */
  ghost predicate ChangedOnly(a: map<Path, Node>, b: map<Path, Node>, ps: seq<Path>) {
    forall p | p !in ps && p !in Outputs(ps) :: (p in a <==> p in b) && (p in a ==> a[p] == b[p])
  }

  lemma ChangedOnlyThen(a: map<Path, Node>, b: map<Path, Node>, c: map<Path, Node>, ps: seq<Path>, qs: seq<Path>)
    requires ChangedOnly(a, b, ps) && ChangedOnly(b, c, qs)
    ensures ChangedOnly(a, c, ps + qs)
  {
    forall p | p !in ps + qs && p !in Outputs(ps + qs)
      ensures (p in a <==> p in c) && (p in a ==> a[p] == c[p])
    {
      assert p !in Outputs(ps) && p !in Outputs(qs) by {
        forall q | q in ps && q != [] ensures p != OutputPath(q) { assert q in ps + qs; }
        forall q | q in qs && q != [] ensures p != OutputPath(q) { assert q in ps + qs; }
      }
    }
  }

  /**
   * On a valid file system a conversion changes exactly two entries: the
   * template disappears and its output path holds a file. No directory
   * appears or disappears.
   */
  lemma ConversionEffect(fs: Fs, c: Path, ctx: Context)
    requires Valid(fs) && c != [] && IsTemplateFile(Name(c))
    ensures var w := ConvertFile(fs, c, ctx);
      && ChangedOnly(fs.nodes, w.fs.nodes, w.processed)
      && Rendered(fs.nodes, w.fs.nodes, w.processed, ctx)
      && Dirs(w.fs.nodes) == Dirs(fs.nodes)
  {
    ConvertFileSpec(fs, c, ctx);
    var w := ConvertFile(fs, c, ctx);
    if w.failure.None? {
      var a, b := fs.nodes, w.fs.nodes;
      assert c in a && a[c].File? && b[OutputPath(c)] == File(RenderTemplate(a[c].content, ctx));
      forall q ensures AtOrBelow(c, q) && q in a ==> q == c {
        OnlyFileAtOrBelow(fs, c, q);
      }
      SwapEffect(a, b, c, ctx);
    }
  }

  lemma SwapEffect(a: map<Path, Node>, b: map<Path, Node>, c: Path, ctx: Context)
    requires c != [] && c in a && a[c].File? && forall q | AtOrBelow(c, q) :: q !in b
    requires forall q | AtOrBelow(c, q) && q in a :: q == c
    requires var out := OutputPath(c);
      && out in b && b[out] == File(RenderTemplate(a[c].content, ctx)) && !(out in a && a[out].Dir?)
      && forall q | !AtOrBelow(c, q) && q != out :: (q in b <==> q in a) && (q in a ==> b[q] == a[q])
    ensures ChangedOnly(a, b, [c]) && Rendered(a, b, [c], ctx) && Dirs(b) == Dirs(a)
  {
    var out := OutputPath(c);
    assert Outputs([c]) == {out};
    assert AtOrBelow(c, c);
    forall p | p in Dirs(a) ensures p in Dirs(b) {
      assert p != c;
    }
  }

  /**
   * The template pass changes nothing but the templates it converted and
   * their output paths: directories and every other file are left alone,
   * except where an output path falls on an existing file and replaces it.
   */
  lemma {:induction false} DirChangesOnlyConverted(fs: Fs, dir: Path, ctx: Context)
    requires Valid(fs)
    ensures var w := ProcessDir(fs, dir, ctx);
      ChangedOnly(fs.nodes, w.fs.nodes, w.processed) && Dirs(w.fs.nodes) == Dirs(fs.nodes)
    decreases |DirsBelow(Dirs(fs.nodes), dir)|, 1, 0
  {
    match ReadDir(fs, dir)
    case Err(_) =>
    case Ok(names) => EntriesChangeOnlyConverted(fs, dir, names, ctx);
  }

  lemma {:induction false} EntriesChangeOnlyConverted(fs: Fs, dir: Path, names: seq<string>, ctx: Context)
    requires Valid(fs)
    ensures var w := ProcessEntries(fs, dir, names, ctx);
      ChangedOnly(fs.nodes, w.fs.nodes, w.processed) && Dirs(w.fs.nodes) == Dirs(fs.nodes)
    decreases |DirsBelow(Dirs(fs.nodes), dir)|, 0, |names|
  {
    if names != [] {
      var n, rest := names[0], names[1..];
      var c := dir + [n];
      ChildIsBelow(dir, n);
      assert names == [n] + rest;
      if c in fs.nodes {
        if fs.nodes[c].Dir? {
          DirEntryStep(fs, dir, n, rest, ctx);
          SubdirHasFewerDirs(Dirs(fs.nodes), dir, c);
          DirChangesOnlyConverted(fs, c, ctx);
          DirKeeps(fs, c, ctx);
          var w1 := ProcessDir(fs, c, ctx);
          if w1.failure.None? {
            FewerDirsBelow(Dirs(w1.fs.nodes), Dirs(fs.nodes), dir);
            EntriesChangeOnlyConverted(w1.fs, dir, rest, ctx);
            var w2 := ProcessEntries(w1.fs, dir, rest, ctx);
            ChangedOnlyThen(fs.nodes, w1.fs.nodes, w2.fs.nodes, w1.processed, w2.processed);
          }
        } else if IsTemplateFile(n) {
          TemplateEntryStep(fs, dir, n, rest, ctx);
          ConversionEffect(fs, c, ctx);
          var w1 := ConvertFile(fs, c, ctx);
          if w1.failure.None? {
            FewerDirsBelow(Dirs(w1.fs.nodes), Dirs(fs.nodes), dir);
            EntriesChangeOnlyConverted(w1.fs, dir, rest, ctx);
            var w2 := ProcessEntries(w1.fs, dir, rest, ctx);
            ChangedOnlyThen(fs.nodes, w1.fs.nodes, w2.fs.nodes, w1.processed, w2.processed);
          }
        } else {
          OtherEntryStep(fs, dir, n, rest, ctx);
          EntriesChangeOnlyConverted(fs, dir, rest, ctx);
        }
      }
    }
  }

  /** No output path of `ps` is itself in `ps`, and no two of `ps` share an output path. */
  ghost predicate NoClash(ps: seq<Path>) {
    forall q, r | q in ps && r in ps && q != [] && r != [] ::
      OutputPath(q) != r && (OutputPath(q) == OutputPath(r) ==> q == r)
  }

  /** Each template of `ps` was a file of `a`, is gone from `b`, and its output path in `b` holds its rendered text. */
  ghost predicate Rendered(a: map<Path, Node>, b: map<Path, Node>, ps: seq<Path>, ctx: Context) {
    forall q | q in ps ::
      && q != [] && q in a && a[q].File? && q !in b
      && OutputPath(q) in b && b[OutputPath(q)] == File(RenderTemplate(a[q].content, ctx))
  }

  lemma RenderedThen(a: map<Path, Node>, b: map<Path, Node>, c: map<Path, Node>, ps: seq<Path>, qs: seq<Path>, ctx: Context)
    requires Distinct(ps + qs) && NoClash(ps + qs)
    requires ChangedOnly(a, b, ps) && Rendered(a, b, ps, ctx)
    requires ChangedOnly(b, c, qs) && Rendered(b, c, qs, ctx)
    ensures Rendered(a, c, ps + qs, ctx)
  {
    forall q | q in ps ensures q !in qs {
      var i :| 0 <= i < |ps| && ps[i] == q;
      forall j | 0 <= j < |qs| ensures qs[j] != q { assert (ps + qs)[i] == q && (ps + qs)[|ps| + j] == qs[j]; }
    }
    forall q | q in ps + qs
      ensures && q != [] && q in a && a[q].File? && q !in c
              && OutputPath(q) in c && c[OutputPath(q)] == File(RenderTemplate(a[q].content, ctx))
    {
      if q in ps {
        assert q !in Outputs(qs) && OutputPath(q) !in qs && OutputPath(q) !in Outputs(qs) by {
          forall r | r in qs && r != [] ensures OutputPath(r) != q && OutputPath(r) != OutputPath(q) {
            assert r in ps + qs && q in ps + qs;
          }
          forall r | r in qs ensures r != OutputPath(q) {
            assert r in ps + qs && q in ps + qs;
          }
        }
      } else {
        assert q in qs && q !in ps;
        assert q !in Outputs(ps) by {
          forall r | r in ps && r != [] ensures OutputPath(r) != q {
            assert r in ps + qs && q in ps + qs;
          }
        }
      }
    }
  }

  lemma ClashFreeParts(ps: seq<Path>, qs: seq<Path>)
    requires Distinct(ps + qs) && NoClash(ps + qs)
    ensures Distinct(ps) && NoClash(ps) && Distinct(qs) && NoClash(qs)
  {
    forall i, j | 0 <= i < j < |ps| ensures ps[i] != ps[j] { assert ps[i] == (ps + qs)[i] && ps[j] == (ps + qs)[j]; }
    forall i, j | 0 <= i < j < |qs| ensures qs[i] != qs[j] { assert qs[i] == (ps + qs)[|ps| + i] && qs[j] == (ps + qs)[|ps| + j]; }
  }

  /**
   * When no output path lands on a converted template and no two converted
   * templates share an output path, every converted template is gone and
   * its output holds the rendering of the text it had at the start.
   */
  lemma {:induction false} DirRendersTemplates(fs: Fs, dir: Path, ctx: Context)
    requires Valid(fs)
    ensures var w := ProcessDir(fs, dir, ctx);
      Distinct(w.processed) && NoClash(w.processed) ==> Rendered(fs.nodes, w.fs.nodes, w.processed, ctx)
    decreases |DirsBelow(Dirs(fs.nodes), dir)|, 1, 0, 0
  {
    match ReadDir(fs, dir)
    case Err(_) =>
    case Ok(names) => EntriesRenderTemplates(fs, dir, names, ctx);
  }

  lemma {:induction false} EntriesRenderTemplates(fs: Fs, dir: Path, names: seq<string>, ctx: Context)
    requires Valid(fs)
    ensures var w := ProcessEntries(fs, dir, names, ctx);
      Distinct(w.processed) && NoClash(w.processed) ==> Rendered(fs.nodes, w.fs.nodes, w.processed, ctx)
    decreases |DirsBelow(Dirs(fs.nodes), dir)|, 0, |names|, 1
  {
    if names != [] {
      var n, rest := names[0], names[1..];
      var c := dir + [n];
      ChildIsBelow(dir, n);
      assert names == [n] + rest;
      if c in fs.nodes {
        if fs.nodes[c].Dir? {
          DirEntryRenders(fs, dir, n, rest, ctx);
        } else if IsTemplateFile(n) {
          TemplateEntryRenders(fs, dir, n, rest, ctx);
        } else {
          OtherEntryStep(fs, dir, n, rest, ctx);
          EntriesRenderTemplates(fs, dir, rest, ctx);
        }
      }
    }
  }

  lemma {:induction false} DirEntryRenders(fs: Fs, dir: Path, n: string, rest: seq<string>, ctx: Context)
    requires Valid(fs) && IsDir(fs, dir + [n])
    ensures var w := ProcessEntries(fs, dir, [n] + rest, ctx);
      Distinct(w.processed) && NoClash(w.processed) ==> Rendered(fs.nodes, w.fs.nodes, w.processed, ctx)
    decreases |DirsBelow(Dirs(fs.nodes), dir)|, 0, |rest| + 1, 0
  {
    var c := dir + [n];
    ChildIsBelow(dir, n);
    DirEntryStep(fs, dir, n, rest, ctx);
    SubdirHasFewerDirs(Dirs(fs.nodes), dir, c);
    DirRendersTemplates(fs, c, ctx);
    DirChangesOnlyConverted(fs, c, ctx);
    DirKeeps(fs, c, ctx);
    var w1 := ProcessDir(fs, c, ctx);
    if w1.failure.None? {
      FewerDirsBelow(Dirs(w1.fs.nodes), Dirs(fs.nodes), dir);
      EntriesRenderTemplates(w1.fs, dir, rest, ctx);
      EntriesChangeOnlyConverted(w1.fs, dir, rest, ctx);
      var w2 := ProcessEntries(w1.fs, dir, rest, ctx);
      RenderedJoin(fs.nodes, w1.fs.nodes, w2.fs.nodes, w1.processed, w2.processed, ctx);
    }
  }

  lemma {:induction false} TemplateEntryRenders(fs: Fs, dir: Path, n: string, rest: seq<string>, ctx: Context)
    requires Valid(fs) && IsFile(fs, dir + [n]) && IsTemplateFile(n)
    ensures var w := ProcessEntries(fs, dir, [n] + rest, ctx);
      Distinct(w.processed) && NoClash(w.processed) ==> Rendered(fs.nodes, w.fs.nodes, w.processed, ctx)
    decreases |DirsBelow(Dirs(fs.nodes), dir)|, 0, |rest| + 1, 0
  {
    var c := dir + [n];
    ChildIsBelow(dir, n);
    TemplateEntryStep(fs, dir, n, rest, ctx);
    ConversionEffect(fs, c, ctx);
    var w1 := ConvertFile(fs, c, ctx);
    if w1.failure.None? {
      FewerDirsBelow(Dirs(w1.fs.nodes), Dirs(fs.nodes), dir);
      EntriesRenderTemplates(w1.fs, dir, rest, ctx);
      EntriesChangeOnlyConverted(w1.fs, dir, rest, ctx);
      var w2 := ProcessEntries(w1.fs, dir, rest, ctx);
      RenderedJoin(fs.nodes, w1.fs.nodes, w2.fs.nodes, [c], w2.processed, ctx);
    }
  }

  lemma RenderedJoin(a: map<Path, Node>, b: map<Path, Node>, c: map<Path, Node>, ps: seq<Path>, qs: seq<Path>, ctx: Context)
    requires ChangedOnly(a, b, ps) && (Distinct(ps) && NoClash(ps) ==> Rendered(a, b, ps, ctx))
    requires ChangedOnly(b, c, qs) && (Distinct(qs) && NoClash(qs) ==> Rendered(b, c, qs, ctx))
    ensures Distinct(ps + qs) && NoClash(ps + qs) ==> Rendered(a, c, ps + qs, ctx)
  {
    if Distinct(ps + qs) && NoClash(ps + qs) {
      ClashFreeParts(ps, qs);
      RenderedThen(a, b, c, ps, qs, ctx);
    }
  }

  /**
   * The template pass over `dir` on a valid file system, in one statement:
   * it converts templates present at the start, each once; when it
   * succeeds it has converted all of them; it changes nothing but those
   * templates and their outputs, and no directory; and when the templates'
   * output paths are distinct and fall on no template, each output holds
   * the rendering of its template's original text and the template is gone.
   */
  lemma TemplatePass(fs: Fs, dir: Path, ctx: Context)
    requires Valid(fs)
    requires forall q, r | TemplateAt(fs.nodes, q) && Below(dir, q) && TemplateAt(fs.nodes, r) && Below(dir, r) ::
      OutputPath(q) != r && (OutputPath(q) == OutputPath(r) ==> q == r)
    ensures var w := ProcessDir(fs, dir, ctx);
      && Distinct(w.processed)
      && (forall p | p in w.processed :: TemplateAt(fs.nodes, p) && Below(dir, p))
      && (w.failure.None? ==> forall p | TemplateAt(fs.nodes, p) && Below(dir, p) :: p in w.processed)
      && ChangedOnly(fs.nodes, w.fs.nodes, w.processed)
      && Dirs(w.fs.nodes) == Dirs(fs.nodes)
      && Rendered(fs.nodes, w.fs.nodes, w.processed, ctx)
  {
    DirConvertsTemplates(fs, dir, ctx);
    DirChangesOnlyConverted(fs, dir, ctx);
    DirRendersTemplates(fs, dir, ctx);
  }

  /**
   * The engine object. Its cache of loaded templates is filled by
   * loadTemplate only; the template pass never consults it.
   */
  class TemplateEngine {
    var templateCache: map<string, string>

    constructor()
      ensures templateCache == map[]
    {
      templateCache := map[];
    }

    /** processTemplates: renders every template below `projectPath` with the configuration's context. */
    method ProcessTemplates(fs: Fs, projectPath: Path, config: R3Config, year: int) returns (w: Walk)
      ensures w == ProcessDir(fs, projectPath, CreateContext(config, year))
    {
      var context := CreateContext(config, year);
      w := ProcessDirectory(fs, projectPath, context);
    }

    /** processDirectory, as a loop over one listing with a recursive call per subdirectory. */
    method ProcessDirectory(fs: Fs, dirPath: Path, context: Context) returns (w: Walk)
      ensures w == ProcessDir(fs, dirPath, context)
      decreases |DirsBelow(Dirs(fs.nodes), dirPath)|
    {
      var listing := ReadDir(fs, dirPath);
      if listing.Err? {
        return Walk(fs, [], Some(listing.error));
      }
      var files := listing.value;
      var cur, done := fs, [];
      var i := 0;
      while i < |files|
        invariant 0 <= i <= |files|
        invariant Dirs(cur.nodes) <= Dirs(fs.nodes)
        invariant ProcessEntries(fs, dirPath, files, context) == Then(done, ProcessEntries(cur, dirPath, files[i..], context))
      {
        var file := files[i];
        var filePath := dirPath + [file];
        ChildIsBelow(dirPath, file);
        assert files[i..] == [file] + files[i + 1..];
        var stat := Stat(cur, filePath);
        if stat.Err? {
          MissingEntryStep(cur, dirPath, file, files[i + 1..], context);
          assert done + [] == done;
          return Walk(cur, done, Some(stat.error));
        }
        if stat.value.Dir? {
          DirEntryStep(cur, dirPath, file, files[i + 1..], context);
          SubdirMeasure(Dirs(cur.nodes), Dirs(fs.nodes), dirPath, file);
          var sub := ProcessDirectory(cur, filePath, context);
          if sub.failure.Some? {
            return Then(done, sub);
          }
          ThenThen(done, sub.processed, ProcessEntries(sub.fs, dirPath, files[i + 1..], context));
          cur, done := sub.fs, done + sub.processed;
        } else if IsTemplateFile(file) {
          TemplateEntryStep(cur, dirPath, file, files[i + 1..], context);
          var step := ProcessFile(cur, filePath, context);
          if step.failure.Some? {
            return Then(done, step);
          }
          ThenThen(done, step.processed, ProcessEntries(step.fs, dirPath, files[i + 1..], context));
          cur, done := step.fs, done + step.processed;
        } else {
          OtherEntryStep(cur, dirPath, file, files[i + 1..], context);
        }
        i := i + 1;
      }
      assert done + [] == done;
      return Walk(cur, done, None);
    }

    /** processFile: render one template into its output file and remove the template. */
    method ProcessFile(fs: Fs, filePath: Path, context: Context) returns (w: Walk)
      requires filePath != [] && IsTemplateFile(Name(filePath))
      ensures w == ConvertFile(fs, filePath, context)
    {
      var content := ReadFile(fs, filePath);
      if content.Err? {
        return Walk(fs, [], Some(content.error));
      }
      var processed := RenderTemplate(content.value, context);
      var outputPath := OutputPath(filePath);
      var written := Write(fs, outputPath, processed);
      if written.Err? {
        return Walk(fs, [], Some(written.error));
      }
      return Walk(Remove(written.value, filePath), [filePath], None);
    }

    /**
     * loadTemplate: a cached template is returned without reading; otherwise
     * the file is read from the templates directory and, when the read
     * succeeds, cached. Entries are never replaced or evicted.
     */
    method LoadTemplate(fs: Fs, templatesDir: Path, templateName: string) returns (r: Result<string>)
      modifies this
      ensures templateName in old(templateCache) ==>
        r == Ok(old(templateCache)[templateName]) && templateCache == old(templateCache)
      ensures templateName !in old(templateCache) ==>
        && r == ReadFile(fs, templatesDir + [templateName])
        && templateCache == if r.Ok? then old(templateCache)[templateName := r.value] else old(templateCache)
      ensures forall k | k in old(templateCache) :: k in templateCache && templateCache[k] == old(templateCache)[k]
    {
      if templateName in templateCache {
        return Ok(templateCache[templateName]);
      }
      var templatePath := templatesDir + [templateName];
      r := ReadFile(fs, templatePath);
      if r.Ok? {
        templateCache := templateCache[templateName := r.value];
      }
    }
  }
}
