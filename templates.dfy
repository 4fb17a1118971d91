/**
 * The template registry: one template description per project type, kept
 * in a map that remembers insertion order, and the copy of a template's
 * directory into a project. The registry's base directory, which the
 * source derives from the location of its own code, is a constructor
 * parameter; the recursive copy of a directory is an oracle.
 */
module Templates {
  import opened Results
  import opened FileSystem
  import opened Config

  datatype ProjectTemplate = ProjectTemplate(
    projectType: ProjectType,
    name: string,
    description: string,
    path: Path,
    dependencies: seq<string>,
    devDependencies: seq<string>)

  /** The contents of an insertion-ordered map from project type to template. */
  type Entries = seq<(ProjectType, ProjectTemplate)>

  /** The keys of a map, in insertion order. */
  function Keys(entries: Entries): (ks: seq<ProjectType>)
    ensures |ks| == |entries| && forall i | 0 <= i < |entries| :: ks[i] == entries[i].0
  {
    if entries == [] then [] else [entries[0].0] + Keys(entries[1..])
  }

  /** The values of a map, in insertion order. */
  function Values(entries: Entries): (vs: seq<ProjectTemplate>)
    ensures |vs| == |entries| && forall i | 0 <= i < |entries| :: vs[i] == entries[i].1
  {
    if entries == [] then [] else [entries[0].1] + Values(entries[1..])
  }

  /** Map.get: the value stored under `k`, if any. */
  function Lookup(entries: Entries, k: ProjectType): Option<ProjectTemplate> {
    if entries == [] then None
    else if entries[0].0 == k then Some(entries[0].1)
    else Lookup(entries[1..], k)
  }

  /** Map.get finds a value exactly for the keys present, and the value it finds is one of the map's values. */
  lemma {:induction false} LookupFound(entries: Entries, k: ProjectType)
    ensures Lookup(entries, k).Some? <==> k in Keys(entries)
    ensures Lookup(entries, k).Some? ==> Lookup(entries, k).value in Values(entries)
  {
    if entries != [] {
      LookupFound(entries[1..], k);
      assert Keys(entries) == [entries[0].0] + Keys(entries[1..]);
      assert Values(entries) == [entries[0].1] + Values(entries[1..]);
    }
  }

  /** Map.set: replaces the value of a present key in its place, or appends a new key. */
  function MapSet(entries: Entries, k: ProjectType, v: ProjectTemplate): Entries {
    if entries == [] then [(k, v)]
    else if entries[0].0 == k then [(k, v)] + entries[1..]
    else [entries[0]] + MapSet(entries[1..], k, v)
  }

  /** After Map.set the key holds the new value. */
  lemma {:induction false} MapSetHolds(entries: Entries, k: ProjectType, v: ProjectTemplate)
    ensures Lookup(MapSet(entries, k, v), k) == Some(v)
  {
    if entries != [] && entries[0].0 != k {
      MapSetHolds(entries[1..], k, v);
    }
  }

  /** Map.set leaves the value of every other key as it was. */
  lemma {:induction false} MapSetKeepsOthers(entries: Entries, k: ProjectType, v: ProjectTemplate, j: ProjectType)
    requires j != k
    ensures Lookup(MapSet(entries, k, v), j) == Lookup(entries, j)
  {
    if entries != [] && entries[0].0 != k {
      MapSetKeepsOthers(entries[1..], k, v, j);
    }
  }

  /** Map.set keeps the key order; a new key comes last. */
  lemma {:induction false} MapSetKeys(entries: Entries, k: ProjectType, v: ProjectTemplate)
    ensures Keys(MapSet(entries, k, v)) == if k in Keys(entries) then Keys(entries) else Keys(entries) + [k]
  {
    if entries != [] && entries[0].0 != k {
      MapSetKeys(entries[1..], k, v);
      assert Keys(entries) == [entries[0].0] + Keys(entries[1..]);
    }
  }

  /** Map.set never repeats a key. */
  lemma MapSetDistinct(entries: Entries, k: ProjectType, v: ProjectTemplate)
    requires Distinct(Keys(entries))
    ensures Distinct(Keys(MapSet(entries, k, v)))
  {
    MapSetKeys(entries, k, v);
    var ks := Keys(entries);
    if k !in ks {
      forall i, j | 0 <= i < j < |ks + [k]| ensures (ks + [k])[i] != (ks + [k])[j] {
        if j == |ks| {
          assert (ks + [k])[i] == ks[i] && ks[i] in ks;
        }
      }
    }
  }

  /** The sets performed in order. */
  function SetAll(entries: Entries, sets: Entries): Entries
    decreases |sets|
  {
    if sets == [] then entries else SetAll(MapSet(entries, sets[0].0, sets[0].1), sets[1..])
  }

  /** Setting keys that are all new appends them in the order they are set. */
  lemma {:induction false} SetAllNew(entries: Entries, sets: Entries)
    requires Distinct(Keys(sets))
    requires forall i | 0 <= i < |sets| :: sets[i].0 !in Keys(entries)
    ensures SetAll(entries, sets) == entries + sets
    decreases |sets|
  {
    if sets != [] {
      NewKeyAppends(entries, sets[0].0, sets[0].1);
      var next := entries + [sets[0]];
      DistinctKeysTail(sets);
      NewKeysRest(entries, sets);
      SetAllNew(next, sets[1..]);
      assert next + sets[1..] == entries + sets;
    }
  }

  /** The keys after the first are still distinct. */
  lemma DistinctKeysTail(sets: Entries)
    requires sets != [] && Distinct(Keys(sets))
    ensures Distinct(Keys(sets[1..]))
  {
    forall i, j | 0 <= i < j < |sets| - 1 ensures Keys(sets[1..])[i] != Keys(sets[1..])[j] {
      assert Keys(sets)[i + 1] != Keys(sets)[j + 1];
    }
  }

  /** After the first set, the remaining keys are still new. */
  lemma NewKeysRest(entries: Entries, sets: Entries)
    requires sets != [] && Distinct(Keys(sets))
    requires forall i | 0 <= i < |sets| :: sets[i].0 !in Keys(entries)
    ensures forall i | 1 <= i < |sets| :: sets[i].0 !in Keys(entries + [sets[0]])
  {
    KeysConcat(entries, [sets[0]]);
    forall i | 1 <= i < |sets| ensures sets[i].0 !in Keys(entries + [sets[0]]) {
      assert Keys(sets)[0] != Keys(sets)[i];
    }
  }

  lemma {:induction false} NewKeyAppends(entries: Entries, k: ProjectType, v: ProjectTemplate)
    requires k !in Keys(entries)
    ensures MapSet(entries, k, v) == entries + [(k, v)]
  {
    if entries != [] {
      assert Keys(entries) == [entries[0].0] + Keys(entries[1..]);
      NewKeyAppends(entries[1..], k, v);
      assert [entries[0]] + (entries[1..] + [(k, v)]) == entries + [(k, v)];
    }
  }

  lemma {:induction false} KeysConcat(a: Entries, b: Entries)
    ensures Keys(a + b) == Keys(a) + Keys(b)
  {
    if a != [] {
      assert (a + b)[1..] == a[1..] + b;
      KeysConcat(a[1..], b);
    }
  }

  /**
   * The template registerDefaultTemplates stores for a member of the
   * enumeration; the other types are never registered, and for them the
   * descriptive fields are empty.
   */
  function TemplateFor(templatesDir: Path, t: ProjectType): ProjectTemplate
  {
    ProjectTemplate(t, DisplayName(t), Description(t), templatesDir + [TypeValue(t)], Dependencies(t), DevDependencies(t))
  }

  function DisplayName(t: ProjectType): string
  {
    match t
    case Webapp => "Web Application"
    case Api => "REST API"
    case Cli => "CLI Tool"
    case Fullstack => "Full Stack Application"
    case Library => "NPM Library"
    case Mobile => "Mobile Application"
    case Desktop => "Desktop Application"
    case Other(_) => ""
  }

  function Description(t: ProjectType): string
  {
    match t
    case Webapp => "Modern web application with React and Vite"
    case Api => "RESTful API with Express and TypeScript"
    case Cli => "Command-line tool with Commander and TypeScript"
    case Fullstack => "Full stack application with frontend and backend"
    case Library => "Publishable NPM package"
    case Mobile => "React Native mobile application"
    case Desktop => "Electron desktop application"
    case Other(_) => ""
  }

  function Dependencies(t: ProjectType): seq<string>
  {
    match t
    case Webapp => ["react", "react-dom"]
    case Api => ["express", "cors", "dotenv"]
    case Cli => ["commander", "chalk", "inquirer"]
    case Fullstack => ["express", "react", "react-dom"]
    case Library => []
    case Mobile => ["react", "react-native"]
    case Desktop => ["electron"]
    case Other(_) => []
  }

  function DevDependencies(t: ProjectType): seq<string>
  {
    match t
    case Webapp => ["vite", "@vitejs/plugin-react", "typescript"]
    case Api => ["tsx", "typescript", "@types/express"]
    case Cli => ["tsx", "typescript", "@types/node"]
    case Fullstack => ["vite", "typescript", "concurrently"]
    case Library => ["typescript", "vitest", "tsup"]
    case Mobile => ["typescript", "@types/react-native"]
    case Desktop => ["typescript", "electron-builder"]
    case Other(_) => []
  }

  /** The order of the sets in registerDefaultTemplates: not the declaration order of the enumeration. */
  const InsertionOrder: seq<ProjectType> := [Webapp, Api, Cli, Fullstack, Library, Mobile, Desktop]

  /** Each type of `types` paired with its template. */
  function Pairs(templatesDir: Path, types: seq<ProjectType>): Entries
  {
    if types == [] then [] else [(types[0], TemplateFor(templatesDir, types[0]))] + Pairs(templatesDir, types[1..])
  }

  /** The sets of registerDefaultTemplates, in the order they are made. */
  function DefaultSets(templatesDir: Path): Entries {
    Pairs(templatesDir, InsertionOrder)
  }

  /** Looking a type up among the pairs finds its template exactly when the type is listed. */
  lemma {:induction false} PairsLookup(templatesDir: Path, types: seq<ProjectType>, t: ProjectType)
    ensures Lookup(Pairs(templatesDir, types), t) == if t in types then Some(TemplateFor(templatesDir, t)) else None
  {
    if types != [] {
      var head := (types[0], TemplateFor(templatesDir, types[0]));
      assert Pairs(templatesDir, types) == [head] + Pairs(templatesDir, types[1..]);
      if t != types[0] {
        PairsLookup(templatesDir, types[1..], t);
        assert t in types <==> t in types[1..];
      }
    }
  }

  /** One set done: the remaining sets are those of the remaining types. */
  lemma SetAllStep(entries: Entries, templatesDir: Path, types: seq<ProjectType>)
    requires types != []
    ensures SetAll(entries, Pairs(templatesDir, types))
         == SetAll(MapSet(entries, types[0], TemplateFor(templatesDir, types[0])), Pairs(templatesDir, types[1..]))
  {
    assert Pairs(templatesDir, types)[1..] == Pairs(templatesDir, types[1..]);
  }

  /** The keys of the pairs are the types they were made from. */
  lemma {:induction false} PairsKeys(templatesDir: Path, types: seq<ProjectType>)
    ensures Keys(Pairs(templatesDir, types)) == types
  {
    if types != [] {
      PairsKeys(templatesDir, types[1..]);
      assert Keys(Pairs(templatesDir, types)) == [types[0]] + Keys(Pairs(templatesDir, types[1..]));
    }
  }

  lemma InsertionOrderDistinct()
    ensures Distinct(InsertionOrder)
  {
  }

  /** A fresh registry holds exactly the default sets, in the order they were made. */
  lemma FreshRegistry(templatesDir: Path)
    ensures SetAll([], DefaultSets(templatesDir)) == DefaultSets(templatesDir)
    ensures Keys(DefaultSets(templatesDir)) == InsertionOrder != EnumMembers
  {
    var sets := DefaultSets(templatesDir);
    PairsKeys(templatesDir, InsertionOrder);
    InsertionOrderDistinct();
    assert InsertionOrder[2] != EnumMembers[2];
    SetAllNew([], sets);
    assert [] + sets == sets;
  }

  /**
   * In a fresh registry every member of the enumeration has a template of
   * its own type, kept in the directory named after the type, and no other
   * type has one.
   */
  lemma DefaultsComplete(templatesDir: Path, t: ProjectType)
    ensures var r := Lookup(DefaultSets(templatesDir), t);
      && (r.Some? <==> t in EnumMembers)
      && (r.Some? ==> r.value.projectType == t && r.value.path == templatesDir + [TypeValue(t)])
  {
    PairsLookup(templatesDir, InsertionOrder, t);
    assert t in InsertionOrder <==> t in EnumMembers;
  }

  /** In a fresh registry the i-th template listed is of the i-th type listed. */
  lemma DefaultsAligned(templatesDir: Path)
    ensures var entries := DefaultSets(templatesDir);
      && |Values(entries)| == |Keys(entries)|
      && forall i | 0 <= i < |entries| :: Values(entries)[i].projectType == Keys(entries)[i]
  {
    PairsAligned(templatesDir, InsertionOrder);
  }

  /** Every pair holds the template of its own type. */
  lemma {:induction false} PairsAligned(templatesDir: Path, types: seq<ProjectType>)
    ensures forall i | 0 <= i < |Pairs(templatesDir, types)| :: Pairs(templatesDir, types)[i].1.projectType == Pairs(templatesDir, types)[i].0
  {
    if types != [] {
      var head := (types[0], TemplateFor(templatesDir, types[0]));
      assert Pairs(templatesDir, types) == [head] + Pairs(templatesDir, types[1..]);
      PairsAligned(templatesDir, types[1..]);
    }
  }

  /** The library template has no runtime dependencies. */
  lemma LibraryHasNoDependencies(templatesDir: Path)
    ensures Lookup(DefaultSets(templatesDir), Library) == Some(TemplateFor(templatesDir, Library))
    ensures TemplateFor(templatesDir, Library).dependencies == []
  {
    PairsLookup(templatesDir, InsertionOrder, Library);
  }

  /** The message copyTemplate throws for a type without a template. */
  function NotFound(t: ProjectType): string {
    "Template for " + TypeValue(t) + " not found"
  }

  class TemplateRegistry {
    /** The map from project type to template, in insertion order. */
    var templates: Entries

    /** Each project type has at most one template. */
    predicate Valid()
      reads this
    {
      Distinct(Keys(templates))
    }

    /** Registers the seven default templates below `templatesDir`. */
    constructor(templatesDir: Path)
      ensures Valid() && templates == DefaultSets(templatesDir)
    {
      templates := [];
      new;
      RegisterDefaultTemplates(templatesDir);
      FreshRegistry(templatesDir);
    }

    /** Map.set on the registry's map. */
    method Set(k: ProjectType, v: ProjectTemplate)
      requires Valid()
      modifies this
      ensures Valid() && templates == MapSet(old(templates), k, v)
    {
      MapSetDistinct(templates, k, v);
      templates := MapSet(templates, k, v);
    }

    /** registerDefaultTemplates: the seven sets, in the source's order. */
    method RegisterDefaultTemplates(templatesDir: Path)
      requires Valid()
      modifies this
      ensures Valid() && templates == SetAll(old(templates), DefaultSets(templatesDir))
    {
      ghost var types := InsertionOrder;
      // Each set consumes the first of the remaining types.
      SetAllStep(templates, templatesDir, types);
      Set(Webapp, TemplateFor(templatesDir, Webapp));
      types := types[1..];
      SetAllStep(templates, templatesDir, types);
      Set(Api, TemplateFor(templatesDir, Api));
      types := types[1..];
      SetAllStep(templates, templatesDir, types);
      Set(Cli, TemplateFor(templatesDir, Cli));
      types := types[1..];
      SetAllStep(templates, templatesDir, types);
      Set(Fullstack, TemplateFor(templatesDir, Fullstack));
      types := types[1..];
      SetAllStep(templates, templatesDir, types);
      Set(Library, TemplateFor(templatesDir, Library));
      types := types[1..];
      SetAllStep(templates, templatesDir, types);
      Set(Mobile, TemplateFor(templatesDir, Mobile));
      types := types[1..];
      SetAllStep(templates, templatesDir, types);
      Set(Desktop, TemplateFor(templatesDir, Desktop));
      types := types[1..];
      assert types == [] && Pairs(templatesDir, types) == [];
    }

    /** getTemplate: the template registered for `t`, if any. */
    function GetTemplate(t: ProjectType): (r: Option<ProjectTemplate>)
      reads this
      ensures r.Some? <==> t in GetTemplateTypes()
      ensures r.Some? ==> r.value in GetAllTemplates()
    {
      LookupFound(templates, t);
      Lookup(templates, t)
    }

    /** getAllTemplates: the templates in insertion order. */
    function GetAllTemplates(): (all: seq<ProjectTemplate>)
      reads this
      ensures |all| == |templates| && forall i | 0 <= i < |all| :: all[i] == templates[i].1
    {
      Values(templates)
    }

    /** getTemplateTypes: the registered types in insertion order. */
    function GetTemplateTypes(): (types: seq<ProjectType>)
      reads this
      ensures |types| == |templates| && forall i | 0 <= i < |types| :: types[i] == templates[i].0
    {
      Keys(templates)
    }

    /**
     * copyTemplate: throws when `t` has no template; copies the template's
     * directory to `destination` when that directory exists, and otherwise
     * leaves the file system as it is.
     */
    method CopyTemplate(fs: Fs, t: ProjectType, destination: Path, copy: (Fs, Path, Path) -> Result<Fs>) returns (r: Result<Fs>)
      ensures GetTemplate(t).None? ==> r == Err(NotFound(t))
      ensures GetTemplate(t).Some? && GetTemplate(t).value.path !in fs.nodes ==> r == Ok(fs)
      ensures GetTemplate(t).Some? && GetTemplate(t).value.path in fs.nodes ==> r == copy(fs, GetTemplate(t).value.path, destination)
    {
      var template := GetTemplate(t);
      if template.None? {
        return Err(NotFound(t));
      }
      if template.value.path in fs.nodes {
        r := copy(fs, template.value.path, destination);
      } else {
        r := Ok(fs);
      }
    }
  }

  /**
   * For a fresh registry, copyTemplate throws "Template for X not found"
   * exactly for the strings outside the enumeration.
   */
  lemma CopyFailsOnlyOutsideEnum(templatesDir: Path, t: ProjectType)
    requires WellFormed(t)
    ensures Lookup(DefaultSets(templatesDir), t).None? <==> t.Other?
  {
    DefaultsComplete(templatesDir, t);
  }
}
