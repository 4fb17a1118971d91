# r3 project generator — a verified model

r3 is a command-line tool that creates a new project. `r3 create [name]`
takes a name, a project type and some flags. It asks about whatever the
arguments leave open, then hands a configuration to the scaffold.

The scaffold does the following, in order:

- checks that the target directory is missing or empty;
- creates the directory;
- lays out the directories and seed files of the project type;
- renders every template file (`.ejs`, `.hbs`, `.tpl`) below the project;
- initialises git, unless skipped;
- installs the npm dependencies, unless skipped.

Around this pipeline sit:

- a registry of project templates;
- a validator for project names, e-mail addresses and empty directories;
- two file-tree walks: finding files and summing sizes.

This project models that pipeline in Dafny and proves what each piece promises.

The environment is modelled as data:

- The file system is a value, `FileSystem.Fs`. It holds a map from paths (sequences of names) to files and directories. It also records the creation order, which the model uses as the order of a directory listing; the real listing order is not modelled (see below). A set of read-only paths lets writes fail.
- External commands (`git`, `npm`) go through a `Host`. The host records every command issued and the set of command lines that fail.
- The clock's year, `path.resolve`, the npm package-name library and the prompt answers are parameters.

Modules, one per source file or shared concept:

- `Results`: `Option` and `Result`.
- `Config`: project types and `R3Config`.
- `FileSystem`: the file tree and its operations.
- `Render`: the context values and `{{key}}` substitution.
- `TemplateEngine`: the template pass and its cache.
- `ProjectBuilder`: git, npm install and npm scripts.
- `Scaffold`: the project layout and `create`.
- `Validator`: name, directory and e-mail checks.
- `FileUtils`: find, size and byte formatting.
- `Templates`: the template registry.
- `Cli`: feature choices, questions, answer merging, and option assembly.

Code that changes state step by step is modelled as imperative Dafny:

- the cache of the template engine and the template registry are classes with fields;
- the directory walks, the byte-unit loop and the question list are methods with loops or successive updates.

Each such method is proved equal to a specification function, and the properties are lemmas about that function.

## Model

| member | source | states |
|---|---|---|
| Config.ParseType | src/config/index.ts:16-24 | the type a string denotes carries that string back, and is an enumeration member exactly when the string is one of the seven values |
| Config.ParseTypeValue | src/config/index.ts:16-24 | every project type is recovered from its string value |
| Config.MemberValuesDistinct | src/config/index.ts:16-24 | the seven members stand for seven different strings |
| Render.Digits | src/core/template-engine.ts:30 | the year is written as a non-empty decimal numeral without leading zeros |
| Render.DigitsRoundTrip | src/core/template-engine.ts:30 | reading back the numeral of a number gives that number |
| Render.PlaceholderOf | src/core/template-engine.ts:66 | `{{key}}` for a word key is recognised with exactly that key, whatever text follows |
| Render.RenderTemplate | src/core/template-engine.ts:65-69 | the global replace of `{{word}}`: one left-to-right pass that copies text, replaces a placeholder whose value is truthy by the value's text and keeps any other placeholder; specified by RenderWithoutPlaceholders, RenderKeepsUnresolved, RenderPlaceholder, RenderConcat, RenderSplit, RenderAfterPlain and RenderDoesNotRescan |
| Render.RenderWithoutPlaceholders | src/core/template-engine.ts:65-69 | a text with no placeholder renders to itself under any context |
| Render.RenderEmptyContext | src/core/template-engine.ts:65-69 | with an empty context every text renders to itself |
| Render.RenderKeepsUnresolved | src/core/template-engine.ts:66-68 | placeholders whose keys are missing or falsy are left verbatim, never blanked |
| Render.RenderPlaceholder | src/core/template-engine.ts:66-68 | a leading placeholder becomes its value's text, or stays when unresolved; rendering resumes after it, so inserted text is not scanned |
| Render.RenderAfterPlain | src/core/template-engine.ts:66-68 | for any text before the placeholder that holds no `{`, that text is copied, the placeholder becomes its value's text (or stays when unresolved), and rendering resumes after it |
| Render.RenderPlainPrefix | src/core/template-engine.ts:66-68 | text holding no `{` is copied as it is, whatever follows it |
| Render.PlaceholderBeforeBraces | src/core/template-engine.ts:66 | appending text that starts with `{{` to a non-empty text does not change what the pattern matches at its start: no match runs across the join |
| Render.RenderConcat | src/core/template-engine.ts:65-69 | where the rest of a text starts with `{{`, the text before it renders on its own, whatever `{` it holds, and the two renderings are concatenated |
| Render.RenderSplit | src/core/template-engine.ts:66-68 | for a placeholder anywhere in a text, the text before it renders on its own, the placeholder becomes its value's text (or stays when unresolved), and rendering resumes after it |
| Render.RenderDoesNotRescan | src/core/template-engine.ts:66-68 | for every context, every key that resolves and every text before the placeholder, the value's text is inserted as it is, whatever placeholders it holds itself, and rendering goes on after the placeholder |
| Render.RenderDoesNotRescanExample | src/core/template-engine.ts:66-68 | a value `{{b}}` stays `{{b}}` even when `b` resolves |
| Render.RenderTwiceDiffers | src/core/template-engine.ts:66-68 | rendering is not idempotent: a second pass would substitute inserted text |
| TemplateEngine.IsTemplateFile | src/core/template-engine.ts:51-54 | a name ending in `.ejs`, `.hbs` or `.tpl`; StripExactlyTemplates ties it to the output-path strip |
| TemplateEngine.StripExactlyTemplates | src/core/template-engine.ts:51-54 | the extension is stripped from a name exactly when it is a template name, and then exactly the last four characters go |
| TemplateEngine.OutputPathText | src/core/template-engine.ts:60 | the output path of a template is the template's path text without its last four characters |
| TemplateEngine.CreateContext | src/core/template-engine.ts:23-34 | the eight keys of createContext with the configuration's values and the year; specified by ContextKeysAreWords, ContextEntries and the Context lemmas below |
| TemplateEngine.ContextKeysAreWords | src/core/template-engine.ts:23-34 | every context key can be named by a placeholder |
| TemplateEngine.ContextEntries | src/core/template-engine.ts:23-34 | the context maps projectName, author, year and features to the configuration's values and the year |
| TemplateEngine.ContextName | src/core/template-engine.ts:25 | `{{projectName}}` renders to the name, or stays when the name is empty |
| TemplateEngine.ContextYear | src/core/template-engine.ts:30 | `{{year}}` renders to the year in decimal |
| TemplateEngine.ContextFeatures | src/core/template-engine.ts:31 | `{{features}}` renders to the features joined by commas; no features give the empty text |
| TemplateEngine.ContextMissingAuthor | src/core/template-engine.ts:27 | an absent author leaves `{{author}}` in the text |
| TemplateEngine.ConvertFile | src/core/template-engine.ts:56-63 | processFile: read, render, write the output, then remove the template, stopping at the first error; never adds a directory; specified by ConvertFileSpec |
| TemplateEngine.ConvertFileSpec | src/core/template-engine.ts:56-63 | converting a template succeeds exactly when it is a file and its output is writable; on failure nothing changes; on success the output holds the rendered text, the template is gone, everything else is unchanged and the tree stays valid |
| TemplateEngine.ProcessDir | src/core/template-engine.ts:36-49 | processDirectory over one listing taken at the start, recursing into directories and converting templates in listing order; never adds a directory; specified by DirKeeps, DirConvertsTemplates, DirChangesOnlyConverted and DirRendersTemplates |
| TemplateEngine.DirKeeps | src/core/template-engine.ts:36-49 | the pass changes nothing outside the directory nor the read-only set, keeps the tree valid, and changes nothing when it converts nothing |
| TemplateEngine.DirConvertsTemplates | src/core/template-engine.ts:36-49 | the pass converts only templates present below the directory at the start, each once, and all of them when it completes; files it creates are not processed |
| TemplateEngine.DirChangesOnlyConverted | src/core/template-engine.ts:39-48 | no directory and no non-template file changes, except where an output path replaces a file |
| TemplateEngine.DirRendersTemplates | src/core/template-engine.ts:56-63 | when outputs are distinct and fall on no template, each output holds the rendering of its template's original text and the template is gone |
| TemplateEngine.TemplatePass | src/core/template-engine.ts:18-21 | the whole template pass: exactly the initial templates are converted, nothing else changes, and the outputs hold their renderings |
| TemplateEngine.TemplateEngine.ProcessTemplates | src/core/template-engine.ts:18-21 | processTemplates is the directory pass with the configuration's context |
| TemplateEngine.TemplateEngine.ProcessDirectory | src/core/template-engine.ts:36-49 | the loop over one listing, with recursion into subdirectories, computes the specified pass |
| TemplateEngine.TemplateEngine.ProcessFile | src/core/template-engine.ts:56-63 | processFile writes the rendering, then removes the template, as specified |
| TemplateEngine.TemplateEngine.LoadTemplate | src/core/template-engine.ts:71-80 | a cached name is returned without reading; otherwise the file is read and cached on success; entries are never replaced |
| TemplateEngine.TemplateEngine.constructor | src/core/template-engine.ts:16 | the cache starts empty |
| ProjectBuilder.UpToFailure | src/core/project-builder.ts:13-15 | the commands run are a prefix of those listed |
| ProjectBuilder.StopsAtFirstFailure | src/core/project-builder.ts:11-19 | every command before the last one run succeeded; all run when none fails; the run ends at or before any failing command |
| ProjectBuilder.InitGit | src/core/project-builder.ts:10-20 | git init, add and commit run in order up to the first failure; a failure becomes a warning and is never thrown |
| ProjectBuilder.InstallDependencies | src/core/project-builder.ts:22-43 | without package.json it warns and runs nothing; otherwise it runs npm install with the 10 MiB buffer and rethrows its failure |
| ProjectBuilder.RunScript | src/core/project-builder.ts:45-59 | runs `npm run <script>` with the 10 MiB buffer and throws exactly when it fails |
| ProjectBuilder.BuildProject | src/core/project-builder.ts:61-63 | runScript('build'): runs `npm run build` with the 10 MiB buffer, leaves the files and the failing set alone, and throws exactly when it fails, with that command's error |
| ProjectBuilder.TestProject | src/core/project-builder.ts:65-67 | runScript('test'): runs `npm run test` with the 10 MiB buffer, leaves the files and the failing set alone, and throws exactly when it fails, with that command's error |
| Scaffold.GetProjectStructure | src/core/scaffold.ts:79-110 | the switch over the project type; specified by StructureByType and StructureWellFormed |
| Scaffold.StructureByType | src/core/scaffold.ts:79-110 | directories start with src, tests, docs, and web apps, APIs and CLI tools add their own; the seed files are .gitignore and README.md |
| Scaffold.StructureWellFormed | src/core/scaffold.ts:79-110 | every layout lists distinct directories with safe names, each parent before its children, and well-formed seed-file names |
| Scaffold.ValidateProjectPath | src/core/scaffold.ts:54-61 | validation fails only for a path that exists |
| Scaffold.ValidateIff | src/core/scaffold.ts:54-61 | validation passes exactly when the path is missing or an empty directory; an existing file fails it |
| Scaffold.GeneratedLayout | src/core/scaffold.ts:63-77 | after generateProjectStructure every directory exists and each seed file holds its text; nothing else is lost and the tree stays valid |
| Scaffold.R3Scaffold.GenerateProjectStructure | src/core/scaffold.ts:63-77 | the directory loop and the file loop compute the specified layout step |
| Scaffold.LayoutSucceeds | src/core/scaffold.ts:63-77 | inside an existing, empty project directory with nothing read-only below it, generateProjectStructure completes for every project type |
| Scaffold.CleanHasNoPackageJson | src/core/scaffold.ts:44-46 | a freshly laid out project holds no package.json |
| Scaffold.SkeletonIsQuiet | src/core/scaffold.ts:32-38 | after validation and layout there is no template below the project, so the template pass changes nothing |
| Scaffold.CleanWalkSucceeds | src/core/template-engine.ts:36-49 | the template pass over an existing directory holding no template completes |
| Scaffold.PlannedSteps | src/core/scaffold.ts:32-46 | steps run in the order validate, ensureDir, structure, templates, git, install; git and install are planned exactly when not skipped |
| Scaffold.FinishSkipsInstall | src/core/scaffold.ts:40-46 | with skipInstall no npm command runs and only the git commands are issued |
| Scaffold.FinishInstalls | src/core/scaffold.ts:44-46 | without skipInstall the installation step runs last and its outcome is create's |
| Scaffold.CreateRun | src/core/scaffold.ts:26-52 | create as a run of steps, each failure ending it with that step's error and git failures only logged; specified by CreateFollowsPlan, CreateRejects, CreateOnValid and CreateSucceeds |
| Scaffold.CreateFollowsPlan | src/core/scaffold.ts:26-52 | create starts the planned steps in order, stops at the first failure, completes exactly when all ran, and never fails in git |
| Scaffold.CreateRejects | src/core/scaffold.ts:32-34 | a failed validation is thrown before anything is created |
| Scaffold.CreateOnValid | src/core/scaffold.ts:26-52 | on a valid tree create keeps it valid, issues only git commands, never fails in installation, and leaves the layout in place when it completes |
| Scaffold.CreateSucceeds | src/core/scaffold.ts:26-52 | on a valid tree, when the project directory is missing or empty, ensureDir can reach it and nothing at or below it is read-only, create completes whatever commands fail, git's included: every planned step runs, the layout is in place, the tree stays valid, and only the git commands run, up to the first failure, unless git is skipped |
| Scaffold.CreateCliSkippingBoth | src/core/scaffold.ts:26-52 | a CLI project with git and installation skipped gets src, tests, docs, src/commands and src/utils and the two seed files with their texts, and no command runs |
| Scaffold.R3Scaffold.Create | src/core/scaffold.ts:26-52 | the sequence of calls computes the specified run of create |
| Validator.GetProjectNameErrors | src/utils/validator.ts:11-24 | the library's errors, then its warnings, each in order; an absent list adds nothing |
| Validator.IsEmptyDirectoryIff | src/utils/validator.ts:26-33 | true exactly for a missing path or an empty directory; false exactly for a directory with entries; a file throws |
| Validator.ValidationAgrees | src/utils/validator.ts:26-33 | the scaffold's path check accepts exactly what this test calls empty, with the same error when reading fails |
| Validator.IsValidEmail | src/utils/validator.ts:35-38 | the e-mail test written as string checks: no white space, one `@` with text before it, and a dot inside the part after it; EmailIff proves it equal to the regular expression |
| Validator.EmailIff | src/utils/validator.ts:35-38 | the string checks accept exactly the language of `^[^\s@]+@[^\s@]+\.[^\s@]+$` |
| Validator.RejectsTwoAtsOrSpace | src/utils/validator.ts:36 | a string with two `@` or any white space is rejected |
| FileUtils.FindIn | src/utils/file-utils.ts:27-46 | the depth-first search over listings, collecting file paths whose names match; specified by FindInExact |
| FileUtils.FindFiles | src/utils/file-utils.ts:27-46 | findFiles computes the depth-first search in listing order |
| FileUtils.Traverse | src/utils/file-utils.ts:30-42 | the loop appends the directory's matches to those found so far |
| FileUtils.FindInExact | src/utils/file-utils.ts:27-46 | on a directory the result lists each file below it whose name matches, once, and nothing else; directories never appear |
| FileUtils.SizeOf | src/utils/file-utils.ts:48-66 | the size fold: a file's length, or the total over a directory's entries; specified by SizeIsSumOfFiles |
| FileUtils.GetDirectorySize | src/utils/file-utils.ts:48-66 | getDirectorySize computes the specified size |
| FileUtils.CalculateSize | src/utils/file-utils.ts:51-62 | the walk adds the size below the path to the running total |
| FileUtils.SizeIsSumOfFiles | src/utils/file-utils.ts:48-66 | a file's size is its length; a directory's is the total of all files below it |
| FileUtils.FormatBytes | src/utils/file-utils.ts:68-79 | the unit is the largest of B, KB, MB, GB not exceeding the number, and the scaled size times its power of 1024 is the byte count |
| Templates.LookupFound | src/templates/index.ts:88-90 | a lookup finds a template exactly for a registered type, and it is one of the registered templates |
| Templates.MapSet | src/templates/index.ts:15 | Map.set on the entries in insertion order; specified by MapSetHolds, MapSetKeepsOthers, MapSetKeys and MapSetDistinct |
| Templates.MapSetHolds | src/templates/index.ts:15 | after setting a key, looking it up gives the new value |
| Templates.MapSetKeepsOthers | src/templates/index.ts:15 | setting a key leaves every other key's lookup as it was |
| Templates.MapSetKeys | src/templates/index.ts:15 | setting an existing key keeps the key order; a new key is appended |
| Templates.MapSetDistinct | src/templates/index.ts:15 | setting a key never makes a key appear twice |
| Templates.FreshRegistry | src/templates/index.ts:17-19 | registering into the empty map yields the defaults, whose key order is insertion order, not enumeration order |
| Templates.DefaultsComplete | src/templates/index.ts:24-85 | every enumeration member has a template of its own type, at the templates directory joined with its value; no other type has one |
| Templates.DefaultsAligned | src/templates/index.ts:92-109 | the i-th template's type is the i-th registered type, for the seven types |
| Templates.LibraryHasNoDependencies | src/templates/index.ts:60-67 | the library template has no runtime dependencies |
| Templates.CopyFailsOnlyOutsideEnum | src/templates/index.ts:96-100 | with the default registry, for a well-formed type, copying fails exactly for types outside the enumeration |
| Templates.TemplateRegistry.constructor | src/templates/index.ts:17-19 | a new registry holds the seven default templates in insertion order, with no type twice |
| Templates.TemplateRegistry.Set | src/templates/index.ts:15 | Map.set: the value replaces in place, or is appended; no type is ever registered twice |
| Templates.TemplateRegistry.RegisterDefaultTemplates | src/templates/index.ts:21-86 | the seven set calls have the effect of setting every default in insertion order |
| Templates.TemplateRegistry.GetTemplate | src/templates/index.ts:88-90 | a template is found exactly for a registered type, and it is one of the registered templates |
| Templates.TemplateRegistry.GetAllTemplates | src/templates/index.ts:92-94 | the templates in key order |
| Templates.TemplateRegistry.GetTemplateTypes | src/templates/index.ts:107-109 | the types in key order, aligned with the templates |
| Templates.TemplateRegistry.CopyTemplate | src/templates/index.ts:96-105 | an unknown type throws "Template for X not found"; a missing source path copies nothing; otherwise the copy is made |
| Cli.GetFeatureChoices | src/cli/index.ts:201-239 | the common features followed by the type's own; specified by FeatureChoicesShape and FeatureValuesDistinct |
| Cli.FeatureChoicesShape | src/cli/index.ts:201-239 | the five common features come first, then the type's own extras: four for webapp, six for api, three for cli, none otherwise |
| Cli.FeatureValuesDistinct | src/cli/index.ts:202-237 | no feature value is offered twice for any type |
| Cli.QuestionsFor | src/cli/index.ts:114-190 | the questions promptProjectDetails asks, in order; specified by QuestionsAsked and QuestionsDistinct, and computed by BuildQuestions |
| Cli.BuildQuestions | src/cli/index.ts:115-190 | the successive pushes build the specified question list |
| Cli.QuestionsAsked | src/cli/index.ts:117-169 | the name is asked exactly when no name was given, the type exactly when the type option is falsy, and the other six always |
| Cli.QuestionsDistinct | src/cli/index.ts:115-190 | no question is asked twice |
| Cli.TypeAskedOnlyForEmptyOption | src/cli/index.ts:23-169 | because `--type` defaults to webapp, the type is asked only for `--type ""` |
| Cli.PromptResult | src/cli/index.ts:194-198 | the merge of the name argument, the answers and the type option; specified by PromptMerge |
| Cli.PromptMerge | src/cli/index.ts:194-198 | the name is the argument when given, else the answer; the type is the option when given, else the answer; the other answers pass through |
| Cli.AssembleConfig | src/cli/index.ts:36-44 | the R3Config built from the merged answers; specified by ConfigDefaults |
| Cli.ConfigDefaults | src/cli/index.ts:36-44 | the version is always 0.1.0; a missing name becomes the empty name and missing features become none; the type is parsed from the answer; the other fields are copied |
| Cli.AssembleOptions | src/cli/index.ts:46-55 | the scaffold options: the name, the corrected project path, the configuration, and each skip flag or-ed with its answer; it departs from the source only in the path (see Findings); specified by CreateOptionsFacts |
| Cli.CreateOptionsFacts | src/cli/index.ts:36-55 | version is 0.1.0; name and config name agree; the features question is always answered and its answer is the feature list; each skip is the flag or the answer; the features offered belong to the configured type |
| Cli.ProjectPathAsWritten | src/cli/index.ts:46 | the project path as written: `./<name>` resolved (`./undefined` without a name), since the merged answers never hold a path |
| Cli.ProjectPath | src/cli/index.ts:24-46 | the corrected project path: `--path` when given, else `./<name>`; specified by PathOptionHonoured |
| Cli.PathOptionIgnored | src/cli/index.ts:46 | as written, `--path` never changes the project path |
| Cli.PathOptionExample | src/cli/index.ts:24-46 | `create foo --path /tmp/x` yields `./foo` as written, and `/tmp/x` when corrected |
| Cli.PathOptionHonoured | src/cli/index.ts:24-46 | the corrected path is `--path` when given, and otherwise the name's path as before |
| Cli.NameVerdict | src/cli/index.ts:122-128 | a name is accepted exactly when the library accepts it, and a rejection message contains every error and warning |
| Cli.JoinHas | src/cli/index.ts:125 | each item occurs in the joined text |

## Left out

- Logging is recorded as a trace only in the project builder. Elsewhere it is dropped: the banners, spinner, colours and animations of the logger are not modelled.
- `path.resolve` is a parameter, and `path.join` is appending names to a path sequence.
- The npm package-name library is a parameter that reports the verdict, errors and warnings for a name.
- Commander parsing and inquirer prompting are inputs: the parsed flags and the answers. Prompt messages, defaults (such as the description's default text) and the licence and type choice lists are not modelled.
- The `init` and `list-templates` commands of the command line are not modelled.
- `Validator.isValidUrl` and `isValidPath` call into `URL` and `path.parse`, which are not part of this model.
- `copyDirectory`, `readJson`, `writeJson`, `ensureFile` and `getFileHash` are one-line wrappers around fs-extra and crypto; they are not modelled.
- `FileUtils.FormatBytes`: the `toFixed(2)` text is not produced; the method returns the scaled size as a real number and the unit.
- FileUtils.FormatBytes: the size is a whole non-negative number of bytes; negative and fractional inputs, which the source also accepts, are not modelled.
- FileUtils.FindFiles: the pattern is a predicate on names; the `lastIndex` state of a global regular expression is not modelled.
- A file's size is the length of its text.
- Templates.TemplateRegistry.CopyTemplate: the directory copy is an oracle parameter.
- `__dirname` is the templates-directory parameter of the registry constructor and of loadTemplate.
- The dependencies and devDependencies fields of R3Config are not used by any modelled operation and are left out. For a type outside the enumeration, the template fields are empty.
- The file system fails only for the causes the model names: a missing path, a node of the wrong kind, or a read-only write target. Permission, busy-file and device errors of the real file system are not modelled.
- FileSystem.Remove: never fails, so the state that processFile leaves when removing a template file throws after its output was written is not modelled.
- ProjectBuilder.Issue: a command changes no file. The `.git` directory that git creates, and the `node_modules` directory and lock file that npm install creates, are not modelled.
- Scaffold.CreateOnValid: its promise that installation never fails rests on the two lines above: the file system fails only for the modelled causes and commands change no file.
- `fs.ensureDir` either creates all missing ancestors or fails without change; a partial creation before a failure is not modelled.
- Directory listing order is abstracted as creation order. `fs.readdir` promises no order, and on POSIX systems it usually reports names sorted byte-wise. So the order of `FileUtils.FindFiles`' result and the order in which the template pass visits entries are the model's choice. The proved facts about which files are found, each once, and about which templates are converted do not depend on that order. Where two templates of one directory produce the same output path, the one visited last wins, and which one that is is not modelled faithfully.
- The year of the template context is a parameter, not the clock.
- The context is a finite map: keys inherited from JavaScript's Object prototype (`{{constructor}}`) are not modelled.
- Cli.AssembleOptions uses the corrected project path, per the finding below.
- Cli.AssembleConfig: a missing merged name becomes the empty name rather than `undefined`. The merged answers always hold a name when they answer the questions asked (Cli.PromptMerge), so this does not arise from the prompt. The project path does follow the template literal and becomes `./undefined`.
- TemplateEngine.TemplateEngine.LoadTemplate: the template name is one path component. A name holding `/` is not split into components, as `path.join` would split it.
- The seed texts of .gitignore and README.md are their literal lines joined by newlines.
- Concurrency does not arise: every step is awaited in turn.

## Findings

| source | as written | input that shows it | evidently intended | confidence | as-written member | corrected member |
|---|---|---|---|---|---|---|
| src/cli/index.ts:46 | the project path is `path.resolve(answers.projectPath \|\| ./<name>)`, but nothing ever sets `answers.projectPath`, so the `--path` option (line 24) is ignored | `r3 create foo --path /tmp/x` creates the project at `./foo` | the path is the `--path` option when given, and `./<name>` otherwise | high, not executed | Cli.ProjectPathAsWritten (Cli.PathOptionIgnored, Cli.PathOptionExample) | Cli.ProjectPath (Cli.PathOptionHonoured) |
