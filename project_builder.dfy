/**
 * The project builder: runs git and npm in the project directory. The
 * shell is an oracle: a command line either succeeds or fails, as the set
 * `failing` of the host says, and every command run is recorded in
 * `issued` with its working directory and output buffer limit. Log lines
 * are recorded too, because a failed git set-up shows only as a warning.
 */
module ProjectBuilder {
  import opened Results
  import opened FileSystem

  datatype Level = Info | Success | Warn | Error

  datatype LogLine = LogLine(level: Level, text: string)

  /** A shell command: its text, its working directory and the maxBuffer option, if given. */
  datatype Command = Command(line: string, cwd: Path, maxBuffer: Option<nat>)

  /** The machine the generator runs on: its file system, the command lines that fail, and what happened so far. */
  datatype Host = Host(fs: Fs, failing: set<string>, issued: seq<Command>, log: seq<LogLine>)

  /** The output limit of npm commands: ten mebibytes. */
  const MaxBuffer: nat := 1024 * 1024 * 10

  const CommitLine := "git commit -m \"Initial commit from R3 scaffold\""

  /** The three git commands of initGit, in the order they are run. */
  function GitCommands(projectPath: Path): seq<Command> {
    [Command("git init", projectPath, None),
     Command("git add .", projectPath, None),
     Command(CommitLine, projectPath, None)]
  }

  predicate Fails(h: Host, c: Command) {
    c.line in h.failing
  }

  /** The commands of `cmds` run one after another until the first that fails, which is run too. */
  function UpToFailure(failing: set<string>, cmds: seq<Command>): (run: seq<Command>)
    ensures |run| <= |cmds| && run == cmds[..|run|]
  {
    if cmds == [] then []
    else if cmds[0].line in failing then [cmds[0]]
    else [cmds[0]] + UpToFailure(failing, cmds[1..])
  }

  predicate AllSucceed(failing: set<string>, cmds: seq<Command>) {
    forall i | 0 <= i < |cmds| :: cmds[i].line !in failing
  }

  /**
   * The run stops at the first failing command: every command before the
   * last one run succeeded, all commands run when none fails, and the run
   * ends with a failing command at or before any failing command.
   */
  lemma {:induction false} StopsAtFirstFailure(failing: set<string>, cmds: seq<Command>)
    ensures var run := UpToFailure(failing, cmds);
      && (forall i | 0 <= i < |run| - 1 :: run[i].line !in failing)
      && (AllSucceed(failing, cmds) ==> run == cmds)
      && (forall i | 0 <= i < |cmds| && cmds[i].line in failing ::
            0 < |run| <= i + 1 && run[|run| - 1].line in failing)
  {
    if cmds != [] && cmds[0].line !in failing {
      StopsAtFirstFailure(failing, cmds[1..]);
      var run := UpToFailure(failing, cmds);
      var tail := UpToFailure(failing, cmds[1..]);
      assert run == [cmds[0]] + tail;
      assert forall i | 1 <= i < |cmds| :: cmds[i] == cmds[1..][i - 1];
      forall i | 0 <= i < |cmds| && cmds[i].line in failing
        ensures 0 < |run| <= i + 1 && run[|run| - 1].line in failing
      {
        assert cmds[1..][i - 1].line in failing;
      }
    }
  }

  /** The host after running `c`: the command is recorded. */
  function Issue(h: Host, c: Command): (h': Host)
    ensures h'.issued == h.issued + [c] && h'.fs == h.fs && h'.failing == h.failing && h'.log == h.log
  {
    h.(issued := h.issued + [c])
  }

  function Log(h: Host, level: Level, text: string): (h': Host)
    ensures h'.log == h.log + [LogLine(level, text)] && h'.fs == h.fs && h'.failing == h.failing && h'.issued == h.issued
  {
    h.(log := h.log + [LogLine(level, text)])
  }

  /** The error a failed command raises. */
  function CommandError(c: Command): string {
    "Command failed: " + c.line
  }

  /**
   * What initGit leaves behind: the git commands run up to the first
   * failure, an opening log line and a closing one that is a warning when
   * a command failed. Nothing else changes.
   */
  function GitSetUp(h: Host, projectPath: Path): Host {
    h.(issued := h.issued + UpToFailure(h.failing, GitCommands(projectPath)),
       log := h.log + [LogLine(Info, "Initializing Git repository..."),
         if AllSucceed(h.failing, GitCommands(projectPath))
         then LogLine(Success, "Git repository initialized")
         else LogLine(Warn, "Failed to initialize Git repository")])
  }

  /**
   * initGit: runs git init, git add and git commit, stopping at the first
   * failure. It never fails: a failure turns into a warning.
   */
  method InitGit(h: Host, projectPath: Path) returns (h': Host)
    ensures h' == GitSetUp(h, projectPath)
  {
    var gitInit, gitAdd, gitCommit := Command("git init", projectPath, None),
      Command("git add .", projectPath, None), Command(CommitLine, projectPath, None);
    var cmds := [gitInit, gitAdd, gitCommit];
    assert cmds[1..] == [gitAdd, gitCommit] && cmds[1..][1..] == [gitCommit] && [gitCommit][1..] == [];
    h' := Log(h, Info, "Initializing Git repository...");
    h' := Issue(h', gitInit);
    if Fails(h', gitInit) {
      h' := Log(h', Warn, "Failed to initialize Git repository");
      return;
    }
    assert UpToFailure(h.failing, cmds) == [gitInit] + UpToFailure(h.failing, [gitAdd, gitCommit]);
    h' := Issue(h', gitAdd);
    if Fails(h', gitAdd) {
      assert cmds[1] == gitAdd && UpToFailure(h.failing, [gitAdd, gitCommit]) == [gitAdd];
      h' := Log(h', Warn, "Failed to initialize Git repository");
      return;
    }
    h' := Issue(h', gitCommit);
    assert UpToFailure(h.failing, [gitAdd, gitCommit]) == [gitAdd] + UpToFailure(h.failing, [gitCommit]);
    if Fails(h', gitCommit) {
      h' := Log(h', Warn, "Failed to initialize Git repository");
      return;
    }
    h' := Log(h', Success, "Git repository initialized");
  }

  /** What installDependencies leaves behind and the error it throws, if any. */
  function Installation(h: Host, projectPath: Path): (Host, Option<string>) {
    if projectPath + ["package.json"] !in h.fs.nodes then
      (Log(h, Warn, "No package.json found, skipping dependency installation"), None)
    else
      var install := Command("npm install", projectPath, Some(MaxBuffer));
      var h1 := Issue(Log(h, Info, "Installing dependencies..."), install);
      if install.line in h.failing then (Log(h1, Error, "Failed to install dependencies"), Some(CommandError(install)))
      else (Log(h1, Success, "Dependencies installed successfully"), None)
  }

  /**
   * installDependencies: without a package.json in the project it warns and
   * runs nothing; otherwise it runs npm install and passes its failure on.
   */
  method InstallDependencies(h: Host, projectPath: Path) returns (h': Host, err: Option<string>)
    ensures (h', err) == Installation(h, projectPath)
    ensures h'.fs == h.fs && h'.failing == h.failing
    ensures projectPath + ["package.json"] !in h.fs.nodes ==>
      && h'.issued == h.issued && err == None
      && h'.log == h.log + [LogLine(Warn, "No package.json found, skipping dependency installation")]
    ensures projectPath + ["package.json"] in h.fs.nodes ==>
      && h'.issued == h.issued + [Command("npm install", projectPath, Some(MaxBuffer))]
      && (err.Some? <==> "npm install" in h.failing)
      && (err.Some? ==> err.value == CommandError(Command("npm install", projectPath, Some(MaxBuffer))))
  {
    var packageJsonPath := projectPath + ["package.json"];
    if packageJsonPath !in h.fs.nodes {
      h' := Log(h, Warn, "No package.json found, skipping dependency installation");
      return h', None;
    }
    h' := Log(h, Info, "Installing dependencies...");
    var install := Command("npm install", projectPath, Some(MaxBuffer));
    h' := Issue(h', install);
    if Fails(h', install) {
      h' := Log(h', Error, "Failed to install dependencies");
      return h', Some(CommandError(install));
    }
    h' := Log(h', Success, "Dependencies installed successfully");
    err := None;
  }

  /** runScript: runs `npm run <scriptName>` and passes its failure on. */
  method RunScript(h: Host, projectPath: Path, scriptName: string) returns (h': Host, err: Option<string>)
    ensures h'.fs == h.fs && h'.failing == h.failing
    ensures h'.issued == h.issued + [Command("npm run " + scriptName, projectPath, Some(MaxBuffer))]
    ensures err.Some? <==> "npm run " + scriptName in h.failing
    ensures err.Some? ==> err.value == CommandError(Command("npm run " + scriptName, projectPath, Some(MaxBuffer)))
  {
    h' := Log(h, Info, "Running script: " + scriptName);
    var script := Command("npm run " + scriptName, projectPath, Some(MaxBuffer));
    h' := Issue(h', script);
    if Fails(h', script) {
      h' := Log(h', Error, "Failed to run script: " + scriptName);
      return h', Some(CommandError(script));
    }
    h' := Log(h', Success, "Script \"" + scriptName + "\" completed successfully");
    err := None;
  }

  /** buildProject: the build script. */
  method BuildProject(h: Host, projectPath: Path) returns (h': Host, err: Option<string>)
    ensures h'.fs == h.fs && h'.failing == h.failing
    ensures h'.issued == h.issued + [Command("npm run build", projectPath, Some(MaxBuffer))]
    ensures err.Some? <==> "npm run build" in h.failing
    ensures err.Some? ==> err.value == CommandError(Command("npm run build", projectPath, Some(MaxBuffer)))
  {
    assert "npm run " + "build" == "npm run build";
    h', err := RunScript(h, projectPath, "build");
  }

  /** testProject: the test script. */
  method TestProject(h: Host, projectPath: Path) returns (h': Host, err: Option<string>)
    ensures h'.fs == h.fs && h'.failing == h.failing
    ensures h'.issued == h.issued + [Command("npm run test", projectPath, Some(MaxBuffer))]
    ensures err.Some? <==> "npm run test" in h.failing
    ensures err.Some? ==> err.value == CommandError(Command("npm run test", projectPath, Some(MaxBuffer)))
  {
    assert "npm run " + "test" == "npm run test";
    h', err := RunScript(h, projectPath, "test");
  }
}
