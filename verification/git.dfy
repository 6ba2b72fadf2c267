/**
 The git back end (git.go): the repository marker, the argument vectors it
 runs git with, the repository check, and the executors that read branches
 and commits.
 */
module GitCommands {
  import opened Wrappers
  import opened Errors
  import opened Text
  import opened Cli
  import opened Executors
  import opened Branches
  import opened Commits

  /**
   The `--pretty=format:` placeholders, one output line each: hash, parents,
   author name, author email, author date, subject. Six lines per commit,
   which is the block size of the commit parser.
   */
  const LogFormat := "%H%n%P%n%an%n%ae%n%ad%n%s%n"

  /** The layout the author date is parsed with, in Go's reference-time notation. */
  const LogDateLayout := "Mon Jan 2 15:04:05 2006 -0700"

  /** The git command-line tool: the common wrapper around the `git` program. */
  datatype Git = Git(cli: Cli)

  /** `Git.RepositoryPathname`: the directory git keeps a repository in. */
  function RepositoryPathname(g: Git): (r: string)
    ensures r == ".git"
  {
    ".git"
  }

  /** The path `CheckRepository` examines: the project path, the separator, the repository directory. */
  function MarkerPath(g: Git, projectPath: string, sep: char): (r: string)
    ensures |r| == |projectPath| + 1 + |RepositoryPathname(g)|
    ensures r[..|projectPath|] == projectPath && r[|projectPath|] == sep
    ensures r[|projectPath| + 1..] == RepositoryPathname(g)
  {
    projectPath + [sep] + RepositoryPathname(g)
  }

  /** Different projects have different marker paths. */
  lemma MarkerPathInjective(g: Git, p1: string, p2: string, sep: char)
    requires MarkerPath(g, p1, sep) == MarkerPath(g, p2, sep)
    ensures p1 == p2
  {
    assert |p1| == |p2|;
  }

  /** `Git.execute`'s parameters: `--no-pager` first, then the caller's, unchanged and in order. */
  function ExecuteParams(params: seq<string>): (r: seq<string>)
    ensures |r| == |params| + 1 && r[0] == "--no-pager" && r[1..] == params
  {
    ["--no-pager"] + params
  }

  /** The command `Git.execute` has the wrapper build: git with `--no-pager` ahead of the parameters. */
  function ExecuteCommand(g: Git, dir: string, params: seq<string>): (r: Created)
    ensures r.command.args == [g.cli.cmd, "--no-pager"] + params && r.command.dir == dir
    ensures r.delivered == Log(g.cli.debugger, ExecuteMessage(BuildCommandStr(g.cli, ExecuteParams(params))))
  {
    CreateCommand(g.cli, dir, ExecuteParams(params))
  }

  /** The logged command line of an executed git command always shows `--no-pager` after the program. */
  lemma ExecuteCommandLine(g: Git, params: seq<string>)
    ensures BuildCommandStr(g.cli, ExecuteParams(params)) == g.cli.cmd + " --no-pager" + (if params == [] then "" else " " + Join(params, " "))
  {
    var p := ExecuteParams(params);
    if params == [] {
      assert Join(p, " ") == "--no-pager";
      assert " " + "--no-pager" == " --no-pager";
    } else {
      assert p[1..] == params;
      assert Join(p, " ") == "--no-pager" + " " + Join(params, " ");
      NoPagerAhead(g.cli.cmd, Join(params, " "));
    }
  }

  lemma NoPagerAhead(cmd: string, rest: string)
    ensures cmd + " " + ("--no-pager" + " " + rest) == cmd + " --no-pager" + (" " + rest)
  {
    assert " " + "--no-pager" == " --no-pager";
  }

  /** `Git.Version`'s command: `git --no-pager --version` in the current directory. */
  function VersionCommand(g: Git): (r: Created)
    ensures r.command.args == [g.cli.cmd, "--no-pager", "--version"] && r.command.dir == "."
  {
    ExecuteCommand(g, ".", ["--version"])
  }

  /** `Git.StatusRepository`'s command: `git --no-pager status --short` in the project. */
  function StatusCommand(g: Git, projectPath: string): (r: Created)
    ensures r.command.args == [g.cli.cmd, "--no-pager", "status", "--short"] && r.command.dir == projectPath
  {
    ExecuteCommand(g, projectPath, ["status", "--short"])
  }

  /** What `os.Stat` reports for a path: a failure, or an entry that is or is not a directory. */
  datatype StatResult = StatFailed(err: Error) | Found(isDir: bool)

  /**
   `Git.CheckRepository`: the marker path must exist and be a directory. A
   failing stat is passed on unchanged; an entry that is not a directory
   gives a message naming the project path.
   */
  function CheckRepository(g: Git, projectPath: string, sep: char, stat: string -> StatResult): (r: Option<Error>)
    ensures r.None? <==> stat(MarkerPath(g, projectPath, sep)) == Found(true)
    ensures stat(MarkerPath(g, projectPath, sep)).StatFailed? ==> r == Some(stat(MarkerPath(g, projectPath, sep)).err)
    ensures stat(MarkerPath(g, projectPath, sep)) == Found(false) ==> r == Some(NotFoundError(projectPath))
  {
    match stat(MarkerPath(g, projectPath, sep))
    case StatFailed(err) => Some(err)
    case Found(isDir) => if isDir then None else Some(NotFoundError(projectPath))
  }

  const NotFoundPrefix := "Git repository not found here: "

  /** The error for a marker that is not a directory: a message ending in the project path. */
  function NotFoundError(projectPath: string): (e: Error)
    ensures e.MessageError? && |e.message| == |NotFoundPrefix| + |projectPath|
    ensures e.message[..|NotFoundPrefix|] == NotFoundPrefix && e.message[|NotFoundPrefix|..] == projectPath
  {
    MessageError(NotFoundPrefix + projectPath)
  }

  /** The check looks at the marker path and nothing else: two file systems that agree there agree on the outcome. */
  lemma CheckRepositoryLooksAtMarkerOnly(g: Git, projectPath: string, sep: char, stat1: string -> StatResult, stat2: string -> StatResult)
    requires stat1(MarkerPath(g, projectPath, sep)) == stat2(MarkerPath(g, projectPath, sep))
    ensures CheckRepository(g, projectPath, sep, stat1) == CheckRepository(g, projectPath, sep, stat2)
  {
  }

  /** A reader set up by `Git.ReadBranches` or `Git.ReadCommit`, and the debug messages setting it up produced. */
  datatype Prepared<R> = Prepared(executor: Executor<R>, delivered: seq<string>)

  /**
   `Git.ReadBranches`: an executor running `git branch -a -v` in the project
   and parsing its lines into branches. The executor is allocated bare, so it
   has no debug function and an empty command text of its own.
   */
  function ReadBranches(g: Git, projectPath: string): (r: Prepared<Branch>)
    ensures r.executor.cmd.args == [g.cli.cmd, "branch", "-a", "-v"] && r.executor.cmd.dir == projectPath
    ensures r.executor.reader == ParseBranches
    ensures r.executor.debugger == Absent && r.executor.cmdTxt == ""
    ensures r.delivered == Log(g.cli.debugger, ExecuteMessage(BuildCommandStr(g.cli, ["branch", "-a", "-v"])))
  {
    var created := CreateCommand(g.cli, projectPath, ["branch", "-a", "-v"]);
    Prepared(Executor(created.command, ParseBranches, Absent, ""), created.delivered)
  }

  /**
   `Git.ReadCommit`: an executor running `git show --quiet <commit>` with the
   log format in the project and folding its lines into commits; allocated
   bare like the branch reader.
   */
  function ReadCommit(g: Git, projectPath: string, commitId: string, parse: DateParser): (r: Prepared<Commit>)
    ensures r.executor.cmd.args == [g.cli.cmd, "show", "--quiet", commitId, "--pretty=format:" + LogFormat]
    ensures r.executor.cmd.dir == projectPath
    ensures forall lines :: r.executor.reader(lines) == CommitsOf(parse, lines)
    ensures r.executor.debugger == Absent && r.executor.cmdTxt == ""
    ensures r.delivered == Log(g.cli.debugger, ExecuteMessage(BuildCommandStr(g.cli, ["show", "--quiet", commitId, "--pretty=format:" + LogFormat])))
  {
    var created := CreateCommand(g.cli, projectPath, ["show", "--quiet", commitId, "--pretty=format:" + LogFormat]);
    Prepared(Executor(created.command, lines => CommitsOf(parse, lines), Absent, ""), created.delivered)
  }

  /**
   Running the branch reader: the branches of every matching output line in
   order, none when git cannot be started, and no run messages at all since
   the executor has no debug function.
   */
  lemma ReadBranchesRun(g: Git, projectPath: string, startErr: Option<Error>, waitErr: Option<Error>, stdout: seq<string>)
    ensures var run := Run(ReadBranches(g, projectPath).executor, startErr, waitErr, stdout);
      && run.delivered == []
      && run.records == (if startErr.Some? then [] else ParseBranches(stdout))
      && run.err == (if startErr.Some? then startErr else waitErr)
  {
  }

  /** Running the commit reader over the output of one commit gives exactly that commit. */
  lemma ReadCommitRun(g: Git, projectPath: string, commitId: string, parse: DateParser, entry: LogEntry)
    requires WellFormed(entry)
    ensures Run(ReadCommit(g, projectPath, commitId, parse).executor, None, None, LogLines([entry])).records == [EntryCommit(parse, entry)]
  {
    LogRoundTrip(parse, [entry]);
  }

  /** A commit reader that cannot start git emits nothing. */
  lemma ReadCommitStartFailure(g: Git, projectPath: string, commitId: string, parse: DateParser, startErr: Error, waitErr: Option<Error>, stdout: seq<string>)
    ensures Run(ReadCommit(g, projectPath, commitId, parse).executor, Some(startErr), waitErr, stdout).records == []
    ensures Run(ReadCommit(g, projectPath, commitId, parse).executor, Some(startErr), waitErr, stdout).err == Some(startErr)
  {
  }
}
