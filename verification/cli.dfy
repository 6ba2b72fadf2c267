/**
 The common command-line wrapper (cli.go): rendering a command line for the
 debug log, the debug log itself, the non-zero-status message, and building
 the process handle.
 */
module Cli {
  import opened Wrappers
  import opened Errors
  import opened Text

  /** Whether a debug function is set; the model records the messages it would receive. */
  datatype Debugger = Absent | Present

  /** A command-line tool: the program name and the optional debug function. */
  datatype Cli = Cli(cmd: string, debugger: Debugger)

  /**
   A process handle as `exec.Command` builds it: the program, the full
   argument vector (program name first, as `exec.Cmd.Args` holds it) and the
   working directory.
   */
  datatype Command = Command(program: string, args: seq<string>, dir: string)

  /** `Cli.buildCommandStr`: the program, then the space-joined parameters when they are not empty. */
  function BuildCommandStr(c: Cli, params: seq<string>): (r: string)
    ensures r == c.cmd <==> (params == [] || params == [""])
    ensures |r| >= |c.cmd| && r[..|c.cmd|] == c.cmd
    ensures r != c.cmd ==> r == c.cmd + " " + Join(params, " ")
  {
    JoinEmptyIff(params, " ");
    var p := Join(params, " ");
    if p == "" then c.cmd else c.cmd + " " + p
  }

  /** The rendering only sees the joined text: one parameter holding spaces renders like several. */
  lemma BuildCommandStrFlattens(c: Cli, params: seq<string>)
    ensures BuildCommandStr(c, params) == BuildCommandStr(c, [Join(params, " ")])
  {
    JoinEmptyIff(params, " ");
  }

  /** The command-line cases the tests list, for the program `git`. */
  lemma BuildCommandStrExamples()
    ensures BuildCommandStr(Cli("git", Absent), [""]) == "git"
    ensures BuildCommandStr(Cli("git", Absent), ["Log"]) == "git Log"
    ensures BuildCommandStr(Cli("git", Absent), ["Log --limit=5"]) == "git Log --limit=5"
    ensures BuildCommandStr(Cli("git", Absent), ["Log", "--limit=5"]) == "git Log --limit=5"
    ensures BuildCommandStr(Cli("git", Absent), ["Log", "-n", "5"]) == "git Log -n 5"
  {
    BuildCommandStrFlattens(Cli("git", Absent), ["Log", "--limit=5"]);
    assert Join(["Log", "-n", "5"], " ") == "Log -n 5";
  }

  /** `log`: the messages the debug function receives, the message itself exactly once, or none without one. */
  function Log(d: Debugger, m: string): (delivered: seq<string>)
    ensures d.Present? <==> delivered == [m]
    ensures d.Absent? <==> delivered == []
  {
    if d.Present? then [m] else []
  }

  /** First line of every run: `execute command: <command line>`. */
  function ExecuteMessage(cmdText: string): (m: string)
    ensures |m| == 17 + |cmdText| && m[17..] == cmdText
    ensures m[..17] == "execute command: "
  {
    "execute command: " + cmdText
  }

  const StatusPrefix := "Command "
  const StatusInfix := " finished with "
  const StatusSuffix := " status code"
  const UnknownStatus := "non-zero"

  /**
   The non-zero-status message: the decimal wait status for an exit error,
   `non-zero` for any other error or none at all.
   */
  function StatusMessage(cmdText: string, err: Option<Error>): (m: string)
    ensures |m| == |StatusPrefix| + |cmdText| + |StatusInfix| + |StatusField(err)| + |StatusSuffix|
    ensures m[..|StatusPrefix|] == StatusPrefix
    ensures m[|StatusPrefix|..|StatusPrefix| + |cmdText|] == cmdText
    ensures m[|StatusPrefix| + |cmdText|..|StatusPrefix| + |cmdText| + |StatusInfix|] == StatusInfix
    ensures m[|StatusPrefix| + |cmdText| + |StatusInfix|..|m| - |StatusSuffix|] == StatusField(err)
    ensures m[|m| - |StatusSuffix|..] == StatusSuffix
  {
    StatusPrefix + cmdText + StatusInfix + StatusField(err) + StatusSuffix
  }

  /** The field of the status message that varies with the error. */
  function StatusField(err: Option<Error>): (f: string)
    ensures (err.Some? && err.value.ExitError?) ==> f == Decimal(err.value.status)
    ensures !(err.Some? && err.value.ExitError?) ==> f == UnknownStatus
  {
    match err
    case Some(ExitError(s)) => Decimal(s)
    case _ => UnknownStatus
  }

  /** Reads the wait status back out of a status message for the same command line. */
  function StatusOfMessage(cmdText: string, m: string): Option<nat> {
    var head := StatusPrefix + cmdText + StatusInfix;
    if |m| >= |head| + |StatusSuffix| && m[..|head|] == head && m[|m| - |StatusSuffix|..] == StatusSuffix
    then
      var field := m[|head|..|m| - |StatusSuffix|];
      if |field| > 0 && forall k :: 0 <= k < |field| ==> IsDigit(field[k])
      then Some(DecimalValue(field))
      else None
    else None
  }

  /**
   The message carries the exit status: it can be read back exactly from an
   exit error's message, and is absent from the fallback message.
   */
  lemma StatusMessageRecoversStatus(cmdText: string, err: Option<Error>)
    ensures StatusOfMessage(cmdText, StatusMessage(cmdText, err))
      == (if err.Some? && err.value.ExitError? then Some(err.value.status as nat) else None)
  {
    var head := StatusPrefix + cmdText + StatusInfix;
    var f := StatusField(err);
    var m := StatusMessage(cmdText, err);
    assert m == head + f + StatusSuffix;
    assert m[..|head|] == head;
    assert m[|m| - |StatusSuffix|..] == StatusSuffix;
    assert m[|head|..|m| - |StatusSuffix|] == f;
    if err.Some? && err.value.ExitError? {
      DecimalRoundTrip(err.value.status);
    } else {
      assert !IsDigit(f[0]);
    }
  }

  /** Two exit errors of one command line give the same message only for the same status. */
  lemma StatusMessageInjective(cmdText: string, s1: WaitStatus, s2: WaitStatus)
    requires StatusMessage(cmdText, Some(ExitError(s1))) == StatusMessage(cmdText, Some(ExitError(s2)))
    ensures s1 == s2
  {
    StatusMessageRecoversStatus(cmdText, Some(ExitError(s1)));
    StatusMessageRecoversStatus(cmdText, Some(ExitError(s2)));
  }

  /** `Cli.logCmdNonZeroStatus`: the status message for `cmdText`, sent to the debug function. */
  function LogCmdNonZeroStatus(c: Cli, cmdText: string, err: Option<Error>): (delivered: seq<string>)
    ensures c.debugger.Absent? ==> delivered == []
    ensures c.debugger.Present? ==> delivered == [StatusMessage(cmdText, err)]
    ensures c.debugger.Present? ==>
      && |delivered| == 1
      && StatusOfMessage(cmdText, delivered[0])
         == (if err.Some? && err.value.ExitError? then Some(err.value.status as nat) else None)
  {
    StatusMessageRecoversStatus(cmdText, err);
    Log(c.debugger, StatusMessage(cmdText, err))
  }

  lemma NilErrorMessageHead()
    ensures "Command " + "git log" + " finished with " == "Command git log finished with "
  {
    assert "Command " + "git log" == "Command git log";
  }

  lemma NilErrorMessageTail()
    ensures "Command git log finished with " + "non-zero" + " status code" == "Command git log finished with non-zero status code"
  {
    assert "Command git log finished with " + "non-zero" == "Command git log finished with non-zero";
  }

  /** The message the tests expect for a nil error. */
  lemma NilErrorMessage()
    ensures StatusMessage("git log", None) == "Command git log finished with non-zero status code"
  {
    assert StatusField(None) == "non-zero";
    NilErrorMessageHead();
    NilErrorMessageTail();
  }

  /** A built command together with the debug messages building it produced. */
  datatype Created = Created(command: Command, delivered: seq<string>)

  /**
   `Cli.createCommand`: logs the command line, then builds a handle that runs
   the program with the parameters as discrete arguments in `dir`.
   */
  function CreateCommand(c: Cli, dir: string, params: seq<string>): (r: Created)
    ensures r.command.program == c.cmd && r.command.dir == dir
    ensures |r.command.args| == |params| + 1 && r.command.args[0] == c.cmd && r.command.args[1..] == params
    ensures r.delivered == Log(c.debugger, ExecuteMessage(BuildCommandStr(c, params)))
  {
    Created(Command(c.cmd, [c.cmd] + params, dir), Log(c.debugger, ExecuteMessage(BuildCommandStr(c, params))))
  }
}
