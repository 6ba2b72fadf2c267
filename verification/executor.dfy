/**
 The executor (executor.go): runs one prepared command while a reader
 consumes its standard output, logging the command line and any failure.

 The concurrent parts are sequentialised: the outcome of starting the process
 and of waiting for it are inputs, the output lines the reader sees are an
 input, and the observable effects are the returned error, the debug
 messages, the records the reader emits, and the order of the steps.
 */
module Executors {
  import opened Wrappers
  import opened Errors
  import opened Text
  import opened Cli

  /**
   An executor: the command, the reader (what it emits for the lines it
   reads), the debug function and the command's text for messages.
   */
  datatype Executor<R> = Executor(cmd: Command, reader: seq<string> -> seq<R>, debugger: Debugger, cmdTxt: string)

  /** `NewExecutor`: stores its arguments and the space-joined argument vector as the command text. */
  function NewExecutor<R>(cmd: Command, reader: seq<string> -> seq<R>, debugger: Debugger): (e: Executor<R>)
    ensures e.cmd == cmd && e.reader == reader && e.debugger == debugger
    ensures e.cmdTxt == Join(cmd.args, " ")
  {
    Executor(cmd, reader, debugger, Join(cmd.args, " "))
  }

  /**
   The executor's command text agrees with the command line `createCommand`
   logs, except for the single empty parameter: the executor then renders a
   trailing space.
   */
  lemma CommandTextMatchesCommandLine<R>(c: Cli, dir: string, params: seq<string>, reader: seq<string> -> seq<R>, d: Debugger)
    ensures NewExecutor(CreateCommand(c, dir, params).command, reader, d).cmdTxt == BuildCommandStr(c, params)
      <==> params != [""]
  {
    var args := CreateCommand(c, dir, params).command.args;
    assert args == [c.cmd] + params;
    if params == [] {
      assert Join(args, " ") == c.cmd;
    } else {
      assert args[1..] == params;
      assert Join(args, " ") == c.cmd + " " + Join(params, " ");
      JoinEmptyIff(params, " ");
      if params == [""] {
        assert |Join(args, " ")| == |c.cmd| + 1;
      }
    }
  }

  /** `Executor.log`. */
  function ExecutorLog<R>(e: Executor<R>, m: string): (delivered: seq<string>)
    ensures e.debugger.Present? <==> delivered == [m]
    ensures e.debugger.Absent? <==> delivered == []
  {
    Log(e.debugger, m)
  }

  /** `Executor.logCmdNonZeroStatus`: the same message form as the command-line wrapper's, built from the command text. */
  function ExecutorLogCmdNonZeroStatus<R>(e: Executor<R>, err: Option<Error>): (delivered: seq<string>)
    ensures delivered == LogCmdNonZeroStatus(Cli(e.cmd.program, e.debugger), e.cmdTxt, err)
  {
    ExecutorLog(e, StatusMessage(e.cmdTxt, err))
  }

  /** The steps of a run that the synchronisation in `Run` and `read` orders. */
  datatype Event =
    | PipeOpened      // the reader task has taken the standard-output pipe
    | StartAttempted  // `cmd.Start` returned
    | ReaderReturned  // the reader function returned
    | Cancelled       // the executor's context was cancelled
    | Waited          // `cmd.Wait` returned

  datatype RunResult<R> = RunResult(err: Option<Error>, delivered: seq<string>, events: seq<Event>, records: seq<R>)

  /** Number of occurrences of `ev` in `events`. */
  function Count(events: seq<Event>, ev: Event): nat {
    if |events| == 0 then 0 else (if events[0] == ev then 1 else 0) + Count(events[1..], ev)
  }

  /** Position of the first `ev` in `events`, or `|events|` when it does not occur. */
  function Position(events: seq<Event>, ev: Event): nat {
    if |events| == 0 || events[0] == ev then 0 else 1 + Position(events[1..], ev)
  }

  /** `ev` occurs exactly once in `events`. */
  predicate Once(events: seq<Event>, ev: Event) {
    Count(events, ev) == 1
  }

  /** `a` occurs, and its first occurrence precedes that of `b`, which occurs too. */
  predicate Before(events: seq<Event>, a: Event, b: Event) {
    Position(events, a) < Position(events, b) < |events|
  }

  /**
   `Executor.Run`. A failed start is reported and returned, and the reader
   sees no output; a failed wait is reported and returned after the reader
   has consumed the output; otherwise only the command line is logged.
   */
  function Run<R>(e: Executor<R>, startErr: Option<Error>, waitErr: Option<Error>, stdout: seq<string>): (r: RunResult<R>)
    ensures r.err == (if startErr.Some? then startErr else waitErr)
    ensures e.debugger.Absent? ==> r.delivered == []
    ensures e.debugger.Present? ==>
      && |r.delivered| == (if r.err.Some? then 2 else 1)
      && r.delivered[0] == ExecuteMessage(e.cmdTxt)
      && (r.err.Some? ==> r.delivered[1] == StatusMessage(e.cmdTxt, r.err))
    ensures r.records == e.reader(if startErr.Some? then [] else stdout)
  {
    var opening := ExecutorLog(e, ExecuteMessage(e.cmdTxt));
    // `read` takes the pipe before it receives the handshake that precedes `Start`
    var started := [PipeOpened, StartAttempted];
    // `read` cancels right after the reader returns, then signals on the channel
    var drained := started + [ReaderReturned, Cancelled];
    if startErr.Some? then
      RunResult(startErr, opening + ExecutorLogCmdNonZeroStatus(e, startErr), drained, e.reader([]))
    else if waitErr.Some? then
      RunResult(waitErr, opening + ExecutorLogCmdNonZeroStatus(e, waitErr), drained + [Waited], e.reader(stdout))
    else
      RunResult(None, opening, drained + [Waited], e.reader(stdout))
  }

  /**
   The ordering guarantees of a run: the pipe is taken before the process
   starts, the reader returns once and the single cancellation follows it,
   and the wait happens, after the cancellation, exactly when the start
   succeeded.
   */
  lemma RunOrdered<R>(e: Executor<R>, startErr: Option<Error>, waitErr: Option<Error>, stdout: seq<string>)
    ensures var events := Run(e, startErr, waitErr, stdout).events;
      && Before(events, PipeOpened, StartAttempted)
      && Once(events, ReaderReturned)
      && Once(events, Cancelled) && Before(events, ReaderReturned, Cancelled)
      && (Waited in events <==> startErr.None?)
      && (startErr.None? ==> Once(events, Waited) && Before(events, Cancelled, Waited))
  {
    var events := Run(e, startErr, waitErr, stdout).events;
    if startErr.Some? {
      assert events == [PipeOpened, StartAttempted, ReaderReturned, Cancelled];
      FailedStartOrdered();
    } else {
      assert events == [PipeOpened, StartAttempted, ReaderReturned, Cancelled, Waited];
      CompletedRunOrdered();
    }
  }

  /** The trace of a run whose start failed keeps the order. */
  lemma FailedStartOrdered()
    ensures var events := [PipeOpened, StartAttempted, ReaderReturned, Cancelled];
      && Before(events, PipeOpened, StartAttempted)
      && Once(events, ReaderReturned) && Once(events, Cancelled)
      && Before(events, ReaderReturned, Cancelled) && Waited !in events
  {
    var events := [PipeOpened, StartAttempted, ReaderReturned, Cancelled];
    assert Before(events, PipeOpened, StartAttempted);
    assert Once(events, ReaderReturned) && Once(events, Cancelled);
  }

  /** The trace of a run that started keeps the order, with the wait last. */
  lemma CompletedRunOrdered()
    ensures var events := [PipeOpened, StartAttempted, ReaderReturned, Cancelled, Waited];
      && Before(events, PipeOpened, StartAttempted)
      && Once(events, ReaderReturned) && Once(events, Cancelled) && Once(events, Waited)
      && Before(events, ReaderReturned, Cancelled) && Before(events, Cancelled, Waited)
  {
    var events := [PipeOpened, StartAttempted, ReaderReturned, Cancelled, Waited];
    assert Before(events, PipeOpened, StartAttempted);
    assert Once(events, ReaderReturned) && Once(events, Cancelled) && Once(events, Waited);
  }

  /** A run fails exactly when starting or waiting fails. */
  lemma RunSucceedsIff<R>(e: Executor<R>, startErr: Option<Error>, waitErr: Option<Error>, stdout: seq<string>)
    ensures Run(e, startErr, waitErr, stdout).err.None? <==> startErr.None? && waitErr.None?
  {
  }

  /**
   Records emitted before a failing wait are kept: they are exactly what a
   successful run over the same output emits.
   */
  lemma FailedWaitKeepsRecords<R>(e: Executor<R>, waitErr: Error, stdout: seq<string>)
    ensures Run(e, None, Some(waitErr), stdout).records == Run(e, None, None, stdout).records
  {
  }

  /** The status message for wait status 65280 of `hg log --limit=5`. */
  lemma ExitStatusMessageExample()
    ensures StatusMessage("hg log --limit=5", Some(ExitError(65280)))
      == "Command hg log --limit=5 finished with 65280 status code"
  {
    DecimalExample();
    ExitStatusMessageHead();
    ExitStatusMessageTail();
  }

  lemma DecimalExample()
    ensures Decimal(65280) == "65280"
  {
    assert Decimal(6) == "6";
    assert Decimal(65) == "65";
    assert Decimal(652) == "652";
    assert Decimal(6528) == "6528";
  }

  lemma ExitStatusMessageHead()
    ensures "Command " + "hg log --limit=5" + " finished with " == "Command hg log --limit=5 finished with "
  {
    assert "Command " + "hg log --limit=5" == "Command hg log --limit=5";
  }

  lemma ExitStatusMessageTail()
    ensures "Command hg log --limit=5 finished with " + "65280" + " status code" == "Command hg log --limit=5 finished with 65280 status code"
  {
    assert "Command hg log --limit=5 finished with " + "65280" == "Command hg log --limit=5 finished with 65280";
  }

  /** The command text of `hg log --limit=5`, as `NewExecutor` joins its argument vector. */
  lemma CommandTextExample<R>(reader: seq<string> -> seq<R>)
    ensures NewExecutor(Command("hg", ["hg", "log", "--limit=5"], "."), reader, Present).cmdTxt == "hg log --limit=5"
  {
    assert Join(["--limit=5"], " ") == "--limit=5";
    assert Join(["log", "--limit=5"], " ") == "log --limit=5";
  }

  /** The opening message for `hg log --limit=5`. */
  lemma ExecuteMessageExample()
    ensures ExecuteMessage("hg log --limit=5") == "execute command: hg log --limit=5"
  {
    var a := "execute command: " + "hg log";
    assert a == "execute command: hg log";
    assert "hg log --limit=5" == "hg log" + " --limit=5";
    assert a + " --limit=5" == "execute command: hg log --limit=5";
  }

  /** The log the tests expect from a run whose process exits with wait status 65280. */
  lemma RunLogExample<R>(reader: seq<string> -> seq<R>)
    ensures
      var e := NewExecutor(Command("hg", ["hg", "log", "--limit=5"], "."), reader, Present);
      Run(e, None, Some(ExitError(65280)), []).delivered
        == ["execute command: hg log --limit=5", "Command hg log --limit=5 finished with 65280 status code"]
  {
    CommandTextExample(reader);
    ExecuteMessageExample();
    ExitStatusMessageExample();
  }
}
