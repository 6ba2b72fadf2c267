# vcsview in Dafny

A Dafny model of the core of vcsview, a Go library that queries a Git
repository by running the `git` command-line tool and parsing what it
prints. The model covers the following:

- **Commit-block parser** (`Git.ReadCommit`). It folds output lines into
  commits, six lines per commit. An incomplete trailing block is dropped.
- **Branch-line parser** (`Git.ReadBranches`). It matches each line of
  `git branch -a -v` against the library's regular expression, and the
  lines that match become branches.
- **String renderers**:
  - `Contributor.String`, `Name` and `Email`;
  - `File.Pathname`;
  - the command-line wrapper's command line, debug log and non-zero-status
    message;
  - `createCommand`'s argument vector.
- **Executor**. `NewExecutor`, its logging, and `Run` as a sequential
  function. The outcomes of starting and of waiting for the process are
  inputs to that function.
- **Git back end**:
  - the `.git` marker and the path `CheckRepository` examines;
  - the `--no-pager` prefix `Git.execute` adds;
  - the executors `ReadBranches` and `ReadCommit` prepare.
- **Repository opening** (`NewRepository`).

Everything is a pure function over strings and sequences. The project has
one module per Go source file:

| module | source file |
|---|---|
| `Contributors` | contributor.go |
| `Files` | file.go |
| `Cli` | cli.go |
| `Executors` | executor.go |
| `GitCommands` | git.go |
| `Repositories` | repository.go |

`GitCommands` also uses two modules for git.go's parsers: `Branches` and
`Commits`. The helper modules are:

- `Text`: `strings.Join`, `strings.Split`, `strings.TrimLeft` and `%d`;
- `Wrappers`: `Option`;
- `Errors`: the errors the library tells apart.

Conventions of the model:

- **Path separator.** `os.PathSeparator` is a `sep: char` parameter.
- **Debug function.** A debug function that is set is `Present`, and a nil
  one is `Absent`. A function that logs returns the list of messages the
  debug function receives.
- **Wait statuses.** An `*exec.ExitError` carries its raw
  `syscall.WaitStatus` as an unsigned 32-bit value. It is rendered with
  `%d`.
- **Inputs in place of the environment.** The date parser (`time.Parse`
  with the log layout) is a parameter of type `string -> Option<Time>`, and
  a date that does not parse becomes Go's zero time. `os.Stat` is a
  parameter of type `string -> StatResult`.

The branch regular expression is

    ^\*?[\s+|\t]+(?P<id>[^\s]+)[\s+|\t]+(?P<head>[a-fA-F0-9]+)[\s+|\t]+(?P<message>.*)$

It is matched by hand:

- `Accepts(line, sp)` says which group boundaries make the whole line
  match.
- `FindSpans` searches the candidate boundaries in the order a
  backtracking engine tries them.
- The search is proved sound and complete. It returns the first match in
  that order, which is the one Go's `FindSubmatch` reports.

Where the code and its documentation disagree, the model follows the code:

- A root commit's empty parents line gives the parent list `[""]`, because
  `strings.Split("", " ")` returns one empty string. The list is never
  empty.
- The parser does not require a block's lines to be non-empty. An empty
  line counts as a field.
- The format ends every field with a newline, so `git show` of one commit
  prints exactly one six-line block. For several commits, the blank line
  git puts between entries would shift the blocks. The library only
  parses one commit at a time.
- The separator class `[\s+|\t]` also admits a literal `+` and `|`. So the
  `+` that git prints before a branch checked out in another worktree is
  read as a separator (`WorktreeBranchExample`), and a `+` or `|` can end
  up as, or inside, a branch name. A printed name with a `+` or `|` inside
  it is still read back whole (`BranchLineRoundTrip`); a name that starts with
  either is outside that lemma, because the separator run before the name
  can take that character.

## Model

| member | source | states |
|---|---|---|
| Contributors.Name | contributor.go:13-15 | returns the stored name unchanged |
| Contributors.Email | contributor.go:18-20 | returns the stored email unchanged |
| Contributors.GettersRebuild | contributor.go:13-20 | the two getters lose nothing: a contributor rebuilt from them is the same contributor |
| Contributors.Display | contributor.go:22-28 | no email gives the name exactly; otherwise the name, a space, `<`, the email and `>`, position by position (an empty name keeps the leading space) |
| Contributors.ParseDisplayRoundTrip | contributor.go:22-28 | the display form can be parsed back into the contributor whenever the name has no `<` |
| Contributors.DisplayNotInjective | contributor.go:23-27 | without that condition, two different contributors can display identically |
| Contributors.DisplayExamples | contributor_test.go:47-50 | the four test cases: empty/empty, empty name with email, name only, name and email |
| Files.Pathname | file.go:27-33 | an empty path or a path equal to the separator gives the name; otherwise a suffix of path+sep+name, with every removed character a separator and the result never starting with one |
| Files.RelativePathKept | file.go:32 | a path not starting with the separator gives path+sep+name unchanged |
| Files.LeadingSeparatorsIgnored | file.go:32 | prefixing any number of separators to a path that contains a non-separator character leaves the pathname unchanged |
| Files.PathnameExamples | file_test.go:47-50 | the four test cases with `/`: empty, `/`, `subdir` and `/subdir` |
| Text.Join | cli.go:35 | `strings.Join`: length is the parts' total plus the separators; the first part is a prefix |
| Text.JoinEmptyIff | cli.go:35-38 | with a non-empty separator, the join is empty exactly for no parameters or one empty parameter |
| Text.Split | git.go:136 | `strings.Split` on one character: one more piece than occurrences, no piece contains the separator |
| Text.JoinSplit | git.go:136 | joining the pieces of a split restores the string |
| Text.SplitJoin | git.go:136 | splitting the join of non-empty, separator-free pieces gives the pieces back |
| Text.TrimLeft | file.go:32 | `strings.TrimLeft` with one character: a suffix of the input, only that character removed, and it does not start with it |
| Text.TrimLeftIgnoresLeading | file.go:32 | trimming ignores any number of extra leading cut characters |
| Text.Decimal | cli.go:56 | `%d`: non-empty, all digits, no leading zero except for 0 itself |
| Text.DecimalRoundTrip | cli.go:56 | reading the digits back gives the number |
| Text.DecimalInjective | cli.go:56 | different numbers render differently |
| Cli.BuildCommandStr | cli.go:34-42 | the program alone exactly when the parameters join to the empty string (none, or `[""]`); otherwise the program, a space and the space-joined parameters |
| Cli.BuildCommandStrFlattens | cli.go:34-42 | the rendering is not injective: one parameter with spaces renders like several parameters |
| Cli.BuildCommandStrExamples | cli_test.go:56-60 | the five command lines the tests list for `git` |
| Cli.Log | cli.go:45-49 | a set debug function receives the message exactly once and unchanged; a nil one receives nothing |
| Cli.ExecuteMessage | cli.go:71 | the log line is `execute command: ` followed by the command line |
| Cli.StatusField | cli.go:53-63 | the decimal wait status for an exit error, `non-zero` for any other error or none |
| Cli.StatusMessageRecoversStatus | cli.go:53-63 | the exit status can be read back exactly from the status message, and no status can be read from the fallback message |
| Cli.StatusMessageInjective | cli.go:56 | two different exit statuses give different messages |
| Cli.StatusMessage | cli.go:53-63 | the message is `Command `, the command text, ` finished with `, the status field and ` status code`, in that order and with nothing else |
| Cli.LogCmdNonZeroStatus | cli.go:53-64 | without a debug function nothing is delivered; with one, exactly the status message for the command text and error, which carries the exit status if there is one |
| Cli.NilErrorMessage | cli_test.go:34 | the message for a nil error of `git log` |
| Cli.CreateCommand | cli.go:68-77 | logs `execute command:` with the built command line; the handle runs the program with the parameters as separate arguments in the given directory |
| Executors.NewExecutor | executor.go:106-113 | stores command, reader and debug function unchanged; the command text is the argument vector (program first) joined by spaces |
| Executors.CommandTextMatchesCommandLine | executor.go:111 | the executor's command text equals the wrapper's logged command line unless the only parameter is the empty string |
| Executors.CommandTextExample | executor_test.go:30 | the command text of `hg log --limit=5` |
| Executors.ExecutorLog | executor.go:40-44 | a set debug function receives the message exactly once and unchanged; a nil one receives nothing |
| Executors.ExecutorLogCmdNonZeroStatus | executor.go:48-59 | the same two message forms as the wrapper's, built from the executor's command text |
| Executors.RunOrdered | executor.go:64-104 | in the steps a run takes, the pipe is taken before the process starts; the reader returns once, before the single cancellation; the wait happens after the cancellation exactly when the start succeeded |
| Executors.Run | executor.go:81-104 | the error is the start error, else the wait error; the first message is always `execute command:`, and a status message follows exactly when there is an error; the reader sees no output when the start fails |
| Executors.RunSucceedsIff | executor.go:90-103 | a run succeeds exactly when both the start and the wait succeed |
| Executors.FailedWaitKeepsRecords | executor.go:96-101 | records read before a failing wait are the same as those of a successful run |
| Executors.ExecuteMessageExample | executor_test.go:114 | the opening line for `hg log --limit=5` |
| Executors.ExitStatusMessageExample | executor_test.go:122 | the status message for wait status 65280 |
| Executors.RunLogExample | executor_test.go:117-124 | a run of `hg log --limit=5` whose wait fails with 65280 logs exactly the two expected lines |
| Commits.CommitDate | git.go:132 | the parsed date, or the zero time when parsing fails |
| Commits.CommitsOfAppend | git.go:124-149 | whole blocks followed by more lines parse each part independently |
| Commits.ReadCommits | git.go:124-150 | the reader loop emits exactly the commits of the complete blocks, in order |
| Commits.CommitCount | git.go:124-149 | n lines give exactly n / 6 (rounded down) commits |
| Commits.PartialTailDropped | git.go:127-150 | a trailing block of one to five lines is dropped and changes nothing |
| Commits.CommitFields | git.go:128-145 | the k-th commit has line 6k as id, line 6k+1 split on spaces as parents, lines 6k+2 and 6k+3 as author, line 6k+4's parsed date (or the zero time) and line 6k+5 as message |
| Commits.ParentsRestoreLine | git.go:136 | the parent list is never empty, and joining it with spaces restores the parents line |
| Commits.LogRoundTrip | git.go:15 | each entry printed in the log format is read back as that entry's commit, in order; a root commit gets `[""]` as parents |
| Branches.TailOkIff | git.go:86 | the recursive tail check matches one or more separators followed by a message without a newline up to the end of the line |
| Branches.RunLength | git.go:86 | a greedy run of one character class: all of it in the class, and the next character (if any) outside it |
| Branches.HeadAfterSound | git.go:86 | a returned continuation after the `id` group matches the rest of the pattern |
| Branches.HeadDetermined | git.go:86 | after the `id` group ends, the rest matches in at most one way |
| Branches.FirstHitSound | git.go:86 | a greedy `+` tried longest first returns what one of the candidate ends in range produced |
| Branches.FirstHitComplete | git.go:86 | when some candidate end works, the greedy search succeeds with that end or a longer one |
| Branches.SearchIdEndSound | git.go:86 | any result is a match starting at the given `id` start, with the `id` end in range |
| Branches.SearchIdEndComplete | git.go:101 | when a match exists in range, the search finds one, and the first in backtracking order |
| Branches.SearchIdStartSound | git.go:86 | any result is a match whose `id` start lies in the leading separator run |
| Branches.SearchIdStartComplete | git.go:101 | when a match exists in range, the search finds one, and the first in backtracking order |
| Branches.FindSpans | git.go:101 | any reported group boundaries make the whole line match |
| Branches.FindSpansFirst | git.go:101 | every match of the line comes no later in backtracking order than the reported one |
| Branches.BranchOf | git.go:103-107 | the branch takes the `id` and `head` groups; it is current exactly when the first character is `*` |
| Branches.MatchLine | git.go:97-107 | a branch is current exactly when the line starts with `*`; its head is non-empty hex and its id is non-empty without white space |
| Branches.MatchLineIff | git.go:97-99 | a line yields a branch exactly when it matches the pattern |
| Branches.MatchLineFirst | git.go:101-107 | the branch a line yields is exactly the one built from the leftmost-first match |
| Branches.ParseBranchesLine | git.go:94-108 | one line gives its branch if it matches, and nothing otherwise |
| Branches.ParseBranchesAppend | git.go:94-108 | the parser works line by line: the output of two chunks is the two outputs concatenated, in order |
| Branches.ParseBranchesMembers | git.go:94-108 | a branch is emitted exactly when some line yields it |
| Branches.ParseBranchesCount | git.go:94-108 | there are never more branches than lines |
| Branches.BranchLineRoundTrip | git.go:86-107 | a branch printed in git's layout (marker, name, padding, head, subject) is read back unchanged, whatever the padding and subject, provided its name is non-empty, has no white space and does not start with a plus sign or a vertical bar (`Branches.PrintableName`); it is current exactly for the `*` marker |
| Branches.NameGroupFixed | git.go:86 | in a printed line whose name has no white space, a plus sign or a vertical bar (`Branches.PlainName`), the `id` group can only be the whole name |
| Branches.NonHexTargetSkipped | git.go:97-99 | a printed line whose name has no white space, a plus sign or a vertical bar and is followed by neither a hex head nor a separator yields no branch |
| Branches.CurrentBranchExample | git.go:103-107 | `* master 747ad57 random commit` yields the current branch `master` at `747ad57` |
| Branches.HeadPointerLineSkipped | git.go:97-99 | the line `  remotes/origin/HEAD -> origin/master` is skipped |
| Branches.WorktreeBranchExample | git.go:86 | a line with the worktree marker `+` is read as a branch that is not current |
| GitCommands.RepositoryPathname | git.go:32-34 | the repository directory is `.git` |
| GitCommands.MarkerPath | git.go:55 | the checked path is the project path, the separator and `.git`, position by position |
| GitCommands.MarkerPathInjective | git.go:55 | different projects have different marker paths |
| GitCommands.ExecuteParams | git.go:25-28 | `--no-pager` comes first, followed by the caller's parameters, unchanged and in order |
| GitCommands.ExecuteCommand | git.go:25-28 | the executed argument vector is the program, `--no-pager`, then the parameters |
| GitCommands.ExecuteCommandLine | git.go:26 | the logged command line shows `--no-pager` right after the program |
| GitCommands.VersionCommand | git.go:43 | `Version` runs `git --no-pager --version` in `.` |
| GitCommands.StatusCommand | git.go:75 | `StatusRepository` runs `git --no-pager status --short` in the project |
| GitCommands.CheckRepository | git.go:54-68 | succeeds exactly when the marker path is a directory; a stat error is returned unchanged; a non-directory gives the not-found message |
| GitCommands.NotFoundError | git.go:64 | the message is `Git repository not found here: ` followed by the project path |
| GitCommands.CheckRepositoryLooksAtMarkerOnly | git.go:55-57 | the outcome depends only on what stat reports for the marker path |
| GitCommands.ReadBranches | git.go:84-112 | the executor runs `branch -a -v` in the project with the branch parser as reader; it has no debug function and an empty command text; building it logs the command line |
| GitCommands.ReadCommit | git.go:117-154 | the executor runs `show --quiet <id> --pretty=format:<log format>` in the project with the commit parser as reader; no debug function, empty command text |
| GitCommands.ReadBranchesRun | git.go:88-109 | running the branch reader logs nothing and yields the branches of the output, or none when git cannot start |
| GitCommands.ReadCommitRun | git.go:120-151 | running the commit reader over one commit's output yields exactly that commit |
| GitCommands.ReadCommitStartFailure | executor.go:90-94 | when git cannot start, the commit reader yields nothing and the start error is returned |
| Repositories.NewRepository | repository.go:20-30 | a failing check gives the zero repository and that error; otherwise a non-zero repository with the given system, the project path, and the project path + separator + `.git` |
| Repositories.NewRepositoryOpensIff | repository.go:24-28 | opening succeeds exactly when the marker is a directory; the recorded repository path is the path that was checked |
| Repositories.NewRepositoryDistinct | repository.go:28 | two different projects never share a repository path |
| Repositories.StatFailurePassedOn | repository.go:24-26 | a stat failure comes back unchanged, together with the zero repository |

## Left out

- Process launching. `exec.Command`, `Start`, `Wait`, `StdoutPipe` and the
  decoding of wait statuses are outside the model. Their outcomes are
  inputs to `Executors.Run`.
- Goroutines, channels, `sync.WaitGroup` and context cancellation. `Run`'s
  synchronisation is reduced to one linearisation of its steps, which
  `Executors.Run` records in the order the code takes them.
  `Executors.RunOrdered` states the orderings the code actually enforces.
- `Cli.execute`, `Cli.executePipe` and `Cli.chanErrHandler` (cli.go:79-153).
  These are concurrent plumbing around `createCommand`, which is modelled.
  Only the argument vector `Git.execute` passes to them is modelled.
- `Git.Version`'s version regular expression and `Git.StatusRepository`'s
  output buffer. Only the commands they run are modelled. The output
  depends on the installed git.
- `time.Parse` with the log date layout. It is a parameter, and a failure
  becomes the zero time.
- `os.Stat`. It is a parameter of type `string -> StatResult`.
- Cancellation in executors built by git.go. `ReadBranches` and
  `ReadCommit` allocate their executor with `new(Executor)`, so its
  `cancel` is nil, and calling it after the reader returns would panic.
  The model records the cancellation as a step and does not model the
  panic.
- Go's byte-level handling. The branch parser works on characters: Go's
  `line[:1] == "*"` compares the first byte, and the regular expression
  decodes UTF-8. These agree for the ASCII marker.
- `bufio.Scanner`'s line splitting and its token-size limit. The parsers
  take the sequence of lines as input.
- commit.go, branch.go and vcs.go: getters and the `Vcs` interface. Git is
  the only implementation, so `Repository.Cmd` holds a `Git` value.
- Executors.RunOrdered: covers the orderings the synchronisation
  guarantees. The relative order of the process starting and the reader
  finishing is not guaranteed by the code, and the model fixes one order.
