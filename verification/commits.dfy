/**
 The commit-block parser of `Git.ReadCommit` (git.go): output lines are
 grouped into blocks of six (hash, parent hashes, author name, author
 email, author date, subject) and each complete block becomes a commit.
 */
module Commits {
  import opened Wrappers
  import opened Text
  import opened Contributors

  /** A point in time: seconds since the Unix epoch and the zone's offset from UTC in seconds. */
  datatype Time = Time(unixSeconds: int, zoneOffset: int)

  /** Go's zero `time.Time`, January 1 of year 1, 00:00:00 UTC. */
  const ZeroTime := Time(-62135596800, 0)

  /** Lines per commit: one per field of the log format. */
  const BlockSize := 6

  /** A commit as the parser assembles it. */
  datatype Commit = Commit(id: string, date: Time, author: Contributor, message: string, parents: seq<string>)

  /** `time.Parse` with the log date layout, reduced to its outcome: a time, or none when the text does not parse. */
  type DateParser = string -> Option<Time>

  /** The commit date: the parsed time, or the zero time when parsing fails. */
  function CommitDate(parse: DateParser, text: string): (t: Time)
    ensures parse(text).Some? ==> t == parse(text).value
    ensures parse(text).None? ==> t == ZeroTime
  {
    parse(text).GetOr(ZeroTime)
  }

  /** The commit one complete block describes. */
  function AssembleCommit(parse: DateParser, block: seq<string>): Commit
    requires |block| == BlockSize
  {
    Commit(
      id := block[0],
      date := CommitDate(parse, block[4]),
      author := Contributor(block[2], block[3]),
      message := block[5],
      parents := Split(block[1], ' '))
  }

  /** The commits of `lines`: one per complete block, in order; a trailing partial block yields nothing. */
  function CommitsOf(parse: DateParser, lines: seq<string>): seq<Commit>
    decreases |lines|
  {
    if |lines| < BlockSize then []
    else [AssembleCommit(parse, lines[..BlockSize])] + CommitsOf(parse, lines[BlockSize..])
  }

  /** Parsing a whole number of blocks followed by more lines parses each part on its own. */
  lemma {:induction false} CommitsOfAppend(parse: DateParser, a: seq<string>, b: seq<string>, blocks: nat)
    requires |a| == BlockSize * blocks
    ensures CommitsOf(parse, a + b) == CommitsOf(parse, a) + CommitsOf(parse, b)
    decreases blocks
  {
    if blocks > 0 {
      var ab := a + b;
      assert ab[..BlockSize] == a[..BlockSize];
      assert ab[BlockSize..] == a[BlockSize..] + b;
      CommitsOfAppend(parse, a[BlockSize..], b, blocks - 1);
    } else {
      assert a + b == b;
    }
  }

  /** A complete block after a whole number of blocks adds its commit at the end. */
  lemma CommitsOfBlock(parse: DateParser, lines: seq<string>, j: nat, blocks: nat)
    requires j == BlockSize * blocks && j + BlockSize <= |lines|
    ensures CommitsOf(parse, lines[..j + BlockSize]) == CommitsOf(parse, lines[..j]) + [AssembleCommit(parse, lines[j..j + BlockSize])]
  {
    var block := lines[j..j + BlockSize];
    assert lines[..j + BlockSize] == lines[..j] + block;
    CommitsOfAppend(parse, lines[..j], block, blocks);
    assert block[..BlockSize] == block && block[BlockSize..] == [];
  }

  /** Lines after the last complete block add no commit. */
  lemma CommitsOfTail(parse: DateParser, lines: seq<string>, j: nat, blocks: nat)
    requires j == BlockSize * blocks && j <= |lines| < j + BlockSize
    ensures CommitsOf(parse, lines) == CommitsOf(parse, lines[..j])
  {
    assert lines == lines[..j] + lines[j..];
    CommitsOfAppend(parse, lines[..j], lines[j..], blocks);
  }

  /**
   One line through the reader of `Git.ReadCommit`: it joins the block being
   collected, and a block that reaches six lines becomes a commit and starts
   afresh.
   */
  method Feed(parse: DateParser, commits: seq<Commit>, data: seq<string>, line: string) returns (commits': seq<Commit>, data': seq<string>)
    requires |data| < BlockSize
    ensures |data| + 1 < BlockSize ==> commits' == commits && data' == data + [line]
    ensures |data| + 1 == BlockSize ==> commits' == commits + [AssembleCommit(parse, data + [line])] && data' == []
  {
    data' := data + [line];
    commits' := commits;
    if |data'| == BlockSize {
      commits' := commits + [AssembleCommit(parse, data')];
      data' := [];
    }
  }

  /**
   The reader loop of `Git.ReadCommit`: every line is fed to the reader in
   turn. Whatever is collected when the lines run out is dropped.
   */
  method ReadCommits(parse: DateParser, lines: seq<string>) returns (commits: seq<Commit>)
    ensures commits == CommitsOf(parse, lines)
  {
    commits := [];
    var data: seq<string> := [];
    var i := 0;
    ghost var emitted := 0;
    while i < |lines|
      invariant 0 <= |data| < BlockSize && |data| <= i <= |lines|
      invariant i - |data| == BlockSize * emitted
      invariant data == lines[i - |data|..i]
      invariant commits == CommitsOf(parse, lines[..i - |data|])
    {
      assert data + [lines[i]] == lines[i - |data|..i + 1];
      if |data| + 1 == BlockSize {
        CommitsOfBlock(parse, lines, i + 1 - BlockSize, emitted);
        emitted := emitted + 1;
      }
      commits, data := Feed(parse, commits, data, lines[i]);
      i := i + 1;
    }
    CommitsOfTail(parse, lines, i - |data|, emitted);
  }

  /** One commit per complete block: `n` lines give `n / 6` commits. */
  lemma {:induction false} CommitCount(parse: DateParser, lines: seq<string>)
    ensures |CommitsOf(parse, lines)| == |lines| / BlockSize
    decreases |lines|
  {
    if |lines| >= BlockSize {
      CommitCount(parse, lines[BlockSize..]);
    }
  }

  /** A trailing partial block of one to five lines is dropped without trace. */
  lemma PartialTailDropped(parse: DateParser, lines: seq<string>)
    ensures CommitsOf(parse, lines) == CommitsOf(parse, lines[..|lines| - |lines| % BlockSize])
  {
    var n := |lines| / BlockSize;
    var cut := |lines| - |lines| % BlockSize;
    assert cut == BlockSize * n;
    var whole := lines[..cut];
    var tail := lines[cut..];
    assert lines == whole + tail;
    CommitsOfAppend(parse, whole, tail, n);
    assert CommitsOf(parse, tail) == [];
  }

  /**
   The k-th commit is built from the k-th block: its hash, its parents split
   on single spaces, its author, its subject and its date (the zero time
   when the date does not parse; the commit is kept either way).
   */
  lemma {:induction false} CommitFields(parse: DateParser, lines: seq<string>, k: nat)
    requires k < |lines| / BlockSize
    ensures k < |CommitsOf(parse, lines)|
    ensures CommitsOf(parse, lines)[k].id == lines[BlockSize * k]
    ensures CommitsOf(parse, lines)[k].parents == Split(lines[BlockSize * k + 1], ' ')
    ensures CommitsOf(parse, lines)[k].author == Contributor(lines[BlockSize * k + 2], lines[BlockSize * k + 3])
    ensures CommitsOf(parse, lines)[k].date == CommitDate(parse, lines[BlockSize * k + 4])
    ensures CommitsOf(parse, lines)[k].message == lines[BlockSize * k + 5]
    decreases k
  {
    CommitCount(parse, lines);
    if k > 0 {
      CommitFields(parse, lines[BlockSize..], k - 1);
      assert lines[BlockSize..][BlockSize * (k - 1)..] == lines[BlockSize * k..];
    }
  }

  /**
   Parents never come out empty, and joining them with single spaces gives
   back the parents line: a root commit's empty line gives one empty parent.
   */
  lemma ParentsRestoreLine(parse: DateParser, lines: seq<string>, k: nat)
    requires k < |lines| / BlockSize
    ensures k < |CommitsOf(parse, lines)|
    ensures |CommitsOf(parse, lines)[k].parents| >= 1
    ensures Join(CommitsOf(parse, lines)[k].parents, " ") == lines[BlockSize * k + 1]
  {
    CommitFields(parse, lines, k);
    JoinSplit(lines[BlockSize * k + 1], ' ');
  }

  /** What git prints for one commit under the log format: the raw values of its six fields. */
  datatype LogEntry = LogEntry(hash: string, parentHashes: seq<string>, authorName: string, authorEmail: string, date: string, subject: string)

  /** The six output lines of one entry; `%P` separates parent hashes by single spaces. */
  function EntryLines(e: LogEntry): (lines: seq<string>)
    ensures |lines| == BlockSize
  {
    [e.hash, Join(e.parentHashes, " "), e.authorName, e.authorEmail, e.date, e.subject]
  }

  /** Entries printed back to back. */
  function LogLines(es: seq<LogEntry>): (lines: seq<string>)
    ensures |lines| == BlockSize * |es|
  {
    if |es| == 0 then [] else EntryLines(es[0]) + LogLines(es[1..])
  }

  /** Parent hashes as the parser returns them: a root commit gets one empty parent. */
  function ParsedParents(hashes: seq<string>): seq<string> {
    if hashes == [] then [""] else hashes
  }

  /** Parent hashes never hold a space. */
  predicate WellFormed(e: LogEntry) {
    forall k :: 0 <= k < |e.parentHashes| ==> ' ' !in e.parentHashes[k]
  }

  /** The commit an entry stands for, as the parser reads it. */
  function EntryCommit(parse: DateParser, e: LogEntry): Commit {
    Commit(e.hash, CommitDate(parse, e.date), Contributor(e.authorName, e.authorEmail), e.subject, ParsedParents(e.parentHashes))
  }

  /** Each well-formed entry comes back as its commit, in order; the format and the parser agree field by field. */
  lemma {:induction false} LogRoundTrip(parse: DateParser, es: seq<LogEntry>)
    requires forall k :: 0 <= k < |es| ==> WellFormed(es[k])
    ensures CommitsOf(parse, LogLines(es)) == seq(|es|, k requires 0 <= k < |es| => EntryCommit(parse, es[k]))
    decreases |es|
  {
    if |es| > 0 {
      var e := es[0];
      var block := EntryLines(e);
      LogRoundTrip(parse, es[1..]);
      CommitsOfAppend(parse, block, LogLines(es[1..]), 1);
      assert block[..BlockSize] == block && block[BlockSize..] == [];
      if e.parentHashes == [] {
        assert block[1] == "";
      } else {
        SplitJoin(e.parentHashes, ' ');
      }
      assert AssembleCommit(parse, block) == EntryCommit(parse, e);
    }
  }
}
