/**
 The branch-line parser of `Git.ReadBranches` (git.go). Each line of
 `git branch -a -v` is matched against

   ^\*?[\s+|\t]+(?P<id>[^\s]+)[\s+|\t]+(?P<head>[a-fA-F0-9]+)[\s+|\t]+(?P<message>.*)$

 and a matching line becomes a branch built from the `id` and `head` groups.
 The matcher here is written out by hand: `Accepts` says which group
 boundaries make the whole line match, and `FindSpans` returns the one a
 backtracking engine reaches first, which is the one Go's regexp package
 reports.
 */
module Branches {
  import opened Wrappers
  import opened Text

  /** A branch: its name, its head commit and whether it is checked out. */
  datatype Branch = Branch(id: string, head: string, isCurrent: bool)

  /** `\s` in Go's regexp syntax: tab, newline, form feed, carriage return and space. */
  predicate IsSpace(c: char) {
    c == '\t' || c == '\n' || c == '\U{000C}' || c == '\r' || c == ' '
  }

  /** The character classes the pattern uses. */
  datatype Class =
    | SepChar      // `[\s+|\t]`: white space, and also a literal `+` or `|`
    | IdChar       // `[^\s]`
    | HexChar      // `[a-fA-F0-9]`
    | MessageChar  // `.`: anything but a newline

  predicate In(cls: Class, c: char) {
    match cls
    case SepChar => IsSpace(c) || c == '+' || c == '|'
    case IdChar => !IsSpace(c)
    case HexChar => '0' <= c <= '9' || 'a' <= c <= 'f' || 'A' <= c <= 'F'
    case MessageChar => c != '\n'
  }

  /** `line[lo..hi]` is a range of `line` made of characters of `cls`. */
  predicate All(line: string, lo: nat, hi: nat, cls: Class) {
    lo <= hi <= |line| && forall k {:trigger In(cls, line[k])} :: lo <= k < hi ==> In(cls, line[k])
  }

  /** Length of the longest run of `cls` characters starting at `p`. */
  function RunLength(line: string, p: nat, cls: Class): (n: nat)
    requires p <= |line|
    ensures All(line, p, p + n, cls)
    ensures p + n < |line| ==> !In(cls, line[p + n])
    decreases |line| - p
  {
    if p < |line| && In(cls, line[p]) then 1 + RunLength(line, p + 1, cls) else 0
  }

  /** Every character of a slice of a `cls` range is in `cls`. */
  lemma AllSlice(line: string, lo: nat, hi: nat, cls: Class)
    requires All(line, lo, hi, cls)
    ensures forall k :: 0 <= k < hi - lo ==> In(cls, line[lo..hi][k])
  {
    forall k | 0 <= k < hi - lo
      ensures In(cls, line[lo..hi][k])
    {
      assert line[lo..hi][k] == line[lo + k];
    }
  }

  /** The longest run of `cls` starting at `p` stops at the first character outside `cls`. */
  lemma RunLengthStops(line: string, p: nat, q: nat, cls: Class)
    requires p <= q < |line| && !In(cls, line[q])
    ensures p + RunLength(line, p, cls) <= q
  {
  }

  /** Every run of `cls` starting at `p` lies within the longest one. */
  lemma RunLengthBound(line: string, p: nat, q: nat, cls: Class)
    requires p <= q && All(line, p, q, cls)
    ensures q <= p + RunLength(line, p, cls)
  {
  }

  /** `[\s+|\t]+(?P<message>.*)$` matches `line[e..]`. */
  predicate TailOk(line: string, e: nat)
    decreases |line| - e
  {
    e < |line| && In(SepChar, line[e]) && (All(line, e + 1, |line|, MessageChar) || TailOk(line, e + 1))
  }

  /** `TailOk` is the pattern's tail: one or more separators, then a message that runs to the end of the line. */
  lemma {:induction false} TailOkIff(line: string, e: nat)
    ensures TailOk(line, e) <==> exists m :: e < m <= |line| && All(line, e, m, SepChar) && All(line, m, |line|, MessageChar)
    decreases |line| - e
  {
    if e < |line| && In(SepChar, line[e]) {
      TailOkIff(line, e + 1);
      if All(line, e + 1, |line|, MessageChar) {
        assert All(line, e, e + 1, SepChar);
      }
      if TailOk(line, e + 1) {
        var m :| e + 1 < m <= |line| && All(line, e + 1, m, SepChar) && All(line, m, |line|, MessageChar);
        assert All(line, e, m, SepChar);
      }
      if m :| e < m <= |line| && All(line, e, m, SepChar) && All(line, m, |line|, MessageChar) {
        if m > e + 1 {
          assert All(line, e + 1, m, SepChar);
        }
      }
    }
  }

  /** Group boundaries: `id` is `line[idStart..idEnd]` and `head` is `line[headStart..headEnd]`. */
  datatype Spans = Spans(idStart: nat, idEnd: nat, headStart: nat, headEnd: nat)

  /** What follows the `id` group matches with the `head` group at these boundaries. */
  predicate HeadPart(line: string, sp: Spans) {
    && sp.idEnd < sp.headStart < sp.headEnd
    && All(line, sp.idEnd, sp.headStart, SepChar)
    && All(line, sp.headStart, sp.headEnd, HexChar)
    && TailOk(line, sp.headEnd)
  }

  /** The pattern from the `id` group on matches with these boundaries. */
  predicate FromId(line: string, sp: Spans) {
    sp.idStart < sp.idEnd && All(line, sp.idStart, sp.idEnd, IdChar) && HeadPart(line, sp)
  }

  /**
   Characters `\*?` consumes. A leading `*` has to be taken: the separator
   class that must follow does not admit it.
   */
  function StarLen(line: string): (n: nat)
    ensures n <= |line|
  {
    if |line| > 0 && line[0] == '*' then 1 else 0
  }

  /** The whole line matches the pattern with these group boundaries. */
  predicate Accepts(line: string, sp: Spans) {
    && StarLen(line) < sp.idStart
    && All(line, StarLen(line), sp.idStart, SepChar)
    && FromId(line, sp)
  }

  /**
   `a` comes no later than `b` in the order a backtracking engine tries
   matches: each greedy `+` tries its longest run first, so earlier means
   lexicographically larger boundaries.
   */
  predicate Below(a: Spans, b: Spans) {
    || a.idStart < b.idStart
    || (a.idStart == b.idStart && a.idEnd < b.idEnd)
    || (a.idStart == b.idStart && a.idEnd == b.idEnd && a.headStart < b.headStart)
    || (a.idStart == b.idStart && a.idEnd == b.idEnd && a.headStart == b.headStart && a.headEnd <= b.headEnd)
  }

  /**
   Once the `id` group ends, the rest has one way to match at most: the
   separators run to the first non-separator, and the hex head runs to the
   first non-hex character, since neither class shares a character with the
   class that follows it.
   */
  function HeadAfter(line: string, idStart: nat, idEnd: nat): (r: Option<Spans>)
    requires idEnd <= |line|
    ensures r.Some? ==> r.value.idStart == idStart && r.value.idEnd == idEnd
  {
    var hs := idEnd + RunLength(line, idEnd, SepChar);
    var he := hs + RunLength(line, hs, HexChar);
    if idEnd < hs < he && TailOk(line, he) then Some(Spans(idStart, idEnd, hs, he)) else None
  }

  /** A continuation `HeadAfter` returns matches the rest of the pattern. */
  lemma HeadAfterSound(line: string, idStart: nat, idEnd: nat)
    requires idEnd <= |line|
    ensures var r := HeadAfter(line, idStart, idEnd); r.Some? ==> HeadPart(line, r.value)
  {
  }

  /** Every way for the rest to match is the one `HeadAfter` finds. */
  lemma HeadDetermined(line: string, sp: Spans)
    requires HeadPart(line, sp)
    ensures HeadAfter(line, sp.idStart, sp.idEnd) == Some(sp)
  {
    RunLengthBound(line, sp.idEnd, sp.headStart, SepChar);
    assert In(HexChar, line[sp.headStart]);
    RunLengthStops(line, sp.idEnd, sp.headStart, SepChar);
    RunLengthBound(line, sp.headStart, sp.headEnd, HexChar);
    RunLengthStops(line, sp.headStart, sp.headEnd, HexChar);
  }

  /**
   How a backtracking engine tries a greedy `+`: candidate ends `lo + k`,
   `lo + k - 1`, ..., `lo + 1` in turn, until the rest of the pattern
   matches after one of them.
   */
  function FirstHit<T>(probe: nat -> Option<T>, lo: nat, k: nat): Option<T>
    decreases k
  {
    if k == 0 then None
    else if probe(lo + k).Some? then probe(lo + k)
    else FirstHit(probe, lo, k - 1)
  }

  /** Whatever the search returns, some candidate in range returned it. */
  lemma {:induction false} FirstHitSound<T>(probe: nat -> Option<T>, lo: nat, k: nat)
    ensures FirstHit(probe, lo, k).Some? ==> exists j :: lo < j <= lo + k && probe(j) == FirstHit(probe, lo, k)
    decreases k
  {
    if k > 0 && probe(lo + k).None? {
      FirstHitSound(probe, lo, k - 1);
    }
  }

  /** When candidate `j` succeeds, the search succeeds too, with `j` or a larger candidate. */
  lemma {:induction false} FirstHitComplete<T>(probe: nat -> Option<T>, lo: nat, k: nat, j: nat)
    requires lo < j <= lo + k && probe(j).Some?
    ensures FirstHit(probe, lo, k).Some?
    ensures exists m :: j <= m <= lo + k && probe(m) == FirstHit(probe, lo, k)
    decreases k
  {
    if probe(lo + k).None? {
      FirstHitComplete(probe, lo, k - 1, j);
    }
  }

  /** The continuation after an `id` group from `idStart` to the candidate end. */
  function IdEndProbe(line: string, idStart: nat): nat -> Option<Spans> {
    (idEnd: nat) => if idEnd <= |line| then HeadAfter(line, idStart, idEnd) else None
  }

  /** Tries `id` ends `idStart + k`, `idStart + k - 1`, ..., `idStart + 1`, in that order. */
  function SearchIdEnd(line: string, idStart: nat, k: nat): Option<Spans> {
    FirstHit(IdEndProbe(line, idStart), idStart, k)
  }

  /** Whatever the search finds is a match starting at `idStart`, with its `id` end in range. */
  lemma SearchIdEndSound(line: string, idStart: nat, k: nat)
    requires All(line, idStart, idStart + k, IdChar)
    ensures var r := SearchIdEnd(line, idStart, k);
      r.Some? ==> r.value.idStart == idStart && r.value.idEnd <= idStart + k && FromId(line, r.value)
  {
    var probe := IdEndProbe(line, idStart);
    FirstHitSound(probe, idStart, k);
    if FirstHit(probe, idStart, k).Some? {
      var j :| idStart < j <= idStart + k && probe(j) == FirstHit(probe, idStart, k);
      HeadAfterSound(line, idStart, j);
    }
  }

  /** The search finds a match whenever one exists within its range, and the first one in backtracking order. */
  lemma SearchIdEndComplete(line: string, idStart: nat, k: nat, sp: Spans)
    requires sp.idStart == idStart < sp.idEnd <= idStart + k && sp.idEnd <= |line|
    requires HeadAfter(line, idStart, sp.idEnd) == Some(sp)
    ensures SearchIdEnd(line, idStart, k).Some? && Below(sp, SearchIdEnd(line, idStart, k).value)
  {
    var probe := IdEndProbe(line, idStart);
    assert probe(sp.idEnd) == Some(sp);
    FirstHitComplete(probe, idStart, k, sp.idEnd);
    var m :| sp.idEnd <= m <= idStart + k && probe(m) == FirstHit(probe, idStart, k);
  }

  /** The `id`-end search from `idStart`, over the longest run of `id` characters there. */
  function SearchFrom(line: string, idStart: nat): Option<Spans>
    requires idStart <= |line|
  {
    SearchIdEnd(line, idStart, RunLength(line, idStart, IdChar))
  }

  /** The match found from the candidate `id` start. */
  function IdStartProbe(line: string): nat -> Option<Spans> {
    (idStart: nat) => if idStart <= |line| then SearchFrom(line, idStart) else None
  }

  /** Tries `id` starts `s0 + k`, ..., `s0 + 1`, and for each the longest `id` first. */
  function SearchIdStart(line: string, s0: nat, k: nat): Option<Spans> {
    FirstHit(IdStartProbe(line), s0, k)
  }

  /** Whatever the search finds is a match whose `id` starts after `s0`, past separators only. */
  lemma SearchIdStartSound(line: string, s0: nat, k: nat)
    requires All(line, s0, s0 + k, SepChar)
    ensures var r := SearchIdStart(line, s0, k);
      r.Some? ==> s0 < r.value.idStart <= s0 + k && All(line, s0, r.value.idStart, SepChar) && FromId(line, r.value)
  {
    var probe := IdStartProbe(line);
    FirstHitSound(probe, s0, k);
    if FirstHit(probe, s0, k).Some? {
      var j :| s0 < j <= s0 + k && probe(j) == FirstHit(probe, s0, k);
      SearchIdEndSound(line, j, RunLength(line, j, IdChar));
    }
  }

  /** A match whose `id` starts at `idStart` is found by the `id`-end search from there. */
  lemma SearchFromStart(line: string, idStart: nat, sp: Spans)
    requires idStart <= |line| && sp.idStart == idStart && FromId(line, sp)
    ensures SearchFrom(line, idStart).Some? && Below(sp, SearchFrom(line, idStart).value)
  {
    RunLengthBound(line, sp.idStart, sp.idEnd, IdChar);
    HeadDetermined(line, sp);
    SearchIdEndComplete(line, idStart, RunLength(line, idStart, IdChar), sp);
  }

  /** The search finds a match whenever one starts its `id` within range, and the first one in backtracking order. */
  lemma SearchIdStartComplete(line: string, s0: nat, k: nat, sp: Spans)
    requires s0 < sp.idStart <= s0 + k <= |line| && FromId(line, sp)
    ensures SearchIdStart(line, s0, k).Some? && Below(sp, SearchIdStart(line, s0, k).value)
  {
    var probe := IdStartProbe(line);
    SearchFromStart(line, sp.idStart, sp);
    assert probe(sp.idStart) == SearchFrom(line, sp.idStart);
    FirstHitComplete(probe, s0, k, sp.idStart);
    var m :| sp.idStart <= m <= s0 + k && probe(m) == FirstHit(probe, s0, k);
    if m > sp.idStart {
      SearchIdEndSound(line, m, RunLength(line, m, IdChar));
    }
  }

  /** The group boundaries Go's regexp reports for `line`, if it matches. */
  function FindSpans(line: string): (r: Option<Spans>)
    ensures r.Some? ==> Accepts(line, r.value)
  {
    SearchIdStartSound(line, StarLen(line), RunLength(line, StarLen(line), SepChar));
    SearchIdStart(line, StarLen(line), RunLength(line, StarLen(line), SepChar))
  }

  /** Every match of the line comes no later than the reported one: the report is the leftmost-first match. */
  lemma FindSpansFirst(line: string, sp: Spans)
    requires Accepts(line, sp)
    ensures FindSpans(line).Some? && Below(sp, FindSpans(line).value)
  {
    var s0 := StarLen(line);
    RunLengthBound(line, s0, sp.idStart, SepChar);
    SearchIdStartComplete(line, s0, RunLength(line, s0, SepChar), sp);
  }

  /** The reported boundaries belong to the match every other match follows in backtracking order. */
  ghost predicate FirstMatch(line: string, sp: Spans) {
    Accepts(line, sp) && forall other :: Accepts(line, other) ==> Below(other, sp)
  }

  /** The branch a match describes: the two groups, and whether the line starts with `*`. */
  function BranchOf(line: string, sp: Spans): (b: Branch)
    requires Accepts(line, sp)
    ensures b.id == line[sp.idStart..sp.idEnd] && b.head == line[sp.headStart..sp.headEnd]
    ensures b.isCurrent <==> line[0] == '*'
    ensures forall k :: 0 <= k < |b.id| ==> In(IdChar, b.id[k])
    ensures forall k :: 0 <= k < |b.head| ==> In(HexChar, b.head[k])
  {
    AllSlice(line, sp.idStart, sp.idEnd, IdChar);
    AllSlice(line, sp.headStart, sp.headEnd, HexChar);
    Branch(line[sp.idStart..sp.idEnd], line[sp.headStart..sp.headEnd], line[0] == '*')
  }

  /** One iteration of the reader: the branch of a matching line, nothing for any other line. */
  function MatchLine(line: string): (r: Option<Branch>)
    ensures r.Some? ==> |line| > 0 && (r.value.isCurrent <==> line[0] == '*')
    ensures r.Some? ==> |r.value.id| > 0 && forall k :: 0 <= k < |r.value.id| ==> !IsSpace(r.value.id[k])
    ensures r.Some? ==> |r.value.head| > 0 && forall k :: 0 <= k < |r.value.head| ==> In(HexChar, r.value.head[k])
  {
    match FindSpans(line)
    case None => None
    case Some(sp) => Some(BranchOf(line, sp))
  }

  /** A line yields a branch exactly when it matches the pattern. */
  lemma MatchLineIff(line: string)
    ensures MatchLine(line).Some? <==> exists sp :: Accepts(line, sp)
  {
    if sp :| Accepts(line, sp) {
      FindSpansFirst(line, sp);
    }
  }

  /** The branch a line yields is the one built from the leftmost-first match, and only that one. */
  lemma MatchLineFirst(line: string, b: Branch)
    ensures MatchLine(line) == Some(b) <==> exists sp :: FirstMatch(line, sp) && b == BranchOf(line, sp)
  {
    var r := FindSpans(line);
    if r.Some? {
      forall other | Accepts(line, other)
        ensures Below(other, r.value)
      {
        FindSpansFirst(line, other);
      }
      assert FirstMatch(line, r.value);
      if sp :| FirstMatch(line, sp) && b == BranchOf(line, sp) {
        assert Below(r.value, sp);
        FindSpansFirst(line, sp);
        assert sp == r.value;
      }
    } else {
      if sp :| FirstMatch(line, sp) && b == BranchOf(line, sp) {
        FindSpansFirst(line, sp);
      }
    }
  }

  /** The results `f` gives the lines, in line order; lines it gives nothing for are skipped. */
  function Collect<T>(f: string -> Option<T>, lines: seq<string>): seq<T>
  {
    if |lines| == 0 then []
    else (match f(lines[0]) case Some(x) => [x] case None => []) + Collect(f, lines[1..])
  }

  lemma CollectOne<T>(f: string -> Option<T>, line: string)
    ensures Collect(f, [line]) == (if f(line).Some? then [f(line).value] else [])
  {
    assert [line][1..] == [];
  }

  lemma {:induction false} CollectAppend<T>(f: string -> Option<T>, a: seq<string>, b: seq<string>)
    ensures Collect(f, a + b) == Collect(f, a) + Collect(f, b)
    decreases |a|
  {
    if |a| > 0 {
      assert (a + b)[0] == a[0];
      assert (a + b)[1..] == a[1..] + b;
      CollectAppend(f, a[1..], b);
    } else {
      assert a + b == b;
    }
  }

  lemma {:induction false} CollectMembers<T>(f: string -> Option<T>, lines: seq<string>, x: T)
    ensures x in Collect(f, lines) <==> exists k :: 0 <= k < |lines| && f(lines[k]) == Some(x)
    decreases |lines|
  {
    if |lines| > 0 {
      CollectMembers(f, lines[1..], x);
      if k :| 0 <= k < |lines| && f(lines[k]) == Some(x) {
        if k > 0 {
          assert lines[1..][k - 1] == lines[k];
        }
      }
      if k :| 0 <= k < |lines[1..]| && f(lines[1..][k]) == Some(x) {
        assert lines[k + 1] == lines[1..][k];
      }
    }
  }

  lemma {:induction false} CollectCount<T>(f: string -> Option<T>, lines: seq<string>)
    ensures |Collect(f, lines)| <= |lines|
    decreases |lines|
  {
    if |lines| > 0 {
      CollectCount(f, lines[1..]);
    }
  }

  /** The reader loop of `Git.ReadBranches`: matching lines become branches in order, the others are skipped. */
  function ParseBranches(lines: seq<string>): seq<Branch>
  {
    Collect(MatchLine, lines)
  }

  /** One line on its own: its branch if it matches, nothing otherwise. */
  lemma ParseBranchesLine(line: string)
    ensures ParseBranches([line]) == (if MatchLine(line).Some? then [MatchLine(line).value] else [])
  {
    CollectOne(MatchLine, line);
  }

  /** Parsing is line by line: the branches of two chunks of output are the branches of each, in order. */
  lemma ParseBranchesAppend(a: seq<string>, b: seq<string>)
    ensures ParseBranches(a + b) == ParseBranches(a) + ParseBranches(b)
  {
    CollectAppend(MatchLine, a, b);
  }

  /** A branch is emitted exactly when some line yields it. */
  lemma ParseBranchesMembers(lines: seq<string>, b: Branch)
    ensures b in ParseBranches(lines) <==> exists k :: 0 <= k < |lines| && MatchLine(lines[k]) == Some(b)
  {
    CollectMembers(MatchLine, lines, b);
  }

  /** No more branches than lines. */
  lemma ParseBranchesCount(lines: seq<string>)
    ensures |ParseBranches(lines)| <= |lines|
  {
    CollectCount(MatchLine, lines);
  }

  /** `Run` is `n` when `n` characters of `cls` are followed by the end of the line or another character. */
  lemma RunLengthIs(line: string, p: nat, cls: Class, n: nat)
    requires All(line, p, p + n, cls)
    requires p + n == |line| || !In(cls, line[p + n])
    ensures RunLength(line, p, cls) == n
  {
    RunLengthBound(line, p, p + n, cls);
  }

  /** A name that no separator character can cut short: non-empty, without white space, `+` or `|`. */
  predicate PlainName(s: string) {
    |s| > 0 && forall k :: 0 <= k < |s| ==> !In(SepChar, s[k])
  }

  /**
   A name git can print and the pattern reads back whole: non-empty, without
   white space, and not starting with `+` or `|`.
   */
  predicate PrintableName(s: string) {
    |s| > 0 && !In(SepChar, s[0]) && forall k :: 0 <= k < |s| ==> In(IdChar, s[k])
  }

  /** A non-empty string of hex digits. */
  predicate HexString(s: string) {
    |s| > 0 && forall k :: 0 <= k < |s| ==> In(HexChar, s[k])
  }

  /**
   A line as `git branch -v` prints it: a marker, a space, the name, the
   padding, a space, and what follows the name.
   */
  function BranchLine(marker: char, name: string, pad: nat, rest: string): string {
    [marker, ' '] + name + Repeat(' ', pad + 1) + rest
  }

  /**
   The markers git puts in front of a name: `*` for the checked-out branch,
   a space for the others, `+` for one checked out in another worktree.
   */
  predicate Marker(c: char) {
    c == '*' || c == ' ' || c == '+'
  }

  /** Where each part of a printed line sits. */
  lemma BranchLineChars(marker: char, name: string, pad: nat, rest: string)
    ensures var line := BranchLine(marker, name, pad, rest);
      && |line| == 2 + |name| + pad + 1 + |rest|
      && line[0] == marker && line[1] == ' '
      && (forall k :: 2 <= k < 2 + |name| ==> line[k] == name[k - 2])
      && (forall k :: 2 + |name| <= k < 2 + |name| + pad + 1 ==> line[k] == ' ')
      && (forall k :: 2 + |name| + pad + 1 <= k < |line| ==> line[k] == rest[k - (2 + |name| + pad + 1)])
  {
  }

  /** The group boundaries of a printed line: the name, and the head after the padding. */
  function PrintedSpans(name: string, pad: nat, head: string): Spans {
    Spans(2, 2 + |name|, 2 + |name| + pad + 1, 2 + |name| + pad + 1 + |head|)
  }

  /** After the name of a printed line, the separators and the head are found where they were printed. */
  lemma PrintedHead(b: Branch, marker: char, pad: nat, subject: string)
    requires HexString(b.head) && '\n' !in subject
    ensures var line := BranchLine(marker, b.id, pad, b.head + " " + subject);
      HeadAfter(line, 2, 2 + |b.id|) == Some(PrintedSpans(b.id, pad, b.head))
  {
    var rest := b.head + " " + subject;
    var line := BranchLine(marker, b.id, pad, rest);
    var sp := PrintedSpans(b.id, pad, b.head);
    BranchLineChars(marker, b.id, pad, rest);
    assert forall k :: sp.headStart <= k < sp.headEnd ==> line[k] == b.head[k - sp.headStart];
    assert line[sp.headEnd] == ' ';
    assert forall k :: sp.headEnd < k < |line| ==> line[k] == subject[k - sp.headEnd - 1];
    RunLengthIs(line, sp.idEnd, SepChar, pad + 1);
    RunLengthIs(line, sp.headStart, HexChar, |b.head|);
    assert All(line, sp.headEnd + 1, |line|, MessageChar);
  }

  /** A printed line matches with the groups where they were printed. */
  lemma PrintedMatch(b: Branch, marker: char, pad: nat, subject: string)
    requires Marker(marker) && PrintableName(b.id) && HexString(b.head) && '\n' !in subject
    ensures FindSpans(BranchLine(marker, b.id, pad, b.head + " " + subject)) == Some(PrintedSpans(b.id, pad, b.head))
  {
    var rest := b.head + " " + subject;
    var line := BranchLine(marker, b.id, pad, rest);
    PrintedHead(b, marker, pad, subject);
    BranchLineChars(marker, b.id, pad, rest);
    var s0 := StarLen(line);
    RunLengthIs(line, s0, SepChar, 2 - s0);
    RunLengthIs(line, 2, IdChar, |b.id|);
  }

  /**
   A branch printed the way git prints it is read back unchanged, whatever
   the padding after its name and whatever its commit subject; it counts
   as current exactly when its marker is `*`.
   */
  lemma BranchLineRoundTrip(b: Branch, marker: char, pad: nat, subject: string)
    requires Marker(marker) && (b.isCurrent <==> marker == '*')
    requires PrintableName(b.id) && HexString(b.head) && '\n' !in subject
    ensures MatchLine(BranchLine(marker, b.id, pad, b.head + " " + subject)) == Some(b)
  {
    PrintedMatch(b, marker, pad, subject);
    PrintedGroups(marker, b.id, pad, b.head, subject);
  }

  /** The printed group boundaries cut out the name and the head again. */
  lemma PrintedGroups(marker: char, name: string, pad: nat, head: string, subject: string)
    ensures var line := BranchLine(marker, name, pad, head + " " + subject);
      var sp := PrintedSpans(name, pad, head);
      && line[0] == marker && sp.headEnd <= |line|
      && line[sp.idStart..sp.idEnd] == name && line[sp.headStart..sp.headEnd] == head
  {
    var rest := head + " " + subject;
    var line := BranchLine(marker, name, pad, rest);
    var sp := PrintedSpans(name, pad, head);
    BranchLineChars(marker, name, pad, rest);
    assert line[sp.idStart..sp.idEnd] == name;
    assert line[sp.headStart..sp.headEnd] == head;
  }

  /** In a printed line the `id` group can only be the whole name. */
  lemma NameGroupFixed(marker: char, name: string, pad: nat, rest: string, sp: Spans)
    requires Marker(marker) && PlainName(name)
    ensures Accepts(BranchLine(marker, name, pad, rest), sp) ==> sp.idStart == 2 && sp.idEnd == 2 + |name|
  {
    var line := BranchLine(marker, name, pad, rest);
    if Accepts(line, sp) {
      var s0 := StarLen(line);
      BranchLineChars(marker, name, pad, rest);
      RunLengthIs(line, s0, SepChar, 2 - s0);
      RunLengthBound(line, s0, sp.idStart, SepChar);
      assert In(IdChar, line[sp.idStart]);
      assert sp.idStart == 2;
      RunLengthIs(line, 2, IdChar, |name|);
      RunLengthBound(line, 2, sp.idEnd, IdChar);
      assert In(SepChar, line[sp.idEnd]);
      assert forall k :: 2 <= k < 2 + |name| ==> line[k] == name[k - 2];
    }
  }

  /** A line whose name is followed by something other than a hex head, such as `->`, yields no branch. */
  lemma NonHexTargetSkipped(marker: char, name: string, pad: nat, rest: string)
    requires Marker(marker) && PlainName(name) && |rest| > 0 && !In(HexChar, rest[0]) && !In(SepChar, rest[0])
    ensures MatchLine(BranchLine(marker, name, pad, rest)) == None
  {
    var line := BranchLine(marker, name, pad, rest);
    var idEnd := 2 + |name|;
    forall sp | Accepts(line, sp)
      ensures false
    {
      NameGroupFixed(marker, name, pad, rest, sp);
      HeadDetermined(line, sp);
      BranchLineChars(marker, name, pad, rest);
      RunLengthIs(line, idEnd, SepChar, pad + 1);
    }
    MatchLineIff(line);
  }

  /** The checked-out branch's line of `git branch -a -v`. */
  lemma CurrentBranchExample()
    ensures MatchLine("* master 747ad57 random commit") == Some(Branch("master", "747ad57", true))
  {
    assert Repeat(' ', 1) == [' '];
    CurrentBranchLineText();
    BranchLineRoundTrip(Branch("master", "747ad57", true), '*', 0, "random commit");
  }

  /** The symbolic-ref line is skipped: what follows the name is not a hex head. */
  lemma HeadPointerLineSkipped()
    ensures MatchLine("  remotes/origin/HEAD -> origin/master") == None
  {
    HeadPointerLineShape();
    HeadPointerNamePlain();
    NonHexTargetSkipped(' ', "remotes/origin/HEAD", 0, "-> origin/master");
  }

  lemma HeadPointerLineShape()
    ensures BranchLine(' ', "remotes/origin/HEAD", 0, "-> origin/master") == "  remotes/origin/HEAD -> origin/master"
  {
    HeadPointerLineText();
    assert Repeat(' ', 1) == [' '];
  }

  lemma HeadPointerLineText()
    ensures [' ', ' '] + "remotes/origin/HEAD" + [' '] + "-> origin/master" == "  remotes/origin/HEAD -> origin/master"
  {
  }

  lemma HeadPointerNamePlain()
    ensures PlainName("remotes/origin/HEAD")
  {
  }

  /** The `+` of a branch checked out in another worktree falls into the separator class: the branch is read, not as current. */
  lemma WorktreeBranchExample()
    ensures MatchLine("+ feature 1a2b3c4 wip") == Some(Branch("feature", "1a2b3c4", false))
  {
    assert Repeat(' ', 1) == [' '];
    WorktreeBranchLineText();
    BranchLineRoundTrip(Branch("feature", "1a2b3c4", false), '+', 0, "wip");
  }

  lemma CurrentBranchLineText()
    ensures ['*', ' '] + "master" + [' '] + ("747ad57" + " " + "random commit") == "* master 747ad57 random commit"
  {
  }

  lemma WorktreeBranchLineText()
    ensures ['+', ' '] + "feature" + [' '] + ("1a2b3c4" + " " + "wip") == "+ feature 1a2b3c4 wip"
  {
  }
}
