/** The whole way from the tokens to the page, as the visualizer goes it: the watcher arms at the
    end of the file, the page joins some time later, a snapshot of the file reaches it among the
    lines passed on. What the page then shows, and exactly when that is everything. */
module Watching {
  import opened Sequences
  import opened Text
  import opened Lines
  import opened Feed
  import opened Journal
  import opened Pipeline
  import opened Torn
  import opened Watcher
  import Json
  import Tail

  // --- Reading part of the journal's file ---------------------------------------------------------

  lemma TrimLeftIsSuffix(space: char -> bool, s: string) returns (k: nat)
    ensures k <= |s| && TrimLeft(space, s) == s[k..]
  {
    k := 0;
    assert s[0..] == s;
    while k < |s| && space(s[k])
      invariant k <= |s| && TrimLeft(space, s) == TrimLeft(space, s[k..])
    {
      assert s[k..][1..] == s[k + 1..];
      k := k + 1;
    }
  }

  lemma {:induction false} TrimRightIsPrefix(space: char -> bool, s: string)
    ensures TrimRight(space, s) <= s
  {
    if s != "" && space(s[|s| - 1]) {
      TrimRightIsPrefix(space, s[..|s| - 1]);
    }
  }

  /** The end of a line that was begun before reads as nothing. */
  lemma EndReadsAsNothing(line: Line, i: nat)
    requires 0 < i <= |EncodeLine(line)|
    ensures Tail.ParseLine(DecodeLine, EncodeLine(line)[i..]) == []
  {
    hide DecodeLine, EncodeLine;
    var e := EncodeLine(line);
    LineEnds(line);
    var k := TrimLeftIsSuffix(Tail.IsByteSpace, e[i..]);
    assert e[i..][k..] == e[i + k..];
    if i + k < |e| {
      EndDoesNotRead(line, i + k);
      assert e[i + k..][|e| - i - k - 1] == e[|e| - 1] == '}';
    }
  }

  lemma LineEnds(line: Line)
    ensures EncodeLine(line) != "" && EncodeLine(line)[0] == '{' && EncodeLine(line)[|EncodeLine(line)| - 1] == '}'
    ensures '\n' !in EncodeLine(line)
  {
    Json.EncodedIsOneLine(ToObject(line));
  }

  /** The start of a line reads as nothing until the whole of it is there. */
  lemma StartReadsWhole(line: Line, p: string)
    requires p <= EncodeLine(line)
    ensures Tail.ParseLine(DecodeLine, p) == if p == EncodeLine(line) then [line] else []
  {
    hide DecodeLine, EncodeLine;
    LineEnds(line);
    if p == EncodeLine(line) {
      LineRoundTrip(line);
    } else if p != "" {
      assert p[0] == EncodeLine(line)[0] == '{';
      TrimRightIsPrefix(Tail.IsByteSpace, p);
      StartDoesNotRead(line, Tail.Strip(p));
    }
  }

  // --- Where a file is cut ----------------------------------------------------------------------------

  /** The file holds n lines of the journal whole, and `rest` of the next. */
  ghost predicate Holds(lines: seq<Line>, content: string, n: nat, rest: string) {
    CutAt(FileLine, lines, n, content, rest)
  }

  lemma PrefixHolds(lines: seq<Line>, content: string) returns (n: nat, rest: string)
    requires content <= FileOf(lines)
    ensures Holds(lines, content, n, rest)
  {
    hide EncodeLine, FlatMap;
    n, rest := CutExists(FileLine, lines, content);
  }

  lemma PartOfLine(line: Line, rest: string)
    requires rest <= FileLine(line) && |rest| < |FileLine(line)|
    ensures rest <= EncodeLine(line) && '\n' !in rest
    ensures FileLine(line)[|rest|..] == EncodeLine(line)[|rest|..] + "\n"
  {
    hide EncodeLine;
    LineEnds(line);
    assert rest == FileLine(line)[..|rest|] == EncodeLine(line)[..|rest|];
  }

  lemma RestHasNoNewline(lines: seq<Line>, content: string, n: nat, rest: string)
    requires Holds(lines, content, n, rest)
    ensures '\n' !in rest
  {
    hide EncodeLine, FlatMap;
    if n < |lines| {
      PartOfLine(lines[n], rest);
    }
  }

  /** The pieces of such a file: n lines, and the part. */
  lemma PiecesOfHeld(lines: seq<Line>, content: string, n: nat, rest: string)
    requires Holds(lines, content, n, rest)
    ensures Complete(content) == Map(EncodeLine, lines[..n]) && Partial(content) == rest
  {
    hide EncodeLine, FlatMap, Split;
    FileSplitsIntoLines(lines[..n]);
    RestHasNoNewline(lines, content, n, rest);
    NoNewlineOnePiece(rest);
    SplitAppend(FileOf(lines[..n]), rest);
    GlueEmpty(Split(FileOf(lines[..n])), [rest]);
    var pieces := Map(EncodeLine, lines[..n]);
    assert (pieces + [""])[..|pieces|] == pieces;
    assert (pieces + [rest])[..|pieces|] == pieces;
  }

  lemma ParsesBack(lines: seq<Line>)
    ensures Tail.ParseAll(DecodeLine, Map(EncodeLine, lines)) == lines
  {
    hide EncodeLine, DecodeLine;
    forall i | 0 <= i < |lines|
      ensures Tail.ParseAll(DecodeLine, [EncodeLine(lines[i])]) == [lines[i]]
    {
      OneLineParsesBack(lines[i]);
    }
    LinesParseBack(DecodeLine, EncodeLine, lines);
  }

  /** How many lines a snapshot of such a file has: the whole ones, and the next when only its
      newline is missing. */
  function InSnapshot(lines: seq<Line>, n: nat, rest: string): (k: nat)
    requires n <= |lines|
    ensures k <= |lines|
  {
    if n < |lines| && rest == EncodeLine(lines[n]) then n + 1 else n
  }

  lemma SnapshotReads(lines: seq<Line>, content: string, n: nat, rest: string)
    requires Holds(lines, content, n, rest)
    ensures Tail.ReadWhole(DecodeLine, Some(content)) == lines[..InSnapshot(lines, n, rest)]
  {
    hide EncodeLine, DecodeLine, FlatMap, Tail.ParseLine, Complete, Partial;
    PiecesOfHeld(lines, content, n, rest);
    ParsesBack(lines[..n]);
    if n < |lines| {
      PartOfLine(lines[n], rest);
      StartReadsWhole(lines[n], rest);
      TakeSnoc(lines, n);
    } else {
      BlankReadsAsNothing();
    }
    assert lines[..n] + [] == lines[..n];
  }

  lemma BlankReadsAsNothing()
    ensures Tail.ParseLine(DecodeLine, "") == []
  {
  }

  /** Which line a watcher armed on such a file passes on first: one begun before is lost. */
  function FirstPassedOn(lines: seq<Line>, n: nat, rest: string): (r: nat)
    requires n <= |lines|
    ensures r <= |lines|
  {
    if n < |lines| && rest != "" then n + 1 else n
  }

  lemma FileAfter(lines: seq<Line>, content: string, n: nat, rest: string)
    requires Holds(lines, content, n, rest)
    ensures content <= FileOf(lines)
    ensures FileOf(lines)[|content|..] ==
            if n < |lines| && rest != "" then EncodeLine(lines[n])[|rest|..] + "\n" + FileOf(lines[n + 1..])
            else FileOf(lines[n..])
  {
    hide EncodeLine, FlatMap;
    Halves(lines, n);
    FlatMapAppend(FileLine, lines[..n], lines[n..]);
    if n < |lines| {
      FlatMapHead(FileLine, lines[n..]);
      assert lines[n..][1..] == lines[n + 1..];
      PartOfLine(lines[n], rest);
      CutTwice(FlatMap(FileLine, lines[..n]), FileLine(lines[n]), FileOf(lines[n + 1..]), rest);
    } else {
      assert lines[n..] == [] && content + FileOf([]) == FileOf(lines);
      NoLines();
    }
  }

  lemma NoLines()
    ensures FileOf([]) == ""
  {
  }

  lemma CutTwice(a: string, b: string, c: string, rest: string)
    requires rest <= b
    ensures a + rest <= a + (b + c) && (a + (b + c))[|a + rest|..] == b[|rest|..] + c
    ensures rest == "" ==> (a + (b + c))[|a + rest|..] == b + c
  {
  }

  /** Of a file armed on while it held `content`, the tail gives the lines from the first that had
      not been begun -- and nothing of the one half written then. */
  lemma ArmedTailReads(lines: seq<Line>, content: string, n: nat, rest: string)
    requires Holds(lines, content, n, rest)
    ensures content <= FileOf(lines)
    ensures Tail.Objects(DecodeLine, FileOf(lines)[|content|..]) == lines[FirstPassedOn(lines, n, rest)..]
  {
    hide EncodeLine, DecodeLine, FlatMap, Tail.ParseLine, Split;
    FileAfter(lines, content, n, rest);
    if n < |lines| && rest != "" {
      var end, later := EncodeLine(lines[n])[|rest|..], lines[n + 1..];
      PartOfLine(lines[n], rest);
      EndReadsAsNothing(lines[n], |rest|);
      EndIsOneLine(lines[n], |rest|);
      LaterLines(end, FileOf(later));
      FileSplitsIntoLines(later);
      assert (Map(EncodeLine, later) + [""])[..|later|] == Map(EncodeLine, later);
      ParsesBack(later);
      Tail.ParseAllAppend(DecodeLine, [end], Map(EncodeLine, later));
      FlatMapOne(Tail.LineParser(DecodeLine), end);
      assert [] + later == later;
    } else {
      JournalReadsBack(lines[n..]);
    }
  }

  lemma EndIsOneLine(line: Line, i: nat)
    requires i <= |EncodeLine(line)|
    ensures '\n' !in EncodeLine(line)[i..]
  {
    hide EncodeLine;
    LineEnds(line);
    forall j | 0 <= j < |EncodeLine(line)[i..]|
      ensures EncodeLine(line)[i..][j] != '\n'
    {
      assert EncodeLine(line)[i + j] in EncodeLine(line);
    }
  }

  lemma LaterLines(end: string, later: string)
    requires '\n' !in end
    ensures Complete(end + "\n" + later) == [end] + Complete(later)
  {
    hide Split;
    NoNewlineOnePiece(end);
    SplitEnded(end, later);
  }

  /** The watcher starts at end of file. With what it then passes on, what the file held is the
      whole journal if and only if no line was half written at that moment. */
  lemma ArmingOnTheJournalIsSafeExactlyWhen(lines: seq<Line>, content: string)
    requires content <= FileOf(lines)
    ensures Tail.Objects(DecodeLine, content) + Tail.Objects(DecodeLine, FileOf(lines)[|content|..]) == lines <==>
            Partial(content) == ""
  {
    hide EncodeLine, DecodeLine, FlatMap, Tail.ParseLine, Complete, Partial, FileOf;
    var n, rest := PrefixHolds(lines, content);
    PiecesOfHeld(lines, content, n, rest);
    ParsesBack(lines[..n]);
    ArmedTailReads(lines, content, n, rest);
    RestOnlyInside(lines, content, n, rest);
    Halves(lines, n);
    if rest != "" {
      assert |lines[..n] + lines[n + 1..]| < |lines|;
    }
  }

  lemma RestOnlyInside(lines: seq<Line>, content: string, n: nat, rest: string)
    requires Holds(lines, content, n, rest)
    ensures rest != "" ==> n < |lines|
  {
  }

  // --- The order the lines first come in ------------------------------------------------------------------

  /** The lines given so far are, first occurrences first, the journal's first c. */
  ghost predicate Covers(journal: seq<Line>, xs: seq<Line>, c: nat) {
    c <= |journal| && FirstOfEach(xs) == journal[..c] &&
    forall i :: 0 <= i < |journal| ==> (journal[i].no in LineNumbers(xs) <==> i < c)
  }

  lemma CoversSnoc(journal: seq<Line>, xs: seq<Line>, c: nat, j: nat)
    requires CountedUp(journal) && Covers(journal, xs, c) && j <= c && j < |journal|
    ensures Covers(journal, xs + [journal[j]], if j < c then c else c + 1)
  {
    hide FirstOfEach, LineNumbers;
    FirstOfEachSnoc(xs, journal[j]);
    NumbersSnoc(xs, journal[j]);
    if j == c {
      TakeSnoc(journal, c);
    }
  }

  /** Giving lines i to j, where the first is one already covered or the next, covers up to j. */
  lemma {:induction false} CoversRange(journal: seq<Line>, xs: seq<Line>, c: nat, i: nat, j: nat)
    requires CountedUp(journal) && Covers(journal, xs, c) && i <= c && i <= j <= |journal|
    ensures Covers(journal, xs + journal[i..j], if c < j then j else c)
    decreases j - i
  {
    hide Covers;
    if i == j {
      assert xs + journal[i..j] == xs;
    } else {
      CoversRange(journal, xs, c, i, j - 1);
      CoversSnoc(journal, xs + journal[i..j - 1], if c < j - 1 then j - 1 else c, j - 1);
      assert xs + journal[i..j - 1] + [journal[j - 1]] == xs + journal[i..j];
    }
  }

  lemma NothingCovered(journal: seq<Line>)
    ensures Covers(journal, [], 0)
  {
  }

  lemma {:induction false} FirstsAreGiven(xs: seq<Line>)
    ensures forall x :: x in FirstOfEach(xs) ==> x in xs
    ensures xs != [] ==> FirstOfEach(xs) != [] && FirstOfEach(xs)[0] == xs[0]
  {
    if xs != [] {
      hide FirstOfEach, LineNumbers;
      var n := |xs| - 1;
      FirstsAreGiven(xs[..n]);
      Unsnoc(xs);
      FirstOfEachSnoc(xs[..n], xs[n]);
      if n == 0 {
        NoNumbers();
        assert xs[..n] == [];
      }
    }
  }

  lemma NoNumbers()
    ensures LineNumbers([]) == {} && FirstOfEach([]) == []
  {
  }

  lemma Missing(journal: seq<Line>, xs: seq<Line>, k: nat)
    requires k < |journal| && journal[k] !in xs
    ensures FirstOfEach(xs) != journal
  {
    FirstsAreGiven(xs);
    assert journal[k] in journal;
  }

  /** A snapshot that clears the page, k lines in it, and the lines passed on from b on: everything
      in order exactly when what was passed on before is in the snapshot. */
  lemma ClearedExactlyWhen(journal: seq<Line>, b: nat, k: nat)
    requires CountedUp(journal) && b <= |journal| && k <= |journal|
    ensures FirstOfEach(journal[..k] + journal[b..]) == journal <==> b <= k
  {
    hide Covers, FirstOfEach;
    var n := |journal|;
    if b <= k {
      NothingCovered(journal);
      CoversRange(journal, [], 0, 0, k);
      assert [] + journal[0..k] == journal[..k];
      CoversRange(journal, journal[..k], k, b, n);
      CoversAll(journal, journal[..k] + journal[b..n]);
      assert journal[b..n] == journal[b..];
    } else {
      NotInParts(journal, b, k);
      Missing(journal, journal[..k] + journal[b..], k);
    }
  }

  lemma CoversAll(journal: seq<Line>, xs: seq<Line>)
    requires Covers(journal, xs, |journal|)
    ensures FirstOfEach(xs) == journal
  {
    assert journal[..|journal|] == journal;
  }

  lemma NotInParts(journal: seq<Line>, b: nat, k: nat)
    requires CountedUp(journal) && k < b <= |journal|
    ensures journal[k] !in journal[..k] + journal[b..]
  {
  }

  /** Without clearing: lines from r on, the snapshot after b of the journal's lines, and the rest. */
  lemma KeptExactlyWhen(journal: seq<Line>, r: nat, b: nat, k: nat)
    requires CountedUp(journal) && r <= b <= |journal| && k <= |journal|
    ensures FirstOfEach(journal[r..b] + journal[..k] + journal[b..]) == journal <==> r == 0 || (b == r && r <= k)
  {
    hide Covers, FirstOfEach;
    if r == 0 {
      var xs := journal[0..b];
      NothingCovered(journal);
      CoversRange(journal, [], 0, 0, b);
      assert [] + xs == xs;
      CoversRange(journal, xs, b, 0, k);
      assert journal[0..k] == journal[..k];
      CoversRange(journal, xs + journal[..k], if b < k then k else b, b, |journal|);
      assert journal[b..|journal|] == journal[b..];
      CoversAll(journal, xs + journal[..k] + journal[b..]);
    } else if b == r {
      ClearedExactlyWhen(journal, b, k);
      assert journal[r..b] == [] && [] + journal[..k] == journal[..k];
    } else {
      var xs := journal[r..b] + journal[..k] + journal[b..];
      FirstsAreGiven(xs);
      assert xs[0] == journal[r];
    }
  }

  // --- The page --------------------------------------------------------------------------------------------

  /** What comes to a page that joins when the line after r is next, is sent a snapshot with k
      lines before the line after b is passed on, and is passed on the rest. */
  function Deliveries(journal: seq<Line>, r: nat, b: nat, k: nat, active: Option<string>, task: Option<string>):
      seq<Delivery>
    requires r <= b <= |journal| && k <= |journal|
  {
    Map(Live, journal[r..b]) + [Snapshot(active, task, journal[..k])] + Map(Live, journal[b..])
  }

  /** The page shows its first slice: any id the snapshot names clears it. */
  predicate Clears(active: Option<string>, task: Option<string>) {
    SliceOf(active, task).Some?
  }

  lemma DeliveriesFollowed(journal: seq<Line>, r: nat, b: nat, k: nat, active: Option<string>, task: Option<string>)
    requires r <= b <= |journal| && k <= |journal|
    ensures Follow(Deliveries(journal, r, b, k, active, task)).lines ==
            (if Clears(active, task) then [] else journal[r..b]) + journal[..k] + journal[b..]
  {
    hide Follow;
    var first, shot := Map(Live, journal[r..b]), Snapshot(active, task, journal[..k]);
    NothingFollowed();
    FollowLive([], journal[r..b]);
    assert [] + first == first && [] + journal[r..b] == journal[r..b];
    FollowSnoc(first, shot);
    FollowLive(first + [shot], journal[b..]);
  }

  lemma NothingFollowed()
    ensures Follow([]) == Trail(None, [])
  {
  }

  /** Everything the journal holds is shown, in order, if and only if: the snapshot cleared the page
      and had every line passed on before it; or it did not clear it, and either the page was
      there from the first line, or nothing came before the snapshot and it leaves no gap. */
  predicate ShowsAll(r: nat, b: nat, k: nat, cleared: bool) {
    if cleared then b <= k else r == 0 || (b == r && r <= k)
  }

  lemma PageIsCompleteExactlyWhen(journal: seq<Line>, r: nat, b: nat, k: nat,
                                  active: Option<string>, task: Option<string>)
    requires CountedUp(journal) && r <= b <= |journal| && k <= |journal|
    ensures FirstOfEach(Follow(Deliveries(journal, r, b, k, active, task)).lines) == journal <==>
            ShowsAll(r, b, k, Clears(active, task))
  {
    hide FirstOfEach, Follow, Deliveries;
    DeliveriesFollowed(journal, r, b, k, active, task);
    if Clears(active, task) {
      ClearedExactlyWhen(journal, b, k);
      assert [] + journal[..k] == journal[..k];
    } else {
      KeptExactlyWhen(journal, r, b, k);
    }
  }

  // --- All the way ----------------------------------------------------------------------------------------

  // A way the visualizer can go: how the journals were polled, what the watched one held when its
  // offset was armed and when the snapshot was taken, how many of the lines passed on had gone
  // out before the page joined and before the snapshot reached it, and whose slice it showed.
  datatype Course = Course(polls: seq<Poll>, path: string, armed: string, snapshot: string, joined: nat, met: nat,
                           active: Option<string>, task: Option<string>)

  /** The watcher saw the journal grow to what it is, and the snapshot is of that same file. */
  ghost predicate Follows(c: Course, file: string) {
    && ArmedAt(c.path, c.polls) == Some(|c.armed|)
    && Tail.AppendOnly(c.armed, FilesOf(c.path, c.polls))
    && Tail.LastSeen(c.armed, FilesOf(c.path, c.polls)) == file
    && c.snapshot <= file
  }

  function PassedOn(c: Course): seq<Line> { SentOn(c.path, WatchAll(DecodeLine, c.polls).sent) }

  function Given(c: Course): seq<Delivery>
    requires c.joined <= c.met <= |PassedOn(c)|
  {
    Map(Live, PassedOn(c)[c.joined..c.met]) +
    [Snapshot(c.active, c.task, Tail.ReadWhole(DecodeLine, Some(c.snapshot)))] +
    Map(Live, PassedOn(c)[c.met..])
  }

  lemma PassedOnIs(lines: seq<Line>, c: Course) returns (r: nat)
    requires Follows(c, FileOf(lines))
    ensures r <= |lines| && PassedOn(c) == lines[r..]
    ensures r == |Complete(c.armed)| + if Partial(c.armed) == "" then 0 else 1
  {
    hide FileOf, Complete, Partial, Tail.Objects;
    EveryJournalIsPassedOn(DecodeLine, c.polls, c.path, c.armed);
    var n, rest := PrefixHolds(lines, c.armed);
    PiecesOfHeld(lines, c.armed, n, rest);
    ArmedTailReads(lines, c.armed, n, rest);
    RestOnlyInside(lines, c.armed, n, rest);
    r := FirstPassedOn(lines, n, rest);
  }

  lemma SnapshotIs(lines: seq<Line>, c: Course) returns (k: nat)
    requires Follows(c, FileOf(lines))
    ensures k <= |lines| && Tail.ReadWhole(DecodeLine, Some(c.snapshot)) == lines[..k]
    ensures |Complete(c.snapshot)| <= k <= |Complete(c.snapshot)| + 1
  {
    hide FileOf, Complete, Partial, Tail.ReadWhole, EncodeLine;
    var n, rest := PrefixHolds(lines, c.snapshot);
    PiecesOfHeld(lines, c.snapshot, n, rest);
    SnapshotReads(lines, c.snapshot, n, rest);
    k := InSnapshot(lines, n, rest);
  }

  lemma GivenIs(lines: seq<Line>, c: Course, r: nat, k: nat)
    requires r <= |lines| && PassedOn(c) == lines[r..] && c.joined <= c.met <= |PassedOn(c)|
    requires k <= |lines| && Tail.ReadWhole(DecodeLine, Some(c.snapshot)) == lines[..k]
    ensures Given(c) == Deliveries(lines, r + c.joined, r + c.met, k, c.active, c.task)
  {
    hide PassedOn, Tail.ReadWhole;
    assert lines[r..][c.joined..c.met] == lines[r + c.joined..r + c.met];
    assert lines[r..][c.met..] == lines[r + c.met..];
  }

  /** For every stream of notifications and every course: the lines the page is given since it was
      last cleared are the journal's, in order of first occurrence, if and only if the condition
      above holds of what the watcher passed on, the snapshot and the moment the two met -- and
      then the page's text, with what the journal still buffers, is the tokens'. */
  lemma WatchedPageShowsTheTokensExactlyWhen(notes: seq<Notification>, lines: seq<Line>, c: Course)
    returns (r: nat, k: nat)
    requires lines == NotifyAll(notes).lines && Follows(c, FileOf(lines)) && c.joined <= c.met <= |PassedOn(c)|
    ensures r == |Complete(c.armed)| + if Partial(c.armed) == "" then 0 else 1
    ensures k <= |lines| && Tail.ReadWhole(DecodeLine, Some(c.snapshot)) == lines[..k]
    ensures FirstOfEach(Follow(Given(c)).lines) == lines <==>
            ShowsAll(r + c.joined, r + c.met, k, Clears(c.active, c.task))
    ensures ShowsAll(r + c.joined, r + c.met, k, Clears(c.active, c.task)) ==>
              ShowsTheTokens(notes, DeliverAll(Given(c)).feed)
  {
    hide *;
    LinesAreNumbered(notes);
    r := PassedOnIs(lines, c);
    k := SnapshotIs(lines, c);
    GivenIs(lines, c, r, k);
    PageIsCompleteExactlyWhen(lines, r + c.joined, r + c.met, k, c.active, c.task);
    if ShowsAll(r + c.joined, r + c.met, k, Clears(c.active, c.task)) {
      CompletePageShowsTheTokens(notes, Given(c));
    }
  }
}
