/** End to end: tokens in, feed text out. The journal buffers, the tail polls, the page may see
    lines more than once -- and the text shown is the text sent. */
module Pipeline {
  import opened Sequences
  import opened Feed
  import opened Journal
  import opened Lines
  import Tail

  // --- The tail gives back the journal's lines -----------------------------------------------------

  lemma FileSnoc(lines: seq<Line>, line: Line)
    ensures FileOf(lines + [line]) == FileOf(lines) + (EncodeLine(line) + "\n")
    ensures Map(EncodeLine, lines + [line]) == Map(EncodeLine, lines) + [EncodeLine(line)]
  {
    hide EncodeLine;
    FlatMapSnoc(FileLine, lines, line);
  }

  lemma {:induction false} FileSplitsIntoLines(lines: seq<Line>)
    ensures Split(FileOf(lines)) == Map(EncodeLine, lines) + [""]
  {
    if lines != [] {
      var before, line := lines[..|lines| - 1], lines[|lines| - 1];
      FileSplitsIntoLines(before);
      LineRoundTrip(line);
      FileSnoc(before, line);
      EndedLine(FileOf(before), EncodeLine(line), Map(EncodeLine, before));
      Unsnoc(lines);
    }
  }

  lemma OneLineParsesBack(line: Line)
    ensures Tail.ParseAll(DecodeLine, [EncodeLine(line)]) == [line]
  {
    LineRoundTrip(line);
    FlatMapOne(Tail.LineParser(DecodeLine), EncodeLine(line));
  }

  /** A reader that reads back each line reads back all of them. */
  lemma {:induction false} LinesParseBack<T>(parse: string -> Option<T>, encode: T -> string, xs: seq<T>)
    requires forall i :: 0 <= i < |xs| ==> Tail.ParseAll(parse, [encode(xs[i])]) == [xs[i]]
    ensures Tail.ParseAll(parse, Map(encode, xs)) == xs
  {
    if xs == [] {
      assert Map(encode, xs) == [];
    } else {
      var before, x := xs[..|xs| - 1], xs[|xs| - 1];
      LinesParseBack(parse, encode, before);
      Tail.ParseAllAppend(parse, Map(encode, before), [encode(x)]);
      assert Map(encode, xs) == Map(encode, before) + [encode(x)];
    }
  }

  /** Reading the journal's file gives back the lines written to it, each once, in order. */
  lemma JournalReadsBack(lines: seq<Line>)
    ensures Tail.Objects(DecodeLine, FileOf(lines)) == lines
  {
    FileSplitsIntoLines(lines);
    var pieces := Split(FileOf(lines));
    assert pieces[..|pieces| - 1] == Map(EncodeLine, lines);
    forall i | 0 <= i < |lines|
      ensures Tail.ParseAll(DecodeLine, [EncodeLine(lines[i])]) == [lines[i]]
    {
      OneLineParsesBack(lines[i]);
    }
    LinesParseBack(DecodeLine, EncodeLine, lines);
  }

  // --- Text across the expansion ---------------------------------------------------------------------

  lemma ExpandKeepsText(line: Line, channel: string)
    ensures FlatMap(OnChannel(channel), ExpandLive(line)) == LineText(channel, line)
  {
    var f, events := OnChannel(channel), ExpandLive(line);
    if |events| == 1 {
      FlatMapOne(f, events[0]);
    } else {
      assert events == [events[0]] + [events[1]] + [events[2]];
      FlatMapAppend(f, [events[0]] + [events[1]], [events[2]]);
      FlatMapAppend(f, [events[0]], [events[1]]);
      FlatMapOne(f, events[0]);
      FlatMapOne(f, events[1]);
      FlatMapOne(f, events[2]);
    }
  }

  lemma {:induction false} ExpansionKeepsText(lines: seq<Line>, channel: string)
    ensures FlatMap(OnChannel(channel), FlatMap(ExpandLive, lines)) == FlatMap(LinesOn(channel), lines)
  {
    if lines != [] {
      var n := |lines| - 1;
      ExpansionKeepsText(lines[..n], channel);
      ExpandKeepsText(lines[n], channel);
      FlatMapAppend(OnChannel(channel), FlatMap(ExpandLive, lines[..n]), ExpandLive(lines[n]));
    }
  }

  // --- The theorem ------------------------------------------------------------------------------------

  /** What the journal still holds back for a channel. */
  function Pending(j: Log, channel: string): string { if j.channel == channel then j.buffer else "" }

  lemma FeedOfJournal(j: Log, ds: seq<Delivery>)
    requires CountedUp(j.lines) && FirstOfEach(Follow(ds).lines) == j.lines
    ensures var feed := DeliverAll(ds).feed;
            feed.answer == FlatMap(LinesOn("answer"), j.lines) &&
            Thoughts(feed) == FlatMap(LinesOn("thinking"), j.lines)
  {
    hide DeliverAll, HandleAll, Follow, FirstOfEach;
    DuplicatesChangeNothing(j.lines, ds);
    var events := FlatMap(ExpandLive, j.lines);
    FeedTextIsDeltaText(EMPTY_STATE, events);
    ExpansionKeepsText(j.lines, "answer");
    ExpansionKeepsText(j.lines, "thinking");
    assert EMPTY_STATE.answer == "" && Thoughts(EMPTY_STATE) == "";
  }

  /** What the page shows of the tokens sent: all of them but what the journal still buffers. */
  ghost predicate ShowsTheTokens(notes: seq<Notification>, feed: State) {
    feed.answer + Pending(NotifyAll(notes), "answer") == FlatMap(TokensOn("answer"), notes) &&
    Thoughts(feed) + Pending(NotifyAll(notes), "thinking") == FlatMap(TokensOn("thinking"), notes)
  }

  /** Whatever comes to the page, when the lines given it since it was last cleared are, in order
      of first occurrence, the journal's, its text is the tokens'. */
  lemma CompletePageShowsTheTokens(notes: seq<Notification>, ds: seq<Delivery>)
    requires FirstOfEach(Follow(ds).lines) == NotifyAll(notes).lines
    ensures ShowsTheTokens(notes, DeliverAll(ds).feed)
  {
    hide DeliverAll, Follow, FirstOfEach, NotifyAll;
    LinesAreNumbered(notes);
    FeedOfJournal(NotifyAll(notes), ds);
    JournalHoldsTheTokens(notes, "answer");
    JournalHoldsTheTokens(notes, "thinking");
  }

  /** For every stream of notifications, every schedule of polls that sees the journal's file
      grow to what it is, and every delivery that repeats lines at will but first shows them as
      the tail read them: the feed's answer and thoughts, with what the journal still buffers,
      are exactly the tokens sent on each channel. */
  lemma FeedTextIsTokenText(notes: seq<Notification>, polls: seq<Option<string>>, ds: seq<Delivery>)
    requires Tail.AppendOnly("", polls) && Tail.LastSeen("", polls) == FileOf(NotifyAll(notes).lines)
    requires FirstOfEach(Follow(ds).lines) == Tail.ReadAll(DecodeLine, 0, polls).objects
    ensures ShowsTheTokens(notes, DeliverAll(ds).feed)
  {
    hide DeliverAll, Follow, FirstOfEach, NotifyAll, ShowsTheTokens;
    Tail.TailIsTheWholeFile(DecodeLine, polls);
    JournalReadsBack(NotifyAll(notes).lines);
    CompletePageShowsTheTokens(notes, ds);
  }

  /** Such a schedule always exists: one poll of the whole file, delivered once. */
  lemma OnePollIsASchedule(notes: seq<Notification>)
    ensures var lines := NotifyAll(notes).lines;
            var polls := [Some(FileOf(lines))];
            Tail.AppendOnly("", polls) && Tail.LastSeen("", polls) == FileOf(lines) &&
            FirstOfEach(Follow(Map(Live, lines)).lines) == Tail.ReadAll(DecodeLine, 0, polls).objects
  {
    hide NotifyAll, FirstOfEach, FileOf, DecodeLine;
    var lines := NotifyAll(notes).lines;
    var polls := [Some(FileOf(lines))];
    assert polls[..0] == [];
    Tail.TailIsTheWholeFile(DecodeLine, polls);
    JournalReadsBack(lines);
    LinesAreNumbered(notes);
    DistinctLinesStay(lines);
    FollowLive([], lines);
    assert [] + Map(Live, lines) == Map(Live, lines) && [] + lines == lines;
  }

  function Live(line: Line): Delivery { LiveEvent(line) }

  lemma {:induction false} FollowLive(ds: seq<Delivery>, lines: seq<Line>)
    ensures Follow(ds + Map(Live, lines)) == Trail(Follow(ds).slice, Follow(ds).lines + lines)
  {
    if lines == [] {
      assert ds + Map(Live, lines) == ds && Follow(ds).lines + lines == Follow(ds).lines;
    } else {
      var n := |lines| - 1;
      FollowLive(ds, lines[..n]);
      assert Map(Live, lines) == Map(Live, lines[..n]) + [LiveEvent(lines[n])];
      FollowSnoc(ds + Map(Live, lines[..n]), LiveEvent(lines[n]));
      Associative(ds, Map(Live, lines[..n]), [LiveEvent(lines[n])]);
      Unsnoc(lines);
      Associative(Follow(ds).lines, lines[..n], [lines[n]]);
    }
  }

  lemma FollowSnoc(ds: seq<Delivery>, d: Delivery)
    ensures Follow(ds + [d]) == Followed(Follow(ds), d)
  {
    assert (ds + [d])[..|ds|] == ds;
  }

  /** Once the journal is flushed, as it is when it closes, nothing is held back. */
  lemma ClosedJournalShowsEverything(notes: seq<Notification>, polls: seq<Option<string>>, ds: seq<Delivery>)
    requires Tail.AppendOnly("", polls) && Tail.LastSeen("", polls) == FileOf(NotifyAll(notes + [Flush]).lines)
    requires FirstOfEach(Follow(ds).lines) == Tail.ReadAll(DecodeLine, 0, polls).objects
    ensures var feed := DeliverAll(ds).feed;
            feed.answer == FlatMap(TokensOn("answer"), notes) &&
            Thoughts(feed) == FlatMap(TokensOn("thinking"), notes)
  {
    hide DeliverAll, Follow, FirstOfEach, FileOf, DecodeLine;
    FeedTextIsTokenText(notes + [Flush], polls, ds);
    NothingPendsAfterFlush(notes, "answer");
    NothingPendsAfterFlush(notes, "thinking");
    var feed := DeliverAll(ds).feed;
    assert feed.answer + "" == feed.answer && Thoughts(feed) + "" == Thoughts(feed);
  }

  lemma NothingPendsAfterFlush(notes: seq<Notification>, channel: string)
    ensures Pending(NotifyAll(notes + [Flush]), channel) == ""
    ensures FlatMap(TokensOn(channel), notes + [Flush]) == FlatMap(TokensOn(channel), notes)
  {
    assert (notes + [Flush])[..|notes|] == notes;
    FlatMapSnoc(TokensOn(channel), notes, Flush);
    assert FlatMap(TokensOn(channel), notes) + "" == FlatMap(TokensOn(channel), notes);
  }
}
