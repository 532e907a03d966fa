/** A whole visit of a page to the visualizer: it misses what is sent while it is not connected, is
    sent a snapshot whenever it connects and whenever another slice becomes active, and is told of
    task files. When what it shows is then exactly the watched journal, in order. */
module Visits {
  import opened Sequences
  import opened Lines
  import opened Feed
  import opened Journal
  import opened Pipeline
  import opened Watcher
  import opened Watching
  import Tail

  // What happens to the page, the lines of the watched journal being sent one after another.
  datatype Step =
    | Passed
    | Missed
    | Met(active: Option<string>, task: Option<string>, snapshot: string)
    | Told(id: string)

  /** How many lines have been sent. */
  function Sent(steps: seq<Step>): nat {
    if steps == [] then 0
    else Sent(steps[..|steps| - 1]) + if steps[|steps| - 1].Passed? || steps[|steps| - 1].Missed? then 1 else 0
  }

  function LinesIn(snapshot: string): seq<Line> { Tail.ReadWhole(DecodeLine, Some(snapshot)) }

  function GivenAt(passed: seq<Line>, before: seq<Step>, step: Step): seq<Delivery>
    requires Sent(before) + (if step.Passed? then 1 else 0) <= |passed|
  {
    match step
    case Passed => [LiveEvent(passed[Sent(before)])]
    case Missed => []
    case Met(active, task, snapshot) => [Snapshot(active, task, LinesIn(snapshot))]
    case Told(id) => [TaskUpdated(id)]
  }

  /** What comes to the page. */
  function GivenBy(passed: seq<Line>, steps: seq<Step>): seq<Delivery>
    requires Sent(steps) <= |passed|
  {
    if steps == [] then []
    else
      var before := steps[..|steps| - 1];
      GivenBy(passed, before) + GivenAt(passed, before, steps[|steps| - 1])
  }

  // --- What it shows without a gap ---------------------------------------------------------------

  // The slice the page is of, and how many of the journal's lines it shows: None when a line is
  // missing, or out of its place.
  datatype Shown = Shown(slice: Option<string>, upTo: Option<nat>)

  /** A step that clears the page: an id it is not of. */
  predicate ClearsPage(slice: Option<string>, step: Step) {
    match step
    case Met(active, task, _) =>
      var id := SliceOf(active, task);
      (id.Some? && id != slice) || (task.Some? && task.value != "" && task != id)
    case Told(id) => id != "" && slice != Some(id)
    case _ => false
  }

  function SliceAfter(slice: Option<string>, step: Step): Option<string> {
    match step
    case Met(active, task, _) => if task.Some? && task.value != "" then task else SliceOf(active, task)
    case Told(id) => if id == "" then slice else Some(id)
    case _ => slice
  }

  function Longer(a: nat, b: nat): nat { if a < b then b else a }

  /** A line fits when it is one already shown or the next; a snapshot always does. */
  function Extend(r: nat, sent: nat, upTo: Option<nat>, step: Step): Option<nat> {
    if upTo.None? then None
    else match step
      case Passed => if r + sent <= upTo.value then Some(Longer(upTo.value, r + sent + 1)) else None
      case Met(_, _, snapshot) => Some(Longer(upTo.value, |LinesIn(snapshot)|))
      case _ => upTo
  }

  /** A cleared page starts from nothing. */
  function ShownAfter(r: nat, before: Shown, sent: nat, step: Step): Shown {
    var upTo := if ClearsPage(before.slice, step) then Some(0) else before.upTo;
    Shown(SliceAfter(before.slice, step), Extend(r, sent, upTo, step))
  }

  function ShownBy(r: nat, start: Shown, steps: seq<Step>): Shown {
    if steps == [] then start
    else
      var before := steps[..|steps| - 1];
      ShownAfter(r, ShownBy(r, start, before), Sent(before), steps[|steps| - 1])
  }

  // --- It shows just that ------------------------------------------------------------------------

  /** Lines that are not the journal's first, and will not be whatever comes after them. */
  ghost predicate Broken(journal: seq<Line>, xs: seq<Line>) { !(FirstOfEach(xs) <= journal) }

  lemma {:induction false} FirstsStay(xs: seq<Line>, ys: seq<Line>)
    ensures FirstOfEach(xs) <= FirstOfEach(xs + ys)
  {
    if ys == [] {
      assert xs + ys == xs;
    } else {
      hide FirstOfEach, LineNumbers;
      var n := |ys| - 1;
      FirstsStay(xs, ys[..n]);
      FirstOfEachSnoc(xs + ys[..n], ys[n]);
      Unsnoc(ys);
      Associative(xs, ys[..n], [ys[n]]);
    }
  }

  lemma BrokenStays(journal: seq<Line>, xs: seq<Line>, ys: seq<Line>)
    requires Broken(journal, xs)
    ensures Broken(journal, xs + ys)
  {
    hide FirstOfEach;
    FirstsStay(xs, ys);
  }

  lemma GapBreaks(journal: seq<Line>, xs: seq<Line>, c: nat, i: nat)
    requires CountedUp(journal) && Covers(journal, xs, c) && c < i < |journal|
    ensures Broken(journal, xs + [journal[i]])
  {
    hide FirstOfEach, LineNumbers;
    FirstOfEachSnoc(xs, journal[i]);
    assert FirstOfEach(xs + [journal[i]])[c] == journal[i];
    assert journal[i].no != journal[c].no;
  }

  /** The page's lines are the journal's first so many, or hopeless. */
  ghost predicate Fits(journal: seq<Line>, t: Trail, s: Shown) {
    s.slice == t.slice &&
    match s.upTo
    case Some(c) => Covers(journal, t.lines, c)
    case None => Broken(journal, t.lines)
  }

  lemma ClearingFollowed(t: Trail, step: Step)
    requires step.Met?
    ensures var u := SnapshotFollowed(t, step.active, step.task);
            u.slice == SliceAfter(t.slice, step) && u.lines == if ClearsPage(t.slice, step) then [] else t.lines
  {
  }

  lemma TellingFollowed(t: Trail, step: Step)
    requires step.Told?
    ensures var u := TaskFollowed(t, step.id);
            u.slice == SliceAfter(t.slice, step) && u.lines == if ClearsPage(t.slice, step) then [] else t.lines
  {
  }

  /** What a step gives the page, after clearing it or not. */
  function StepLines(passed: seq<Line>, sent: nat, step: Step): seq<Line>
    requires step.Passed? ==> sent < |passed|
  {
    match step
    case Passed => [passed[sent]]
    case Met(_, _, snapshot) => LinesIn(snapshot)
    case _ => []
  }

  lemma StepFollowed(passed: seq<Line>, ds: seq<Delivery>, before: seq<Step>, step: Step)
    requires Sent(before) + (if step.Passed? then 1 else 0) <= |passed|
    ensures var t := Follow(ds);
            Follow(ds + GivenAt(passed, before, step)) ==
            Trail(SliceAfter(t.slice, step),
                  (if ClearsPage(t.slice, step) then [] else t.lines) + StepLines(passed, Sent(before), step))
  {
    hide Follow, ClearsPage, SliceAfter, LinesIn, Sent;
    var t := Follow(ds);
    match step
    case Passed =>
      FollowSnoc(ds, LiveEvent(passed[Sent(before)]));
      NotClearing(t.slice, step);
    case Missed =>
      assert ds + [] == ds && t.lines + [] == t.lines;
      NotClearing(t.slice, step);
    case Met(active, task, snapshot) =>
      FollowSnoc(ds, Snapshot(active, task, LinesIn(snapshot)));
      ClearingFollowed(t, step);
    case Told(id) =>
      FollowSnoc(ds, TaskUpdated(id));
      TellingFollowed(t, step);
      assert forall xs: seq<Line> :: xs + [] == xs;
  }

  lemma NotClearing(slice: Option<string>, step: Step)
    requires step.Passed? || step.Missed?
    ensures !ClearsPage(slice, step) && SliceAfter(slice, step) == slice
  {
  }

  lemma ExtendFits(journal: seq<Line>, r: nat, sent: nat, xs: seq<Line>, upTo: Option<nat>, step: Step)
    requires CountedUp(journal) && r <= |journal|
    requires if upTo.Some? then Covers(journal, xs, upTo.value) else Broken(journal, xs)
    requires step.Passed? ==> r + sent < |journal|
    requires step.Met? ==> LinesIn(step.snapshot) <= journal
    ensures var xs' := xs + StepLines(journal[r..], sent, step);
            match Extend(r, sent, upTo, step)
            case Some(c) => Covers(journal, xs', c)
            case None => Broken(journal, xs')
  {
    hide Covers, Broken, LinesIn;
    var more := StepLines(journal[r..], sent, step);
    if upTo.None? {
      BrokenStays(journal, xs, more);
    } else if step.Passed? {
      var i := r + sent;
      assert more == [journal[i]];
      if i <= upTo.value {
        CoversSnoc(journal, xs, upTo.value, i);
      } else {
        GapBreaks(journal, xs, upTo.value, i);
      }
    } else if step.Met? {
      var k := |LinesIn(step.snapshot)|;
      assert more == journal[0..k];
      CoversRange(journal, xs, upTo.value, 0, k);
    } else {
      assert xs + more == xs;
    }
  }

  /** The snapshots were taken of the journal's file, as it grew. */
  ghost predicate OfTheFile(steps: seq<Step>, journal: seq<Line>) {
    forall step :: step in steps && step.Met? ==> LinesIn(step.snapshot) <= journal
  }

  lemma StepFits(journal: seq<Line>, r: nat, ds: seq<Delivery>, before: seq<Step>, step: Step, s: Shown)
    requires CountedUp(journal) && r <= |journal| && s.slice == Follow(ds).slice
    requires Fits(journal, Follow(ds), s) || ClearsPage(s.slice, step)
    requires Sent(before) + (if step.Passed? then 1 else 0) <= |journal[r..]|
    requires step.Met? ==> LinesIn(step.snapshot) <= journal
    ensures Fits(journal, Follow(ds + GivenAt(journal[r..], before, step)), ShownAfter(r, s, Sent(before), step))
  {
    hide Follow, GivenAt, Sent, LinesIn, Covers, Broken, ClearsPage, SliceAfter, Extend, StepLines;
    var t := Follow(ds);
    StepFollowed(journal[r..], ds, before, step);
    NothingCovered(journal);
    var xs := if ClearsPage(t.slice, step) then [] else t.lines;
    var upTo := if ClearsPage(t.slice, step) then Some(0) else s.upTo;
    ExtendFits(journal, r, Sent(before), xs, upTo, step);
  }

  /** A page that shows nothing yet, or is cleared by the first thing that comes to it. */
  predicate StartsClear(t: Trail, steps: seq<Step>) {
    t.lines == [] || (steps != [] && ClearsPage(t.slice, steps[0]))
  }

  lemma GivenSnoc(passed: seq<Line>, earlier: seq<Delivery>, steps: seq<Step>)
    requires steps != [] && Sent(steps) <= |passed|
    ensures var n := |steps| - 1;
            Sent(steps[..n]) + (if steps[n].Passed? then 1 else 0) <= |passed| &&
            earlier + GivenBy(passed, steps) ==
            earlier + GivenBy(passed, steps[..n]) + GivenAt(passed, steps[..n], steps[n])
  {
    var n := |steps| - 1;
    Associative(earlier, GivenBy(passed, steps[..n]), GivenAt(passed, steps[..n], steps[n]));
  }

  lemma {:induction false} VisitFits(journal: seq<Line>, r: nat, earlier: seq<Delivery>, steps: seq<Step>)
    requires CountedUp(journal) && r <= |journal| && Sent(steps) <= |journal[r..]| && OfTheFile(steps, journal)
    requires steps == [] || StartsClear(Follow(earlier), steps)
    ensures var start := Shown(Follow(earlier).slice, Some(0));
            var t, s := Follow(earlier + GivenBy(journal[r..], steps)), ShownBy(r, start, steps);
            s.slice == t.slice && (steps != [] || Follow(earlier).lines == [] ==> Fits(journal, t, s))
  {
    hide Follow, ClearsPage, Fits, ShownAfter, LinesIn;
    var start := Shown(Follow(earlier).slice, Some(0));
    if steps == [] {
      assert earlier + GivenBy(journal[r..], steps) == earlier;
      EmptyFits(journal, Follow(earlier));
    } else {
      hide Sent, GivenBy;
      var n := |steps| - 1;
      GivenSnoc(journal[r..], earlier, steps);
      assert n > 0 ==> steps[..n][0] == steps[0];
      VisitFits(journal, r, earlier, steps[..n]);
      assert steps[n] in steps;
      var ds, shown := earlier + GivenBy(journal[r..], steps[..n]), ShownBy(r, start, steps[..n]);
      StepFits(journal, r, ds, steps[..n], steps[n], shown);
      FitsSlice(journal, Follow(earlier + GivenBy(journal[r..], steps)), ShownBy(r, start, steps));
    }
  }

  lemma FitsSlice(journal: seq<Line>, t: Trail, s: Shown)
    requires Fits(journal, t, s)
    ensures s.slice == t.slice
  {
  }

  lemma EmptyFits(journal: seq<Line>, t: Trail)
    ensures t.lines == [] ==> Fits(journal, t, Shown(t.slice, Some(0)))
  {
    hide Covers;
    NothingCovered(journal);
  }

  lemma FitsIsWhole(journal: seq<Line>, t: Trail, s: Shown)
    requires Fits(journal, t, s)
    ensures FirstOfEach(t.lines) == journal <==> s.upTo == Some(|journal|)
  {
    hide FirstOfEach;
    if s.upTo.Some? {
      assert |journal[..s.upTo.value]| == s.upTo.value;
      assert journal[..|journal|] == journal;
    }
  }

  /** Whatever was shown before, and in whatever order lines, snapshots and tasks come: the lines given
      since the page was last cleared are the journal's, in order of first occurrence, if and only if
      since then every line sent to it was one it had or the next, and it has come to the last. */
  lemma VisitIsCompleteExactlyWhen(journal: seq<Line>, r: nat, earlier: seq<Delivery>, steps: seq<Step>)
    requires CountedUp(journal) && r <= |journal| && Sent(steps) <= |journal[r..]| && OfTheFile(steps, journal)
    requires StartsClear(Follow(earlier), steps) && steps != []
    ensures FirstOfEach(Follow(earlier + GivenBy(journal[r..], steps)).lines) == journal <==>
            ShownBy(r, Shown(Follow(earlier).slice, Some(0)), steps).upTo == Some(|journal|)
  {
    hide Follow, Fits, ShownBy, FirstOfEach, GivenBy, Sent, StartsClear;
    VisitFits(journal, r, earlier, steps);
    FitsIsWhole(journal, Follow(earlier + GivenBy(journal[r..], steps)),
                ShownBy(r, Shown(Follow(earlier).slice, Some(0)), steps));
  }

  // --- From the tokens to the page -----------------------------------------------------------------

  /** How the watcher saw the journal, since it switched to its slice, grow to what it is. */
  ghost predicate Watched(polls: seq<Poll>, path: string, armed: string, file: string) {
    Follows(CourseOf(polls, path, armed, ""), file)
  }

  function CourseOf(polls: seq<Poll>, path: string, armed: string, snapshot: string): Course {
    Course(polls, path, armed, snapshot, 0, 0, None, None)
  }

  function PassedBy(polls: seq<Poll>, path: string): seq<Line> { SentOn(path, WatchAll(DecodeLine, polls).sent) }

  lemma SnapshotsFit(lines: seq<Line>, polls: seq<Poll>, path: string, armed: string, steps: seq<Step>)
    requires Watched(polls, path, armed, FileOf(lines))
    requires forall step :: step in steps && step.Met? ==> step.snapshot <= FileOf(lines)
    ensures OfTheFile(steps, lines)
  {
    hide FileOf, Tail.ReadWhole;
    forall step | step in steps && step.Met?
      ensures LinesIn(step.snapshot) <= lines
    {
      var k := SnapshotIs(lines, CourseOf(polls, path, armed, step.snapshot));
    }
  }

  /** For every stream of notifications, every schedule of polls and every visit -- lines missed while
      the page was not connected, snapshots whenever it connected again or the slice changed, task
      files at any time, and whatever another slice had put there before: the lines the page is
      given since it was last cleared are the journal's, in order of first occurrence, if and only
      if every line sent to it since then was one it had or the next, and it has come to the last.
      And then the page's text, with what the journal still buffers, is the tokens'. */
  lemma VisitShowsTheTokensExactlyWhen(notes: seq<Notification>, lines: seq<Line>, polls: seq<Poll>, path: string,
                                       armed: string, earlier: seq<Delivery>, steps: seq<Step>)
    returns (r: nat)
    requires lines == NotifyAll(notes).lines && Watched(polls, path, armed, FileOf(lines))
    requires forall step :: step in steps && step.Met? ==> step.snapshot <= FileOf(lines)
    requires steps != [] && StartsClear(Follow(earlier), steps) && Sent(steps) <= |PassedBy(polls, path)|
    ensures r == |Complete(armed)| + if Partial(armed) == "" then 0 else 1
    ensures var ds := earlier + GivenBy(PassedBy(polls, path), steps);
            var shown := ShownBy(r, Shown(Follow(earlier).slice, Some(0)), steps);
            (FirstOfEach(Follow(ds).lines) == lines <==> shown.upTo == Some(|lines|)) &&
            (shown.upTo == Some(|lines|) ==> ShowsTheTokens(notes, DeliverAll(ds).feed))
  {
    hide *;
    LinesAreNumbered(notes);
    r := SameLines(lines, polls, path, armed);
    SnapshotsFit(lines, polls, path, armed, steps);
    VisitIsCompleteExactlyWhen(lines, r, earlier, steps);
    if ShownBy(r, Shown(Follow(earlier).slice, Some(0)), steps).upTo == Some(|lines|) {
      CompletePageShowsTheTokens(notes, earlier + GivenBy(PassedBy(polls, path), steps));
    }
  }

  lemma SameLines(lines: seq<Line>, polls: seq<Poll>, path: string, armed: string) returns (r: nat)
    requires Watched(polls, path, armed, FileOf(lines))
    ensures r <= |lines| && PassedBy(polls, path) == lines[r..]
    ensures r == |Complete(armed)| + if Partial(armed) == "" then 0 else 1
  {
    hide FileOf, Complete, Partial;
    r := PassedOnIs(lines, CourseOf(polls, path, armed, ""));
  }
}
