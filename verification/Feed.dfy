/** The visualizer's feed: the reducer of scripts/ui/feed_model.js, the expansion of a live
    journal line into its events, and the duplicate suppression of scripts/ui/app.js. */
module Feed {
  import opened Sequences

  // --- Lines of live.jsonl ------------------------------------------------------------------

  datatype Line =
    | DeltaLine(no: nat, channel: string, text: string)
    | TurnLine(no: nat, tool: string, path: string, command: string, status: string, summary: string,
               readBytes: int, editBytes: int, thinkTokens: int, textTokens: int, toolTokens: int)
    | WriteLine(no: nat, tool: string, path: string, editBytes: int)

  // --- Events and state ----------------------------------------------------------------------

  datatype ChecklistItem = ChecklistItem(text: string, done: bool)

  // The fields of a row a call does not normally state, taken only when the row is new.
  datatype Outcome = Outcome(status: Option<string>, summary: Option<string>, readBytes: Option<int>,
                             editBytes: Option<int>)

  const NO_OUTCOME := Outcome(None, None, None, None)

  // A field that may be absent from the event object is an Option.
  datatype Event =
    | Delta(channel: string, text: string)
    | ToolCall(no: nat, tool: Option<string>, path: Option<string>, command: Option<string>, outcome: Outcome)
    | ToolResult(no: nat, tool: Option<string>, status: string, summary: Option<string>, readBytes: int, editBytes: int)
    | Write(no: nat, tool: Option<string>, written: string, editBytes: int)
    | Turn(turnNo: Option<nat>, thinkTokens: int, textTokens: int, toolTokens: int)
    | Prompt(tokens: Option<int>)
    | Result(generatedTokens: Option<int>)
    | Orch(text: string, tokens: Option<int>)
    | Cloud(tokens: Option<int>)
    | Checklist(items: seq<ChecklistItem>)
    | Unknown

  datatype Row = Row(no: nat, tool: string, path: string, command: string, status: string, summary: string,
                     readBytes: int, editBytes: int)

  datatype Thought = Thought(no: Option<nat>, text: string)

  datatype ChecklistView = ChecklistView(open: nat, total: nat, items: seq<ChecklistItem>)

  datatype State = State(
    actions: seq<Row>,
    thinking: string,
    thoughts: seq<Thought>,
    answer: string,
    generatedTokens: int,
    generatedFinal: bool,
    contextTokens: Option<int>,
    cloudTokens: Option<int>,
    cloudNotes: seq<string>,
    checklist: Option<ChecklistView>)

  const EMPTY_STATE := State([], "", [], "", 0, false, None, None, [], None)

  function BlankRow(no: nat): Row { Row(no, "", "", "", "", "", 0, 0) }

  // --- The reducer ----------------------------------------------------------------------------

  /** The first row of a number, if any. */
  function FindRow(actions: seq<Row>, no: nat): (r: Option<nat>)
    ensures r.Some? ==> r.value < |actions| && actions[r.value].no == no &&
                        forall j :: 0 <= j < r.value ==> actions[j].no != no
    ensures r.None? ==> forall j :: 0 <= j < |actions| ==> actions[j].no != no
  {
    if actions == [] then None
    else match FindRow(actions[..|actions| - 1], no)
      case Some(i) => Some(i)
      case None => if actions[|actions| - 1].no == no then Some(|actions| - 1) else None
  }

  // The search as the source writes it.
  method FindRowIndex(actions: seq<Row>, no: nat) returns (index: int)
    ensures index == match FindRow(actions, no) case Some(i) => i case None => -1
  {
    for i := 0 to |actions|
      invariant forall j :: 0 <= j < i ==> actions[j].no != no
    {
      if actions[i].no == no {
        return i;
      }
    }
    return -1;
  }

  /** Overlays the row of a number, or appends a new one when there is none. */
  function Upsert(actions: seq<Row>, row: Row, overlay: Row -> Row): seq<Row> {
    match FindRow(actions, row.no)
    case None => actions + [row]
    case Some(i) => actions[i := overlay(actions[i])]
  }

  function Truncate(s: string, n: nat): string { if |s| > n then s[..n] else s }

  function Overlay(e: Event): Row -> Row
    requires e.ToolCall? || e.ToolResult? || e.Write?
  {
    match e
    case ToolCall(no, tool, path, command, _) =>
      (r: Row) => r.(tool := tool.GetOr(r.tool), path := path.GetOr(r.path), command := command.GetOr(r.command))
    case ToolResult(no, tool, status, summary, readBytes, editBytes) =>
      (r: Row) => r.(tool := tool.GetOr(r.tool), status := status, readBytes := readBytes, editBytes := editBytes,
                     summary := Truncate(summary.GetOr("undefined"), 240))
    case Write(no, tool, path, editBytes) =>
      (r: Row) => r.(tool := tool.GetOr(r.tool), path := path, editBytes := editBytes)
  }

  /** The row an event starts: a call may bring an outcome with it, the others overlay a blank. */
  function MakeRow(e: Event): Row
    requires e.ToolCall? || e.ToolResult? || e.Write?
  {
    if e.ToolCall? then
      Overlay(e)(BlankRow(e.no)).(status := e.outcome.status.GetOr(""), summary := e.outcome.summary.GetOr(""),
                                  readBytes := e.outcome.readBytes.GetOr(0), editBytes := e.outcome.editBytes.GetOr(0))
    else Overlay(e)(BlankRow(e.no))
  }

  function Apply(s: State, e: Event): State {
    match e
    case Delta(channel, text) =>
      if channel == "thinking" then s.(thinking := s.thinking + text)
      else if channel == "answer" then s.(answer := s.answer + text)
      else s
    case ToolCall(_, _, _, _, _) => s.(actions := Upsert(s.actions, MakeRow(e), Overlay(e)))
    case ToolResult(_, _, _, _, _, _) => s.(actions := Upsert(s.actions, MakeRow(e), Overlay(e)))
    case Write(_, _, _, _) => s.(actions := Upsert(s.actions, MakeRow(e), Overlay(e)))
    case Turn(no, think, text, tool) =>
      var sealed :=
        if s.thinking == "" then s else s.(thoughts := s.thoughts + [Thought(no, s.thinking)], thinking := "");
      if s.generatedFinal then sealed
      else sealed.(generatedTokens := s.generatedTokens + (think + text + tool))
    case Prompt(tokens) => if tokens.Some? then s.(contextTokens := tokens) else s
    case Result(tokens) =>
      if tokens.Some? then s.(generatedTokens := tokens.value, generatedFinal := true) else s
    case Orch(text, tokens) =>
      s.(cloudNotes := s.cloudNotes + [text], cloudTokens := if tokens.Some? then tokens else s.cloudTokens)
    case Cloud(tokens) => if tokens.Some? then s.(cloudTokens := tokens) else s
    case Checklist(items) =>
      s.(checklist := Some(ChecklistView(Count((i: ChecklistItem) => !i.done, items), |items|, items)))
    case Unknown => s
  }

  function Reduce(s: State, events: seq<Event>): State {
    if events == [] then s else Apply(Reduce(s, events[..|events| - 1]), events[|events| - 1])
  }

  lemma {:induction false} ReduceAppend(s: State, xs: seq<Event>, ys: seq<Event>)
    ensures Reduce(s, xs + ys) == Reduce(Reduce(s, xs), ys)
  {
    if ys == [] {
      assert xs + ys == xs;
    } else {
      assert (xs + ys)[..|xs + ys| - 1] == xs + ys[..|ys| - 1];
      ReduceAppend(s, xs, ys[..|ys| - 1]);
    }
  }

  function ExpandLive(line: Line): seq<Event> {
    match line
    case DeltaLine(_, channel, text) => [Delta(channel, text)]
    case TurnLine(no, tool, path, command, status, summary, readBytes, editBytes, think, text, toolTokens) =>
      (if tool == "" then []
       else [ToolCall(no, Some(tool), Some(path), Some(command), NO_OUTCOME),
             ToolResult(no, Some(tool), status, Some(summary), readBytes, editBytes)]) +
      [Turn(Some(no), think, text, toolTokens)]
    case WriteLine(no, tool, path, editBytes) => [Write(no, Some(tool), path, editBytes)]
  }

  // --- The page -------------------------------------------------------------------------------

  datatype Page = Page(slice: Option<string>, seenLive: set<nat>, feed: State, liveActive: bool, turnCount: nat)

  /** A page that has shown nothing of a slice yet. */
  function Blank(slice: Option<string>): Page { Page(slice, {}, EMPTY_STATE, false, 0) }

  const OPENED := Blank(None)

  // What comes to the page: a line as it is passed on, a snapshot with all of the journal's lines
  // so far, a task file.
  datatype Delivery =
    | LiveEvent(line: Line)
    | Snapshot(active: Option<string>, task: Option<string>, recentLive: seq<Line>)
    | TaskUpdated(id: string)

  /** The slice a snapshot is of: an id that is empty names none. */
  function SliceOf(active: Option<string>, task: Option<string>): Option<string> {
    if active.Some? && active.value != "" then active
    else if task.Some? && task.value != "" then task
    else None
  }

  class PiperWatch {
    var sliceId: Option<string>
    var seenLive: set<nat>
    var feed: State
    var liveActive: bool
    var turnCount: nat

    constructor ()
      ensures View() == OPENED
    {
      sliceId, seenLive, feed, liveActive, turnCount := None, {}, EMPTY_STATE, false, 0;
    }

    function View(): Page
      reads this
    {
      Page(sliceId, seenLive, feed, liveActive, turnCount)
    }

    // handleLive: a line whose number was seen is dropped; any other is expanded and reduced.
    method HandleLive(line: Line)
      modifies this
      ensures View() == Handle(old(View()), line)
    {
      if line.no in seenLive {
        return;
      }
      seenLive := seenLive + {line.no};
      liveActive := true;
      if line.TurnLine? {
        turnCount := turnCount + 1;
      }
      var events := ExpandLive(line);
      ghost var before := feed;
      assert events[..|events|] == events;
      for i := 0 to |events|
        invariant View() == old(View()).(seenLive := seenLive, liveActive := true, turnCount := turnCount, feed := feed)
        invariant seenLive == old(seenLive) + {line.no}
        invariant turnCount == old(turnCount) + if line.TurnLine? then 1 else 0
        invariant feed == Reduce(before, events[..i])
      {
        assert events[..i + 1][..i] == events[..i];
        feed := Apply(feed, events[i]);
      }
    }

    method ResetFeed()
      modifies this
      ensures View() == Blank(old(sliceId))
    {
      feed, seenLive, liveActive, turnCount := EMPTY_STATE, {}, false, 0;
    }

    method ShowTask(task: string)
      modifies this
      ensures View() == TaskShown(old(View()), task)
    {
      if task == "" {
        return;
      }
      if Some(task) != sliceId {
        sliceId := Some(task);
        ResetFeed();
        sliceId := Some(task);
      }
    }

    method ApplySnapshot(active: Option<string>, task: Option<string>, recentLive: seq<Line>)
      modifies this
      ensures View() == HandleAll(SnapshotShown(old(View()), active, task), recentLive)
    {
      var id := SliceOf(active, task);
      if id.Some? && id != sliceId {
        ResetFeed();
      }
      sliceId := id;
      if task.Some? {
        ShowTask(task.value);
      }
      ghost var shown := View();
      assert recentLive[..|recentLive|] == recentLive;
      for i := 0 to |recentLive|
        invariant View() == HandleAll(shown, recentLive[..i])
      {
        assert recentLive[..i + 1][..i] == recentLive[..i];
        HandleLive(recentLive[i]);
      }
    }
  }

  function Handle(p: Page, line: Line): Page {
    if line.no in p.seenLive then p
    else
      p.(seenLive := p.seenLive + {line.no}, feed := Reduce(p.feed, ExpandLive(line)), liveActive := true,
         turnCount := p.turnCount + if line.TurnLine? then 1 else 0)
  }

  function HandleAll(p: Page, lines: seq<Line>): Page {
    if lines == [] then p else Handle(HandleAll(p, lines[..|lines| - 1]), lines[|lines| - 1])
  }

  function TaskShown(p: Page, task: string): Page {
    if task == "" || p.slice == Some(task) then p else Blank(Some(task))
  }

  /** What a snapshot does before its lines: another slice's clears the page. */
  function SnapshotShown(p: Page, active: Option<string>, task: Option<string>): Page {
    var id := SliceOf(active, task);
    var q := if id.Some? && id != p.slice then Blank(id) else p.(slice := id);
    if task.Some? then TaskShown(q, task.value) else q
  }

  function Deliver(p: Page, d: Delivery): Page {
    match d
    case LiveEvent(line) => Handle(p, line)
    case Snapshot(active, task, lines) => HandleAll(SnapshotShown(p, active, task), lines)
    case TaskUpdated(id) => TaskShown(p, id)
  }

  function DeliverAll(ds: seq<Delivery>): Page {
    if ds == [] then OPENED else Deliver(DeliverAll(ds[..|ds| - 1]), ds[|ds| - 1])
  }

  // --- What the reducer keeps ---------------------------------------------------------------------

  function RowNumber(e: Event): seq<nat> {
    if e.ToolCall? || e.ToolResult? || e.Write? then [e.no] else []
  }

  function Numbers(actions: seq<Row>): seq<nat> { Map((r: Row) => r.no, actions) }

  lemma UpsertNumbers(actions: seq<Row>, row: Row, overlay: Row -> Row)
    requires forall r :: overlay(r).no == r.no
    ensures Numbers(Upsert(actions, row, overlay)) ==
            if row.no in Numbers(actions) then Numbers(actions) else Numbers(actions) + [row.no]
  {
    if FindRow(actions, row.no).None? {
      assert row.no !in Numbers(actions);
      MapAppend((r: Row) => r.no, actions, [row]);
    } else {
      assert Numbers(actions)[FindRow(actions, row.no).value] == row.no;
    }
  }

  lemma ApplyNumbers(s: State, e: Event)
    ensures Numbers(Apply(s, e).actions) ==
            if RowNumber(e) == [] || RowNumber(e)[0] in Numbers(s.actions) then Numbers(s.actions)
            else Numbers(s.actions) + RowNumber(e)
  {
    if RowNumber(e) != [] {
      UpsertNumbers(s.actions, MakeRow(e), Overlay(e));
    }
  }

  /** There is one row per number, in order of first appearance: never two, never reordered. */
  lemma {:induction false} RowsAreFirstAppearances(events: seq<Event>)
    ensures Numbers(Reduce(EMPTY_STATE, events).actions) == Distinct(FlatMap(RowNumber, events))
  {
    if events != [] {
      var n := |events| - 1;
      RowsAreFirstAppearances(events[..n]);
      ApplyNumbers(Reduce(EMPTY_STATE, events[..n]), events[n]);
      var seen := FlatMap(RowNumber, events[..n]);
      assert (seen + RowNumber(events[n]))[..|seen|] == seen;
      assert seen + [] == seen;
    }
  }

  /** A call and its result reach the same feed in either order exactly when they do not name
      different tools. */
  lemma CallAndResultCommuteExactlyWhen(s: State, call: Event, result: Event)
    requires call.ToolCall? && result.ToolResult? && call.no == result.no
    ensures Apply(Apply(s, call), result) == Apply(Apply(s, result), call) <==>
            call.tool.None? || result.tool.None? || call.tool == result.tool
  {
    var f, g, x, y := Overlay(call), Overlay(result), MakeRow(call), MakeRow(result);
    UpsertTwice(s.actions, x, f, y, g);
    UpsertTwice(s.actions, y, g, x, f);
    match FindRow(s.actions, call.no)
    case Some(i) =>
      var r := s.actions[i];
      assert g(f(r)) == f(g(r)) <==> call.tool.None? || result.tool.None? || call.tool == result.tool;
      assert s.actions[i := g(f(r))][i] == g(f(r)) && s.actions[i := f(g(r))][i] == f(g(r));
    case None =>
      assert g(x) == f(y) <==> call.tool.None? || result.tool.None? || call.tool == result.tool;
      assert (s.actions + [g(x)])[|s.actions|] == g(x) && (s.actions + [f(y)])[|s.actions|] == f(y);
  }

  lemma UpsertTwice(actions: seq<Row>, x: Row, f: Row -> Row, y: Row, g: Row -> Row)
    requires x.no == y.no && forall r :: f(r).no == r.no
    ensures Upsert(Upsert(actions, x, f), y, g) ==
            match FindRow(actions, x.no)
            case Some(i) => actions[i := g(f(actions[i]))]
            case None => actions + [g(x)]
  {
    var once := Upsert(actions, x, f);
    match FindRow(actions, x.no) {
      case Some(i) =>
        FindRowIs(once, x.no, i);
        assert once[i := g(once[i])] == actions[i := g(f(actions[i]))];
      case None =>
        FindRowIs(once, x.no, |actions|);
        assert once[|actions| := g(once[|actions|])] == actions + [g(x)];
    }
  }

  lemma FindRowIs(actions: seq<Row>, no: nat, i: nat)
    requires i < |actions| && actions[i].no == no && forall j :: 0 <= j < i ==> actions[j].no != no
    ensures FindRow(actions, no) == Some(i)
  {
  }

  function TurnTokens(e: Event): int {
    if e.Turn? then e.thinkTokens + e.textTokens + e.toolTokens else 0
  }

  function SumTokens(events: seq<Event>): int {
    if events == [] then 0 else SumTokens(events[..|events| - 1]) + TurnTokens(events[|events| - 1])
  }

  predicate Fixes(e: Event) { e.Result? && e.generatedTokens.Some? }

  function Stated(e: Event): int { if Fixes(e) then e.generatedTokens.value else 0 }

  /** The token count is the sum over the turns until a result states it; then it is what the
      last such result stated, whatever turns follow. */
  lemma {:induction false} TokensAreSummedUntilFixed(events: seq<Event>)
    ensures var s, fixes := Reduce(EMPTY_STATE, events), Filter(Fixes, events);
            (s.generatedFinal <==> fixes != []) &&
            s.generatedTokens ==
              if fixes == [] then SumTokens(events) else Stated(fixes[|fixes| - 1])
  {
    if events != [] {
      hide Filter, Apply, Upsert, Overlay, MakeRow;
      var before, e := events[..|events| - 1], events[|events| - 1];
      TokensAreSummedUntilFixed(before);
      ApplyTokens(Reduce(EMPTY_STATE, before), e);
      Unsnoc(events);
      FilterSnoc(Fixes, before, e);
    }
  }

  lemma ApplyTokens(s: State, e: Event)
    ensures Apply(s, e).generatedFinal == (s.generatedFinal || Fixes(e))
    ensures Apply(s, e).generatedTokens ==
            if Fixes(e) then Stated(e)
            else if s.generatedFinal then s.generatedTokens
            else s.generatedTokens + TurnTokens(e)
  {
    hide Upsert, Overlay, MakeRow;
  }

  // --- Text -----------------------------------------------------------------------------------------

  function ChannelText(channel: string, e: Event): string {
    if e.Delta? && e.channel == channel then e.text else ""
  }

  function OnChannel(channel: string): Event -> string { e => ChannelText(channel, e) }

  function ThoughtText(t: Thought): string { t.text }

  /** Everything thought so far: the sealed thoughts, then the one being thought. */
  function Thoughts(s: State): string { FlatMap(ThoughtText, s.thoughts) + s.thinking }

  lemma ApplyText(s: State, e: Event)
    ensures Apply(s, e).answer == s.answer + ChannelText("answer", e)
    ensures Thoughts(Apply(s, e)) == Thoughts(s) + ChannelText("thinking", e)
  {
    assert s.answer + "" == s.answer && Thoughts(s) + "" == Thoughts(s);
    match e
    case Delta(channel, text) =>
      Associative(FlatMap(ThoughtText, s.thoughts), s.thinking, text);
    case Turn(no, _, _, _) =>
      FlatMapAppend(ThoughtText, s.thoughts, [Thought(no, s.thinking)]);
      FlatMapOne(ThoughtText, Thought(no, s.thinking));
    case _ =>
  }

  /** Sealing loses nothing and invents nothing: the feed's text is the deltas' text. */
  lemma {:induction false} FeedTextIsDeltaText(s: State, events: seq<Event>)
    ensures Reduce(s, events).answer == s.answer + FlatMap(OnChannel("answer"), events)
    ensures Thoughts(Reduce(s, events)) == Thoughts(s) + FlatMap(OnChannel("thinking"), events)
  {
    if events == [] {
      assert s.answer + "" == s.answer && Thoughts(s) + "" == Thoughts(s);
    } else {
      var n := |events| - 1;
      FeedTextIsDeltaText(s, events[..n]);
      ApplyText(Reduce(s, events[..n]), events[n]);
      Associative(s.answer, FlatMap(OnChannel("answer"), events[..n]), ChannelText("answer", events[n]));
      Associative(Thoughts(s), FlatMap(OnChannel("thinking"), events[..n]), ChannelText("thinking", events[n]));
    }
  }

  // --- Duplicate delivery --------------------------------------------------------------------------

  /** The first line of each number, in order. */
  function FirstOfEach(lines: seq<Line>): seq<Line> {
    if lines == [] then []
    else
      var n := |lines| - 1;
      var rest := FirstOfEach(lines[..n]);
      if lines[n].no in LineNumbers(lines[..n]) then rest else rest + [lines[n]]
  }

  function LineNumbers(lines: seq<Line>): set<nat> { set line | line in lines :: line.no }

  predicate IsTurnLine(line: Line) { line.TurnLine? }

  /** A page's own account of the lines it was given since it was last blank. */
  function PageOf(slice: Option<string>, lines: seq<Line>): Page {
    Page(slice, LineNumbers(lines), Reduce(EMPTY_STATE, FlatMap(ExpandLive, FirstOfEach(lines))), lines != [],
         Count(IsTurnLine, FirstOfEach(lines)))
  }

  lemma NumbersSnoc(lines: seq<Line>, line: Line)
    ensures LineNumbers(lines + [line]) == LineNumbers(lines) + {line.no}
  {
  }

  lemma FirstOfEachSnoc(lines: seq<Line>, line: Line)
    ensures FirstOfEach(lines + [line]) ==
            if line.no in LineNumbers(lines) then FirstOfEach(lines) else FirstOfEach(lines) + [line]
  {
    assert (lines + [line])[..|lines|] == lines;
  }

  lemma PageSnoc(slice: Option<string>, lines: seq<Line>, line: Line)
    ensures Handle(PageOf(slice, lines), line) == PageOf(slice, lines + [line])
  {
    hide FirstOfEach, FlatMap, Reduce, Count, LineNumbers, ExpandLive;
    var firsts := FirstOfEach(lines);
    NumbersSnoc(lines, line);
    FirstOfEachSnoc(lines, line);
    if line.no !in LineNumbers(lines) {
      FlatMapSnoc(ExpandLive, firsts, line);
      ReduceAppend(EMPTY_STATE, FlatMap(ExpandLive, firsts), ExpandLive(line));
      CountSnoc(IsTurnLine, firsts, line);
    } else {
      SeenSomething(lines, line);
    }
  }

  lemma SeenSomething(lines: seq<Line>, line: Line)
    requires line.no in LineNumbers(lines)
    ensures lines != [] && LineNumbers(lines) + {line.no} == LineNumbers(lines)
  {
  }

  lemma {:induction false} PageIsFirstOfEach(slice: Option<string>, before: seq<Line>, lines: seq<Line>)
    ensures HandleAll(PageOf(slice, before), lines) == PageOf(slice, before + lines)
  {
    hide PageOf, Handle;
    if lines == [] {
      assert before + lines == before;
    } else {
      var n := |lines| - 1;
      PageIsFirstOfEach(slice, before, lines[..n]);
      PageSnoc(slice, before + lines[..n], lines[n]);
      Unsnoc(lines);
      Associative(before, lines[..n], [lines[n]]);
    }
  }

  lemma BlankIsPageOfNothing(slice: Option<string>)
    ensures Blank(slice) == PageOf(slice, [])
  {
  }

  // The slice a page shows, and the lines it was given since it was last cleared.
  datatype Trail = Trail(slice: Option<string>, lines: seq<Line>)

  function TaskFollowed(t: Trail, task: string): Trail {
    if task == "" || t.slice == Some(task) then t else Trail(Some(task), [])
  }

  function SnapshotFollowed(t: Trail, active: Option<string>, task: Option<string>): Trail {
    var id := SliceOf(active, task);
    var u := Trail(id, if id.Some? && id != t.slice then [] else t.lines);
    if task.Some? then TaskFollowed(u, task.value) else u
  }

  function Followed(t: Trail, d: Delivery): Trail {
    match d
    case LiveEvent(line) => Trail(t.slice, t.lines + [line])
    case Snapshot(active, task, lines) =>
      var u := SnapshotFollowed(t, active, task); Trail(u.slice, u.lines + lines)
    case TaskUpdated(id) => TaskFollowed(t, id)
  }

  function Follow(ds: seq<Delivery>): Trail {
    if ds == [] then Trail(None, []) else Followed(Follow(ds[..|ds| - 1]), ds[|ds| - 1])
  }

  function PageAt(t: Trail): Page { PageOf(t.slice, t.lines) }

  lemma ClearsFollow(t: Trail, active: Option<string>, task: Option<string>)
    ensures TaskShown(PageAt(t), task.GetOr("")) == PageAt(TaskFollowed(t, task.GetOr("")))
    ensures SnapshotShown(PageAt(t), active, task) == PageAt(SnapshotFollowed(t, active, task))
  {
    hide LineNumbers, FirstOfEach, FlatMap, Reduce, Count;
    BlankIsPageOfNothing(SliceOf(active, task));
    BlankIsPageOfNothing(task);
  }

  /** Whatever is delivered -- lines, snapshots, tasks, in any order -- the page shows the lines it
      was given since it was last cleared, each once, in the order they first came. */
  lemma {:induction false} PageShowsWhatCameSince(ds: seq<Delivery>)
    ensures DeliverAll(ds) == PageAt(Follow(ds))
  {
    hide PageOf, Handle, SnapshotShown, TaskShown, SnapshotFollowed, TaskFollowed;
    if ds == [] {
      BlankIsPageOfNothing(None);
    } else {
      var before, d := ds[..|ds| - 1], ds[|ds| - 1];
      PageShowsWhatCameSince(before);
      var t := Follow(before);
      match d
      case LiveEvent(line) => PageSnoc(t.slice, t.lines, line);
      case Snapshot(active, task, lines) =>
        ClearsFollow(t, active, task);
        var u := SnapshotFollowed(t, active, task);
        PageIsFirstOfEach(u.slice, u.lines, lines);
      case TaskUpdated(id) => ClearsFollow(t, None, Some(id));
    }
  }

  ghost predicate Numbered(lines: seq<Line>) { forall i, j :: 0 <= i < j < |lines| ==> lines[i].no != lines[j].no }

  lemma {:induction false} DistinctLinesStay(lines: seq<Line>)
    requires Numbered(lines)
    ensures FirstOfEach(lines) == lines
  {
    if lines != [] {
      var n := |lines| - 1;
      DistinctLinesStay(lines[..n]);
      assert lines == lines[..n] + [lines[n]];
    }
  }

  /** However often lines are delivered again, a delivery whose first occurrences are the
      journal in order gives the feed of the journal delivered once. */
  lemma DuplicatesChangeNothing(journal: seq<Line>, ds: seq<Delivery>)
    requires Numbered(journal) && FirstOfEach(Follow(ds).lines) == journal
    ensures DeliverAll(ds).feed == HandleAll(OPENED, journal).feed == Reduce(EMPTY_STATE, FlatMap(ExpandLive, journal))
  {
    hide FirstOfEach, Follow, HandleAll, DeliverAll;
    PageShowsWhatCameSince(ds);
    BlankIsPageOfNothing(None);
    PageIsFirstOfEach(None, [], journal);
    assert [] + journal == journal;
    DistinctLinesStay(journal);
  }
}
