/** What the page shows of the journal's lines, field by field, and what each event does to the feed. */
module Rows {
  import opened Sequences
  import opened Feed

  // --- Lines on the page -----------------------------------------------------------------------

  /** A turn that called a tool, and a write. */
  predicate HasRow(line: Line) { line.WriteLine? || (line.TurnLine? && line.tool != "") }

  /** The row says what the line says. */
  predicate RowTells(r: Row, line: Line) {
    r.no == line.no &&
    match line
    case TurnLine(_, tool, path, command, status, summary, readBytes, editBytes, _, _, _) =>
      r.tool == tool && r.path == path && r.command == command && r.status == status &&
      (if |summary| <= 240 then r.summary == summary else r.summary == summary[..240]) &&
      r.readBytes == readBytes && r.editBytes == editBytes
    case WriteLine(_, tool, path, editBytes) =>
      r.tool == tool && r.path == path && r.editBytes == editBytes &&
      r.command == r.status == r.summary == "" && r.readBytes == 0
    case DeltaLine(_, _, _) => false
  }

  function LineTokens(line: Line): int {
    if line.TurnLine? then line.thinkTokens + line.textTokens + line.toolTokens else 0
  }

  function TokensOf(lines: seq<Line>): int {
    if lines == [] then 0 else TokensOf(lines[..|lines| - 1]) + LineTokens(lines[|lines| - 1])
  }

  /** What was thought since the last turn. */
  function ThinkingSince(lines: seq<Line>): string {
    if lines == [] then ""
    else
      var before, last := lines[..|lines| - 1], lines[|lines| - 1];
      if last.TurnLine? then ""
      else if last.DeltaLine? && last.channel == "thinking" then ThinkingSince(before) + last.text
      else ThinkingSince(before)
  }

  /** One thought for each turn that something was thought before, with the turn's number. */
  function ThoughtsOf(lines: seq<Line>): seq<Thought> {
    if lines == [] then []
    else
      var before, last := lines[..|lines| - 1], lines[|lines| - 1];
      ThoughtsOf(before) +
      if last.TurnLine? && ThinkingSince(before) != "" then [Thought(Some(last.no), ThinkingSince(before))] else []
  }

  /** A row for each line that has one, in order, and no other. */
  ghost predicate RowsTell(actions: seq<Row>, lines: seq<Line>) {
    && |actions| == Count(HasRow, lines)
    && forall i :: 0 <= i < |lines| && HasRow(lines[i]) ==>
         Count(HasRow, lines[..i]) < |actions| && RowTells(actions[Count(HasRow, lines[..i])], lines[i])
  }

  /** The feed tells of these lines, and of nothing else: their rows; the tokens of the turns; the
      thoughts, each with its turn. */
  ghost predicate TellsOf(feed: State, lines: seq<Line>) {
    && RowsTell(feed.actions, lines)
    && feed.generatedTokens == TokensOf(lines) && !feed.generatedFinal
    && feed.thinking == ThinkingSince(lines) && feed.thoughts == ThoughtsOf(lines)
    && feed.contextTokens.None? && feed.cloudTokens.None? && feed.cloudNotes == [] && feed.checklist.None?
  }

  ghost predicate NumberedBy(feed: State, lines: seq<Line>) {
    forall j :: 0 <= j < |feed.actions| ==> feed.actions[j].no in LineNumbers(lines)
  }

  /** The parts of the feed that no line of the journal touches. */
  predicate SameMeters(s: State, s': State) {
    s'.generatedFinal == s.generatedFinal && s'.contextTokens == s.contextTokens &&
    s'.cloudTokens == s.cloudTokens && s'.cloudNotes == s.cloudNotes && s'.checklist == s.checklist
  }

  lemma DeltaAdds(s: State, line: Line)
    requires line.DeltaLine?
    ensures Reduce(s, ExpandLive(line)) ==
            if line.channel == "thinking" then s.(thinking := s.thinking + line.text)
            else if line.channel == "answer" then s.(answer := s.answer + line.text)
            else s
  {
    ReduceAll(s, ExpandLive(line));
  }

  ghost predicate RowAdded(actions: seq<Row>, actions': seq<Row>, line: Line) {
    |actions'| == |actions| + 1 && actions'[..|actions|] == actions && RowTells(actions'[|actions|], line)
  }

  lemma WriteAdds(s: State, line: Line)
    requires line.WriteLine? && forall j :: 0 <= j < |s.actions| ==> s.actions[j].no != line.no
    ensures var s' := Reduce(s, ExpandLive(line));
            RowAdded(s.actions, s'.actions, line) && s' == s.(actions := s'.actions)
  {
    hide FindRow;
    ReduceAll(s, ExpandLive(line));
    NewRow(s.actions, line.no);
  }

  /** The call starts the row and the result fills it in. */
  lemma CallAndResult(s: State, line: Line)
    requires line.TurnLine? && line.tool != "" && forall j :: 0 <= j < |s.actions| ==> s.actions[j].no != line.no
    ensures var e := ExpandLive(line);
            |e| == 3 &&
            var s' := Apply(Apply(s, e[0]), e[1]);
            RowAdded(s.actions, s'.actions, line) && s' == s.(actions := s'.actions)
  {
    hide FindRow;
    var call, result := ExpandLive(line)[0], ExpandLive(line)[1];
    NewRow(s.actions, line.no);
    var once := Apply(s, call).actions;
    assert once == s.actions + [MakeRow(call)];
    FindRowIs(once, line.no, |s.actions|);
    assert Apply(Apply(s, call), result).actions == once[|s.actions| := Overlay(result)(MakeRow(call))];
  }

  lemma TurnAdds(s: State, line: Line)
    requires line.TurnLine?
    ensures var e := ExpandLive(line);
            |e| > 0 &&
            var s' := Apply(s, e[|e| - 1]);
            s' == s.(thoughts := s'.thoughts, thinking := "", generatedTokens := s'.generatedTokens) &&
            s'.thoughts == s.thoughts + (if s.thinking == "" then [] else [Thought(Some(line.no), s.thinking)]) &&
            s'.generatedTokens == s.generatedTokens + if s.generatedFinal then 0 else LineTokens(line)
  {
    assert s.thoughts + [] == s.thoughts;
  }

  /** A line whose number has no row yet. */
  lemma LineAdds(s: State, line: Line)
    requires forall j :: 0 <= j < |s.actions| ==> s.actions[j].no != line.no
    ensures var s' := Reduce(s, ExpandLive(line));
            (if HasRow(line) then RowAdded(s.actions, s'.actions, line) else s'.actions == s.actions) &&
            SameMeters(s, s') &&
            s'.generatedTokens == s.generatedTokens + (if s.generatedFinal then 0 else LineTokens(line)) &&
            s'.thinking == (if line.TurnLine? then ""
                            else if line.DeltaLine? && line.channel == "thinking" then s.thinking + line.text
                            else s.thinking) &&
            s'.thoughts == s.thoughts +
                           if line.TurnLine? && s.thinking != "" then [Thought(Some(line.no), s.thinking)] else []
  {
    hide FindRow, Apply, Reduce, RowAdded;
    assert s.thoughts + [] == s.thoughts;
    match line
    case DeltaLine(_, _, _) => DeltaAdds(s, line);
    case WriteLine(_, _, _, _) => WriteAdds(s, line);
    case TurnLine(_, tool, _, _, _, _, _, _, _, _, _) =>
      ReduceAll(s, ExpandLive(line));
      if tool != "" {
        CallAndResult(s, line);
        TurnAdds(Apply(Apply(s, ExpandLive(line)[0]), ExpandLive(line)[1]), line);
      } else {
        TurnAdds(s, line);
      }
  }

  lemma NewRow(actions: seq<Row>, no: nat)
    requires forall j :: 0 <= j < |actions| ==> actions[j].no != no
    ensures FindRow(actions, no).None?
  {
  }

  lemma ReduceAll(s: State, events: seq<Event>)
    ensures |events| == 1 ==> Reduce(s, events) == Apply(s, events[0])
    ensures |events| == 3 ==> Reduce(s, events) == Apply(Apply(Apply(s, events[0]), events[1]), events[2])
  {
    hide Apply;
    if |events| == 1 {
      assert events[..0] == [];
    } else if |events| == 3 {
      assert events[..2][..1] == events[..1] && events[..1][..0] == [];
      assert Reduce(s, events[..1]) == Apply(s, events[0]);
      assert Reduce(s, events[..2]) == Apply(Reduce(s, events[..1]), events[1]);
    }
  }

  lemma RowsSnoc(actions: seq<Row>, actions': seq<Row>, before: seq<Line>, line: Line)
    requires RowsTell(actions, before)
    requires if HasRow(line) then RowAdded(actions, actions', line) else actions' == actions
    ensures RowsTell(actions', before + [line])
  {
    hide Count, RowTells, HasRow;
    var lines := before + [line];
    assert lines[..|before|] == before && lines[|before|] == line;
    CountSnoc(HasRow, before, line);
    forall i | 0 <= i < |lines| && HasRow(lines[i])
      ensures Count(HasRow, lines[..i]) < |actions'| && RowTells(actions'[Count(HasRow, lines[..i])], lines[i])
    {
      if i < |before| {
        assert lines[..i] == before[..i] && lines[i] == before[i];
      }
    }
  }

  lemma LinesSnoc(before: seq<Line>, line: Line)
    ensures var lines := before + [line];
            TokensOf(lines) == TokensOf(before) + LineTokens(line) &&
            ThinkingSince(lines) ==
              (if line.TurnLine? then ""
               else if line.DeltaLine? && line.channel == "thinking" then ThinkingSince(before) + line.text
               else ThinkingSince(before)) &&
            ThoughtsOf(lines) ==
              ThoughtsOf(before) +
              if line.TurnLine? && ThinkingSince(before) != "" then [Thought(Some(line.no), ThinkingSince(before))]
              else []
  {
    assert (before + [line])[..|before|] == before;
  }

  lemma NumbersStay(s: State, s': State, before: seq<Line>, line: Line)
    requires NumberedBy(s, before)
    requires if HasRow(line) then RowAdded(s.actions, s'.actions, line) else s'.actions == s.actions
    ensures NumberedBy(s', before + [line])
  {
    hide LineNumbers, HasRow;
    NumbersSnoc(before, line);
    forall j | 0 <= j < |s'.actions|
      ensures s'.actions[j].no in LineNumbers(before + [line])
    {
      if j < |s.actions| {
        assert s'.actions[j] == s'.actions[..|s.actions|][j] == s.actions[j];
      }
    }
  }

  lemma TellsSnoc(s: State, s': State, before: seq<Line>, line: Line)
    requires TellsOf(s, before) && NumberedBy(s, before) && line.no !in LineNumbers(before)
    requires s' == Reduce(s, ExpandLive(line))
    ensures TellsOf(s', before + [line]) && NumberedBy(s', before + [line])
  {
    hide RowsTell, RowTells, Reduce, HasRow, LineTokens, TokensOf, ThinkingSince, ThoughtsOf, ExpandLive, LineNumbers;
    hide RowAdded;
    LineAdds(s, line);
    RowsSnoc(s.actions, s'.actions, before, line);
    LinesSnoc(before, line);
    NumbersStay(s, s', before, line);
  }

  lemma {:induction false} FeedTells(lines: seq<Line>)
    requires Numbered(lines)
    ensures var feed := Reduce(EMPTY_STATE, FlatMap(ExpandLive, lines)); TellsOf(feed, lines) && NumberedBy(feed, lines)
  {
    if lines == [] {
      assert FlatMap(ExpandLive, lines) == [];
    } else {
      hide TellsOf, NumberedBy, ExpandLive, Reduce;
      var n := |lines| - 1;
      FeedTells(lines[..n]);
      Unsnoc(lines);
      ReduceAppend(EMPTY_STATE, FlatMap(ExpandLive, lines[..n]), ExpandLive(lines[n]));
      TellsSnoc(Reduce(EMPTY_STATE, FlatMap(ExpandLive, lines[..n])), Reduce(EMPTY_STATE, FlatMap(ExpandLive, lines)),
                lines[..n], lines[n]);
    }
  }

  lemma {:induction false} FirstsAreNumbered(lines: seq<Line>)
    ensures Numbered(FirstOfEach(lines)) && LineNumbers(FirstOfEach(lines)) == LineNumbers(lines)
  {
    if lines != [] {
      hide FirstOfEach;
      var n := |lines| - 1;
      FirstsAreNumbered(lines[..n]);
      Unsnoc(lines);
      FirstOfEachSnoc(lines[..n], lines[n]);
      NumbersSnoc(lines[..n], lines[n]);
      NumbersSnoc(FirstOfEach(lines[..n]), lines[n]);
      var firsts := FirstOfEach(lines[..n]);
      assert forall i :: 0 <= i < |firsts| ==> firsts[i] in firsts;
      assert lines[n].no in LineNumbers(lines[..n]) ==>
               LineNumbers(lines[..n]) + {lines[n].no} == LineNumbers(lines[..n]);
    } else {
      assert FirstOfEach(lines) == [];
    }
  }

  /** Whatever comes to the page, it tells of the lines it was given since it was last cleared, the first
      of each number: a turn that called a tool has its row with what the line says of the call, a
      write has its own, no other row exists, and the rows stand in order; the tokens are those of
      the turns, whose number is counted; and the thoughts are what was thought before each turn. */
  lemma PageTellsOfItsLines(ds: seq<Delivery>)
    ensures var page, lines := DeliverAll(ds), FirstOfEach(Follow(ds).lines);
            TellsOf(page.feed, lines) && Numbered(lines) &&
            page.turnCount == Count((line: Line) => line.TurnLine?, lines) &&
            (page.liveActive <==> Follow(ds).lines != []) && page.slice == Follow(ds).slice
  {
    hide TellsOf, NumberedBy, FirstOfEach, Follow, DeliverAll;
    PageShowsWhatCameSince(ds);
    FirstsAreNumbered(Follow(ds).lines);
    FeedTells(FirstOfEach(Follow(ds).lines));
    SameCount(FirstOfEach(Follow(ds).lines));
  }

  lemma {:induction false} SameCount(lines: seq<Line>)
    ensures Count(IsTurnLine, lines) == Count((line: Line) => line.TurnLine?, lines)
  {
    if lines != [] {
      SameCount(lines[..|lines| - 1]);
    }
  }

  // --- What an event changes ---------------------------------------------------------------------

  /** The first row with the event's number, or a new blank one at the end. */
  ghost predicate RowFor(actions: seq<Row>, no: nat, i: nat, r: Row) {
    && i <= |actions| && (forall j :: 0 <= j < i ==> actions[j].no != no)
    && if i < |actions| then actions[i].no == no && r == actions[i] else r == Row(no, "", "", "", "", "", 0, 0)
  }

  /** What the row is after the event. An absent tool, path or command leaves the row's; an absent
      summary is shown as the word for it; a call states an outcome only of a row it starts. */
  predicate Changed(r: Row, r': Row, e: Event, isNew: bool)
    requires e.ToolCall? || e.ToolResult? || e.Write?
  {
    r'.no == r.no && r'.tool == e.tool.GetOr(r.tool) &&
    match e
    case ToolCall(_, _, path, command, outcome) =>
      r'.path == path.GetOr(r.path) && r'.command == command.GetOr(r.command) &&
      (if isNew then
         r'.status == outcome.status.GetOr("") && r'.summary == outcome.summary.GetOr("") &&
         r'.readBytes == outcome.readBytes.GetOr(0) && r'.editBytes == outcome.editBytes.GetOr(0)
       else
         r'.status == r.status && r'.summary == r.summary && r'.readBytes == r.readBytes && r'.editBytes == r.editBytes)
    case ToolResult(_, _, status, summary, readBytes, editBytes) =>
      r'.path == r.path && r'.command == r.command && r'.status == status &&
      r'.readBytes == readBytes && r'.editBytes == editBytes &&
      (var text := summary.GetOr("undefined"); if |text| <= 240 then r'.summary == text else r'.summary == text[..240])
    case Write(_, _, written, editBytes) =>
      r'.path == written && r'.editBytes == editBytes && r'.command == r.command && r'.status == r.status &&
      r'.summary == r.summary && r'.readBytes == r.readBytes
  }

  /** A call, a result and a write each change one row, the first with their number or a new one, and
      nothing else of the feed. */
  lemma OneRowChanges(s: State, e: Event) returns (i: nat, r: Row)
    requires e.ToolCall? || e.ToolResult? || e.Write?
    ensures RowFor(s.actions, e.no, i, r)
    ensures var s' := Apply(s, e);
            |s'.actions| == (if i < |s.actions| then |s.actions| else i + 1) &&
            Changed(r, s'.actions[i], e, i == |s.actions|) &&
            (forall j :: 0 <= j < |s.actions| && j != i ==> s'.actions[j] == s.actions[j]) &&
            s' == s.(actions := s'.actions)
  {
    match FindRow(s.actions, e.no)
    case Some(k) =>
      i, r := k, s.actions[k];
    case None =>
      i, r := |s.actions|, Row(e.no, "", "", "", "", "", 0, 0);
  }

  // --- The meters ------------------------------------------------------------------------------------

  predicate StatesContext(e: Event) { e.Prompt? && e.tokens.Some? }

  predicate StatesCloud(e: Event) { (e.Orch? || e.Cloud?) && e.tokens.Some? }

  predicate IsChecklist(e: Event) { e.Checklist? }

  function StatedTokens(e: Event): Option<int> { if e.Prompt? || e.Orch? || e.Cloud? then e.tokens else None }

  function GivenItems(e: Event): Option<seq<ChecklistItem>> { if e.Checklist? then Some(e.items) else None }

  function NoteOf(e: Event): seq<string> { if e.Orch? then [e.text] else [] }

  /** What is shown is what the last event of a kind says, and nothing without one. */
  ghost predicate ShowsTheLast<T>(p: Event -> bool, says: Event -> Option<T>, events: seq<Event>, shown: Option<T>) {
    && (forall k :: 0 <= k < |events| && p(events[k]) && (forall j :: k < j < |events| ==> !p(events[j])) ==>
          shown == says(events[k]))
    && ((forall k :: 0 <= k < |events| ==> !p(events[k])) ==> shown.None?)
  }

  lemma ShowsTheLastSnoc<T>(p: Event -> bool, says: Event -> Option<T>, before: seq<Event>, e: Event,
                            shown: Option<T>)
    requires ShowsTheLast(p, says, before, shown)
    ensures ShowsTheLast(p, says, before + [e], if p(e) then says(e) else shown)
  {
    var all := before + [e];
    assert all[|before|] == e && forall j :: 0 <= j < |before| ==> all[j] == before[j];
    if !p(e) {
      forall k | 0 <= k < |all| && p(all[k]) && forall j :: k < j < |all| ==> !p(all[j])
        ensures shown == says(all[k])
      {
        assert before[k] == all[k];
      }
    }
  }

  function ItemsShown(s: State): Option<seq<ChecklistItem>> {
    match s.checklist
    case Some(v) => Some(v.items)
    case None => None
  }

  /** The tokens of context and of the cloud are those last stated, every note is kept in order, and the
      checklist is the last one given, with the number of its items and of those not done. */
  ghost predicate Meters(s: State, events: seq<Event>) {
    && ShowsTheLast(StatesContext, StatedTokens, events, s.contextTokens)
    && ShowsTheLast(StatesCloud, StatedTokens, events, s.cloudTokens)
    && s.cloudNotes == FlatMap(NoteOf, events)
    && ShowsTheLast(IsChecklist, GivenItems, events, ItemsShown(s))
    && (s.checklist.Some? ==>
          var v := s.checklist.value;
          v.total == |v.items| && v.open + Count((x: ChecklistItem) => x.done, v.items) == |v.items|)
  }

  lemma {:induction false} OpenAndDone(items: seq<ChecklistItem>)
    ensures Count((x: ChecklistItem) => !x.done, items) + Count((x: ChecklistItem) => x.done, items) == |items|
    ensures Count((i: ChecklistItem) => !i.done, items) == Count((x: ChecklistItem) => !x.done, items)
  {
    if items != [] {
      OpenAndDone(items[..|items| - 1]);
    }
  }

  lemma MetersMove(s: State, e: Event)
    ensures var s' := Apply(s, e);
            s'.contextTokens == (if StatesContext(e) then StatedTokens(e) else s.contextTokens) &&
            s'.cloudTokens == (if StatesCloud(e) then StatedTokens(e) else s.cloudTokens) &&
            s'.cloudNotes == s.cloudNotes + NoteOf(e) &&
            ItemsShown(s') == (if IsChecklist(e) then GivenItems(e) else ItemsShown(s)) &&
            (if e.Checklist? then
               s'.checklist.Some? && s'.checklist.value.total == |e.items| &&
               s'.checklist.value.open + Count((x: ChecklistItem) => x.done, e.items) == |e.items|
             else s'.checklist == s.checklist)
  {
    hide Upsert, Overlay, MakeRow;
    assert s.cloudNotes + [] == s.cloudNotes;
    if e.Checklist? {
      OpenAndDone(e.items);
    }
  }

  lemma MetersSnoc(s: State, before: seq<Event>, e: Event)
    requires Meters(s, before)
    ensures Meters(Apply(s, e), before + [e])
  {
    hide Apply, Count, ShowsTheLast, StatesContext, StatesCloud;
    MetersMove(s, e);
    FlatMapSnoc(NoteOf, before, e);
    ShowsTheLastSnoc(StatesContext, StatedTokens, before, e, s.contextTokens);
    ShowsTheLastSnoc(StatesCloud, StatedTokens, before, e, s.cloudTokens);
    ShowsTheLastSnoc(IsChecklist, GivenItems, before, e, ItemsShown(s));
  }

  lemma {:induction false} MetersShowTheLast(events: seq<Event>)
    ensures Meters(Reduce(EMPTY_STATE, events), events)
  {
    if events == [] {
      assert FlatMap(NoteOf, events) == [];
    } else {
      hide Apply, Meters;
      MetersShowTheLast(events[..|events| - 1]);
      Unsnoc(events);
      MetersSnoc(Reduce(EMPTY_STATE, events[..|events| - 1]), events[..|events| - 1], events[|events| - 1]);
    }
  }

  // --- What clears the page ----------------------------------------------------------------------------

  /** A snapshot is of the active slice if that has an id, else of its task's if it has one. When that is
      another than the page's the page is cleared, and so it is by a task with another id, from a
      snapshot or on its own. The page is then of the task, or of the snapshot's slice. */
  lemma SlicesAreFollowed(ds: seq<Delivery>, active: Option<string>, task: Option<string>, lines: seq<Line>, id: string)
    ensures var t := Follow(ds);
            var told := if active.Some? && active.value != "" then active
                        else if task.Some? && task.value != "" then task else None;
            var shot := Follow(ds + [Snapshot(active, task, lines)]);
            var clears := (told.Some? && told != t.slice) || (task.Some? && task.value != "" && task != told);
            shot.lines == (if clears then [] else t.lines) + lines &&
            shot.slice == (if task.Some? && task.value != "" then task else told)
    ensures var t, shown := Follow(ds), Follow(ds + [TaskUpdated(id)]);
            if id == "" || t.slice == Some(id) then shown == t else shown == Trail(Some(id), [])
    ensures forall line :: Follow(ds + [LiveEvent(line)]) == Trail(Follow(ds).slice, Follow(ds).lines + [line])
  {
    forall d: Delivery
      ensures Follow(ds + [d]) == Followed(Follow(ds), d)
    {
      assert (ds + [d])[..|ds|] == ds;
    }
  }
}
