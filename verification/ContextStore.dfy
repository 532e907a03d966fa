/** ContextStore: the class of src/context/context.hpp, updated in place. Every method is
    proved to take the abstract state where the value model says it goes. */
module ContextStores {
  import opened Sequences
  import opened Text
  import opened ContextModel
  import opened Rendering

  class ContextStore {
    var userTurns: seq<string>
    var recent: seq<TurnRecord>
    var spans: seq<string>
    var turnsRecorded: nat
    var compactions: nat
    var observationBudget: nat
    var truncatedObservations: nat
    var deliverables: seq<string>
    var workspaceWrites: nat
    var checklist: seq<ChecklistItem>
    var lastCheck: Option<CheckResult>
    var sys: SystemFields
    var turnSink: Sink<TurnRecord>
    var compactionSink: Sink<SinkCall>

    function State(): Store
      reads this
    {
      Store(userTurns, recent, spans, turnsRecorded, compactions, observationBudget, truncatedObservations,
            deliverables, workspaceWrites, checklist, lastCheck, sys, turnSink, compactionSink)
    }

    constructor (mission: string)
      ensures State() == Fresh(mission, Unset, Unset)
    {
      userTurns, recent, spans := [mission], [], [];
      turnsRecorded, compactions := 0, 0;
      observationBudget, truncatedObservations := DEFAULT_BUDGET, 0;
      deliverables, workspaceWrites := [], 0;
      checklist, lastCheck, sys := [], None, BLANK_SYSTEM;
      turnSink, compactionSink := Unset, Unset;
    }

    method SetSinks(turns: Sink<TurnRecord>, compacted: Sink<SinkCall>)
      modifies this`turnSink, this`compactionSink
      ensures State() == old(State()).(turnSink := turns, compactionSink := compacted)
    {
      turnSink, compactionSink := turns, compacted;
    }

    method SetWorkspaceRoot(path: string)
      modifies this`sys
      ensures State() == old(State()).(sys := old(sys).(workspaceRoot := path))
    {
      sys := sys.(workspaceRoot := path);
    }

    method AddTurn(t: TurnRecord)
      modifies this
      ensures State() == ContextModel.AddTurn(old(State()), t)
    {
      var kept := t;
      if |kept.observation| > observationBudget {
        truncatedObservations := truncatedObservations + 1;
        kept := kept.(observation := kept.observation[..observationBudget] + TRUNCATION_MARK);
      }
      recent := recent + [kept];
      turnsRecorded := turnsRecorded + 1;
      turnSink := Call(turnSink, recent[|recent| - 1]);
    }

    method AddUserMessage(text: string, images: seq<string>)
      modifies this
      ensures State() == ContextModel.AddUserMessage(old(State()), text, images)
    {
      userTurns := userTurns + [text];
      AddTurn(BLANK_TURN.(userText := text, observedImages := images));
    }

    method RecordDeliverable(path: string)
      modifies this`workspaceWrites, this`deliverables
      ensures State() == ContextModel.RecordDeliverable(old(State()), path)
    {
      workspaceWrites := workspaceWrites + 1;
      if path !in deliverables {
        deliverables := deliverables + [path];
      }
    }

    method HasObservation(observation: string) returns (found: bool)
      ensures found == ContextModel.HasObservation(State(), observation)
    {
      if observation == "" {
        return false;
      }
      for i := 0 to |recent|
        invariant forall j :: 0 <= j < i ==> recent[j].observation != observation
      {
        if recent[i].observation == observation {
          return true;
        }
      }
      return false;
    }

    method StaleCopiesOfPath(path: string, current: string) returns (n: nat)
      ensures n == StaleCopies(State(), path, current)
    {
      if path == "" {
        return 0;
      }
      n := 0;
      var live := ObservedBytes(current);
      ghost var stale := t => Stale(path, current, t);
      assert recent[..|recent|] == recent;
      for i := 0 to |recent|
        invariant n == Count(stale, recent[..i])
      {
        CountTake(stale, recent, i);
        if recent[i].observedPath == path && ObservedBytes(recent[i].observation) != live {
          n := n + 1;
        }
      }
      assert StaleCopies(State(), path, current) == Count(t => Stale(path, current, t), recent);
    }

    method SupersedeStaleCopiesOfPath(path: string, current: string, replacement: string) returns (superseded: nat)
      modifies this`recent
      ensures State() == SupersedeStale(old(State()), path, current, replacement)
      ensures superseded == Count(IsStale(path, current), old(recent))
    {
      hide Count;
      superseded := 0;
      ghost var before := recent;
      ghost var stale := IsStale(path, current);
      ghost var rewrite := Rewriter(stale, replacement);
      assert before[..|before|] == before && before[..0] == [];
      NoneCounted(stale);
      NothingStaleWithout(path, current, before);
      if path != "" {
        var live := ObservedBytes(current);
        for i := 0 to |recent|
          invariant |recent| == |before|
          invariant recent == Map(rewrite, before[..i]) + before[i..]
          invariant superseded == Count(stale, before[..i])
        {
          CountTake(stale, before, i);
          MapInPlace(rewrite, before, i);
          if recent[i].observedPath == path && ObservedBytes(recent[i].observation) != live {
            recent := recent[i := recent[i].(observation := replacement, observedPath := "")];
            superseded := superseded + 1;
          }
        }
      }
      assert recent == Map(rewrite, before);
    }

    method SupersedeDuplicateObservation(observation: string, replacement: string) returns (collapsed: nat)
      modifies this`recent
      ensures State() == SupersedeDuplicates(old(State()), observation, replacement)
      ensures collapsed == Count(IsDuplicate(observation), old(recent))
    {
      hide Count;
      collapsed := 0;
      ghost var before := recent;
      ghost var duplicate := IsDuplicate(observation);
      ghost var rewrite := Rewriter(duplicate, replacement);
      assert before[..|before|] == before && before[..0] == [];
      NoneCounted(duplicate);
      NothingDuplicateWithout(observation, before);
      if observation != "" {
        for i := 0 to |recent|
          invariant |recent| == |before|
          invariant recent == Map(rewrite, before[..i]) + before[i..]
          invariant collapsed == Count(duplicate, before[..i])
        {
          CountTake(duplicate, before, i);
          MapInPlace(rewrite, before, i);
          if recent[i].observation == observation {
            recent := recent[i := recent[i].(observation := replacement, observedPath := "")];
            collapsed := collapsed + 1;
          }
        }
      }
      assert recent == Map(rewrite, before);
    }

    method RewriteObservation(index: nat, observation: string) returns (ok: bool)
      modifies this`recent
      ensures ok == (index < |old(recent)|)
      ensures State() == ContextModel.RewriteObservation(old(State()), index, observation)
    {
      if index >= |recent| {
        return false;
      }
      recent := recent[index := recent[index].(observation := observation, observedPath := "")];
      return true;
    }

    method CompactOldest(keepRecent: nat, countAsEvent: bool) returns (drop: nat)
      modifies this
      ensures drop == if |old(recent)| <= keepRecent then 0 else |old(recent)| - keepRecent
      ensures State() == ContextModel.CompactOldest(old(State()), keepRecent, countAsEvent)
    {
      if |recent| <= keepRecent {
        return 0;
      }
      drop := |recent| - keepRecent;
      var span := Summarize(recent[..drop]);
      FoldInto(span, drop, countAsEvent);
    }

    // Keeps the span, hands the turns over, and only then erases them.
    method FoldInto(span: string, drop: nat, countAsEvent: bool)
      requires drop <= |recent|
      modifies this
      ensures State() == Fold(old(State()), drop, span, countAsEvent)
    {
      spans := spans + [span];
      compactionSink := Call(compactionSink, SinkCall(recent[..drop], |spans| - 1, spans[|spans| - 1]));
      recent := recent[drop..];
      if countAsEvent {
        compactions := compactions + 1;
      }
    }

    // The span text of a trim: its header, then one anchor line per dropped turn.
    static method Summarize(dropped: seq<TurnRecord>) returns (span: string)
      requires dropped != []
      ensures span == Span(dropped)
    {
      span := SpanHeader(dropped);
      assert dropped[..|dropped|] == dropped;
      for i := 0 to |dropped|
        invariant span == SpanHeader(dropped) + FlatMap(AnchorLine, dropped[..i])
      {
        FlatMapTake(AnchorLine, dropped, i);
        Associative(SpanHeader(dropped), FlatMap(AnchorLine, dropped[..i]), AnchorLine(dropped[i]));
        var line := ReadAnchorLine(dropped[i]);
        span := span + line;
      }
    }

    // One turn's line in a span, built up piece by piece.
    static method ReadAnchorLine(t: TurnRecord) returns (line: string)
      ensures line == AnchorLine(t)
    {
      if t.userText != "" {
        return "- you were told: " + FirstLine(t.userText, 400) + "\n";
      }
      if t.toolName == "" {
        return "- said: " + FirstLine(t.assistantText, 160) + "\n";
      }
      line := "- ";
      var call := t.toolName;
      if t.toolName + "(" <= t.toolArgsSummary {
        call := FirstLine(t.toolArgsSummary, 80);
      } else if t.toolArgsSummary != "" {
        call := call + ("(" + FirstLine(t.toolArgsSummary, 80) + ")");
      }
      line := line + call + (if t.isError then " FAILED: " else " -> ") + FirstLine(t.observation, 200) + "\n";
    }

    method RenderLiveState() returns (text: string)
      ensures text == LiveState(State())
    {
      text := UserSection(userTurns);
      var items := RenderLines("# Checklist\n\n", ChecklistLine, checklist);
      text := text + items;
      var paths := RenderLines("\n# Deliverables produced so far\n\n", DeliverableLine, deliverables);
      text := text + paths;
      text := text + CheckSection(lastCheck);
    }

    // A heading and one line per entry, or nothing when there are none.
    static method RenderLines<T>(heading: string, line: T -> string, entries: seq<T>) returns (text: string)
      ensures text == if entries == [] then "" else heading + FlatMap(line, entries)
    {
      if entries == [] {
        return "";
      }
      text := heading;
      assert entries[..|entries|] == entries;
      for i := 0 to |entries|
        invariant text == heading + FlatMap(line, entries[..i])
      {
        FlatMapTake(line, entries, i);
        Associative(heading, FlatMap(line, entries[..i]), line(entries[i]));
        text := text + line(entries[i]);
      }
    }

    method Render(w: Wording, guidance: string) returns (out: seq<Message>)
      requires userTurns != []
      ensures out == Rendering.Render(State(), w, guidance)
    {
      hide SystemText, LiveState, FlatMap, TurnMessages;
      out := [Message(SystemRole, SystemText(w, sys, guidance), "", [])];
      out := out + [UserMessage(userTurns[0])];
      var shown := RenderSpans(w);
      out := out + shown;
      ghost var front := out;
      assert recent[..|recent|] == recent && recent[..0] == [];
      FlatMapNothing(TurnMessages);
      for i := 0 to |recent|
        invariant out == front + FlatMap(TurnMessages, recent[..i])
      {
        FlatMapTake(TurnMessages, recent, i);
        Associative(front, FlatMap(TurnMessages, recent[..i]), TurnMessages(recent[i]));
        var messages := RenderTurn(recent[i]);
        out := out + messages;
      }
      var live := RenderLiveState();
      if live != "" {
        out := out + [UserMessage(live)];
      }
    }

    // The compacted spans, the hint on the first.
    method RenderSpans(w: Wording) returns (out: seq<Message>)
      ensures out == SpanMessages(w, sys, spans)
    {
      out := [];
      for i := 0 to |spans|
        invariant out == SpanMessages(w, sys, spans)[..i]
      {
        var body := spans[i];
        if i == 0 && sys.recallItems > 0 {
          body := body + w.rehydrateHint;
        }
        assert SpanMessages(w, sys, spans)[i] == UserMessage(body);
        out := out + [UserMessage(body)];
      }
    }

    // One recent turn: what the human said, or the call and what came back.
    static method RenderTurn(t: TurnRecord) returns (messages: seq<Message>)
      ensures messages == TurnMessages(t)
    {
      if t.userText != "" {
        return [Message(UserRole, t.userText, "", t.observedImages)];
      }
      messages := [];
      if t.assistantText != "" || t.toolCallText != "" {
        messages := messages + [Message(AssistantRole, t.assistantText, t.toolCallText, [])];
      }
      if t.observation != "" || t.observedImages != [] {
        messages := messages + [Message(ToolResponseRole, t.observation, "", t.observedImages)];
      }
    }

    method StableMessageCount(w: Wording, guidance: string) returns (n: int)
      requires userTurns != []
      ensures n == Rendering.StableMessageCount(State(), w, guidance)
    {
      var messages := Render(w, guidance);
      var live := RenderLiveState();
      n := if live == "" then |messages| else |messages| - 1;
    }
  }
}
