/** The prompt: how the store is projected into messages, most stable first, and what of
    the projection survives from turn to turn. */
module Rendering {
  import opened Sequences
  import opened Text
  import opened ContextModel

  datatype Role = SystemRole | UserRole | AssistantRole | ToolResponseRole

  datatype Message = Message(role: Role, content: string, toolCall: string, images: seq<string>)

  // The fixed sentences of the prompt. Their wording is not part of this model.
  datatype Wording = Wording(
    persona: string,
    workspaceBefore: string,
    workspaceAfter: string,
    recallBefore: string,
    recallBetween: string,
    recallAfter: string,
    memoryHeading: string,
    rehydrateHint: string)

  function SkillText(k: Skill): string { "\n## Skill: " + k.name + "\n\n" + k.body + "\n" }

  function OpeningText(w: Wording, f: SystemFields, guidance: string): string {
    (if f.reasoningBrief == "" then "" else f.reasoningBrief + "\n\n") +
    (if f.persona == "" then w.persona else f.persona) +
    (if f.modeBrief == "" then "" else "\n\n" + f.modeBrief) +
    "\n\n" + guidance
  }

  function WorkspaceText(w: Wording, root: string): string {
    if root == "" then "" else w.workspaceBefore + root + w.workspaceAfter
  }

  function RecallText(w: Wording, items: int, sessions: int): string {
    if sessions > 1 && items > 0
    then w.recallBefore + Decimal(items) + w.recallBetween + Decimal(sessions) + w.recallAfter
    else ""
  }

  function UnderHeading(heading: string, text: string): string { if text == "" then "" else heading + text }

  function SkillsText(skills: seq<Skill>): string {
    if skills == [] then "" else "\n\n# Loaded skills\n" + FlatMap(SkillText, skills)
  }

  function SystemText(w: Wording, f: SystemFields, guidance: string): string {
    OpeningText(w, f, guidance) +
    WorkspaceText(w, f.workspaceRoot) +
    RecallText(w, f.recallItems, f.recallSessions) +
    UnderHeading("\n\n# Project conventions\n\n", f.projectInstructions) +
    UnderHeading("\n\n# Available skills\n\n", f.skillsCatalog) +
    SkillsText(f.loadedSkills) +
    UnderHeading(w.memoryHeading, f.projectMemory)
  }

  function UserMessage(text: string): Message { Message(UserRole, text, "", []) }

  function SpanMessage(w: Wording, f: SystemFields, spans: seq<string>, i: nat): Message
    requires i < |spans|
  {
    UserMessage(if i == 0 && f.recallItems > 0 then spans[i] + w.rehydrateHint else spans[i])
  }

  function SpanMessages(w: Wording, f: SystemFields, spans: seq<string>): seq<Message> {
    seq(|spans|, i requires 0 <= i < |spans| => SpanMessage(w, f, spans, i))
  }

  function TurnMessages(t: TurnRecord): seq<Message> {
    if t.userText != "" then [Message(UserRole, t.userText, "", t.observedImages)]
    else
      (if t.assistantText == "" && t.toolCallText == "" then []
       else [Message(AssistantRole, t.assistantText, t.toolCallText, [])]) +
      (if t.observation == "" && t.observedImages == [] then []
       else [Message(ToolResponseRole, t.observation, "", t.observedImages)])
  }

  function ChecklistLine(c: ChecklistItem): string { (if c.done then "- [x] " else "- [ ] ") + c.text + "\n" }

  function DeliverableLine(d: string): string { "- " + d + "\n" }

  function CheckLine(v: CheckResult): string {
    "\n# Operator check\n\n- " + (if !v.ran then "COULD NOT RUN " else if v.passed then "PASS " else "FAIL ") +
    v.command + "\n"
  }

  function ChecklistSection(items: seq<ChecklistItem>): string {
    if items == [] then "" else "# Checklist\n\n" + FlatMap(ChecklistLine, items)
  }

  function DeliverablesSection(paths: seq<string>): string {
    if paths == [] then "" else "\n# Deliverables produced so far\n\n" + FlatMap(DeliverableLine, paths)
  }

  function UserSection(userTurns: seq<string>): string {
    if |userTurns| > 1 then "# Latest user message\n\n" + userTurns[|userTurns| - 1] + "\n\n" else ""
  }

  function CheckSection(check: Option<CheckResult>): string {
    match check
    case Some(v) => CheckLine(v)
    case None => ""
  }

  function LiveState(s: Store): string {
    UserSection(s.userTurns) + ChecklistSection(s.checklist) + DeliverablesSection(s.deliverables) +
    CheckSection(s.lastCheck)
  }

  /** Every message but the live state. */
  function StablePart(s: Store, w: Wording, guidance: string): seq<Message>
    requires s.userTurns != []
  {
    [Message(SystemRole, SystemText(w, s.sys, guidance), "", []), UserMessage(s.userTurns[0])] +
    SpanMessages(w, s.sys, s.spans) + FlatMap(TurnMessages, s.recent)
  }

  function Render(s: Store, w: Wording, guidance: string): seq<Message>
    requires s.userTurns != []
  {
    StablePart(s, w, guidance) + if LiveState(s) == "" then [] else [UserMessage(LiveState(s))]
  }

  function StableMessageCount(s: Store, w: Wording, guidance: string): int
    requires s.userTurns != []
  {
    if LiveState(s) == "" then |Render(s, w, guidance)| else |Render(s, w, guidance)| - 1
  }

  // --- What survives -----------------------------------------------------------------------

  /** The operations of an ordinary turn: they append, or touch only the live state. */
  predicate Growing(op: Op) {
    op.AddTurnOp? || op.AddUserOp? || op.SetChecklistOp? || op.SetLastCheckOp? || op.RecordDeliverableOp? ||
    op.InvalidateFreshnessOp? || op.SetBudgetOp? || op.NoteCompactionOp?
  }

  lemma MissionStays(s: Store, op: Op)
    requires s.userTurns != []
    ensures Apply(s, op).userTurns != [] && Apply(s, op).userTurns[0] == s.userTurns[0]
    ensures Apply(s, op).sys == s.sys && s.spans <= Apply(s, op).spans
  {
  }

  lemma GrowingExtends(s: Store, op: Op, w: Wording, guidance: string)
    requires s.userTurns != [] && Growing(op)
    ensures Apply(s, op).userTurns != []
    ensures StablePart(s, w, guidance) <= StablePart(Apply(s, op), w, guidance)
  {
    var s' := Apply(s, op);
    MissionStays(s, op);
    assert s'.spans == s.spans;
    var added := s'.recent[|s.recent|..];
    assert s'.recent == s.recent + added;
    FlatMapAppend(TurnMessages, s.recent, added);
  }

  lemma {:induction false} GrowthExtends(s: Store, ops: seq<Op>, w: Wording, guidance: string)
    requires s.userTurns != []
    requires forall op :: op in ops ==> Growing(op)
    ensures Run(s, ops).userTurns != []
    ensures StablePart(s, w, guidance) <= StablePart(Run(s, ops), w, guidance)
  {
    if ops != [] {
      var before := ops[..|ops| - 1];
      GrowthExtends(s, before, w, guidance);
      GrowingExtends(Run(s, before), ops[|ops| - 1], w, guidance);
    }
  }

  /** Turn N's stable prefix is a prefix of every later prompt, as long as the turns between
      only add records and update the live state -- so the KV checkpoint taken at
      stable_message_count stays usable, and the boundary never moves back. */
  lemma StablePrefixSurvives(s: Store, ops: seq<Op>, w: Wording, guidance: string)
    requires s.userTurns != []
    requires forall op :: op in ops ==> Growing(op)
    ensures Run(s, ops).userTurns != []
    ensures 0 <= StableMessageCount(s, w, guidance) <= |Render(s, w, guidance)|
    ensures Render(s, w, guidance)[..StableMessageCount(s, w, guidance)] <= Render(Run(s, ops), w, guidance)
    ensures StableMessageCount(s, w, guidance) <= StableMessageCount(Run(s, ops), w, guidance)
  {
    GrowthExtends(s, ops, w, guidance);
    assert Render(s, w, guidance)[..StableMessageCount(s, w, guidance)] == StablePart(s, w, guidance);
  }

  /** The system message, the mission and the spans. */
  function Front(s: Store, w: Wording, guidance: string): seq<Message>
    requires s.userTurns != []
  {
    [Message(SystemRole, SystemText(w, s.sys, guidance), "", []), UserMessage(s.userTurns[0])] +
    SpanMessages(w, s.sys, s.spans)
  }

  lemma FrontLeads(s: Store, w: Wording, guidance: string)
    requires s.userTurns != []
    ensures |Front(s, w, guidance)| == 2 + |s.spans| <= |Render(s, w, guidance)|
    ensures Render(s, w, guidance)[..2 + |s.spans|] == Front(s, w, guidance)
  {
  }

  lemma FrontExtends(s: Store, op: Op, w: Wording, guidance: string)
    requires s.userTurns != []
    ensures Apply(s, op).userTurns != []
    ensures Front(s, w, guidance) <= Front(Apply(s, op), w, guidance)
  {
    hide SystemText;
    MissionStays(s, op);
    var s' := Apply(s, op);
    assert forall i :: 0 <= i < |s.spans| ==> SpanMessage(w, s.sys, s.spans, i) == SpanMessage(w, s'.sys, s'.spans, i);
  }

  lemma {:induction false} FrontSurvives(s: Store, ops: seq<Op>, w: Wording, guidance: string)
    requires s.userTurns != []
    ensures Run(s, ops).userTurns != []
    ensures Front(s, w, guidance) <= Front(Run(s, ops), w, guidance)
  {
    if ops != [] {
      FrontSurvives(s, ops[..|ops| - 1], w, guidance);
      FrontExtends(Run(s, ops[..|ops| - 1]), ops[|ops| - 1], w, guidance);
    }
  }

  /** Whatever happens -- rewrites and compactions included -- the system message, the mission
      and every span already rendered stay byte-identical. */
  lemma OldSpansSurvive(s: Store, ops: seq<Op>, w: Wording, guidance: string)
    requires s.userTurns != []
    ensures Run(s, ops).userTurns != [] && 2 + |s.spans| <= |Render(s, w, guidance)|
    ensures Render(s, w, guidance)[..2 + |s.spans|] <= Render(Run(s, ops), w, guidance)
  {
    FrontSurvives(s, ops, w, guidance);
    FrontLeads(s, w, guidance);
    FrontLeads(Run(s, ops), w, guidance);
  }

  // --- What a trim cannot lose ----------------------------------------------------------------

  const PIN := "# Latest user message\n\n"

  lemma {:induction false} LatestAskIsLast(s: Store, ops: seq<Op>, i: nat)
    requires s.userTurns != [] && i < |ops| && ops[i].AddUserOp?
    requires forall j :: i < j < |ops| ==> !ops[j].AddUserOp?
    ensures var turns := Run(s, ops).userTurns; |turns| > 1 && turns[|turns| - 1] == ops[i].text
  {
    var n := |ops| - 1;
    if i < n {
      LatestAskIsLast(s, ops[..n], i);
      SameUserTurns(Run(s, ops[..n]), ops[n]);
    } else {
      UserTurnsStay(s, ops[..n]);
    }
  }

  lemma SameUserTurns(s: Store, op: Op)
    requires !op.AddUserOp?
    ensures Apply(s, op).userTurns == s.userTurns
  {
  }

  lemma {:induction false} UserTurnsStay(s: Store, ops: seq<Op>)
    requires s.userTurns != []
    ensures Run(s, ops).userTurns != []
  {
    if ops != [] {
      UserTurnsStay(s, ops[..|ops| - 1]);
      MissionStays(Run(s, ops[..|ops| - 1]), ops[|ops| - 1]);
    }
  }

  /** Whatever happens after it -- trims and rewrites included -- the latest instruction is in
      the prompt word for word, at the head of the last message. */
  lemma LatestAskIsPinned(s: Store, ops: seq<Op>, i: nat, w: Wording, guidance: string)
    requires s.userTurns != [] && i < |ops| && ops[i].AddUserOp?
    requires forall j :: i < j < |ops| ==> !ops[j].AddUserOp?
    ensures Run(s, ops).userTurns != []
    ensures var out := Render(Run(s, ops), w, guidance);
            out != [] && out[|out| - 1].role == UserRole && PIN + ops[i].text <= out[|out| - 1].content
  {
    LatestAskIsLast(s, ops, i);
    PinLeads(Run(s, ops));
  }

  lemma PinLeads(s: Store)
    requires |s.userTurns| > 1
    ensures PIN + s.userTurns[|s.userTurns| - 1] <= LiveState(s)
  {
  }

  // --- What a rewrite costs -----------------------------------------------------------------

  /** Some records have become pointers, all with one text. */
  ghost predicate Rewritten(ts: seq<TurnRecord>, us: seq<TurnRecord>, replacement: string) {
    |ts| == |us| && forall j :: 0 <= j < |ts| ==> us[j] == ts[j] || us[j] == Repoint(ts[j], replacement)
  }

  /** The prompt shows what came back from this turn. */
  predicate Shows(t: TurnRecord) { t.userText == "" && (t.observation != "" || t.observedImages != []) }

  ghost predicate ShownIsKept(ts: seq<TurnRecord>, us: seq<TurnRecord>)
    requires |ts| == |us|
  {
    forall j :: 0 <= j < |ts| && Shows(ts[j]) ==> us[j].observation == ts[j].observation
  }

  ghost predicate NoneAppears(ts: seq<TurnRecord>, us: seq<TurnRecord>)
    requires |ts| == |us|
  {
    forall j :: 0 <= j < |ts| && Shows(us[j]) ==> Shows(ts[j])
  }

  function Response(t: TurnRecord): Message { Message(ToolResponseRole, t.observation, "", t.observedImages) }

  function Is(m: Message): Message -> bool { (x: Message) => x == m }

  lemma CountInTurn(t: TurnRecord, m: Message)
    requires m.role == ToolResponseRole
    ensures Count(Is(m), TurnMessages(t)) == if Shows(t) && Response(t) == m then 1 else 0
  {
    if t.userText != "" {
      CountOne(Is(m), Message(UserRole, t.userText, "", t.observedImages));
    } else {
      var call := Message(AssistantRole, t.assistantText, t.toolCallText, []);
      CountOne(Is(m), call);
      CountOne(Is(m), Response(t));
      CountSnoc(Is(m), [call], Response(t));
      assert [call] + [Response(t)] == [call, Response(t)] && [] + [Response(t)] == [Response(t)];
      assert [call] + [] == [call];
    }
  }

  predicate ShowsAs(t: TurnRecord, m: Message) { Shows(t) && Response(t) == m }

  lemma {:induction false} CountInTurns(ts: seq<TurnRecord>, m: Message)
    requires m.role == ToolResponseRole
    ensures Count(Is(m), FlatMap(TurnMessages, ts)) == Count(t => ShowsAs(t, m), ts)
  {
    if ts != [] {
      hide TurnMessages;
      var n := |ts| - 1;
      CountInTurns(ts[..n], m);
      CountAppend(Is(m), FlatMap(TurnMessages, ts[..n]), TurnMessages(ts[n]));
      CountInTurn(ts[n], m);
    }
  }

  lemma {:induction false} FewerCount(p: TurnRecord -> bool, ts: seq<TurnRecord>, us: seq<TurnRecord>)
    requires |ts| == |us| && forall j :: 0 <= j < |ts| && p(us[j]) ==> p(ts[j])
    ensures Count(p, us) <= Count(p, ts)
    ensures (exists j :: 0 <= j < |ts| && p(ts[j]) && !p(us[j])) ==> Count(p, us) < Count(p, ts)
  {
    if ts != [] {
      FewerCount(p, ts[..|ts| - 1], us[..|us| - 1]);
    }
  }

  /** A message with another text than the pointer's is shown less often, once it is rewritten. */
  lemma RewritingTakesAway(ts: seq<TurnRecord>, us: seq<TurnRecord>, replacement: string, j: nat)
    requires Rewritten(ts, us, replacement) && j < |ts| && Shows(ts[j]) && us[j].observation != ts[j].observation
    ensures var m := Response(ts[j]);
            Count(Is(m), FlatMap(TurnMessages, us)) < Count(Is(m), FlatMap(TurnMessages, ts))
  {
    hide TurnMessages, FlatMap;
    var m := Response(ts[j]);
    CountInTurns(ts, m);
    CountInTurns(us, m);
    FewerCount(t => ShowsAs(t, m), ts, us);
  }

  lemma PrefixCountsLess(p: Message -> bool, a: seq<Message>, b: seq<Message>)
    requires a <= b
    ensures Count(p, a) <= Count(p, b)
  {
    assert b == a + b[|a|..];
    CountAppend(p, a, b[|a|..]);
  }

  lemma ResponsesAreOfTurns(s: Store, w: Wording, guidance: string, m: Message)
    requires s.userTurns != [] && m.role == ToolResponseRole
    ensures Count(Is(m), StablePart(s, w, guidance)) == Count(Is(m), FlatMap(TurnMessages, s.recent))
    ensures Count(Is(m), Render(s, w, guidance)) == Count(Is(m), FlatMap(TurnMessages, s.recent))
  {
    hide LiveState, SystemText, TurnMessages, FlatMap;
    var front, live := Front(s, w, guidance), if LiveState(s) == "" then [] else [UserMessage(LiveState(s))];
    assert forall i :: 0 <= i < |front| ==> front[i].role != ToolResponseRole;
    CountAppend(Is(m), front, FlatMap(TurnMessages, s.recent));
    CountAppend(Is(m), StablePart(s, w, guidance), live);
  }

  /** Whatever rewrites observations, the old stable prefix is lost when what a turn shows is
      rewritten to another text. When it is not, and no turn that showed nothing shows the new
      text, the prefix survives. */
  lemma RewritingBreaksThePrefix(s: Store, s': Store, replacement: string, w: Wording, guidance: string)
    requires s.userTurns != [] && s' == s.(recent := s'.recent) && Rewritten(s.recent, s'.recent, replacement)
    ensures StablePart(s, w, guidance) <= Render(s', w, guidance) ==> ShownIsKept(s.recent, s'.recent)
    ensures ShownIsKept(s.recent, s'.recent) && NoneAppears(s.recent, s'.recent) ==>
              StablePart(s, w, guidance) <= Render(s', w, guidance)
  {
    if !ShownIsKept(s.recent, s'.recent) {
      hide StablePart, Render, TurnMessages, LiveState, SystemText;
      var j :| 0 <= j < |s.recent| && Shows(s.recent[j]) && s'.recent[j].observation != s.recent[j].observation;
      var m := Response(s.recent[j]);
      RewritingTakesAway(s.recent, s'.recent, replacement, j);
      ResponsesAreOfTurns(s, w, guidance, m);
      ResponsesAreOfTurns(s', w, guidance, m);
      if StablePart(s, w, guidance) <= Render(s', w, guidance) {
        PrefixCountsLess(Is(m), StablePart(s, w, guidance), Render(s', w, guidance));
        assert false;
      }
    } else if NoneAppears(s.recent, s'.recent) {
      SameMessages(s.recent, s'.recent);
      assert StablePart(s', w, guidance) == StablePart(s, w, guidance);
    }
  }

  /** A pass that rewrites every record of a kind: where those records show something, the old
      prefix survives exactly when each shows the new text already. */
  lemma PassBreaksThePrefix(s: Store, matches: TurnRecord -> bool, replacement: string, w: Wording, guidance: string)
    requires s.userTurns != []
    ensures var survives := StablePart(s, w, guidance) <= Render(Supersede(matches, replacement, s), w, guidance);
            (survives ==> forall t :: t in s.recent && matches(t) && Shows(t) ==> t.observation == replacement) &&
            ((forall t :: t in s.recent && matches(t) ==> Shows(t) || t.userText != "") ==>
               (survives <==> forall t :: t in s.recent && matches(t) && Shows(t) ==> t.observation == replacement))
  {
    hide StablePart, Render;
    var s' := Supersede(matches, replacement, s);
    RewritingBreaksThePrefix(s, s', replacement, w, guidance);
    forall t | t in s.recent && matches(t) && Shows(t)
      ensures ShownIsKept(s.recent, s'.recent) ==> t.observation == replacement
    {
      var j :| 0 <= j < |s.recent| && s.recent[j] == t;
      assert s'.recent[j] == Repoint(t, replacement);
    }
    assert forall j :: 0 <= j < |s.recent| ==> s.recent[j] in s.recent;
  }

  /** Collapsing a duplicate rewrites the prompt it is in: the old stable prefix survives
      exactly when no shown observation was collapsed, or each onto itself. */
  lemma CollapseBreaksThePrefix(s: Store, observation: string, replacement: string, w: Wording, guidance: string)
    requires s.userTurns != []
    ensures StablePart(s, w, guidance) <= Render(SupersedeDuplicates(s, observation, replacement), w, guidance) <==>
            observation == "" || replacement == observation ||
            forall t :: t in s.recent && t.observation == observation ==> t.userText != ""
  {
    hide StablePart, Render;
    PassBreaksThePrefix(s, IsDuplicate(observation), replacement, w, guidance);
  }

  /** So does repointing the stale copies of a file; a copy that is empty shows nothing. */
  lemma RepointingBreaksThePrefix(s: Store, path: string, current: string, replacement: string, w: Wording,
                                  guidance: string)
    requires s.userTurns != []
    ensures var survives :=
              StablePart(s, w, guidance) <= Render(SupersedeStale(s, path, current, replacement), w, guidance);
            (survives ==>
               forall t :: t in s.recent && IsStale(path, current)(t) && Shows(t) ==> t.observation == replacement) &&
            ((forall t :: t in s.recent && IsStale(path, current)(t) ==> t.observation != "") ==>
               (survives <==>
                  forall t :: t in s.recent && IsStale(path, current)(t) ==>
                    t.userText != "" || t.observation == replacement))
  {
    hide StablePart, Render, IsStale;
    PassBreaksThePrefix(s, IsStale(path, current), replacement, w, guidance);
  }

  /** And so does rewriting one observation in place. */
  lemma RewriteBreaksThePrefix(s: Store, index: nat, observation: string, w: Wording, guidance: string)
    requires s.userTurns != [] && index < |s.recent| && Shows(s.recent[index])
    ensures StablePart(s, w, guidance) <= Render(RewriteObservation(s, index, observation), w, guidance) <==>
            s.recent[index].observation == observation
  {
    hide StablePart, Render;
    RewritingBreaksThePrefix(s, RewriteObservation(s, index, observation), observation, w, guidance);
  }

  lemma {:induction false} SameMessages(ts: seq<TurnRecord>, us: seq<TurnRecord>)
    requires |ts| == |us|
    requires forall j :: 0 <= j < |ts| ==> TurnMessages(ts[j]) == TurnMessages(us[j])
    ensures FlatMap(TurnMessages, ts) == FlatMap(TurnMessages, us)
  {
    if ts != [] {
      SameMessages(ts[..|ts| - 1], us[..|us| - 1]);
    }
  }
}
