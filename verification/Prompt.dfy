/** What the prompt says: every message of it, where it stands and what it carries, and the text of
    the first and the last. */
module Prompt {
  import opened Sequences
  import opened Text
  import opened ContextModel
  import opened Rendering

  // --- The messages of the turns ----------------------------------------------------------------

  predicate Human(t: TurnRecord) { t.userText != "" }

  /** The model said or called something. */
  predicate Spoke(t: TurnRecord) { !Human(t) && (t.assistantText != "" || t.toolCallText != "") }

  /** Something came back. */
  predicate CameBack(t: TurnRecord) { !Human(t) && (t.observation != "" || t.observedImages != []) }

  function Slots(t: TurnRecord): nat {
    (if Human(t) then 1 else 0) + (if Spoke(t) then 1 else 0) + (if CameBack(t) then 1 else 0)
  }

  function SlotsOf(ts: seq<TurnRecord>): nat {
    if ts == [] then 0 else SlotsOf(ts[..|ts| - 1]) + Slots(ts[|ts| - 1])
  }

  /** A message with this content, and these and only these parts. */
  predicate Carries(m: Message, role: Role, content: string, toolCall: string, images: seq<string>) {
    m.role == role && m.content == content && m.toolCall == toolCall && m.images == images
  }

  /** From here on stands what was said in the turn and then what came back, and nothing between. */
  predicate ShownAt(out: seq<Message>, at: nat, t: TurnRecord) {
    && at + Slots(t) <= |out|
    && (Human(t) ==> Carries(out[at], UserRole, t.userText, "", t.observedImages))
    && (Spoke(t) ==> Carries(out[at], AssistantRole, t.assistantText, t.toolCallText, []))
    && (CameBack(t) ==>
          Carries(out[at + if Spoke(t) then 1 else 0], ToolResponseRole, t.observation, "", t.observedImages))
  }

  lemma TurnIsShown(t: TurnRecord)
    ensures |TurnMessages(t)| == Slots(t) && ShownAt(TurnMessages(t), 0, t)
  {
  }

  lemma ShownAfter(front: seq<Message>, out: seq<Message>, more: seq<Message>, at: nat, t: TurnRecord)
    requires ShownAt(out, at, t)
    ensures ShownAt(front + out + more, |front| + at, t)
  {
    var all := front + out + more;
    assert forall j :: 0 <= j < |out| ==> all[|front| + j] == out[j];
  }

  lemma {:induction false} TurnsAreShown(ts: seq<TurnRecord>, i: nat)
    requires i < |ts|
    ensures |FlatMap(TurnMessages, ts)| == SlotsOf(ts)
    ensures ShownAt(FlatMap(TurnMessages, ts), SlotsOf(ts[..i]), ts[i])
    decreases |ts|
  {
    hide TurnMessages, ShownAt, Slots;
    var n := |ts| - 1;
    var before, last := FlatMap(TurnMessages, ts[..n]), TurnMessages(ts[n]);
    SlotsAddUp(ts[..n]);
    TurnIsShown(ts[n]);
    if i == n {
      ShownAfter(before, last, [], 0, ts[n]);
      assert before + last + [] == before + last;
    } else {
      TurnsAreShown(ts[..n], i);
      assert ts[..n][..i] == ts[..i];
      ShownAfter([], before, last, SlotsOf(ts[..i]), ts[i]);
      assert [] + before == before;
    }
  }

  lemma {:induction false} SlotsAddUp(ts: seq<TurnRecord>)
    ensures |FlatMap(TurnMessages, ts)| == SlotsOf(ts)
  {
    if ts != [] {
      SlotsAddUp(ts[..|ts| - 1]);
      TurnIsShown(ts[|ts| - 1]);
    }
  }

  /** After the system message, the mission and the spans, turn by turn: a human turn is one user
      message with its text and images; of any other, what it said and called is one assistant
      message with the text for content and the call for call, and what came back is one tool
      response with the observation and its images, in that order, each left out when empty. */
  lemma EveryTurnIsShown(s: Store, w: Wording, guidance: string, i: nat)
    requires s.userTurns != [] && i < |s.recent|
    ensures ShownAt(Render(s, w, guidance), 2 + |s.spans| + SlotsOf(s.recent[..i]), s.recent[i])
  {
    hide TurnMessages, ShownAt, SystemText, LiveState;
    TurnsAreShown(s.recent, i);
    var front := Front(s, w, guidance);
    var live := if LiveState(s) == "" then [] else [UserMessage(LiveState(s))];
    ShownAfter(front, FlatMap(TurnMessages, s.recent), live, SlotsOf(s.recent[..i]), s.recent[i]);
  }

  /** And nothing else is in the prompt: before the turns the system text, the mission and the spans in
      order, the first with the hint when anything is stored; after them the live state, if any. */
  lemma NothingElseIsShown(s: Store, w: Wording, guidance: string)
    requires s.userTurns != []
    ensures var out, turns := Render(s, w, guidance), 2 + |s.spans| + SlotsOf(s.recent);
            |out| == turns + (if LiveState(s) == "" then 0 else 1) &&
            Carries(out[0], SystemRole, SystemText(w, s.sys, guidance), "", []) &&
            Carries(out[1], UserRole, s.userTurns[0], "", []) &&
            (forall i :: 0 <= i < |s.spans| ==>
               Carries(out[2 + i], UserRole,
                       s.spans[i] + (if i == 0 && s.sys.recallItems > 0 then w.rehydrateHint else ""), "", [])) &&
            (LiveState(s) != "" ==> Carries(out[turns], UserRole, LiveState(s), "", []))
  {
    hide TurnMessages, SystemText, LiveState, StablePart, FlatMap, SlotsOf;
    SlotsAddUp(s.recent);
    var front, turns := Front(s, w, guidance), FlatMap(TurnMessages, s.recent);
    var live := if LiveState(s) == "" then [] else [UserMessage(LiveState(s))];
    FrontSays(s, w, guidance);
    RenderIs(s, w, guidance);
    assert |front| == 2 + |s.spans|;
    assert forall j :: 0 <= j < |front| ==> (front + turns + live)[j] == front[j];
  }

  lemma RenderIs(s: Store, w: Wording, guidance: string)
    requires s.userTurns != []
    ensures Render(s, w, guidance) ==
            Front(s, w, guidance) + FlatMap(TurnMessages, s.recent) +
            if LiveState(s) == "" then [] else [UserMessage(LiveState(s))]
  {
    hide TurnMessages, SystemText, LiveState, FlatMap;
  }

  lemma FrontSays(s: Store, w: Wording, guidance: string)
    requires s.userTurns != []
    ensures var front := Front(s, w, guidance);
            |front| == 2 + |s.spans| &&
            Carries(front[0], SystemRole, SystemText(w, s.sys, guidance), "", []) &&
            Carries(front[1], UserRole, s.userTurns[0], "", []) &&
            forall i :: 0 <= i < |s.spans| ==>
              Carries(front[2 + i], UserRole,
                      s.spans[i] + (if i == 0 && s.sys.recallItems > 0 then w.rehydrateHint else ""), "", [])
  {
    hide SystemText;
    forall i | 0 <= i < |s.spans|
      ensures s.spans[i] + "" == s.spans[i]
    {
      Nothing(s.spans[i]);
    }
  }

  // --- The live state ---------------------------------------------------------------------------------

  /** Nothing to say, nothing said; and the latest message alone. */
  lemma LiveStateStarts(s: Store)
    requires s.checklist == [] && s.deliverables == [] && s.lastCheck.None?
    ensures LiveState(s) ==
            if |s.userTurns| <= 1 then ""
            else "# Latest user message\n\n" + s.userTurns[|s.userTurns| - 1] + "\n\n"
  {
  }

  lemma Nothing(text: string)
    ensures text + "" == text
  {
  }

  lemma LiveStateOfChecklist(s: Store)
    requires s.deliverables == [] && s.lastCheck.None?
    ensures LiveState(s) == UserSection(s.userTurns) + ChecklistSection(s.checklist)
  {
    hide UserSection, ChecklistSection;
    var text := UserSection(s.userTurns) + ChecklistSection(s.checklist);
    Nothing(text);
    Nothing(text + "");
  }

  lemma ChecklistGrows(items: seq<ChecklistItem>, item: ChecklistItem)
    ensures ChecklistSection(items + [item]) ==
            ChecklistSection(items) + (if items == [] then "# Checklist\n\n" else "") +
            (if item.done then "- [x] " else "- [ ] ") + item.text + "\n"
  {
    hide FlatMap;
    var mark := if item.done then "- [x] " else "- [ ] ";
    FlatMapSnoc(ChecklistLine, items, item);
    FlatMapNothing(ChecklistLine);
    GrowsBehind("# Checklist\n\n", FlatMap(ChecklistLine, items), mark, item.text, "\n");
    assert items == [] ==> "" + "# Checklist\n\n" == "# Checklist\n\n" + "";
    Nothing(ChecklistSection(items));
  }

  lemma GrowsBehind(a: string, b: string, c: string, d: string, e: string)
    ensures a + (b + (c + d + e)) == a + b + c + d + e
  {
  }

  /** One more item of the checklist is one more line, with its mark. */
  lemma ChecklistIsListed(s: Store, items: seq<ChecklistItem>, item: ChecklistItem)
    requires s.deliverables == [] && s.lastCheck.None?
    ensures LiveState(s.(checklist := items + [item])) ==
            LiveState(s.(checklist := items)) + (if items == [] then "# Checklist\n\n" else "") +
            (if item.done then "- [x] " else "- [ ] ") + item.text + "\n"
  {
    hide LiveState, UserSection, ChecklistSection;
    LiveStateOfChecklist(s.(checklist := items));
    LiveStateOfChecklist(s.(checklist := items + [item]));
    ChecklistGrows(items, item);
    var mark := if item.done then "- [x] " else "- [ ] ";
    FourAfter(UserSection(s.userTurns), ChecklistSection(items), if items == [] then "# Checklist\n\n" else "", mark,
              item.text, "\n");
  }

  lemma FourAfter(a: string, b: string, c: string, d: string, e: string, f: string)
    ensures a + (b + c + d + e + f) == a + b + c + d + e + f
  {
  }

  lemma LiveStateOfDeliverables(s: Store)
    requires s.lastCheck.None?
    ensures LiveState(s) ==
            UserSection(s.userTurns) + ChecklistSection(s.checklist) + DeliverablesSection(s.deliverables)
  {
    hide UserSection, ChecklistSection, DeliverablesSection;
    Nothing(UserSection(s.userTurns) + ChecklistSection(s.checklist) + DeliverablesSection(s.deliverables));
  }

  lemma DeliverablesGrow(paths: seq<string>, path: string)
    ensures DeliverablesSection(paths + [path]) ==
            DeliverablesSection(paths) + (if paths == [] then "\n# Deliverables produced so far\n\n" else "") +
            "- " + path + "\n"
  {
    hide FlatMap;
    FlatMapSnoc(DeliverableLine, paths, path);
    FlatMapNothing(DeliverableLine);
    GrowsBehind("\n# Deliverables produced so far\n\n", FlatMap(DeliverableLine, paths), "- ", path, "\n");
    Nothing("\n# Deliverables produced so far\n\n");
    Nothing(DeliverablesSection(paths));
    assert "" + "\n# Deliverables produced so far\n\n" == "\n# Deliverables produced so far\n\n";
  }

  /** After the checklist, every deliverable is a line. */
  lemma DeliverablesAreListed(s: Store, paths: seq<string>, path: string)
    requires s.lastCheck.None?
    ensures LiveState(s.(deliverables := paths + [path])) ==
            LiveState(s.(deliverables := paths)) +
            (if paths == [] then "\n# Deliverables produced so far\n\n" else "") +
            "- " + path + "\n"
  {
    hide LiveState, UserSection, ChecklistSection, DeliverablesSection;
    LiveStateOfDeliverables(s.(deliverables := paths));
    LiveStateOfDeliverables(s.(deliverables := paths + [path]));
    DeliverablesGrow(paths, path);
    FourAfter(UserSection(s.userTurns) + ChecklistSection(s.checklist), DeliverablesSection(paths),
              if paths == [] then "\n# Deliverables produced so far\n\n" else "", "- ", path, "\n");
  }

  /** And last the check: that it passed or failed when it ran, and that it did not when it did not. */
  lemma CheckIsReported(s: Store, v: CheckResult)
    ensures LiveState(s.(lastCheck := Some(v))) ==
            LiveState(s.(lastCheck := None)) + "\n# Operator check\n\n- " +
            (if v.ran && v.passed then "PASS " else if v.ran then "FAIL " else "COULD NOT RUN ") + v.command + "\n"
  {
    hide UserSection, ChecklistSection, DeliverablesSection;
    var before := UserSection(s.userTurns) + ChecklistSection(s.checklist) + DeliverablesSection(s.deliverables);
    assert LiveState(s.(lastCheck := None)) == before;
  }

  // --- The system text ----------------------------------------------------------------------------------

  /** First the level of reasoning, then who speaks and in what mode, then the guidance; with nothing
      else set, that is all. */
  lemma SystemTextStarts(w: Wording, f: SystemFields, guidance: string)
    requires f == BLANK_SYSTEM.(reasoningBrief := f.reasoningBrief, persona := f.persona, modeBrief := f.modeBrief)
    ensures SystemText(w, f, guidance) ==
            (if f.reasoningBrief == "" then "" else f.reasoningBrief + "\n\n") +
            (if f.persona == "" then w.persona else f.persona) +
            (if f.modeBrief == "" then "" else "\n\n" + f.modeBrief) + "\n\n" + guidance
  {
    hide OpeningText;
    SixNothings(OpeningText(w, f, guidance));
    OpeningIs(w, f, guidance);
  }

  lemma OpeningIs(w: Wording, f: SystemFields, guidance: string)
    ensures OpeningText(w, f, guidance) ==
            (if f.reasoningBrief == "" then "" else f.reasoningBrief + "\n\n") +
            (if f.persona == "" then w.persona else f.persona) +
            (if f.modeBrief == "" then "" else "\n\n" + f.modeBrief) + "\n\n" + guidance
  {
  }

  lemma SixNothings(text: string)
    ensures text + "" + "" + "" + "" + "" + "" == text
  {
    Nothing(text);
  }

  /** The fields that come after the workspace. */
  predicate NoneAfterWorkspace(f: SystemFields) { !(f.recallSessions > 1 && f.recallItems > 0) && NoneAfterRecall(f) }

  predicate NoneAfterRecall(f: SystemFields) { f.projectInstructions == "" && NoneAfterConventions(f) }

  predicate NoneAfterConventions(f: SystemFields) { f.skillsCatalog == "" && NoneAfterCatalog(f) }

  predicate NoneAfterCatalog(f: SystemFields) { f.loadedSkills == [] && f.projectMemory == "" }

  lemma WorkspaceIsNamed(w: Wording, f: SystemFields, guidance: string)
    requires NoneAfterWorkspace(f) && f.workspaceRoot != ""
    ensures SystemText(w, f, guidance) ==
            SystemText(w, f.(workspaceRoot := ""), guidance) + (w.workspaceBefore + f.workspaceRoot + w.workspaceAfter)
  {
    hide OpeningText;
    SameOpening(w, f, f.(workspaceRoot := ""), guidance);
    var a := OpeningText(w, f, guidance);
    SixNothings(a);
    SixNothings(a + (w.workspaceBefore + f.workspaceRoot + w.workspaceAfter));
    Nothing(a + (w.workspaceBefore + f.workspaceRoot + w.workspaceAfter));
  }

  lemma SameOpening(w: Wording, f: SystemFields, g: SystemFields, guidance: string)
    requires f.reasoningBrief == g.reasoningBrief && f.persona == g.persona && f.modeBrief == g.modeBrief
    ensures OpeningText(w, f, guidance) == OpeningText(w, g, guidance)
  {
  }

  lemma RecallIsNamed(w: Wording, f: SystemFields, guidance: string)
    requires NoneAfterRecall(f) && f.recallSessions > 1 && f.recallItems > 0
    ensures SystemText(w, f, guidance) ==
            SystemText(w, f.(recallSessions := 0), guidance) +
            (w.recallBefore + Decimal(f.recallItems) + w.recallBetween + Decimal(f.recallSessions) + w.recallAfter)
  {
    hide OpeningText, WorkspaceText, Decimal;
    SameOpening(w, f, f.(recallSessions := 0), guidance);
    var a := OpeningText(w, f, guidance) + WorkspaceText(w, f.workspaceRoot);
    var b := RecallText(w, f.recallItems, f.recallSessions);
    SixNothings(a);
    SixNothings(a + b);
    Nothing(a + b);
  }

  lemma ConventionsAreNamed(w: Wording, f: SystemFields, guidance: string)
    requires NoneAfterConventions(f) && f.projectInstructions != ""
    ensures SystemText(w, f, guidance) ==
            SystemText(w, f.(projectInstructions := ""), guidance) +
            ("\n\n# Project conventions\n\n" + f.projectInstructions)
  {
    hide OpeningText, WorkspaceText, RecallText;
    SameOpening(w, f, f.(projectInstructions := ""), guidance);
    var a := OpeningText(w, f, guidance) + WorkspaceText(w, f.workspaceRoot) +
             RecallText(w, f.recallItems, f.recallSessions);
    var b := "\n\n# Project conventions\n\n" + f.projectInstructions;
    SixNothings(a);
    SixNothings(a + b);
    Nothing(a + b);
  }

  lemma CatalogIsNamed(w: Wording, f: SystemFields, guidance: string)
    requires NoneAfterCatalog(f) && f.skillsCatalog != ""
    ensures SystemText(w, f, guidance) ==
            SystemText(w, f.(skillsCatalog := ""), guidance) + ("\n\n# Available skills\n\n" + f.skillsCatalog)
  {
    hide OpeningText, WorkspaceText, RecallText;
    SameOpening(w, f, f.(skillsCatalog := ""), guidance);
    var a := OpeningText(w, f, guidance) + WorkspaceText(w, f.workspaceRoot) +
             RecallText(w, f.recallItems, f.recallSessions) +
             UnderHeading("\n\n# Project conventions\n\n", f.projectInstructions);
    var b := "\n\n# Available skills\n\n" + f.skillsCatalog;
    SixNothings(a);
    SixNothings(a + b);
    Nothing(a + b);
  }

  lemma SkillsGrow(skills: seq<Skill>, k: Skill)
    ensures SkillsText(skills + [k]) ==
            SkillsText(skills) + (if skills == [] then "\n\n# Loaded skills\n" else "") +
            ("\n## Skill: " + k.name + "\n\n" + k.body + "\n")
  {
    FlatMapSnoc(SkillText, skills, k);
    FlatMapNothing(SkillText);
    assert SkillText(k) == "\n## Skill: " + k.name + "\n\n" + k.body + "\n";
  }

  lemma SkillIsNamed(w: Wording, f: SystemFields, guidance: string, skills: seq<Skill>, k: Skill)
    requires f.projectMemory == ""
    ensures SystemText(w, f.(loadedSkills := skills + [k]), guidance) ==
            SystemText(w, f.(loadedSkills := skills), guidance) +
            ((if skills == [] then "\n\n# Loaded skills\n" else "") +
             ("\n## Skill: " + k.name + "\n\n" + k.body + "\n"))
  {
    hide OpeningText, WorkspaceText, RecallText, SkillsText;
    SameOpening(w, f, f.(loadedSkills := skills), guidance);
    SameOpening(w, f, f.(loadedSkills := skills + [k]), guidance);
    SkillsGrow(skills, k);
    var a := OpeningText(w, f, guidance) + WorkspaceText(w, f.workspaceRoot) +
             RecallText(w, f.recallItems, f.recallSessions) +
             UnderHeading("\n\n# Project conventions\n\n", f.projectInstructions) +
             UnderHeading("\n\n# Available skills\n\n", f.skillsCatalog);
    Nothing(a + SkillsText(skills));
    Nothing(a + SkillsText(skills + [k]));
    TwoAfter(a, SkillsText(skills), if skills == [] then "\n\n# Loaded skills\n" else "",
             "\n## Skill: " + k.name + "\n\n" + k.body + "\n");
  }

  lemma TwoAfter(a: string, b: string, c: string, d: string)
    ensures a + (b + c + d) == a + b + (c + d)
  {
  }

  lemma MemoryIsNamed(w: Wording, f: SystemFields, guidance: string)
    requires f.projectMemory != ""
    ensures SystemText(w, f, guidance) ==
            SystemText(w, f.(projectMemory := ""), guidance) + (w.memoryHeading + f.projectMemory)
  {
    hide OpeningText, WorkspaceText, RecallText, SkillsText;
    SameOpening(w, f, f.(projectMemory := ""), guidance);
    Nothing(SystemText(w, f.(projectMemory := ""), guidance));
  }

  /** After that, each section stands behind all those before it and says what its field does: where
      the work is, what is stored, the conventions, the catalogue, each loaded skill, and last the
      notes; a field that is empty says nothing. */
  lemma EverySectionInItsPlace(w: Wording, f: SystemFields, guidance: string, k: Skill)
    ensures NoneAfterWorkspace(f) && f.workspaceRoot != "" ==>
              SystemText(w, f, guidance) ==
              SystemText(w, f.(workspaceRoot := ""), guidance) +
              (w.workspaceBefore + f.workspaceRoot + w.workspaceAfter)
    ensures NoneAfterRecall(f) && f.recallSessions > 1 && f.recallItems > 0 ==>
              SystemText(w, f, guidance) ==
              SystemText(w, f.(recallSessions := 0), guidance) +
              (w.recallBefore + Decimal(f.recallItems) + w.recallBetween + Decimal(f.recallSessions) + w.recallAfter)
    ensures NoneAfterConventions(f) && f.projectInstructions != "" ==>
              SystemText(w, f, guidance) ==
              SystemText(w, f.(projectInstructions := ""), guidance) +
              ("\n\n# Project conventions\n\n" + f.projectInstructions)
    ensures NoneAfterCatalog(f) && f.skillsCatalog != "" ==>
              SystemText(w, f, guidance) ==
              SystemText(w, f.(skillsCatalog := ""), guidance) + ("\n\n# Available skills\n\n" + f.skillsCatalog)
    ensures f.projectMemory == "" ==>
              SystemText(w, f.(loadedSkills := f.loadedSkills + [k]), guidance) ==
              SystemText(w, f, guidance) +
              ((if f.loadedSkills == [] then "\n\n# Loaded skills\n" else "") +
               ("\n## Skill: " + k.name + "\n\n" + k.body + "\n"))
    ensures f.projectMemory != "" ==>
              SystemText(w, f, guidance) ==
              SystemText(w, f.(projectMemory := ""), guidance) + (w.memoryHeading + f.projectMemory)
    ensures f.recallSessions <= 1 || f.recallItems <= 0 ==>
              SystemText(w, f, guidance) == SystemText(w, f.(recallSessions := 0, recallItems := 0), guidance)
  {
    hide SystemText, Decimal;
    if NoneAfterWorkspace(f) && f.workspaceRoot != "" { WorkspaceIsNamed(w, f, guidance); }
    if NoneAfterRecall(f) && f.recallSessions > 1 && f.recallItems > 0 { RecallIsNamed(w, f, guidance); }
    if NoneAfterConventions(f) && f.projectInstructions != "" { ConventionsAreNamed(w, f, guidance); }
    if NoneAfterCatalog(f) && f.skillsCatalog != "" { CatalogIsNamed(w, f, guidance); }
    if f.projectMemory == "" {
      SkillIsNamed(w, f, guidance, f.loadedSkills, k);
      assert f.(loadedSkills := f.loadedSkills) == f;
    } else {
      MemoryIsNamed(w, f, guidance);
    }
    RecallNeedsBoth(w, f, guidance);
  }

  lemma RecallNeedsBoth(w: Wording, f: SystemFields, guidance: string)
    ensures f.recallSessions <= 1 || f.recallItems <= 0 ==>
              SystemText(w, f, guidance) == SystemText(w, f.(recallSessions := 0, recallItems := 0), guidance)
  {
    hide OpeningText, WorkspaceText, SkillsText;
    SameOpening(w, f, f.(recallSessions := 0, recallItems := 0), guidance);
  }
}
