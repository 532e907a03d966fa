/** The context store as a value: its records, its state, and what each operation of
    src/context/context.hpp and context.cpp does to that state. The class in
    ContextStore.dfy is proved to perform exactly these operations; the laws about whole
    runs are proved on them in ContextLaws.dfy, LiveCopies.dfy and Render.dfy. */
module ContextModel {
  import opened Sequences
  import opened Text

  // One turn: what the human or the model said, and what came back. A record with a
  // non-empty userText is a human turn.
  datatype TurnRecord = TurnRecord(
    userText: string,
    assistantText: string,
    toolName: string,
    toolArgsSummary: string,
    toolCallText: string,
    observedPath: string,
    observedImages: seq<string>,
    observation: string,
    isError: bool,
    firstEventSeq: nat,
    lastEventSeq: nat)

  const BLANK_TURN := TurnRecord("", "", "", "", "", "", [], "", false, 0, 0)

  datatype ChecklistItem = ChecklistItem(text: string, done: bool)

  datatype CheckResult = CheckResult(command: string, ran: bool, passed: bool, detail: string)

  datatype Skill = Skill(id: string, name: string, body: string)

  // The fields that only feed the system message and the rehydrate hint.
  datatype SystemFields = SystemFields(
    reasoningBrief: string,
    persona: string,
    modeBrief: string,
    workspaceRoot: string,
    recallItems: int,
    recallSessions: int,
    projectInstructions: string,
    skillsCatalog: string,
    loadedSkills: seq<Skill>,
    projectMemory: string)

  const BLANK_SYSTEM := SystemFields("", "", "", "", 0, 0, "", "", [], "")

  // A callback slot: either nobody listens, or the calls made so far are on record.
  datatype Sink<T> = Unset | Installed(calls: seq<T>)

  function Call<T>(sink: Sink<T>, call: T): Sink<T> {
    match sink
    case Unset => Unset
    case Installed(calls) => Installed(calls + [call])
  }

  datatype SinkCall = SinkCall(dropped: seq<TurnRecord>, spanIndex: nat, summary: string)

  datatype Store = Store(
    userTurns: seq<string>,
    recent: seq<TurnRecord>,
    spans: seq<string>,
    turnsRecorded: nat,
    compactions: nat,
    observationBudget: nat,
    truncatedObservations: nat,
    deliverables: seq<string>,
    workspaceWrites: nat,
    checklist: seq<ChecklistItem>,
    lastCheck: Option<CheckResult>,
    sys: SystemFields,
    turnSink: Sink<TurnRecord>,
    compactionSink: Sink<SinkCall>)

  const DEFAULT_BUDGET: nat := 0x10_0000

  const TRUNCATION_MARK := "\n[truncated at the observation budget]\n"

  function Fresh(mission: string, turnSink: Sink<TurnRecord>, compactionSink: Sink<SinkCall>): Store {
    Store([mission], [], [], 0, 0, DEFAULT_BUDGET, 0, [], 0, [], None, BLANK_SYSTEM, turnSink, compactionSink)
  }

  // --- Recording ----------------------------------------------------------------------

  predicate OverBudget(budget: nat, t: TurnRecord) { |t.observation| > budget }

  function Clamp(budget: nat, t: TurnRecord): TurnRecord {
    if OverBudget(budget, t) then t.(observation := t.observation[..budget] + TRUNCATION_MARK) else t
  }

  function AddTurn(s: Store, t: TurnRecord): Store {
    var kept := Clamp(s.observationBudget, t);
    s.(recent := s.recent + [kept],
       turnsRecorded := s.turnsRecorded + 1,
       truncatedObservations := s.truncatedObservations + (if OverBudget(s.observationBudget, t) then 1 else 0),
       turnSink := Call(s.turnSink, kept))
  }

  function HumanTurn(text: string, images: seq<string>): TurnRecord {
    BLANK_TURN.(userText := text, observedImages := images)
  }

  function AddUserMessage(s: Store, text: string, images: seq<string>): Store {
    AddTurn(s.(userTurns := s.userTurns + [text]), HumanTurn(text, images))
  }

  function RecordDeliverable(s: Store, path: string): Store {
    s.(workspaceWrites := s.workspaceWrites + 1,
       deliverables := if path in s.deliverables then s.deliverables else s.deliverables + [path])
  }

  // --- Queries and rewriting ------------------------------------------------------------

  const NOTE_MARK := "\n[Note:"

  /** The bytes a tool returned, without the notes the harness appended. */
  function ObservedBytes(observation: string): string {
    match Find(observation, NOTE_MARK)
    case Some(note) => observation[..note]
    case None => observation
  }

  predicate HasObservation(s: Store, observation: string) {
    observation != "" && exists t :: t in s.recent && t.observation == observation
  }

  predicate Stale(path: string, current: string, t: TurnRecord) {
    t.observedPath == path && ObservedBytes(t.observation) != ObservedBytes(current)
  }

  function StaleCopies(s: Store, path: string, current: string): nat {
    if path == "" then 0 else Count(t => Stale(path, current, t), s.recent)
  }

  /** A record whose observation has become a pointer: no snapshot of any file. */
  function Repoint(t: TurnRecord, replacement: string): TurnRecord {
    t.(observation := replacement, observedPath := "")
  }

  function Rewriter(matches: TurnRecord -> bool, replacement: string): TurnRecord -> TurnRecord {
    t => if matches(t) then Repoint(t, replacement) else t
  }

  function Supersede(matches: TurnRecord -> bool, replacement: string, s: Store): Store {
    s.(recent := Map(Rewriter(matches, replacement), s.recent))
  }

  function IsDuplicate(observation: string): TurnRecord -> bool {
    (t: TurnRecord) => observation != "" && t.observation == observation
  }

  function IsStale(path: string, current: string): TurnRecord -> bool {
    (t: TurnRecord) => path != "" && Stale(path, current, t)
  }

  lemma NoneCounted(p: TurnRecord -> bool)
    ensures Count(p, []) == 0
  {
  }

  lemma NothingStaleWithout(path: string, current: string, ts: seq<TurnRecord>)
    ensures path == "" ==> Count(IsStale(path, current), ts) == 0
  {
  }

  lemma NothingDuplicateWithout(observation: string, ts: seq<TurnRecord>)
    ensures observation == "" ==> Count(IsDuplicate(observation), ts) == 0
  {
  }

  function SupersedeDuplicates(s: Store, observation: string, replacement: string): Store {
    Supersede(IsDuplicate(observation), replacement, s)
  }

  function SupersedeStale(s: Store, path: string, current: string, replacement: string): Store {
    Supersede(IsStale(path, current), replacement, s)
  }

  function RewriteObservation(s: Store, index: nat, observation: string): Store {
    if index >= |s.recent| then s
    else s.(recent := s.recent[index := Repoint(s.recent[index], observation)])
  }

  // --- Compaction ------------------------------------------------------------------------

  /** The first line of a text, cut to `cap` characters and marked when cut. */
  function FirstLine(text: string, cap: nat): string {
    var line := match Find(text, "\n") case Some(nl) => text[..nl] case None => text;
    if |line| > cap then line[..cap] + "..." else line
  }

  predicate NamesItself(t: TurnRecord) { t.toolName + "(" <= t.toolArgsSummary }

  function AnchorLine(t: TurnRecord): string {
    if t.userText != "" then "- you were told: " + FirstLine(t.userText, 400) + "\n"
    else if t.toolName == "" then "- said: " + FirstLine(t.assistantText, 160) + "\n"
    else
      "- " +
      (if NamesItself(t) then FirstLine(t.toolArgsSummary, 80)
       else t.toolName + (if t.toolArgsSummary == "" then "" else "(" + FirstLine(t.toolArgsSummary, 80) + ")")) +
      (if t.isError then " FAILED: " else " -> ") +
      FirstLine(t.observation, 200) + "\n"
  }

  function SpanTitle(dropped: seq<TurnRecord>): string
    requires dropped != []
  {
    "Earlier in this run (turns 1-" + Decimal(|dropped|) + ", events " +
    Decimal(dropped[0].firstEventSeq) + "-" + Decimal(dropped[|dropped| - 1].lastEventSeq) + "):"
  }

  function SpanHeader(dropped: seq<TurnRecord>): string
    requires dropped != []
  {
    SpanTitle(dropped) + "\n"
  }

  function Span(dropped: seq<TurnRecord>): string
    requires dropped != []
  {
    SpanHeader(dropped) + FlatMap(AnchorLine, dropped)
  }

  /** Folds the oldest `drop` turns into a span and hands them to the sink. */
  function Fold(s: Store, drop: nat, span: string, countAsEvent: bool): Store
    requires drop <= |s.recent|
  {
    s.(spans := s.spans + [span],
       compactionSink := Call(s.compactionSink, SinkCall(s.recent[..drop], |s.spans|, span)),
       recent := s.recent[drop..],
       compactions := s.compactions + if countAsEvent then 1 else 0)
  }

  function CompactOldest(s: Store, keepRecent: nat, countAsEvent: bool): Store {
    if |s.recent| <= keepRecent then s
    else
      var drop := |s.recent| - keepRecent;
      Fold(s, drop, Span(s.recent[..drop]), countAsEvent)
  }

  // --- Whole runs -------------------------------------------------------------------------

  datatype Op =
    | AddTurnOp(turn: TurnRecord)
    | AddUserOp(text: string, images: seq<string>)
    | SupersedeDuplicatesOp(observation: string, replacement: string)
    | SupersedeStaleOp(path: string, current: string, replacement: string)
    | RewriteOp(index: nat, observation: string)
    | CompactOp(keepRecent: nat, countAsEvent: bool)
    | NoteCompactionOp
    | SetBudgetOp(budget: nat)
    | SetChecklistOp(items: seq<ChecklistItem>)
    | SetLastCheckOp(check: CheckResult)
    | RecordDeliverableOp(path: string)
    | InvalidateFreshnessOp

  function Apply(s: Store, op: Op): Store {
    match op
    case AddTurnOp(t) => AddTurn(s, t)
    case AddUserOp(text, images) => AddUserMessage(s, text, images)
    case SupersedeDuplicatesOp(o, r) => SupersedeDuplicates(s, o, r)
    case SupersedeStaleOp(p, c, r) => SupersedeStale(s, p, c, r)
    case RewriteOp(i, o) => RewriteObservation(s, i, o)
    case CompactOp(k, e) => CompactOldest(s, k, e)
    case NoteCompactionOp => s.(compactions := s.compactions + 1)
    case SetBudgetOp(n) => s.(observationBudget := n)
    case SetChecklistOp(items) => s.(checklist := items)
    case SetLastCheckOp(c) => s.(lastCheck := Some(c))
    case RecordDeliverableOp(p) => RecordDeliverable(s, p)
    case InvalidateFreshnessOp => s.(workspaceWrites := s.workspaceWrites + 1)
  }

  function Run(s: Store, ops: seq<Op>): Store {
    if ops == [] then s else Apply(Run(s, ops[..|ops| - 1]), ops[|ops| - 1])
  }

  lemma {:induction false} RunAppend(s: Store, xs: seq<Op>, ys: seq<Op>)
    ensures Run(s, xs + ys) == Run(Run(s, xs), ys)
  {
    if ys == [] {
      assert xs + ys == xs;
    } else {
      assert (xs + ys)[..|xs + ys| - 1] == xs + ys[..|ys| - 1];
      RunAppend(s, xs, ys[..|ys| - 1]);
    }
  }
}
