/** Crash-safe resume: rebuilding a context store from the event log, and listing the runs
    the log holds (src/context/resume.cpp). */
module Resume {
  import opened Sequences
  import opened Text
  import opened ContextModel
  import opened ContextStores

  datatype Kind =
    | RunBegin | RunEnd | EditBegin | EditEnd | Steer | TurnText | Write | ToolResult | Checklist
    | OtherKind(name: string)

  datatype Field = Field(key: string, value: string)

  datatype Event = Event(no: nat, wallNs: int, kind: Kind, fields: seq<Field>)

  function FieldOr(ev: Event, key: string): string { FirstField(ev.fields, key) }

  function FirstField(fields: seq<Field>, key: string): string {
    if fields == [] then ""
    else if fields[0].key == key then fields[0].value
    else FirstField(fields[1..], key)
  }

  function RunId(ev: Event): string { FieldOr(ev, "run_id") }

  predicate MatchesRun(ev: Event, runId: string) { runId == "" || RunId(ev) == "" || RunId(ev) == runId }

  predicate StatusIsError(status: string) { status != "ok" && status != "" }

  datatype Identity = Identity(
    workspaceRoot: string,
    runId: string,
    modelIdentity: string,
    protocolVersion: string,
    toolSchemaHash: string,
    lastAckedEditId: string)

  const NO_IDENTITY := Identity("", "", "", "", "", "")

  function IdentityOf(ev: Event): Identity {
    Identity(FieldOr(ev, "workspace_root"), FieldOr(ev, "run_id"), FieldOr(ev, "model_identity"),
             FieldOr(ev, "protocol_version"), FieldOr(ev, "tool_schema_hash"), FieldOr(ev, "last_acked_edit"))
  }

  datatype Rebuild = Rebuild(ok: bool, why: string, identity: Identity, editInFlight: bool, store: Store)

  // --- What the log says ---------------------------------------------------------------

  function BeginOf(filter: string): Event -> bool { (ev: Event) => ev.kind == RunBegin && MatchesRun(ev, filter) }

  /** The run_begin a rebuild starts from: the first match, or the latest when unfiltered. */
  function Begin(events: seq<Event>, filter: string): Option<Event> {
    var begins := Filter(BeginOf(filter), events);
    if begins == [] then None
    else Some(if filter == "" then begins[|begins| - 1] else begins[0])
  }

  function InScope(from: nat, runId: string): Event -> bool {
    (ev: Event) => from <= ev.no && MatchesRun(ev, runId)
  }

  /** The answer text waiting for the next tool result: that of the last turn_text, unless a
      tool result has taken it since. */
  function WaitingText(scope: seq<Event>): string {
    if scope == [] then ""
    else
      var last := scope[|scope| - 1];
      if last.kind == TurnText then FieldOr(last, "text")
      else if last.kind == ToolResult then ""
      else WaitingText(scope[..|scope| - 1])
  }

  function Observation(ev: Event): string {
    var tool, summary := FieldOr(ev, "tool"), FieldOr(ev, "summary");
    if summary == "" && tool != "" then
      "(" + tool + (if StatusIsError(FieldOr(ev, "status")) then " failed, with no detail)"
                    else " succeeded and produced no output)")
    else summary
  }

  function ToolTurn(waiting: string, ev: Event): TurnRecord {
    BLANK_TURN.(assistantText := waiting,
                toolName := FieldOr(ev, "tool"),
                observation := Observation(ev),
                isError := StatusIsError(FieldOr(ev, "status")),
                firstEventSeq := ev.no,
                lastEventSeq := ev.no)
  }

  /** What one event in scope does to the store. */
  function Replays(before: seq<Event>, ev: Event): seq<Op> {
    match ev.kind
    case ToolResult => [AddTurnOp(ToolTurn(WaitingText(before), ev))]
    case Steer => if FieldOr(ev, "text") == "" then [] else [AddUserOp(FieldOr(ev, "text"), [])]
    case Write => if FieldOr(ev, "path") == "" then [] else [RecordDeliverableOp(FieldOr(ev, "path"))]
    case _ => []
  }

  function ReplayOps(scope: seq<Event>): seq<Op> {
    if scope == [] then []
    else ReplayOps(scope[..|scope| - 1]) + Replays(scope[..|scope| - 1], scope[|scope| - 1])
  }

  function OpenEdit(scope: seq<Event>): string {
    if scope == [] then ""
    else
      var before, last := OpenEdit(scope[..|scope| - 1]), scope[|scope| - 1];
      if last.kind == EditBegin then FieldOr(last, "request_id")
      else if last.kind == EditEnd && FieldOr(last, "request_id") == before then ""
      else before
  }

  function LastAcked(scope: seq<Event>, initially: string): string {
    if scope == [] then initially
    else
      var last := scope[|scope| - 1];
      if last.kind == EditEnd && FieldOr(last, "request_id") != "" then FieldOr(last, "request_id")
      else LastAcked(scope[..|scope| - 1], initially)
  }

  function BlankStore(mission: string, workspaceRoot: string): Store {
    Fresh(mission, Unset, Unset).(sys := BLANK_SYSTEM.(workspaceRoot := workspaceRoot))
  }

  predicate Rebuildable(begin: Event) { FieldOr(begin, "mission") != "" && RunId(begin) != "" }

  function Scope(events: seq<Event>, begin: Event): seq<Event> {
    Filter(InScope(begin.no, RunId(begin)), events)
  }

  function Replay(events: seq<Event>, filter: string): Rebuild {
    match Begin(events, filter)
    case None => Rebuild(false, "no run_begin event", NO_IDENTITY, false, Fresh("", Unset, Unset))
    case Some(begin) =>
      if !Rebuildable(begin) then
        Rebuild(false, "run_begin missing mission or run_id", IdentityOf(begin), false, Fresh("", Unset, Unset))
      else
        var scope := Scope(events, begin);
        var inFlight := OpenEdit(scope) != "";
        Rebuild(true, if inFlight then "rebuilt; edit in flight" else "ok",
                IdentityOf(begin).(lastAckedEditId := LastAcked(scope, FieldOr(begin, "last_acked_edit"))),
                inFlight,
                Run(BlankStore(FieldOr(begin, "mission"), FieldOr(begin, "workspace_root")), ReplayOps(scope)))
  }

  // --- The code --------------------------------------------------------------------------

  lemma BeginTake(events: seq<Event>, filter: string, i: nat)
    requires i < |events|
    ensures BeginOf(filter)(events[i]) && (filter == "" || Begin(events[..i], filter) == None) ==>
              Begin(events[..i + 1], filter) == Some(events[i])
    ensures !BeginOf(filter)(events[i]) ==> Begin(events[..i + 1], filter) == Begin(events[..i], filter)
  {
    FilterTake(BeginOf(filter), events, i);
  }

  lemma FirstBeginStays(events: seq<Event>, filter: string, i: nat)
    requires i <= |events| && filter != "" && Begin(events[..i], filter).Some?
    ensures Begin(events, filter) == Begin(events[..i], filter)
  {
    FilterAppend(BeginOf(filter), events[..i], events[i..]);
    assert events == events[..i] + events[i..];
  }

  method FindBegin(events: seq<Event>, filter: string) returns (begin: Option<Event>)
    ensures begin == Begin(events, filter)
  {
    begin := None;
    for i := 0 to |events|
      invariant begin == Begin(events[..i], filter)
      invariant filter != "" ==> begin == None
    {
      var ev := events[i];
      BeginTake(events, filter, i);
      if ev.kind != RunBegin {
        continue;
      }
      if !MatchesRun(ev, filter) {
        continue;
      }
      begin := Some(ev);
      if filter != "" {
        FirstBeginStays(events, filter, i + 1);
        return;
      }
    }
    assert events[..|events|] == events;
  }

  method ReconstructContext(events: seq<Event>, filter: string)
    returns (ok: bool, why: string, identity: Identity, editInFlight: bool, store: ContextStore)
    ensures fresh(store)
    ensures Rebuild(ok, why, identity, editInFlight, store.State()) == Replay(events, filter)
  {
    ok, editInFlight, identity := false, false, NO_IDENTITY;
    store := new ContextStore("");
    var found := FindBegin(events, filter);
    if found.None? {
      why := "no run_begin event";
      return;
    }
    var begin := found.value;
    identity := IdentityOf(begin);
    var mission := FieldOr(begin, "mission");
    if mission == "" || identity.runId == "" {
      why := "run_begin missing mission or run_id";
      return;
    }
    store := new ContextStore(mission);
    store.SetWorkspaceRoot(identity.workspaceRoot);
    var openEdit, lastAssistant, lastAcked := "", "", identity.lastAckedEditId;
    ghost var p := InScope(begin.no, identity.runId);
    ghost var base, initially := store.State(), lastAcked;
    ghost var scope := [];
    for i := 0 to |events|
      invariant fresh(store)
      invariant scope == Filter(p, events[..i])
      invariant store.State() == Run(base, ReplayOps(scope))
      invariant openEdit == OpenEdit(scope) && lastAssistant == WaitingText(scope)
      invariant lastAcked == LastAcked(scope, initially)
    {
      FilterTake(p, events, i);
      if events[i].no < begin.no || !MatchesRun(events[i], identity.runId) {
        continue;
      }
      openEdit, lastAssistant, lastAcked :=
        ReplayEvent(store, events[i], openEdit, lastAssistant, lastAcked, base, initially, scope);
      scope := scope + [events[i]];
    }
    assert events[..|events|] == events;
    identity := identity.(lastAckedEditId := lastAcked);
    editInFlight := openEdit != "";
    ok := true;
    why := if editInFlight then "rebuilt; edit in flight" else "ok";
  }

  // The body of the replay loop: one event in scope.
  method ReplayEvent(store: ContextStore, ev: Event, openEdit: string, lastAssistant: string, lastAcked: string,
                     ghost base: Store, ghost initially: string, ghost before: seq<Event>)
    returns (openEdit': string, lastAssistant': string, lastAcked': string)
    requires store.State() == Run(base, ReplayOps(before))
    requires openEdit == OpenEdit(before) && lastAssistant == WaitingText(before)
    requires lastAcked == LastAcked(before, initially)
    modifies store
    ensures store.State() == Run(base, ReplayOps(before + [ev]))
    ensures openEdit' == OpenEdit(before + [ev]) && lastAssistant' == WaitingText(before + [ev])
    ensures lastAcked' == LastAcked(before + [ev], initially)
  {
    openEdit', lastAssistant', lastAcked' := openEdit, lastAssistant, lastAcked;
    ReplaySnoc(base, before, ev);
    EffectOf(store.State(), before, ev);
    FoldsSnoc(before, ev, initially);
    match ev.kind {
      case EditBegin =>
        openEdit' := FieldOr(ev, "request_id");
      case EditEnd =>
        var rid := FieldOr(ev, "request_id");
        if rid != "" {
          lastAcked' := rid;
        }
        if rid == openEdit {
          openEdit' := "";
        }
      case Steer =>
        var text := FieldOr(ev, "text");
        if text != "" {
          store.AddUserMessage(text, []);
        }
      case TurnText =>
        lastAssistant' := FieldOr(ev, "text");
      case Write =>
        var path := FieldOr(ev, "path");
        if path != "" {
          store.RecordDeliverable(path);
        }
      case ToolResult =>
        store.AddTurn(ToolTurn(lastAssistant, ev));
        lastAssistant' := "";
      case _ =>
    }
  }

  /** At most one operation, applied. */
  function Effect(s: Store, ops: seq<Op>): Store { if ops == [] then s else Apply(s, ops[0]) }

  lemma EffectOf(s: Store, before: seq<Event>, ev: Event)
    ensures var s' := Effect(s, Replays(before, ev));
            match ev.kind
            case ToolResult => s' == AddTurn(s, ToolTurn(WaitingText(before), ev))
            case Steer => s' == if FieldOr(ev, "text") == "" then s else AddUserMessage(s, FieldOr(ev, "text"), [])
            case Write => s' == if FieldOr(ev, "path") == "" then s else RecordDeliverable(s, FieldOr(ev, "path"))
            case _ => s' == s
  {
  }

  /** The effect of one more event in scope on the rebuilt store. */
  lemma ReplaySnoc(base: Store, before: seq<Event>, ev: Event)
    ensures Run(base, ReplayOps(before + [ev])) == Effect(Run(base, ReplayOps(before)), Replays(before, ev))
  {
    assert (before + [ev])[..|before|] == before;
    RunAppend(base, ReplayOps(before), Replays(before, ev));
    RunStep(Run(base, ReplayOps(before)), Replays(before, ev));
  }

  lemma RunStep(s: Store, ops: seq<Op>)
    requires |ops| <= 1
    ensures Run(s, ops) == Effect(s, ops)
  {
    if |ops| == 1 {
      assert ops[..0] == [];
    }
  }

  lemma FoldsSnoc(before: seq<Event>, ev: Event, initially: string)
    ensures OpenEdit(before + [ev]) ==
            if ev.kind == EditBegin then FieldOr(ev, "request_id")
            else if ev.kind == EditEnd && FieldOr(ev, "request_id") == OpenEdit(before) then ""
            else OpenEdit(before)
    ensures WaitingText(before + [ev]) ==
            if ev.kind == TurnText then FieldOr(ev, "text")
            else if ev.kind == ToolResult then ""
            else WaitingText(before)
    ensures LastAcked(before + [ev], initially) ==
            if ev.kind == EditEnd && FieldOr(ev, "request_id") != "" then FieldOr(ev, "request_id")
            else LastAcked(before, initially)
  {
    assert (before + [ev])[..|before|] == before;
  }

  // --- Listing ---------------------------------------------------------------------------

  datatype RunSummary = RunSummary(
    runId: string,
    mission: string,
    workspaceRoot: string,
    modelIdentity: string,
    startedWallNs: int,
    finished: bool,
    terminationReason: string,
    iterations: int,
    completed: bool,
    observations: nat)

  function Opening(ev: Event): RunSummary {
    RunSummary(FieldOr(ev, "run_id"), FieldOr(ev, "mission"), FieldOr(ev, "workspace_root"),
               FieldOr(ev, "model_identity"), ev.wallNs, false, "", 0, false, 0)
  }

  predicate Observes(ev: Event) {
    ev.kind == ToolResult || ev.kind == Steer || ev.kind == Write || ev.kind == Checklist
  }

  function Continued(s: RunSummary, ev: Event): RunSummary {
    if ev.kind == RunEnd then
      s.(finished := true,
         terminationReason := FieldOr(ev, "termination_reason"),
         completed := FieldOr(ev, "completed") == "true" || FieldOr(ev, "completed") == "1",
         iterations := Atoi(FieldOr(ev, "iterations")))
    else if Observes(ev) then s.(observations := s.observations + 1)
    else s
  }

  function Listed(events: seq<Event>): seq<RunSummary> {
    if events == [] then []
    else
      var out, ev := Listed(events[..|events| - 1]), events[|events| - 1];
      if ev.kind == RunBegin then out + [Opening(ev)]
      else if out == [] then []
      else out[|out| - 1 := Continued(out[|out| - 1], ev)]
  }

  lemma ListedSnoc(events: seq<Event>, ev: Event)
    ensures var out := Listed(events);
            Listed(events + [ev]) ==
            if ev.kind == RunBegin then out + [Opening(ev)]
            else if out == [] then []
            else out[|out| - 1 := Continued(out[|out| - 1], ev)]
  {
    assert (events + [ev])[..|events|] == events;
  }

  method ListRuns(events: seq<Event>) returns (out: seq<RunSummary>)
    ensures out == Listed(events)
  {
    hide Listed, Opening, Continued;
    out := [];
    assert events[..|events|] == events;
    NothingListed();
    for i := 0 to |events|
      invariant out == Listed(events[..i])
    {
      var ev := events[i];
      ListedSnoc(events[..i], ev);
      TakeSnoc(events, i);
      if ev.kind == RunBegin {
        out := out + [Opening(ev)];
        continue;
      }
      if out == [] {
        continue;
      }
      var cur := ContinueRun(out[|out| - 1], ev);
      out := out[|out| - 1 := cur];
    }
  }

  lemma NothingListed()
    ensures Listed([]) == []
  {
  }

  // What an event after a run's begin changes of its summary.
  method ContinueRun(run: RunSummary, ev: Event) returns (cur: RunSummary)
    ensures cur == Continued(run, ev)
  {
    hide FieldOr;
    cur := run;
    if ev.kind == RunEnd {
      cur := cur.(finished := true, terminationReason := FieldOr(ev, "termination_reason"));
      var done := FieldOr(ev, "completed");
      cur := cur.(completed := done == "true" || done == "1");
      var iters := FieldOr(ev, "iterations");
      cur := cur.(iterations := if iters == "" then 0 else Atoi(iters));
    } else if ev.kind == ToolResult || ev.kind == Steer || ev.kind == Write || ev.kind == Checklist {
      cur := cur.(observations := cur.observations + 1);
    }
  }
}
