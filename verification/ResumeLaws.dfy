/** What a rebuild promises: it is the log read declaratively, it ignores other runs, and it
    sees an edit in flight exactly when the last one begun has not ended. */
module ResumeLaws {
  import opened Sequences
  import opened ContextModel
  import opened Resume

  // --- Replay is exact ------------------------------------------------------------------

  predicate IsTurn(ev: Event) { ev.kind == ToolResult || (ev.kind == Steer && FieldOr(ev, "text") != "") }

  function TurnOf(before: seq<Event>, ev: Event): TurnRecord {
    if ev.kind == ToolResult then ToolTurn(WaitingText(before), ev) else HumanTurn(FieldOr(ev, "text"), [])
  }

  function KeptTurn(before: seq<Event>, ev: Event): TurnRecord { Clamp(DEFAULT_BUDGET, TurnOf(before, ev)) }

  function SteerText(ev: Event): seq<string> {
    if ev.kind == Steer && FieldOr(ev, "text") != "" then [FieldOr(ev, "text")] else []
  }

  function WritePath(ev: Event): seq<string> {
    if ev.kind == Write && FieldOr(ev, "path") != "" then [FieldOr(ev, "path")] else []
  }

  function Rebuilt(mission: string, root: string, scope: seq<Event>): Store {
    Run(BlankStore(mission, root), ReplayOps(scope))
  }

  lemma RebuiltSnoc(mission: string, root: string, before: seq<Event>, ev: Event)
    ensures var s, s' := Rebuilt(mission, root, before), Rebuilt(mission, root, before + [ev]);
            s' == if IsTurn(ev) then
                    AddTurn(s.(userTurns := s.userTurns + SteerText(ev)), TurnOf(before, ev))
                  else if WritePath(ev) != [] then RecordDeliverable(s, WritePath(ev)[0])
                  else s
  {
    hide Run, ReplayOps, Effect, Clamp, FieldOr, ToolTurn, WaitingText;
    ReplaySnoc(BlankStore(mission, root), before, ev);
    EffectOf(Rebuilt(mission, root, before), before, ev);
    EffectAsTurn(Rebuilt(mission, root, before), before, ev);
  }

  lemma EffectAsTurn(s: Store, before: seq<Event>, ev: Event)
    ensures Effect(s, Replays(before, ev)) ==
            if IsTurn(ev) then AddTurn(s.(userTurns := s.userTurns + SteerText(ev)), TurnOf(before, ev))
            else if WritePath(ev) != [] then RecordDeliverable(s, WritePath(ev)[0])
            else s
  {
    hide Clamp, FieldOr, ToolTurn, WaitingText;
    EffectOf(s, before, ev);
    assert s.userTurns + [] == s.userTurns;
  }

  /** The text as the store keeps it: whole up to its budget, else cut and marked. */
  predicate KeptAs(kept: string, text: string) {
    if |text| <= DEFAULT_BUDGET then kept == text else kept == text[..DEFAULT_BUDGET] + TRUNCATION_MARK
  }

  /** The record says what the tool result says: its tool, its summary -- or, when that is empty and a
      tool is named, that it went well or not -- whether its status is an error, its number, and the
      answer text that waited. */
  predicate RecordsResult(t: TurnRecord, waiting: string, ev: Event) {
    var tool, summary, status := FieldOr(ev, "tool"), FieldOr(ev, "summary"), FieldOr(ev, "status");
    && t.toolName == tool && t.assistantText == waiting
    && (t.isError <==> status != "" && status != "ok")
    && t.firstEventSeq == t.lastEventSeq == ev.no
    && (summary != "" ==> KeptAs(t.observation, summary))
    && (summary == "" && tool == "" ==> t.observation == "")
    && (summary == "" && tool != "" && t.isError ==> KeptAs(t.observation, "(" + tool + " failed, with no detail)"))
    && (summary == "" && tool != "" && !t.isError ==>
          KeptAs(t.observation, "(" + tool + " succeeded and produced no output)"))
    && t.userText == "" && t.toolArgsSummary == "" && t.toolCallText == "" && t.observedPath == ""
    && t.observedImages == []
  }

  /** The record says what the steer says, and nothing else. */
  predicate RecordsSteer(t: TurnRecord, ev: Event) {
    && t.userText == FieldOr(ev, "text") && t.assistantText == "" && t.toolName == "" && t.toolArgsSummary == ""
    && t.toolCallText == "" && t.observedPath == "" && t.observedImages == [] && t.observation == ""
    && !t.isError && t.firstEventSeq == t.lastEventSeq == 0
  }

  predicate Records(t: TurnRecord, before: seq<Event>, ev: Event) {
    if ev.kind == ToolResult then RecordsResult(t, WaitingText(before), ev) else RecordsSteer(t, ev)
  }

  lemma KeptTurnRecords(before: seq<Event>, ev: Event)
    ensures Records(KeptTurn(before, ev), before, ev)
  {
    hide FieldOr, WaitingText;
  }

  /** The i-th event in scope, when it is a turn, becomes the record whose position is the
      number of turns before it: one record per tool result or spoken steer, in log order, and
      saying what that event says. */
  ghost predicate TurnsFollowTheLog(recent: seq<TurnRecord>, scope: seq<Event>) {
    && |recent| == Count(IsTurn, scope)
    && forall i :: 0 <= i < |scope| && IsTurn(scope[i]) ==>
         Count(IsTurn, scope[..i]) < |recent| && Records(recent[Count(IsTurn, scope[..i])], scope[..i], scope[i])
  }

  lemma TurnsExtend(recent: seq<TurnRecord>, before: seq<Event>, ev: Event)
    requires TurnsFollowTheLog(recent, before)
    ensures IsTurn(ev) ==> TurnsFollowTheLog(recent + [KeptTurn(before, ev)], before + [ev])
    ensures !IsTurn(ev) ==> TurnsFollowTheLog(recent, before + [ev])
  {
    hide Count, IsTurn, KeptTurn, Records;
    var scope := before + [ev];
    var recent' := if IsTurn(ev) then recent + [KeptTurn(before, ev)] else recent;
    assert scope[..|before|] == before;
    CountSnoc(IsTurn, before, ev);
    KeptTurnRecords(before, ev);
    forall i | 0 <= i < |scope| && IsTurn(scope[i])
      ensures Count(IsTurn, scope[..i]) < |recent'|
      ensures Records(recent'[Count(IsTurn, scope[..i])], scope[..i], scope[i])
    {
      if i < |before| {
        assert scope[..i] == before[..i] && scope[i] == before[i];
      }
    }
  }

  /** The value of a field is that of the first with its key, and empty without one. */
  lemma {:induction false} FieldIsTheFirst(fields: seq<Field>, key: string)
    ensures forall k ::
              0 <= k < |fields| && fields[k].key == key && (forall j :: 0 <= j < k ==> fields[j].key != key) ==>
                FirstField(fields, key) == fields[k].value
    ensures (forall k :: 0 <= k < |fields| ==> fields[k].key != key) ==> FirstField(fields, key) == ""
  {
    if fields != [] {
      FieldIsTheFirst(fields[1..], key);
      assert fields == [fields[0]] + fields[1..];
    }
  }

  /** What a rebuild says beside its store, off the run_begin it starts from: who ran, where, with what
      model, protocol and tools; and why it is or is not to be had. */
  lemma RebuildSays(events: seq<Event>, filter: string)
    ensures var r, begin := Replay(events, filter), Begin(events, filter);
            (begin.None? ==> !r.ok && r.why == "no run_begin event") &&
            (begin.Some? ==>
               (r.ok <==> FieldOr(begin.value, "mission") != "" && FieldOr(begin.value, "run_id") != "") &&
               r.identity.workspaceRoot == FieldOr(begin.value, "workspace_root") &&
               r.identity.runId == FieldOr(begin.value, "run_id") &&
               r.identity.modelIdentity == FieldOr(begin.value, "model_identity") &&
               r.identity.protocolVersion == FieldOr(begin.value, "protocol_version") &&
               r.identity.toolSchemaHash == FieldOr(begin.value, "tool_schema_hash") &&
               (r.why == if !r.ok then "run_begin missing mission or run_id"
                         else if r.editInFlight then "rebuilt; edit in flight" else "ok") &&
               (!r.ok ==> !r.editInFlight && r.identity.lastAckedEditId == FieldOr(begin.value, "last_acked_edit")))
  {
    hide Begin, FieldOr, ReplayOps, OpenEdit, LastAcked, Scope, Run;
  }

  /** The log's own account of a run, field by field. */
  ghost predicate Recounts(s: Store, mission: string, root: string, scope: seq<Event>) {
    && TurnsFollowTheLog(s.recent, scope)
    && s.turnsRecorded == |s.recent|
    && s.userTurns == [mission] + FlatMap(SteerText, scope)
    && s.deliverables == Distinct(FlatMap(WritePath, scope))
    && s.workspaceWrites == |FlatMap(WritePath, scope)|
    && s.observationBudget == DEFAULT_BUDGET && s.spans == [] && s.sys == BLANK_SYSTEM.(workspaceRoot := root)
    && s.compactions == 0 && s.checklist == [] && s.lastCheck.None?
    && s.turnSink.Unset? && s.compactionSink.Unset?
  }

  lemma RecountsSnoc(mission: string, root: string, before: seq<Event>, ev: Event)
    requires Recounts(Rebuilt(mission, root, before), mission, root, before)
    ensures Recounts(Rebuilt(mission, root, before + [ev]), mission, root, before + [ev])
  {
    hide TurnsFollowTheLog, FlatMap, Distinct, Rebuilt, FieldOr, ToolTurn, WaitingText;
    var s := Rebuilt(mission, root, before);
    RebuiltSnoc(mission, root, before, ev);
    TurnsExtend(s.recent, before, ev);
    FlatMapSnoc(SteerText, before, ev);
    FlatMapSnoc(WritePath, before, ev);
    DistinctSnoc(FlatMap(WritePath, before), WritePath(ev));
    Associative([mission], FlatMap(SteerText, before), SteerText(ev));
  }

  lemma RecountsNothing(mission: string, root: string)
    ensures Recounts(Rebuilt(mission, root, []), mission, root, [])
  {
    assert Rebuilt(mission, root, []) == BlankStore(mission, root);
  }

  /** The rebuilt store recounts the scope: turns, instructions, deliverables, writes. */
  lemma {:induction false} ReplayIsExact(mission: string, root: string, scope: seq<Event>)
    ensures Recounts(Rebuilt(mission, root, scope), mission, root, scope)
  {
    if scope == [] {
      RecountsNothing(mission, root);
    } else {
      var before, ev := scope[..|scope| - 1], scope[|scope| - 1];
      assert scope == before + [ev];
      ReplayIsExact(mission, root, before);
      RecountsSnoc(mission, root, before, ev);
    }
  }

  /** The text a tool result carries is that of the last turn_text before it, unless an
      earlier tool result has already taken it. */
  lemma {:induction false} WaitingTextIsTheLast(scope: seq<Event>, k: nat)
    requires k < |scope| && scope[k].kind == TurnText
    requires forall j :: k < j < |scope| ==> scope[j].kind != TurnText
    ensures WaitingText(scope) ==
            if exists j :: k < j < |scope| && scope[j].kind == ToolResult then "" else FieldOr(scope[k], "text")
    decreases |scope|
  {
    var n := |scope| - 1;
    if k < n && scope[n].kind != ToolResult {
      WaitingTextIsTheLast(scope[..n], k);
      assert forall j :: k < j < n ==> scope[..n][j] == scope[j];
      if j :| k < j < |scope| && scope[j].kind == ToolResult {
        assert scope[..n][j].kind == ToolResult;
      }
    }
  }

  lemma {:induction false} NoTextNothingWaits(scope: seq<Event>)
    requires forall j :: 0 <= j < |scope| ==> scope[j].kind != TurnText
    ensures WaitingText(scope) == ""
  {
    if scope != [] {
      NoTextNothingWaits(scope[..|scope| - 1]);
    }
  }

  predicate Acknowledges(ev: Event) { ev.kind == EditEnd && FieldOr(ev, "request_id") != "" }

  /** The edit acknowledged last is that of the last edit_end with an id. */
  lemma {:induction false} LastAckedIsTheLastEnd(scope: seq<Event>, k: nat, initially: string)
    requires k < |scope| && Acknowledges(scope[k])
    requires forall j :: k < j < |scope| ==> !Acknowledges(scope[j])
    ensures LastAcked(scope, initially) == FieldOr(scope[k], "request_id")
    decreases |scope|
  {
    var n := |scope| - 1;
    if k < n {
      LastAckedIsTheLastEnd(scope[..n], k, initially);
    }
  }

  /** Without one it stays the edit the run_begin names. */
  lemma {:induction false} NothingAcknowledged(scope: seq<Event>, initially: string)
    requires forall j :: 0 <= j < |scope| ==> !Acknowledges(scope[j])
    ensures LastAcked(scope, initially) == initially
  {
    if scope != [] {
      NothingAcknowledged(scope[..|scope| - 1], initially);
    }
  }

  ghost predicate InOrder(events: seq<Event>) {
    forall i, j :: 0 <= i < j < |events| ==> events[i].no < events[j].no
  }

  function OfRun(runId: string): Event -> bool { (ev: Event) => MatchesRun(ev, runId) }

  lemma {:induction false} FiltersAgree<T(!new)>(p: T -> bool, q: T -> bool, xs: seq<T>)
    requires forall x :: x in xs ==> p(x) == q(x)
    ensures Filter(p, xs) == Filter(q, xs)
  {
    if xs != [] {
      var n := |xs| - 1;
      FiltersAgree(p, q, xs[..n]);
      assert xs[n] in xs;
    }
  }

  /** In a log in order, the scope is what follows the run_begin, less other runs' events. */
  lemma ScopeIsASuffix(events: seq<Event>, b: nat)
    requires InOrder(events) && b < |events|
    ensures Scope(events, events[b]) == Filter(OfRun(RunId(events[b])), events[b..])
  {
    var p := InScope(events[b].no, RunId(events[b]));
    assert events == events[..b] + events[b..];
    FilterAppend(p, events[..b], events[b..]);
    forall x | x in events[..b]
      ensures !p(x)
    {
      var i :| 0 <= i < b && events[i] == x;
    }
    FilterNone(p, events[..b]);
    forall x | x in events[b..]
      ensures p(x) == OfRun(RunId(events[b]))(x)
    {
      var i :| b <= i < |events| && events[i] == x;
    }
    FiltersAgree(p, OfRun(RunId(events[b])), events[b..]);
  }

  // --- Other runs do not interfere ------------------------------------------------------

  lemma {:induction false} FilterOfFilter<T(!new)>(p: T -> bool, q: T -> bool, xs: seq<T>)
    requires forall x :: p(x) ==> q(x)
    ensures Filter(p, Filter(q, xs)) == Filter(p, xs)
  {
    if xs != [] {
      var n := |xs| - 1;
      FilterOfFilter(p, q, xs[..n]);
      if q(xs[n]) {
        var rest := Filter(q, xs[..n]);
        assert (rest + [xs[n]])[..|rest|] == rest;
      }
    }
  }

  /** With a filter, the rebuild depends on the run's own and unlabelled events alone. */
  lemma OnlyOwnEventsMatter(events: seq<Event>, filter: string)
    requires filter != ""
    ensures Replay(Filter(OfRun(filter), events), filter) == Replay(events, filter)
  {
    var own := Filter(OfRun(filter), events);
    FilterOfFilter(BeginOf(filter), OfRun(filter), events);
    var begin := Begin(events, filter);
    if begin.Some? && Rebuildable(begin.value) {
      assert begin.value in Filter(BeginOf(filter), events);
      assert RunId(begin.value) == filter;
      FilterOfFilter(InScope(begin.value.no, filter), OfRun(filter), events);
    }
  }

  /** So deleting events that carry another run's id changes nothing -- and neither does any
      other edit of the log that leaves the run's own events as they were. */
  lemma OtherRunsDoNotInterfere(events: seq<Event>, events': seq<Event>, filter: string)
    requires filter != ""
    requires Filter(OfRun(filter), events) == Filter(OfRun(filter), events')
    ensures Replay(events, filter) == Replay(events', filter)
  {
    OnlyOwnEventsMatter(events, filter);
    OnlyOwnEventsMatter(events', filter);
  }

  lemma DeletingForeignEvents(before: seq<Event>, foreign: seq<Event>, after: seq<Event>, filter: string)
    requires filter != ""
    requires forall ev :: ev in foreign ==> RunId(ev) != "" && RunId(ev) != filter
    ensures Replay(before + foreign + after, filter) == Replay(before + after, filter)
  {
    var own := OfRun(filter);
    FilterNone(own, foreign);
    FilterAppend(own, before, foreign);
    assert Filter(own, before) + [] == Filter(own, before);
    FilterAppend(own, before + foreign, after);
    FilterAppend(own, before, after);
    OtherRunsDoNotInterfere(before + foreign + after, before + after, filter);
  }

  // --- Edits in flight --------------------------------------------------------------------

  function RequestId(ev: Event): string { FieldOr(ev, "request_id") }

  /** An edit that was begun and whose end the log does not show. */
  ghost predicate Unmatched(scope: seq<Event>, i: int) {
    0 <= i < |scope| && scope[i].kind == EditBegin &&
    forall j :: i < j < |scope| ==> !(scope[j].kind == EditEnd && RequestId(scope[j]) == RequestId(scope[i]))
  }

  ghost predicate LastBegun(scope: seq<Event>, i: int) {
    0 <= i < |scope| && scope[i].kind == EditBegin && forall j :: i < j < |scope| ==> scope[j].kind != EditBegin
  }

  lemma UnmatchedSnoc(scope: seq<Event>, ev: Event, i: int)
    requires 0 <= i < |scope|
    ensures Unmatched(scope + [ev], i) <==>
            Unmatched(scope, i) && !(ev.kind == EditEnd && RequestId(ev) == RequestId(scope[i]))
    ensures LastBegun(scope + [ev], i) <==> LastBegun(scope, i) && ev.kind != EditBegin
  {
    assert (scope + [ev])[|scope|] == ev;
    assert forall j :: 0 <= j < |scope| ==> (scope + [ev])[j] == scope[j];
  }

  /** The open edit the replay tracks is the last one begun, while its end is missing. */
  lemma {:induction false} OpenEditIsTheLastBegun(scope: seq<Event>)
    ensures OpenEdit(scope) != "" ==>
              exists i :: LastBegun(scope, i) && Unmatched(scope, i) && RequestId(scope[i]) == OpenEdit(scope)
    ensures OpenEdit(scope) == "" ==>
              forall i :: LastBegun(scope, i) && Unmatched(scope, i) ==> RequestId(scope[i]) == ""
  {
    if scope != [] {
      var n := |scope| - 1;
      var before, ev := scope[..n], scope[n];
      OpenEditIsTheLastBegun(before);
      assert scope == before + [ev];
      forall i | 0 <= i < n
        ensures Unmatched(scope, i) <==>
                Unmatched(before, i) && !(ev.kind == EditEnd && RequestId(ev) == RequestId(scope[i]))
        ensures LastBegun(scope, i) <==> LastBegun(before, i) && ev.kind != EditBegin
      {
        UnmatchedSnoc(before, ev, i);
      }
      if ev.kind == EditBegin {
        assert LastBegun(scope, n) && Unmatched(scope, n);
      } else if OpenEdit(scope) != "" {
        var i :| LastBegun(before, i) && Unmatched(before, i) && RequestId(before[i]) == OpenEdit(before);
        assert LastBegun(scope, i) && Unmatched(scope, i);
      } else {
        forall i | LastBegun(scope, i) && Unmatched(scope, i)
          ensures RequestId(scope[i]) == ""
        {
          assert LastBegun(before, i) && Unmatched(before, i);
        }
      }
    }
  }

  ghost predicate LastBegunIsOpen(scope: seq<Event>) {
    exists i :: LastBegun(scope, i) && Unmatched(scope, i) && RequestId(scope[i]) != ""
  }

  /** edit_in_flight holds exactly when the last edit begun has an id and no end. */
  lemma InFlightMeansLastBegunIsOpen(scope: seq<Event>)
    ensures OpenEdit(scope) != "" <==> LastBegunIsOpen(scope)
  {
    OpenEditIsTheLastBegun(scope);
  }

  ghost predicate SomeUnmatched(scope: seq<Event>) { exists i :: Unmatched(scope, i) }

  /** The flag is meant to say that some edit never ended. It says so exactly when an edit left
      without an end, wherever it is, leaves the last one begun without an end too. What carries
      this is OpenEditIsTheLastBegun: the flag itself is that condition on the last one begun. */
  lemma InFlightIsRightExactlyWhen(scope: seq<Event>)
    ensures (OpenEdit(scope) != "" <==> SomeUnmatched(scope)) <==>
            (SomeUnmatched(scope) ==> LastBegunIsOpen(scope))
  {
    InFlightMeansLastBegunIsOpen(scope);
  }

  /** No edit is begun while another is without its end, and every edit has an id. */
  ghost predicate OneAtATime(scope: seq<Event>) {
    forall i :: 0 <= i < |scope| && scope[i].kind == EditBegin ==>
      !SomeUnmatched(scope[..i]) && RequestId(scope[i]) != ""
  }

  lemma {:induction false} UnmatchedIsTheLastBegun(scope: seq<Event>)
    requires OneAtATime(scope)
    ensures forall i :: Unmatched(scope, i) ==> LastBegun(scope, i) && RequestId(scope[i]) != ""
  {
    if scope != [] {
      var n := |scope| - 1;
      var before, ev := scope[..n], scope[n];
      assert forall i :: 0 <= i < n ==> before[..i] == scope[..i];
      UnmatchedIsTheLastBegun(before);
      assert scope == before + [ev];
      forall i | Unmatched(scope, i)
        ensures LastBegun(scope, i) && RequestId(scope[i]) != ""
      {
        if i < n {
          UnmatchedSnoc(before, ev, i);
          assert ev.kind == EditBegin ==> !SomeUnmatched(scope[..n]);
        }
      }
    }
  }

  /** With edits one at a time, edit_in_flight is true exactly when some edit never ended. */
  lemma InFlightMeansSomeEditIsOpen(scope: seq<Event>)
    requires OneAtATime(scope)
    ensures OpenEdit(scope) != "" <==> SomeUnmatched(scope)
  {
    UnmatchedIsTheLastBegun(scope);
    InFlightIsRightExactlyWhen(scope);
  }

  /** Without that guard an open edit can be missed: begun first, overlapped by one that ends.
      Such a run is rebuilt as if nothing were in flight. */
  lemma OverlappingEditIsMissed(begin: Event, a: Event, b: Event, c: Event)
    requires begin.kind == RunBegin && Rebuildable(begin) && InOrder([begin, a, b, c])
    requires a.kind == EditBegin && b.kind == EditBegin && c.kind == EditEnd
    requires RunId(a) == RunId(b) == RunId(c) == RunId(begin)
    requires RequestId(a) != "" && RequestId(b) != "" && RequestId(a) != RequestId(b) && RequestId(c) == RequestId(b)
    ensures var r := Replay([begin, a, b, c], RunId(begin));
            r.ok && !r.editInFlight && Unmatched([begin, a, b, c], 1)
  {
    hide OpenEdit, Filter, Begin, LastAcked, ReplayOps, Run;
    var log := [begin, a, b, c];
    var run := RunId(begin);
    assert log == [begin] + [a, b, c] && log[0..] == log;
    BeginOfOneRun(begin, [a, b, c], run);
    ScopeIsASuffix(log, 0);
    FilterAll(OfRun(run), log);
    OverlapLeavesNoneOpen(begin, a, b, c);
  }

  lemma OverlapLeavesNoneOpen(begin: Event, a: Event, b: Event, c: Event)
    requires begin.kind == RunBegin && a.kind == EditBegin && b.kind == EditBegin && c.kind == EditEnd
    requires RequestId(c) == RequestId(b)
    ensures OpenEdit([begin, a, b, c]) == ""
  {
    FoldsSnoc([begin, a], b, "");
    FoldsSnoc([begin, a, b], c, "");
    assert [begin, a] + [b] == [begin, a, b] && [begin, a, b] + [c] == [begin, a, b, c];
  }

  lemma BeginOfOneRun(begin: Event, later: seq<Event>, runId: string)
    requires BeginOf(runId)(begin) && runId != ""
    ensures Begin([begin] + later, runId) == Some(begin)
  {
    assert ([begin] + later)[..1] == [begin];
    assert [begin][..0] == [];
    assert Filter(BeginOf(runId), [begin]) == [begin];
    FirstBeginStays([begin] + later, runId, 1);
  }
}
