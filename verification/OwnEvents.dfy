/** With a run's id given, only that run's events are meant to apply (src/context/resume.hpp). Events
    without an id apply as well: here is exactly when those written after the run's own segment,
    by later runs, leave every part of the rebuild as it was. */
module OwnEvents {
  import opened Sequences
  import opened ContextModel
  import opened Resume
  import opened ResumeLaws
  import opened ListingLaws

  // --- The store, with some of the later events left out -----------------------------------------

  predicate GivesBackSome(ev: Event) { IsTurn(ev) || WritePath(ev) != [] }

  function LeftOut(kept: Event -> bool): Event -> bool { (ev: Event) => GivesBackSome(ev) && !kept(ev) }

  /** Every tool result that is kept finds the same answer text waiting. */
  ghost predicate TextsAgree(cut: seq<Event>, late: seq<Event>, kept: Event -> bool) {
    forall k :: 0 <= k < |late| && late[k].kind == ToolResult && kept(late[k]) ==>
      WaitingText(cut + late[..k]) == WaitingText(cut + Filter(kept, late[..k]))
  }

  lemma TextsAgreeSnoc(cut: seq<Event>, before: seq<Event>, ev: Event, kept: Event -> bool)
    ensures TextsAgree(cut, before + [ev], kept) <==>
            TextsAgree(cut, before, kept) &&
            (ev.kind == ToolResult && kept(ev) ==>
               WaitingText(cut + before) == WaitingText(cut + Filter(kept, before)))
  {
    hide WaitingText, Filter;
    var late := before + [ev];
    assert late[..|before|] == before && late[|before|] == ev;
    assert forall k :: 0 <= k < |before| ==> late[..k] == before[..k] && late[k] == before[k];
  }

  /** The scope grows by one event, and so does what is kept of it if the event is. */
  lemma LateSnoc(cut: seq<Event>, late: seq<Event>, kept: Event -> bool)
    requires late != []
    ensures var n := |late| - 1;
            late == late[..n] + [late[n]] && cut + late == cut + late[..n] + [late[n]] &&
            cut + Filter(kept, late) ==
            if kept(late[n]) then cut + Filter(kept, late[..n]) + [late[n]] else cut + Filter(kept, late[..n])
  {
    var n := |late| - 1;
    Unsnoc(late);
    Associative(cut, late[..n], [late[n]]);
    Associative(cut, Filter(kept, late[..n]), [late[n]]);
  }

  lemma RestoredSnoc(mission: string, root: string, before: seq<Event>, ev: Event)
    ensures Restored(Rebuilt(mission, root, before + [ev])) ==
            Restored(Rebuilt(mission, root, before)) + if GivesBackSome(ev) then 1 else 0
  {
    hide Rebuilt, Clamp, TurnOf, FieldOr;
    RebuiltSnoc(mission, root, before, ev);
  }

  lemma {:induction false} RestoredWithout(mission: string, root: string, cut: seq<Event>, late: seq<Event>,
                                           kept: Event -> bool)
    ensures Restored(Rebuilt(mission, root, cut + late)) ==
            Restored(Rebuilt(mission, root, cut + Filter(kept, late))) + Count(LeftOut(kept), late)
  {
    hide Rebuilt, Restored, GivesBackSome;
    if late == [] {
      assert Filter(kept, late) == late;
    } else {
      var n := |late| - 1;
      RestoredWithout(mission, root, cut, late[..n], kept);
      LateSnoc(cut, late, kept);
      RestoredSnoc(mission, root, cut + late[..n], late[n]);
      RestoredSnoc(mission, root, cut + Filter(kept, late[..n]), late[n]);
    }
  }

  /** One more event, on two stores that agree so far. */
  lemma SameStep(mission: string, root: string, a: seq<Event>, b: seq<Event>, ev: Event)
    requires Rebuilt(mission, root, a) == Rebuilt(mission, root, b)
    requires ev.kind == ToolResult ==> WaitingText(a) == WaitingText(b)
    ensures Rebuilt(mission, root, a + [ev]) == Rebuilt(mission, root, b + [ev])
  {
    hide Rebuilt, WaitingText, FieldOr;
    RebuiltSnoc(mission, root, a, ev);
    RebuiltSnoc(mission, root, b, ev);
  }

  lemma NoStep(mission: string, root: string, a: seq<Event>, ev: Event)
    requires !GivesBackSome(ev)
    ensures Rebuilt(mission, root, a + [ev]) == Rebuilt(mission, root, a)
  {
    hide Rebuilt, FieldOr;
    RebuiltSnoc(mission, root, a, ev);
  }

  lemma {:induction false} AgreeingTextsGiveOneStore(mission: string, root: string, cut: seq<Event>,
                                                     late: seq<Event>, kept: Event -> bool)
    requires Count(LeftOut(kept), late) == 0 && TextsAgree(cut, late, kept)
    ensures Rebuilt(mission, root, cut + late) == Rebuilt(mission, root, cut + Filter(kept, late))
  {
    hide Rebuilt, WaitingText, GivesBackSome;
    if late == [] {
      assert Filter(kept, late) == late;
    } else {
      hide TextsAgree;
      var n := |late| - 1;
      LateSnoc(cut, late, kept);
      TextsAgreeSnoc(cut, late[..n], late[n], kept);
      AgreeingTextsGiveOneStore(mission, root, cut, late[..n], kept);
      if kept(late[n]) {
        SameStep(mission, root, cut + late[..n], cut + Filter(kept, late[..n]), late[n]);
      } else {
        NoStep(mission, root, cut + late[..n], late[n]);
      }
    }
  }

  /** A turn is appended, and a tool result's record carries the text that waited for it. */
  lemma RecentSnoc(mission: string, root: string, a: seq<Event>, ev: Event)
    ensures var before, after := Rebuilt(mission, root, a).recent, Rebuilt(mission, root, a + [ev]).recent;
            if IsTurn(ev) then
              |after| == |before| + 1 && after[..|before|] == before &&
              (ev.kind == ToolResult ==> after[|before|].assistantText == WaitingText(a))
            else after == before
  {
    hide Rebuilt, WaitingText, FieldOr, WritePath;
    RebuiltSnoc(mission, root, a, ev);
  }

  lemma {:induction false} OneStoreHasAgreeingTexts(mission: string, root: string, cut: seq<Event>,
                                                    late: seq<Event>, kept: Event -> bool)
    requires Count(LeftOut(kept), late) == 0
    ensures var full, part := Rebuilt(mission, root, cut + late).recent,
                              Rebuilt(mission, root, cut + Filter(kept, late)).recent;
            |full| == |part| && (full == part ==> TextsAgree(cut, late, kept))
  {
    hide Rebuilt, WaitingText, IsTurn, WritePath;
    if late == [] {
      assert Filter(kept, late) == late;
    } else {
      hide TextsAgree;
      var n := |late| - 1;
      LateSnoc(cut, late, kept);
      TextsAgreeSnoc(cut, late[..n], late[n], kept);
      OneStoreHasAgreeingTexts(mission, root, cut, late[..n], kept);
      RecentSnoc(mission, root, cut + late[..n], late[n]);
      if kept(late[n]) {
        RecentSnoc(mission, root, cut + Filter(kept, late[..n]), late[n]);
        ResultsAreTurns(late[n]);
      }
    }
  }

  lemma ResultsAreTurns(ev: Event)
    ensures ev.kind == ToolResult ==> IsTurn(ev)
  {
  }

  /** The store without some of the later events is the store with them exactly when none of them
      would be given back, and none changes the text a result that stays is given. */
  lemma StoreWithoutExactlyWhen(mission: string, root: string, cut: seq<Event>, late: seq<Event>,
                                kept: Event -> bool)
    ensures Rebuilt(mission, root, cut + late) == Rebuilt(mission, root, cut + Filter(kept, late)) <==>
            Count(LeftOut(kept), late) == 0 && TextsAgree(cut, late, kept)
  {
    hide Rebuilt, Count, Filter, TextsAgree;
    RestoredWithout(mission, root, cut, late, kept);
    if Count(LeftOut(kept), late) == 0 {
      OneStoreHasAgreeingTexts(mission, root, cut, late, kept);
      if TextsAgree(cut, late, kept) {
        AgreeingTextsGiveOneStore(mission, root, cut, late, kept);
      }
    }
  }

  // --- The last acknowledged edit ------------------------------------------------------------------

  ghost predicate LastAck(late: seq<Event>, k: int) {
    0 <= k < |late| && Acknowledges(late[k]) && forall j :: k < j < |late| ==> !Acknowledges(late[j])
  }

  /** An acknowledgement that is left out is the last one of all only if it repeats the one that
      then is. */
  ghost predicate AcksAgree(late: seq<Event>, kept: Event -> bool, acked: string) {
    forall k :: LastAck(late, k) && !kept(late[k]) ==> RequestId(late[k]) == acked
  }

  lemma LastAckSnoc(before: seq<Event>, ev: Event)
    ensures Acknowledges(ev) ==>
              LastAck(before + [ev], |before|) && forall k :: LastAck(before + [ev], k) ==> k == |before|
    ensures !Acknowledges(ev) ==> forall k :: LastAck(before + [ev], k) <==> LastAck(before, k)
  {
    hide Acknowledges;
    var late := before + [ev];
    assert late[|before|] == ev && forall k :: 0 <= k < |before| ==> late[k] == before[k];
    if !Acknowledges(ev) {
      forall k
        ensures LastAck(late, k) <==> LastAck(before, k)
      {
        if LastAck(before, k) {
          assert Acknowledges(late[k]);
        }
      }
    }
  }

  lemma AckedSnoc(before: seq<Event>, ev: Event, initially: string)
    ensures LastAcked(before + [ev], initially) ==
            if Acknowledges(ev) then RequestId(ev) else LastAcked(before, initially)
  {
    FoldsSnoc(before, ev, initially);
  }

  lemma {:induction false} AckedWithoutExactlyWhen(cut: seq<Event>, late: seq<Event>, kept: Event -> bool,
                                                   initially: string)
    ensures var acked := LastAcked(cut + Filter(kept, late), initially);
            LastAcked(cut + late, initially) == acked <==> AcksAgree(late, kept, acked)
  {
    hide LastAcked, Acknowledges, RequestId;
    if late == [] {
      assert Filter(kept, late) == late;
    } else {
      hide Filter;
      var n := |late| - 1;
      LateSnoc(cut, late, kept);
      AckedSnoc(cut + late[..n], late[n], initially);
      AckedSnoc(cut + Filter(kept, late[..n]), late[n], initially);
      LastAckSnoc(late[..n], late[n]);
      AckedWithoutExactlyWhen(cut, late[..n], kept, initially);
      if Acknowledges(late[n]) {
        assert LastAck(late, n);
      }
    }
  }

  // --- The edit in flight ------------------------------------------------------------------------

  ghost predicate Begins(late: seq<Event>) { exists k :: 0 <= k < |late| && late[k].kind == EditBegin }

  /** The edit a rebuild would hold open is ended by one of these. */
  ghost predicate Ends(late: seq<Event>, open: string) {
    exists k :: 0 <= k < |late| && late[k].kind == EditEnd && RequestId(late[k]) == open
  }

  lemma BeginsAndEndsSnoc(before: seq<Event>, ev: Event, open: string)
    ensures Begins(before + [ev]) <==> Begins(before) || ev.kind == EditBegin
    ensures Ends(before + [ev], open) <==> Ends(before, open) || (ev.kind == EditEnd && RequestId(ev) == open)
  {
    hide RequestId;
    var late := before + [ev];
    assert late[|before|] == ev && forall k :: 0 <= k < |before| ==> late[k] == before[k];
  }

  lemma {:induction false} OpenEditAcross(cut: seq<Event>, late: seq<Event>)
    ensures OpenEdit(cut + late) ==
            if Begins(late) then OpenEdit(late) else if Ends(late, OpenEdit(cut)) then "" else OpenEdit(cut)
  {
    hide OpenEdit, RequestId;
    if late == [] {
      assert cut + late == cut;
    } else {
      hide Begins, Ends;
      var n := |late| - 1;
      var open := OpenEdit(cut);
      Unsnoc(late);
      Associative(cut, late[..n], [late[n]]);
      OpenEditAcross(cut, late[..n]);
      BeginsAndEndsSnoc(late[..n], late[n], open);
      FoldsSnoc(cut + late[..n], late[n], "");
      FoldsSnoc(late[..n], late[n], "");
      OneRequestId(late[n]);
    }
  }

  lemma OneRequestId(ev: Event)
    ensures RequestId(ev) == FieldOr(ev, "request_id")
  {
  }

  /** Later edits leave the flag: if any is begun, the last of them is open just when the run's own
      was; if none is, the run's own open edit is not ended by one of them. */
  ghost predicate EditsAgree(cut: seq<Event>, late: seq<Event>) {
    if Begins(late) then LastBegunIsOpen(cut) <==> LastBegunIsOpen(late)
    else
      forall i :: LastBegun(cut, i) && Unmatched(cut, i) && RequestId(cut[i]) != "" ==>
        !Ends(late, RequestId(cut[i]))
  }

  lemma InFlightWithoutExactlyWhen(cut: seq<Event>, late: seq<Event>)
    ensures (OpenEdit(cut + late) != "" <==> OpenEdit(cut) != "") <==> EditsAgree(cut, late)
  {
    hide OpenEdit, RequestId, Begins, Ends, Unmatched;
    OpenEditAcross(cut, late);
    InFlightMeansLastBegunIsOpen(cut);
    InFlightMeansLastBegunIsOpen(late);
    OpenEditIsTheLastBegun(cut);
    forall i, j | LastBegun(cut, i) && LastBegun(cut, j)
      ensures i == j
    {
    }
  }

  // --- The log, with some of its later events left out ---------------------------------------------

  lemma {:induction false} FilterKeepsOrder(front: seq<Event>, later: seq<Event>, kept: Event -> bool)
    requires InOrder(front + later)
    ensures InOrder(front + Filter(kept, later))
  {
    if later == [] {
      assert Filter(kept, later) == later;
    } else {
      var n := |later| - 1;
      LateSnoc(front, later, kept);
      var before, part := front + later[..n], front + Filter(kept, later[..n]);
      assert forall i :: 0 <= i < |before| ==> before[i] == (front + later)[i];
      FilterKeepsOrder(front, later[..n], kept);
      if kept(later[n]) {
        forall x | x in part
          ensures x.no < later[n].no
        {
          assert x in before;
          var i :| 0 <= i < |before| && before[i] == x;
          assert (front + later)[i] == x && (front + later)[|before|] == later[n];
        }
        LastKeepsOrder(part, later[n]);
      }
    }
  }

  lemma LastKeepsOrder(part: seq<Event>, ev: Event)
    requires InOrder(part) && forall x :: x in part ==> x.no < ev.no
    ensures InOrder(part + [ev])
  {
    forall i, j | 0 <= i < j < |part + [ev]|
      ensures (part + [ev])[i].no < (part + [ev])[j].no
    {
      assert part[i] in part;
    }
  }

  /** The log up to e, and what is kept of it after that. */
  function Pruned(events: seq<Event>, e: nat, kept: Event -> bool): seq<Event>
    requires e <= |events|
  {
    events[..e] + Filter(kept, events[e..])
  }

  /** The events after e that a rebuild of the run would replay. */
  function Late(events: seq<Event>, runId: string, e: nat): seq<Event>
    requires e <= |events|
  {
    Filter(OfRun(runId), events[e..])
  }

  lemma ScopeAcross(front: seq<Event>, later: seq<Event>, b: nat)
    requires InOrder(front + later) && b < |front|
    ensures Scope(front + later, front[b]) == Scope(front, front[b]) + Filter(OfRun(RunId(front[b])), later)
  {
    hide Filter, Scope;
    var run := RunId(front[b]);
    assert (front + later)[b] == front[b] && forall i :: 0 <= i < |front| ==> front[i] == (front + later)[i];
    ScopeIsASuffix(front + later, b);
    ScopeIsASuffix(front, b);
    assert (front + later)[b..] == front[b..] + later;
    FilterAppend(OfRun(run), front[b..], later);
  }

  lemma PrunedScope(events: seq<Event>, runId: string, b: nat, e: nat, kept: Event -> bool)
    requires InOrder(events) && b < e <= |events| && RunId(events[b]) == runId
    requires forall ev :: kept(ev) ==> MatchesRun(ev, runId)
    ensures var cut := Scope(events[..e], events[b]);
            Scope(events, events[b]) == cut + Late(events, runId, e) &&
            Scope(Pruned(events, e, kept), events[b]) == cut + Filter(kept, Late(events, runId, e))
  {
    hide Scope, Filter, MatchesRun;
    Halves(events, e);
    ScopeAcross(events[..e], events[e..], b);
    FilterKeepsOrder(events[..e], events[e..], kept);
    ScopeAcross(events[..e], Filter(kept, events[e..]), b);
    FilterAll(OfRun(runId), Filter(kept, events[e..]));
    FilterOfFilter(kept, OfRun(runId), events[e..]);
  }

  /** The rebuild of a run from the events of its scope. */
  function RebuildOf(begin: Event, scope: seq<Event>): Rebuild {
    var inFlight := OpenEdit(scope) != "";
    Rebuild(true, if inFlight then "rebuilt; edit in flight" else "ok",
            IdentityOf(begin).(lastAckedEditId := LastAcked(scope, FieldOr(begin, "last_acked_edit"))),
            inFlight,
            Rebuilt(FieldOr(begin, "mission"), FieldOr(begin, "workspace_root"), scope))
  }

  lemma BeginInFront(front: seq<Event>, later: seq<Event>, runId: string, b: nat)
    requires runId != "" && b < |front| && BeginOf(runId)(front[b])
    requires forall i :: 0 <= i < b ==> !BeginOf(runId)(front[i])
    ensures Begin(front + later, runId) == Some(front[b])
  {
    hide Begin, BeginOf;
    var all := front + later;
    assert all[..b] == front[..b] && all[b] == front[b];
    NoneBegun(front[..b], runId);
    BeginTake(all, runId, b);
    FirstBeginStays(all, runId, b + 1);
  }

  lemma NoneBegun(events: seq<Event>, runId: string)
    requires forall i :: 0 <= i < |events| ==> !BeginOf(runId)(events[i])
    ensures Begin(events, runId) == None
  {
    FilterNone(BeginOf(runId), events);
  }

  lemma RebuildFromFront(front: seq<Event>, later: seq<Event>, runId: string, b: nat)
    requires runId != "" && b < |front| && BeginOf(runId)(front[b])
    requires forall i :: 0 <= i < b ==> !BeginOf(runId)(front[i])
    ensures Replay(front + later, runId).ok <==> Rebuildable(front[b])
    ensures Rebuildable(front[b]) ==>
              RunId(front[b]) == runId &&
              Replay(front + later, runId) == RebuildOf(front[b], Scope(front + later, front[b]))
  {
    hide Begin, Scope, Filter, Run, ReplayOps, OpenEdit, LastAcked;
    BeginInFront(front, later, runId, b);
  }

  lemma SameRebuildExactlyWhen(begin: Event, cut: seq<Event>, late: seq<Event>, kept: Event -> bool)
    ensures var full, part := RebuildOf(begin, cut + late), RebuildOf(begin, cut + Filter(kept, late));
            (part.store == full.store <==> Count(LeftOut(kept), late) == 0 && TextsAgree(cut, late, kept)) &&
            (part == full <==>
               part.store == full.store &&
               (OpenEdit(cut + late) != "" <==> OpenEdit(cut + Filter(kept, late)) != "") &&
               AcksAgree(late, kept, part.identity.lastAckedEditId))
  {
    hide Rebuilt, Count, TextsAgree, OpenEdit, LastAcked, AcksAgree, FieldOr, Filter;
    StoreWithoutExactlyWhen(FieldOr(begin, "mission"), FieldOr(begin, "workspace_root"), cut, late, kept);
    AckedWithoutExactlyWhen(cut, late, kept, FieldOr(begin, "last_acked_edit"));
  }

  lemma LeftOutIsGivenBack(events: seq<Event>, runId: string, e: nat, kept: Event -> bool)
    requires e <= |events|
    ensures Count(LeftOut(kept), Late(events, runId, e)) == 0 <==>
            forall ev :: ev in events[e..] && !kept(ev) ==> !Restores(ev, runId)
  {
    hide IsTurn, WritePath, MatchesRun;
    CountZero(LeftOut(kept), Late(events, runId, e));
  }

  /** What pruning the later events of a log changes of a rebuild. */
  lemma PruningChangesNothingExactlyWhen(events: seq<Event>, runId: string, b: nat, e: nat, kept: Event -> bool)
    requires runId != "" && InOrder(events) && RunAt(events, runId, b, e) && Replay(events, runId).ok
    requires forall ev :: kept(ev) ==> MatchesRun(ev, runId)
    ensures var part, full := Replay(Pruned(events, e, kept), runId), Replay(events, runId);
            var cut, late := Scope(events[..e], events[b]), Late(events, runId, e);
            part.ok &&
            (part.store == full.store <==>
               (forall ev :: ev in events[e..] && !kept(ev) ==> !Restores(ev, runId)) && TextsAgree(cut, late, kept)) &&
            (part == full <==>
               part.store == full.store &&
               (OpenEdit(cut + late) != "" <==> OpenEdit(cut + Filter(kept, late)) != "") &&
               AcksAgree(late, kept, part.identity.lastAckedEditId))
  {
    hide Replay, Scope, Rebuilt, RebuildOf, Count, Restores, Rebuildable, TextsAgree, AcksAgree, OpenEdit;
    hide Late, Filter;
    var front := events[..e];
    Halves(events, e);
    assert front[b] == events[b];
    RebuildFromFront(front, events[e..], runId, b);
    RebuildFromFront(front, Filter(kept, events[e..]), runId, b);
    PrunedScope(events, runId, b, e, kept);
    SameRebuildExactlyWhen(events[b], Scope(front, events[b]), Late(events, runId, e), kept);
    LeftOutIsGivenBack(events, runId, e, kept);
  }

  // --- Only its own segment ------------------------------------------------------------------------

  function NoneKept(): Event -> bool { (ev: Event) => false }

  /** The rebuild is the one its own segment gives -- the log cut where the next run begins --
      exactly when no event after the cut would be given back, no edit begun or ended there changes
      whether the last one begun is open, and the last edit acknowledged there, if any is, is the one
      the segment had acknowledged last. */
  lemma OnlyItsOwnSegmentCountsExactlyWhen(events: seq<Event>, runId: string, b: nat, e: nat)
    requires runId != "" && InOrder(events) && RunAt(events, runId, b, e) && Replay(events, runId).ok
    ensures var own, full := Replay(events[..e], runId), Replay(events, runId);
            var cut, late := Scope(events[..e], events[b]), Late(events, runId, e);
            own.ok &&
            (own.store == full.store <==> forall ev :: ev in events[e..] ==> !Restores(ev, runId)) &&
            (own == full <==>
               (forall ev :: ev in events[e..] ==> !Restores(ev, runId)) &&
               EditsAgree(cut, late) &&
               forall k :: LastAck(late, k) ==> RequestId(late[k]) == own.identity.lastAckedEditId)
  {
    hide Replay, Scope, Restores, EditsAgree, OpenEdit, LastAck, RequestId, Late, WaitingText;
    var cut, late := Scope(events[..e], events[b]), Late(events, runId, e);
    PruningChangesNothingExactlyWhen(events, runId, b, e, NoneKept());
    FilterNone(NoneKept(), events[e..]);
    FilterNone(NoneKept(), late);
    assert events[..e] + [] == events[..e] && cut + [] == cut;
    InFlightWithoutExactlyWhen(cut, late);
  }

  // --- Only its own events -------------------------------------------------------------------------

  function Labelled(runId: string): Event -> bool { (ev: Event) => RunId(ev) == runId }

  lemma LabelledStrays(later: seq<Event>, runId: string)
    requires runId != ""
    ensures (forall ev :: ev in later && !Labelled(runId)(ev) ==> !Restores(ev, runId)) <==>
            (forall ev :: ev in later && RunId(ev) == "" ==> !Restores(ev, runId))
  {
    assert forall ev :: Restores(ev, runId) ==> RunId(ev) == "" || RunId(ev) == runId;
  }

  lemma LabelledAcks(events: seq<Event>, runId: string, e: nat, acked: string)
    requires e <= |events| && runId != ""
    ensures var late := Late(events, runId, e);
            AcksAgree(late, Labelled(runId), acked) <==>
            forall k :: LastAck(late, k) && RunId(late[k]) == "" ==> RequestId(late[k]) == acked
  {
    hide Acknowledges, RequestId;
    var late := Late(events, runId, e);
    forall k | LastAck(late, k)
      ensures !Labelled(runId)(late[k]) <==> RunId(late[k]) == ""
    {
      assert late[k] in late;
    }
  }

  /** Two runs may take turns, and then the run's own events go on after the next run_begin. The
      rebuild is the one the log gives without what else was written there exactly when no event
      without the run's id would be given back, none is the answer text of one of the run's own
      results, and the open and the acknowledged edit are those of the run's own events. */
  lemma OnlyItsOwnEventsCountExactlyWhen(events: seq<Event>, runId: string, b: nat, e: nat)
    requires runId != "" && InOrder(events) && RunAt(events, runId, b, e) && Replay(events, runId).ok
    ensures var own, full := Replay(Pruned(events, e, Labelled(runId)), runId), Replay(events, runId);
            var cut, late := Scope(events[..e], events[b]), Late(events, runId, e);
            own.ok &&
            (own == full <==>
               (forall ev :: ev in events[e..] && RunId(ev) == "" ==> !Restores(ev, runId)) &&
               TextsAgree(cut, late, Labelled(runId)) &&
               (LastBegunIsOpen(cut + late) <==> LastBegunIsOpen(cut + Filter(Labelled(runId), late))) &&
               forall k :: LastAck(late, k) && RunId(late[k]) == "" ==>
                 RequestId(late[k]) == own.identity.lastAckedEditId)
  {
    hide Replay, Scope, OpenEdit, LastAck, RequestId, WaitingText, LastBegunIsOpen, TextsAgree;
    hide Restores, AcksAgree, Late;
    var kept := Labelled(runId);
    var cut, late := Scope(events[..e], events[b]), Late(events, runId, e);
    PruningChangesNothingExactlyWhen(events, runId, b, e, kept);
    InFlightMeansLastBegunIsOpen(cut + late);
    InFlightMeansLastBegunIsOpen(cut + Filter(kept, late));
    LabelledStrays(events[e..], runId);
    LabelledAcks(events, runId, e, Replay(Pruned(events, e, kept), runId).identity.lastAckedEditId);
  }

  /** The input that shows it: a run that never got anywhere, then another, whose first result
      carries no run id. The first run is listed with nothing to resume to, and a resume of it
      holds the other run's turn. */
  lemma LaterResultIsSplicedIn(begin: Event, next: Event, ev: Event)
    requires begin.kind == next.kind == RunBegin && ev.kind == ToolResult && InOrder([begin, next, ev])
    requires Rebuildable(begin) && RunId(ev) == ""
    ensures var r, out := Replay([begin, next, ev], RunId(begin)), Listed([begin, next, ev]);
            r.ok && |out| > 0 && out[0].runId == RunId(begin) && out[0].observations == 0 &&
            Restored(r.store) == 1
  {
    hide Replay, Listed, Count;
    var log, run := [begin, next, ev], RunId(begin);
    assert RunAt(log, run, 0, 1);
    assert log[..0] == [] && log[1..1] == [] && log[1..] == [next] + [ev];
    BeginIsThere(log, run, 0, 1);
    BeginOpensRun(log, run);
    FilteredRebuildAgreesWithListing(log, run, 0, 1);
    NothingListed();
    CountNothing(Unreplayed(run));
    CountNothing(Observes);
    RunIsListed(log, run, 0, 1);
    CountAppend(GivenBack(run), [next], [ev]);
    CountOne(GivenBack(run), next);
    CountOne(GivenBack(run), ev);
  }

  /** The same for an edit of the next run, written without a run id. No result is given back that
      should not be, and yet the first run comes back with an edit in flight, which refuses its
      resume, or with another run's edit as the one acknowledged last. */
  lemma LaterEditIsSplicedIn(begin: Event, next: Event, ev: Event)
    requires begin.kind == next.kind == RunBegin && InOrder([begin, next, ev]) && Rebuildable(begin)
    requires RunId(ev) == "" && RequestId(ev) != "" && (ev.kind == EditBegin || ev.kind == EditEnd)
    ensures var own, full := Replay([begin], RunId(begin)), Replay([begin, next, ev], RunId(begin));
            own.ok && full.ok && own.store == full.store && !own.editInFlight &&
            (full.editInFlight <==> ev.kind == EditBegin) &&
            full.identity.lastAckedEditId ==
              if ev.kind == EditEnd then RequestId(ev) else FieldOr(begin, "last_acked_edit")
  {
    hide Replay, RebuildOf, Scope, FieldOr, Filter;
    var log, run := [begin, next, ev], RunId(begin);
    RebuildFromFront([begin], [next, ev], run, 0);
    RebuildFromFront([begin], [], run, 0);
    assert [begin] + [next, ev] == log && [begin] + [] == [begin];
    ScopeAcross([begin], [next, ev], 0);
    ScopeOfOne(begin);
    EditOfRest(begin, next, ev);
  }

  lemma ScopeOfOne(begin: Event)
    ensures Scope([begin], begin) == [begin]
  {
    assert [begin][..0] == [];
  }

  lemma LateOfTwo(begin: Event, next: Event, ev: Event) returns (front: seq<Event>)
    requires begin.kind == next.kind == RunBegin && RunId(ev) == ""
    ensures [begin] + Filter(OfRun(RunId(begin)), [next, ev]) == front + [ev]
    ensures front == [begin] || front == [begin] + [next]
  {
    var run := RunId(begin);
    FilterSnoc(OfRun(run), [next], ev);
    assert [next] + [ev] == [next, ev] && [next][..0] == [];
    Associative([begin], Filter(OfRun(run), [next]), [ev]);
    front := [begin] + Filter(OfRun(run), [next]);
    assert [begin] + [] == [begin];
  }

  lemma EditOfRest(begin: Event, next: Event, ev: Event)
    requires begin.kind == next.kind == RunBegin
    requires RunId(ev) == "" && RequestId(ev) != "" && (ev.kind == EditBegin || ev.kind == EditEnd)
    ensures var own, full := RebuildOf(begin, [begin]),
                             RebuildOf(begin, [begin] + Filter(OfRun(RunId(begin)), [next, ev]));
            own.ok && full.ok && own.store == full.store && !own.editInFlight &&
            (full.editInFlight <==> ev.kind == EditBegin) &&
            full.identity.lastAckedEditId ==
              if ev.kind == EditEnd then RequestId(ev) else FieldOr(begin, "last_acked_edit")
  {
    hide FieldOr, Rebuilt, LastAcked, OpenEdit, Filter;
    var front := LateOfTwo(begin, next, ev);
    StoreOfRest(FieldOr(begin, "mission"), FieldOr(begin, "workspace_root"), begin, next, front, ev);
    NoEditsNoFlags([begin], FieldOr(begin, "last_acked_edit"));
    NoEditsNoFlags(front, FieldOr(begin, "last_acked_edit"));
    FoldsSnoc(front, ev, FieldOr(begin, "last_acked_edit"));
  }

  /** Neither a run_begin nor an edit is anything to the store. */
  lemma StoreOfRest(mission: string, root: string, begin: Event, next: Event, front: seq<Event>, ev: Event)
    requires next.kind == RunBegin && (ev.kind == EditBegin || ev.kind == EditEnd)
    requires front == [begin] || front == [begin] + [next]
    ensures Rebuilt(mission, root, front + [ev]) == Rebuilt(mission, root, [begin])
  {
    hide Rebuilt;
    NoStep(mission, root, [begin], next);
    NoStep(mission, root, front, ev);
  }

  lemma {:induction false} NoEditsNoFlags(scope: seq<Event>, acked: string)
    requires forall ev :: ev in scope ==> ev.kind != EditBegin && ev.kind != EditEnd
    ensures OpenEdit(scope) == "" && LastAcked(scope, acked) == acked
  {
    if scope != [] {
      var n := |scope| - 1;
      NoEditsNoFlags(scope[..n], acked);
      assert scope[n] in scope;
    }
  }

  lemma BeginOpensRun(events: seq<Event>, runId: string)
    ensures Replay(events, runId).ok <==> Begin(events, runId).Some? && Rebuildable(Begin(events, runId).value)
  {
  }
}
