/** The history a chooser shows and what a resume gives back are two readings of one log:
    how the listing splits, when a listed run can be rebuilt, and how much comes back. Whose events
    come back is the subject of OwnEvents.dfy. */
module ListingLaws {
  import opened Sequences
  import opened Text
  import opened ContextModel
  import opened Resume
  import opened ResumeLaws

  /** Listings of logs laid end to end, the second starting with a run, are laid end to end. */
  lemma {:induction false} ListingSplits(a: seq<Event>, b: seq<Event>)
    requires b != [] && b[0].kind == RunBegin
    ensures Listed(b) != [] && Listed(a + b) == Listed(a) + Listed(b)
    decreases |b|
  {
    hide Listed, Opening, Continued;
    var n := |b| - 1;
    var before, ev := b[..n], b[n];
    Unsnoc(b);
    ListedSnoc(before, ev);
    ListedSnoc(a + before, ev);
    Associative(a, before, [ev]);
    if n == 0 {
      NothingListed();
      assert before == [] && a + before == a;
    } else {
      ListingSplits(a, before);
      UpdateLast(Listed(a), Listed(before), ev);
    }
  }

  lemma UpdateLast(first: seq<RunSummary>, out: seq<RunSummary>, ev: Event)
    requires out != []
    ensures var both := first + out;
            both[|both| - 1 := Continued(both[|both| - 1], ev)] ==
            first + out[|out| - 1 := Continued(out[|out| - 1], ev)]
  {
  }

  // --- Which listed runs can be rebuilt ---------------------------------------------------

  datatype Key = Key(runId: string, mission: string)

  function SummaryKey(s: RunSummary): Key { Key(s.runId, s.mission) }

  function BeginKey(ev: Event): Key { Key(RunId(ev), FieldOr(ev, "mission")) }

  /** The summaries a filtered rebuild would consider: the run's own, or without an id. */
  function ListedFor(runId: string): RunSummary -> bool {
    (s: RunSummary) => runId == "" || s.runId == "" || s.runId == runId
  }

  function Candidates(events: seq<Event>, runId: string): seq<RunSummary> {
    Filter(ListedFor(runId), Listed(events))
  }

  lemma SameKeyKept(out: seq<RunSummary>, x: RunSummary, y: RunSummary, runId: string)
    requires SummaryKey(x) == SummaryKey(y)
    ensures Map(SummaryKey, Filter(ListedFor(runId), out + [x])) == Map(SummaryKey, Filter(ListedFor(runId), out + [y]))
  {
    hide Filter;
    FilterSnoc(ListedFor(runId), out, x);
    FilterSnoc(ListedFor(runId), out, y);
  }

  lemma UpdateKeepsKeys(out: seq<RunSummary>, ev: Event, runId: string)
    requires out != []
    ensures var out' := out[|out| - 1 := Continued(out[|out| - 1], ev)];
            Map(SummaryKey, Filter(ListedFor(runId), out')) == Map(SummaryKey, Filter(ListedFor(runId), out))
  {
    hide Filter;
    var n := |out| - 1;
    SameKeyKept(out[..n], out[n], Continued(out[n], ev), runId);
    Unsnoc(out);
    assert out[n := Continued(out[n], ev)] == out[..n] + [Continued(out[n], ev)];
  }

  lemma OpeningAddsKey(out: seq<RunSummary>, ev: Event, runId: string)
    ensures Map(SummaryKey, Filter(ListedFor(runId), out + [Opening(ev)])) ==
            Map(SummaryKey, Filter(ListedFor(runId), out)) + if MatchesRun(ev, runId) then [BeginKey(ev)] else []
  {
    hide Filter;
    FilterSnoc(ListedFor(runId), out, Opening(ev));
  }

  lemma {:induction false} CandidatesAreTheBegins(events: seq<Event>, runId: string)
    ensures Map(SummaryKey, Candidates(events, runId)) == Map(BeginKey, Filter(BeginOf(runId), events))
  {
    hide Listed, Filter, Opening, Continued;
    if events == [] {
      NoCandidates(runId);
    } else {
      var n := |events| - 1;
      var before, ev := events[..n], events[n];
      var out := Listed(before);
      CandidatesAreTheBegins(before, runId);
      Unsnoc(events);
      ListedSnoc(before, ev);
      FilterSnoc(BeginOf(runId), before, ev);
      if ev.kind == RunBegin {
        OpeningAddsKey(out, ev, runId);
      } else if out != [] {
        UpdateKeepsKeys(out, ev, runId);
      }
    }
  }

  lemma NoCandidates(runId: string)
    ensures Candidates([], runId) == [] && Filter(BeginOf(runId), []) == []
  {
  }

  /** The listing's header promises that a run it shows can always be rebuilt. Exactly: it can
      when the first summary that is the run's own, or has no id, carries an id and a mission. */
  lemma ListedRunRebuildsWhen(events: seq<Event>, runId: string)
    requires runId != ""
    ensures Replay(events, runId).ok <==>
            Candidates(events, runId) != [] &&
            Candidates(events, runId)[0].runId != "" && Candidates(events, runId)[0].mission != ""
  {
    CandidatesAreTheBegins(events, runId);
    var begins, listed := Filter(BeginOf(runId), events), Candidates(events, runId);
    assert |begins| == |listed|;
    if begins != [] {
      assert SummaryKey(listed[0]) == Map(SummaryKey, listed)[0] == Map(BeginKey, begins)[0] == BeginKey(begins[0]);
    }
  }

  /** A run the listing shows but no rebuild can open: its run_begin carries no mission. */
  lemma ListedButNotRebuilt()
    ensures var events := [Event(1, 0, RunBegin, [Field("run_id", "r1")])];
            |Listed(events)| == 1 && Listed(events)[0].runId == "r1" && !Replay(events, "r1").ok
  {
    var begin := Event(1, 0, RunBegin, [Field("run_id", "r1")]);
    assert [begin][..0] == [];
    assert FirstField(begin.fields, "run_id") == "r1";
    assert FirstField(begin.fields[1..], "mission") == "";
    assert Listed([begin]) == [Opening(begin)];
    ListedRunRebuildsWhen([begin], "r1");
    assert [Opening(begin)][..0] == [];
    assert Candidates([begin], "r1") == [Opening(begin)];
  }

  // --- How a listed run ended -----------------------------------------------------------------

  ghost predicate LastEnd(segment: seq<Event>, k: int) {
    0 <= k < |segment| && segment[k].kind == RunEnd && forall j :: k < j < |segment| ==> segment[j].kind != RunEnd
  }

  predicate SaysCompleted(ev: Event) { FieldOr(ev, "completed") == "true" || FieldOr(ev, "completed") == "1" }

  /** A run is listed as finished when its segment holds a run_end, and the last one says how:
      the earlier ones are where it paused. */
  lemma {:induction false} LastRunEndWins(begin: Event, segment: seq<Event>)
    requires begin.kind == RunBegin && forall ev :: ev in segment ==> ev.kind != RunBegin
    ensures var out := Listed([begin] + segment);
            |out| == 1 && (out[0].finished <==> exists k :: LastEnd(segment, k)) &&
            forall k :: LastEnd(segment, k) ==>
              out[0].terminationReason == FieldOr(segment[k], "termination_reason") &&
              out[0].completed == SaysCompleted(segment[k]) &&
              out[0].iterations == Atoi(FieldOr(segment[k], "iterations"))
  {
    hide Listed;
    if segment == [] {
      OnlyBegun(begin);
    } else {
      var n := |segment| - 1;
      LastRunEndWins(begin, segment[..n]);
      SegmentSnoc(begin, segment);
      EndsSnoc(segment);
    }
  }

  lemma OnlyBegun(begin: Event)
    requires begin.kind == RunBegin
    ensures Listed([begin] + []) == [Opening(begin)]
  {
    assert [begin] + [] == [] + [begin];
    ListedSnoc([], begin);
  }

  /** One more event of the run changes its summary alone. */
  lemma SegmentSnoc(begin: Event, segment: seq<Event>)
    requires segment != [] && segment[|segment| - 1].kind != RunBegin
    requires |Listed([begin] + segment[..|segment| - 1])| == 1
    ensures var n := |segment| - 1;
            Listed([begin] + segment) == [Continued(Listed([begin] + segment[..n])[0], segment[n])]
  {
    hide Listed;
    var n := |segment| - 1;
    Unsnoc(segment);
    Associative([begin], segment[..n], [segment[n]]);
    ListedSnoc([begin] + segment[..n], segment[n]);
  }

  lemma EndsSnoc(segment: seq<Event>)
    requires segment != []
    ensures var n := |segment| - 1;
            if segment[n].kind == RunEnd then LastEnd(segment, n) && forall k :: LastEnd(segment, k) ==> k == n
            else forall k :: LastEnd(segment, k) <==> LastEnd(segment[..n], k)
  {
  }

  // --- How much a rebuild gives back --------------------------------------------------------

  /** What follows the last run_begin. */
  function LastSegment(events: seq<Event>): seq<Event> {
    if events == [] || events[|events| - 1].kind == RunBegin then []
    else LastSegment(events[..|events| - 1]) + [events[|events| - 1]]
  }

  predicate Restores(ev: Event, runId: string) {
    MatchesRun(ev, runId) && (IsTurn(ev) || WritePath(ev) != [])
  }

  /** Counted by the listing, yet not given back by the rebuild: a checklist, an empty steer or
      write, or an event of another run. */
  function Unreplayed(runId: string): Event -> bool { (ev: Event) => Observes(ev) && !Restores(ev, runId) }

  /** The log is what came before the last run_begin, that event, and its segment. */
  ghost predicate EndsWithSegment(events: seq<Event>, begin: Event, b: int) {
    && 0 <= b < |events| && events[b] == begin && begin.kind == RunBegin
    && events == events[..b] + ([begin] + LastSegment(events))
    && forall ev :: ev in LastSegment(events) ==> ev.kind != RunBegin
  }

  lemma {:induction false} SegmentOfLastBegin(events: seq<Event>) returns (b: int)
    requires Begin(events, "").Some?
    ensures EndsWithSegment(events, Begin(events, "").value, b)
  {
    var n := |events| - 1;
    assert events[..n + 1] == events;
    BeginTake(events, "", n);
    if events[n].kind == RunBegin {
      b := n;
    } else {
      b := SegmentOfLastBegin(events[..n]);
      assert events[..n][..b] == events[..b];
      assert events == events[..n] + [events[n]];
    }
  }

  lemma {:induction false} SegmentSummary(begin: Event, segment: seq<Event>)
    requires begin.kind == RunBegin && forall ev :: ev in segment ==> ev.kind != RunBegin
    ensures var out := Listed([begin] + segment);
            |out| == 1 && SummaryKey(out[0]) == BeginKey(begin) && out[0].observations == Count(Observes, segment)
  {
    hide Listed, Count;
    if segment == [] {
      OnlyBegun(begin);
      CountNothing(Observes);
    } else {
      var n := |segment| - 1;
      SegmentSummary(begin, segment[..n]);
      SegmentSnoc(begin, segment);
      Unsnoc(segment);
      CountSnoc(Observes, segment[..n], segment[n]);
    }
  }

  lemma CountNothing(p: Event -> bool)
    ensures Count(p, []) == 0
  {
  }

  /** An event that is counted is restored as a turn, or as a write, or not at all. */
  lemma OneObservation(ev: Event, runId: string)
    ensures (if MatchesRun(ev, runId) then (if IsTurn(ev) then 1 else 0) + |WritePath(ev)| else 0) +
            (if Unreplayed(runId)(ev) then 1 else 0) == if Observes(ev) then 1 else 0
  {
  }

  lemma TurnsAndWritesSnoc(scope: seq<Event>, ev: Event)
    ensures Count(IsTurn, scope + [ev]) + |FlatMap(WritePath, scope + [ev])| ==
            Count(IsTurn, scope) + |FlatMap(WritePath, scope)| + (if IsTurn(ev) then 1 else 0) + |WritePath(ev)|
  {
    hide Count, FlatMap;
    CountSnoc(IsTurn, scope, ev);
    FlatMapSnoc(WritePath, scope, ev);
  }

  /** How many turns and writes a rebuild of the run makes of some events. */
  function Replayed(events: seq<Event>, runId: string): nat {
    var scope := Filter(OfRun(runId), events);
    Count(IsTurn, scope) + |FlatMap(WritePath, scope)|
  }

  lemma ReplayedSnoc(events: seq<Event>, ev: Event, runId: string)
    ensures Replayed(events + [ev], runId) ==
            Replayed(events, runId) +
            if MatchesRun(ev, runId) then (if IsTurn(ev) then 1 else 0) + |WritePath(ev)| else 0
  {
    hide Filter, Count, FlatMap, IsTurn, WritePath, MatchesRun;
    var scope := Filter(OfRun(runId), events);
    FilterSnoc(OfRun(runId), events, ev);
    TurnsAndWritesSnoc(scope, ev);
    assert scope + [] == scope;
  }

  lemma {:induction false} ObservationsAddUp(events: seq<Event>, runId: string)
    ensures Replayed(events, runId) + Count(Unreplayed(runId), events) == Count(Observes, events)
  {
    if events != [] {
      hide Replayed, Count, Observes, Restores, IsTurn, WritePath, MatchesRun;
      var n := |events| - 1;
      var ev, rest := events[n], events[..n];
      ObservationsAddUp(rest, runId);
      OneObservation(ev, runId);
      Unsnoc(events);
      ReplayedSnoc(rest, ev, runId);
      CountSnoc(Unreplayed(runId), rest, ev);
      CountSnoc(Observes, rest, ev);
    }
  }

  /** The store holds the listed run: its mission, and its observations but for those that
      are counted and not replayed. */
  ghost predicate GivesBack(s: Store, listed: RunSummary, segment: seq<Event>) {
    && s.userTurns != [] && s.userTurns[0] == listed.mission
    && s.turnsRecorded + s.workspaceWrites + Count(Unreplayed(listed.runId), segment) == listed.observations
  }

  lemma LastListed(events: seq<Event>, b: nat, begin: Event)
    requires EndsWithSegment(events, begin, b)
    ensures var out := Listed(events);
            out != [] && out[|out| - 1].runId == RunId(begin) && out[|out| - 1].mission == FieldOr(begin, "mission") &&
            out[|out| - 1].observations == Count(Observes, LastSegment(events))
  {
    ListingSplits(events[..b], [begin] + LastSegment(events));
    SegmentSummary(begin, LastSegment(events));
    assert SummaryKey(Listed([begin] + LastSegment(events))[0]) == BeginKey(begin);
  }

  /** For a log in order, an unfiltered rebuild is the last run listed, and what it gives back
      falls short of the observations advertised by exactly the events that are counted but
      not replayed. */
  lemma ListingAgreesWithReplay(events: seq<Event>)
    requires InOrder(events) && Replay(events, "").ok
    ensures var r, out := Replay(events, ""), Listed(events);
            out != [] && r.identity.runId == out[|out| - 1].runId &&
            GivesBack(r.store, out[|out| - 1], LastSegment(events))
  {
    var begin := Begin(events, "").value;
    var b := SegmentOfLastBegin(events);
    LastListed(events, b, begin);
    assert events[b..] == [begin] + LastSegment(events);
    RestoredFromSegment(events, b, begin, LastSegment(events));
  }

  /** So the listing is exact just when every observation of the last run is one a rebuild
      restores. */
  lemma ListingIsExactWhen(events: seq<Event>)
    requires InOrder(events) && Replay(events, "").ok
    ensures var r, out := Replay(events, ""), Listed(events);
            out != [] && r.store.turnsRecorded + r.store.workspaceWrites <= out[|out| - 1].observations &&
            (r.store.turnsRecorded + r.store.workspaceWrites == out[|out| - 1].observations <==>
             forall ev :: ev in LastSegment(events) && Observes(ev) ==> Restores(ev, r.identity.runId))
  {
    ListingAgreesWithReplay(events);
    CountZero(Unreplayed(Replay(events, "").identity.runId), LastSegment(events));
  }

  lemma RestoredFromSegment(events: seq<Event>, b: nat, begin: Event, segment: seq<Event>)
    requires InOrder(events) && b < |events| && events[b..] == [begin] + segment && begin.kind == RunBegin
    ensures var s := Rebuilt(FieldOr(begin, "mission"), FieldOr(begin, "workspace_root"), Scope(events, begin));
            s.userTurns != [] && s.userTurns[0] == FieldOr(begin, "mission") &&
            s.turnsRecorded + s.workspaceWrites + Count(Unreplayed(RunId(begin)), segment) == Count(Observes, segment)
  {
    assert events[b] == events[b..][0] == begin;
    ScopeIsASuffix(events, b);
    SegmentAddsUp(begin, segment);
    ReplayIsExact(FieldOr(begin, "mission"), FieldOr(begin, "workspace_root"), Scope(events, begin));
  }

  lemma SegmentAddsUp(begin: Event, segment: seq<Event>)
    requires begin.kind == RunBegin
    ensures var scope := Filter(OfRun(RunId(begin)), [begin] + segment);
            Count(IsTurn, scope) + |FlatMap(WritePath, scope)| + Count(Unreplayed(RunId(begin)), segment) ==
            Count(Observes, segment)
  {
    ObservationsAddUp([begin] + segment, RunId(begin));
    CountAppend(Observes, [begin], segment);
    CountOne(Observes, begin);
    CountAppend(Unreplayed(RunId(begin)), [begin], segment);
    CountOne(Unreplayed(RunId(begin)), begin);
  }

  lemma CountZero(p: Event -> bool, events: seq<Event>)
    ensures Count(p, events) == 0 <==> forall ev :: ev in events ==> !p(ev)
  {
  }

  // --- A rebuild that names its run -------------------------------------------------------------

  /** The run a filtered rebuild opens: its run_begin at b, and what follows up to the next one
      at e, or to the end of the log. */
  ghost predicate RunAt(events: seq<Event>, runId: string, b: nat, e: nat) {
    && b < e <= |events| && BeginOf(runId)(events[b])
    && (forall i :: 0 <= i < b ==> !BeginOf(runId)(events[i]))
    && (forall i :: b < i < e ==> events[i].kind != RunBegin)
    && (e == |events| || events[e].kind == RunBegin)
  }

  lemma {:induction false} FirstBeginIsAt(events: seq<Event>, runId: string) returns (b: nat)
    requires runId != "" && Begin(events, runId).Some?
    ensures b < |events| && events[b] == Begin(events, runId).value && BeginOf(runId)(events[b])
    ensures forall i :: 0 <= i < b ==> !BeginOf(runId)(events[i])
  {
    var n := |events| - 1;
    assert events[..n + 1] == events;
    BeginTake(events, runId, n);
    if Begin(events[..n], runId).Some? {
      FirstBeginStays(events, runId, n);
      b := FirstBeginIsAt(events[..n], runId);
    } else {
      b := n;
      NoBeginBefore(events[..n], runId);
    }
  }

  lemma NoBeginBefore(events: seq<Event>, runId: string)
    requires Begin(events, runId) == None
    ensures forall i :: 0 <= i < |events| ==> !BeginOf(runId)(events[i])
  {
    forall i | 0 <= i < |events|
      ensures !BeginOf(runId)(events[i])
    {
      assert events[i] in events;
    }
  }

  function NextBegin(events: seq<Event>, from: nat): (e: nat)
    requires from <= |events|
    ensures from <= e <= |events| && (e == |events| || events[e].kind == RunBegin)
    ensures forall i :: from <= i < e ==> events[i].kind != RunBegin
    decreases |events| - from
  {
    if from == |events| || events[from].kind == RunBegin then from else NextBegin(events, from + 1)
  }

  /** Every run a filtered rebuild can open is somewhere. */
  lemma RunIsSomewhere(events: seq<Event>, runId: string) returns (b: nat, e: nat)
    requires runId != "" && Begin(events, runId).Some?
    ensures RunAt(events, runId, b, e) && events[b] == Begin(events, runId).value
  {
    b := FirstBeginIsAt(events, runId);
    e := NextBegin(events, b + 1);
  }

  lemma BeginIsThere(events: seq<Event>, runId: string, b: nat, e: nat)
    requires runId != "" && RunAt(events, runId, b, e)
    ensures Begin(events, runId) == Some(events[b])
  {
    var b', e' := b, e;
    assert events[b] in Filter(BeginOf(runId), events);
    b', e' := RunIsSomewhere(events, runId);
    assert !(b < b') && !(b' < b);
  }

  /** Every event that is given back is one the listing counts. */
  function GivenBack(runId: string): Event -> bool { (ev: Event) => Restores(ev, runId) }

  lemma {:induction false} CountedIsGivenBackOrNot(events: seq<Event>, runId: string)
    ensures Count(Observes, events) == Count(Unreplayed(runId), events) + Count(GivenBack(runId), events)
  {
    if events != [] {
      var n := |events| - 1;
      CountedIsGivenBackOrNot(events[..n], runId);
      OneObservation(events[n], runId);
    }
  }

  /** How much of some events a rebuild of the run gives back. */
  lemma GivenBackAddsUp(events: seq<Event>, runId: string)
    ensures var scope := Filter(OfRun(runId), events);
            Count(IsTurn, scope) + |FlatMap(WritePath, scope)| == Count(GivenBack(runId), events)
  {
    ObservationsAddUp(events, runId);
    CountedIsGivenBackOrNot(events, runId);
  }

  function Restored(s: Store): nat { s.turnsRecorded + s.workspaceWrites }

  lemma RestoredIsGivenBack(events: seq<Event>, b: nat)
    requires InOrder(events) && b < |events|
    ensures var begin := events[b];
            Restored(Rebuilt(FieldOr(begin, "mission"), FieldOr(begin, "workspace_root"), Scope(events, begin))) ==
            Count(GivenBack(RunId(begin)), events[b..])
  {
    var begin := events[b];
    ScopeIsASuffix(events, b);
    GivenBackAddsUp(events[b..], RunId(begin));
    ReplayIsExact(FieldOr(begin, "mission"), FieldOr(begin, "workspace_root"), Scope(events, begin));
  }

  lemma RunIsListed(events: seq<Event>, runId: string, b: nat, e: nat)
    requires RunAt(events, runId, b, e)
    ensures var out, k := Listed(events), |Listed(events[..b])|;
            k < |out| && SummaryKey(out[k]) == BeginKey(events[b]) &&
            out[k].observations == Count(Observes, events[b + 1..e])
  {
    hide Listed, Count, SummaryKey, BeginKey;
    var begin, segment, later := events[b], events[b + 1..e], events[e..];
    var mine := [begin] + segment;
    assert forall ev :: ev in segment ==> ev.kind != RunBegin;
    assert events[..e] == events[..b] + mine;
    ListingSplits(events[..b], mine);
    SegmentSummary(begin, segment);
    Halves(events, e);
    if later == [] {
      assert events[..e] == events;
    } else {
      ListingSplits(events[..e], later);
    }
    var k := |Listed(events[..b])|;
    assert Listed(events[..e])[k] == Listed(mine)[0];
    assert Listed(events)[k] == Listed(events[..e])[k];
  }

  /** A resume names its run. For a log in order, what it gives back and what of the run's own
      segment is counted but not replayed make up the observations listed for that run and the
      strays: events past the segment that are given back all the same, being another run's
      without its label, or the run's own. */
  lemma FilteredRebuildAgreesWithListing(events: seq<Event>, runId: string, b: nat, e: nat)
    requires runId != "" && InOrder(events) && RunAt(events, runId, b, e) && Replay(events, runId).ok
    ensures var r, out, k := Replay(events, runId), Listed(events), |Listed(events[..b])|;
            k < |out| && out[k].runId == r.identity.runId == runId &&
            r.store.userTurns != [] && r.store.userTurns[0] == out[k].mission &&
            Restored(r.store) + Count(Unreplayed(runId), events[b + 1..e]) ==
            out[k].observations + Count(GivenBack(runId), events[e..])
  {
    BeginIsThere(events, runId, b, e);
    RunIsListed(events, runId, b, e);
    var begin := events[b];
    assert SummaryKey(Listed(events)[|Listed(events[..b])|]) == BeginKey(begin);
    RestoredIsGivenBack(events, b);
    ReplayIsExact(FieldOr(begin, "mission"), FieldOr(begin, "workspace_root"), Scope(events, begin));
    SuffixCounts(events, runId, b, e);
    CountedIsGivenBackOrNot(events[b + 1..e], runId);
  }

  lemma SuffixCounts(events: seq<Event>, runId: string, b: nat, e: nat)
    requires b < e <= |events| && events[b].kind == RunBegin
    ensures Count(GivenBack(runId), events[b..]) ==
            Count(GivenBack(runId), events[b + 1..e]) + Count(GivenBack(runId), events[e..])
  {
    var p := GivenBack(runId);
    assert events[b..] == [events[b]] + events[b + 1..e] + events[e..];
    CountAppend(p, [events[b]] + events[b + 1..e], events[e..]);
    CountAppend(p, [events[b]], events[b + 1..e]);
    CountOne(p, events[b]);
  }

  /** So the listing is exact for a resume just when as much of the segment is not replayed as
      strays in from later runs. */
  lemma FilteredListingIsExactWhen(events: seq<Event>, runId: string, b: nat, e: nat)
    requires runId != "" && InOrder(events) && RunAt(events, runId, b, e) && Replay(events, runId).ok
    ensures var k := |Listed(events[..b])|;
            k < |Listed(events)| &&
            (Restored(Replay(events, runId).store) == Listed(events)[k].observations <==>
             Count(Unreplayed(runId), events[b + 1..e]) == Count(GivenBack(runId), events[e..]))
  {
    FilteredRebuildAgreesWithListing(events, runId, b, e);
  }

  // --- Which row a rebuild opens ----------------------------------------------------------------

  lemma NoCandidateBefore(events: seq<Event>, runId: string, b: nat)
    requires b <= |events| && forall i :: 0 <= i < b ==> !BeginOf(runId)(events[i])
    ensures forall j :: 0 <= j < |Listed(events[..b])| ==> !ListedFor(runId)(Listed(events[..b])[j])
  {
    hide Listed;
    var out := Listed(events[..b]);
    CandidatesAreTheBegins(events[..b], runId);
    FilterNone(BeginOf(runId), events[..b]);
    assert |Candidates(events[..b], runId)| == 0;
    assert Candidates(events[..b], runId) == [];
    forall j | 0 <= j < |out|
      ensures !ListedFor(runId)(out[j])
    {
      assert out[j] in out;
    }
  }

  /** The row of the run at b is the first that is the run's own or has no id. */
  lemma RebuiltRowIsTheFirst(events: seq<Event>, runId: string, b: nat, e: nat)
    requires RunAt(events, runId, b, e)
    ensures var out, row := Listed(events), |Listed(events[..b])|;
            row < |out| && SummaryKey(out[row]) == BeginKey(events[b]) && ListedFor(runId)(out[row]) &&
            forall j :: 0 <= j < row ==> !ListedFor(runId)(out[j])
  {
    hide Listed;
    RunIsListed(events, runId, b, e);
    NoCandidateBefore(events, runId, b);
    Halves(events, b);
    ListingSplits(events[..b], events[b..]);
  }

  /** Runs may be listed under one id, and a resume of any of them names that id. The row shown at k
      is the one rebuilt exactly when no row above it has its id or none; otherwise the rebuild is
      of the first such row, with that row's mission, and says that all is well. */
  lemma ListedRowIsRebuiltExactlyWhen(events: seq<Event>, k: nat) returns (b: nat, e: nat, row: nat)
    requires k < |Listed(events)| && Listed(events)[k].runId != ""
    ensures var out, runId := Listed(events), Listed(events)[k].runId;
            RunAt(events, runId, b, e) && row == |Listed(events[..b])| <= k < |out| &&
            (row == k <==> forall j :: 0 <= j < k ==> out[j].runId != "" && out[j].runId != runId) &&
            (Replay(events, runId).ok <==> out[row].runId != "" && out[row].mission != "") &&
            (Replay(events, runId).ok ==>
               Replay(events, runId).store.userTurns != [] &&
               Replay(events, runId).store.userTurns[0] == out[row].mission)
  {
    hide Listed, Replay, Rebuilt, FieldOr;
    var out, runId := Listed(events), Listed(events)[k].runId;
    assert out[k] in out && out[k] in Candidates(events, runId);
    CandidatesAreTheBegins(events, runId);
    SomeBegin(events, runId);
    b, e := RunIsSomewhere(events, runId);
    row := |Listed(events[..b])|;
    RebuiltRowIsTheFirst(events, runId, b, e);
    MissionOfRebuild(events, runId, b, e);
    assert ListedFor(runId)(out[k]);
  }

  lemma SomeBegin(events: seq<Event>, runId: string)
    requires |Candidates(events, runId)| == |Filter(BeginOf(runId), events)| != 0
    ensures Begin(events, runId).Some?
  {
  }

  lemma MissionOfRebuild(events: seq<Event>, runId: string, b: nat, e: nat)
    requires runId != "" && RunAt(events, runId, b, e)
    ensures var r := Replay(events, runId);
            (r.ok <==> RunId(events[b]) != "" && FieldOr(events[b], "mission") != "") &&
            (r.ok ==> r.store.userTurns != [] && r.store.userTurns[0] == FieldOr(events[b], "mission"))
  {
    hide Begin, Scope, FieldOr, OpenEdit, LastAcked;
    BeginIsThere(events, runId, b, e);
    ReplayIsExact(FieldOr(events[b], "mission"), FieldOr(events[b], "workspace_root"), Scope(events, events[b]));
  }

  /** Two runs under one id: whichever row is chosen, the first run's mission is resumed. */
  lemma LaterRowOpensTheFirst(begin: Event, next: Event)
    requires begin.kind == next.kind == RunBegin && RunId(begin) == RunId(next)
    requires Rebuildable(begin) && FieldOr(next, "mission") != FieldOr(begin, "mission")
    ensures var r, out := Replay([begin, next], RunId(next)), Listed([begin, next]);
            |out| == 2 && out[1].runId == RunId(next) && out[1].mission == FieldOr(next, "mission") &&
            r.ok && r.store.userTurns != [] && r.store.userTurns[0] == out[0].mission != out[1].mission
  {
    hide Replay, FieldOr;
    var log, run := [begin, next], RunId(next);
    assert RunAt(log, run, 0, 1);
    MissionOfRebuild(log, run, 0, 1);
    assert [begin] + [next] == log && [begin] + [] == [begin] && [next] + [] == [next];
    OnlyBegun(begin);
    OnlyBegun(next);
    ListingSplits([begin], [next]);
  }

  // --- What a row says ---------------------------------------------------------------------------

  /** The row is that of this run_begin: its id, its mission, where it ran, with what model, and when. */
  predicate RowOf(s: RunSummary, begin: Event) {
    && s.runId == FieldOr(begin, "run_id") && s.mission == FieldOr(begin, "mission")
    && s.workspaceRoot == FieldOr(begin, "workspace_root") && s.modelIdentity == FieldOr(begin, "model_identity")
    && s.startedWallNs == begin.wallNs
  }

  lemma {:induction false} FirstRow(events: seq<Event>)
    requires events != [] && events[0].kind == RunBegin
    ensures Listed(events) != [] && RowOf(Listed(events)[0], events[0])
  {
    hide Listed, FieldOr;
    var n := |events| - 1;
    Unsnoc(events);
    ListedSnoc(events[..n], events[n]);
    if n == 0 {
      assert events[..0] == [];
      NothingListed();
    } else {
      FirstRow(events[..n]);
    }
  }

  /** Every run_begin has its row, as many rows down as there are run_begins before it; and there are no
      other rows. */
  lemma EveryRunHasItsRow(events: seq<Event>, b: nat)
    requires b < |events| && events[b].kind == RunBegin
    ensures var out, row := Listed(events), Count((ev: Event) => ev.kind == RunBegin, events[..b]);
            row < |out| && RowOf(out[row], events[b]) &&
            |out| == Count((ev: Event) => ev.kind == RunBegin, events)
  {
    hide Listed, RowOf;
    Halves(events, b);
    ListingSplits(events[..b], events[b..]);
    FirstRow(events[b..]);
    RowsAreBegins(events[..b]);
    RowsAreBegins(events);
  }

  lemma {:induction false} RowsAreBegins(events: seq<Event>)
    ensures |Listed(events)| == Count((ev: Event) => ev.kind == RunBegin, events)
  {
    if events != [] {
      RowsAreBegins(events[..|events| - 1]);
    }
  }

  /** The run begun at b, and what follows up to the next one at e. */
  ghost predicate SegmentAt(events: seq<Event>, b: nat, e: nat) {
    && b < e <= |events| && events[b].kind == RunBegin
    && (forall i :: b < i < e ==> events[i].kind != RunBegin)
    && (e == |events| || events[e].kind == RunBegin)
  }

  predicate Observed(ev: Event) { ev.kind in {ToolResult, Steer, Write, Checklist} }

  lemma {:induction false} SameObserved(segment: seq<Event>)
    ensures Count(Observes, segment) == Count(Observed, segment)
  {
    if segment != [] {
      SameObserved(segment[..|segment| - 1]);
    }
  }

  /** Every row counts the tool results, steers, writes and checklists of its run's segment, and says how
      the run ended if a run_end is there: as the last one says. */
  lemma EveryRowCounts(events: seq<Event>, b: nat, e: nat)
    requires SegmentAt(events, b, e)
    ensures var out, row := Listed(events), Count((ev: Event) => ev.kind == RunBegin, events[..b]);
            var segment := events[b + 1..e];
            row < |out| && out[row].observations == Count(Observed, segment) &&
            (out[row].finished <==> exists k :: LastEnd(segment, k)) &&
            (forall k :: LastEnd(segment, k) ==>
               out[row].terminationReason == FieldOr(segment[k], "termination_reason") &&
               out[row].completed == SaysCompleted(segment[k]) &&
               out[row].iterations == Atoi(FieldOr(segment[k], "iterations"))) &&
            (!out[row].finished ==>
               out[row].terminationReason == "" && !out[row].completed && out[row].iterations == 0)
  {
    hide Listed, Opening, Continued, LastEnd, SaysCompleted, FieldOr, Atoi, Count;
    var begin, segment, later := events[b], events[b + 1..e], events[e..];
    var mine := [begin] + segment;
    assert forall ev :: ev in segment ==> ev.kind != RunBegin;
    assert events[..e] == events[..b] + mine;
    ListingSplits(events[..b], mine);
    SegmentSummary(begin, segment);
    SameObserved(segment);
    LastRunEndWins(begin, segment);
    UnfinishedSaysNothing(begin, segment);
    RowsAreBegins(events[..b]);
    Halves(events, e);
    if later == [] {
      assert events[..e] == events;
    } else {
      ListingSplits(events[..e], later);
    }
    var k := |Listed(events[..b])|;
    assert Listed(events[..e])[k] == Listed(mine)[0];
    assert Listed(events)[k] == Listed(events[..e])[k];
  }

  lemma {:induction false} UnfinishedSaysNothing(begin: Event, segment: seq<Event>)
    requires begin.kind == RunBegin && forall ev :: ev in segment ==> ev.kind != RunBegin
    ensures var out := Listed([begin] + segment);
            |out| == 1 && (!out[0].finished ==>
              out[0].terminationReason == "" && !out[0].completed && out[0].iterations == 0)
  {
    hide Listed, FieldOr, Atoi;
    if segment == [] {
      OnlyBegun(begin);
    } else {
      UnfinishedSaysNothing(begin, segment[..|segment| - 1]);
      SegmentSnoc(begin, segment);
    }
  }
}
