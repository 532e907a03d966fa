/** The schedule the agent collapses re-reads by (src/loop/agent.cpp): a read queues the collapse
    of its own bytes and is recorded after that; the queue is applied at the next compaction,
    when the record is among the copies. Which copies are then left is not what
    src/context/context.hpp says of a collapse. */
module DeferredCollapse {
  import opened Sequences
  import opened Text
  import opened ContextModel
  import opened ContextStores
  import opened ContextLaws

  // A collapse that is due: the file, its bytes as last read, and the two pointer texts.
  datatype Pending = Pending(path: string, current: string, same: string, outdated: string)

  const MIN_DUPLICATE: nat := 512
  const MIN_ELIDE: nat := 512

  // --- The queue --------------------------------------------------------------------------

  /** The queue without its first entry for a path. */
  function Without(queue: seq<Pending>, path: string): seq<Pending> {
    if queue == [] then []
    else if queue[0].path == path then queue[1..]
    else [queue[0]] + Without(queue[1..], path)
  }

  lemma NoneTaken(queue: seq<Pending>, path: string)
    ensures queue[..0] + Without(queue[0..], path) == Without(queue, path)
    ensures queue[..|queue|] + Without(queue[|queue|..], path) == queue
  {
    assert queue[0..] == queue && queue[|queue|..] == [];
  }

  lemma WithoutStep(queue: seq<Pending>, path: string, i: nat)
    requires i < |queue|
    ensures queue[..i] + Without(queue[i..], path) ==
            if queue[i].path == path then queue[..i] + queue[i + 1..]
            else queue[..i + 1] + Without(queue[i + 1..], path)
  {
    assert queue[i..][1..] == queue[i + 1..];
    TakeSnoc(queue, i);
    Associative(queue[..i], [queue[i]], Without(queue[i + 1..], path));
  }

  function Enqueued(queue: seq<Pending>, pc: Pending): seq<Pending> { Without(queue, pc.path) + [pc] }

  function CollapseOne(s: Store, pc: Pending): Store {
    SupersedeStale(SupersedeDuplicates(s, pc.current, pc.same), pc.path, pc.current, pc.outdated)
  }

  function CollapseAll(s: Store, queue: seq<Pending>): Store {
    if queue == [] then s else CollapseOne(CollapseAll(s, queue[..|queue| - 1]), queue[|queue| - 1])
  }

  class CollapseQueue {
    const ctx: ContextStore
    var pending: seq<Pending>

    constructor (ctx: ContextStore)
      ensures this.ctx == ctx && pending == []
    {
      this.ctx := ctx;
      pending := [];
    }

    // The tail of collapse_duplicate_read: one entry a path, the latest last.
    method Enqueue(pc: Pending)
      modifies this`pending
      ensures pending == Enqueued(old(pending), pc)
    {
      hide Without;
      var i := 0;
      NoneTaken(pending, pc.path);
      while i < |pending|
        invariant 0 <= i <= |pending| && pending == old(pending)
        invariant Without(pending, pc.path) == pending[..i] + Without(pending[i..], pc.path)
      {
        WithoutStep(pending, pc.path, i);
        if pending[i].path == pc.path {
          pending := pending[..i] + pending[i + 1..];
          break;
        }
        i := i + 1;
      }
      pending := pending + [pc];
    }

    method ApplyPending()
      modifies this`pending, ctx
      ensures pending == [] && ctx.State() == CollapseAll(old(ctx.State()), old(pending))
    {
      ghost var before := ctx.State();
      for i := 0 to |pending|
        invariant pending == old(pending)
        invariant ctx.State() == CollapseAll(before, pending[..i])
      {
        assert pending[..i + 1][..i] == pending[..i];
        var pc := pending[i];
        var collapsed := ctx.SupersedeDuplicateObservation(pc.current, pc.same);
        var superseded := ctx.SupersedeStaleCopiesOfPath(pc.path, pc.current, pc.outdated);
      }
      assert pending[..|pending|] == pending;
      pending := [];
    }
  }

  // --- The agent's steps --------------------------------------------------------------------

  // The texts that go with a read; their wording is not part of this model.
  datatype Texts = Texts(repeat: string, stale: string, elision: string, same: string, outdated: string)

  datatype Event =
    | Read(path: string, bytes: string, repeats: bool, texts: Texts)
    | OtherTurn(turn: TurnRecord)
    | Compact(keep: nat)

  datatype Agent = Agent(store: Store, queue: seq<Pending>)

  /** A repeated read whose bytes are in the prompt as they are, and no stale copy beside them,
      is answered with a reference to them. */
  predicate Elided(a: Agent, e: Event)
    requires e.Read?
  {
    e.repeats && |e.bytes| >= MIN_ELIDE && HasObservation(a.store, e.bytes) &&
    StaleCopies(a.store, e.path, e.bytes) == 0
  }

  function Summary(e: Event): string
    requires e.Read?
  {
    if e.repeats then e.bytes + NOTE_MARK + e.texts.repeat else e.bytes
  }

  function Noted(a: Agent, e: Event): string
    requires e.Read?
  {
    if StaleCopies(a.store, e.path, e.bytes) > 0 then Summary(e) + NOTE_MARK + e.texts.stale else Summary(e)
  }

  function Snapshot(a: Agent, e: Event): TurnRecord
    requires e.Read?
  {
    BLANK_TURN.(toolName := "read_file", observation := Noted(a, e), observedPath := e.path)
  }

  function PendingOf(e: Event): Pending
    requires e.Read?
  {
    Pending(e.path, e.bytes, e.texts.same, e.texts.outdated)
  }

  function Perform(a: Agent, e: Event): Agent {
    match e
    case Read(path, bytes, repeats, texts) =>
      if Elided(a, e) then
        a.(store := AddTurn(a.store, BLANK_TURN.(toolName := "read_file", observation := texts.elision)))
      else
        Agent(AddTurn(a.store, Snapshot(a, e)),
              if |Summary(e)| >= MIN_DUPLICATE then Enqueued(a.queue, PendingOf(e)) else a.queue)
    case OtherTurn(turn) => a.(store := AddTurn(a.store, turn.(observedPath := "")))
    case Compact(keep) => Agent(CompactOldest(CollapseAll(a.store, a.queue), keep, false), [])
  }

  function PerformAll(a: Agent, es: seq<Event>): Agent {
    if es == [] then a else Perform(PerformAll(a, es[..|es| - 1]), es[|es| - 1])
  }

  // --- What a collapse does to one record -----------------------------------------------------

  predicate Hits(pc: Pending, t: TurnRecord) {
    IsDuplicate(pc.current)(t) || IsStale(pc.path, pc.current)(t)
  }

  function ProcessOne(pc: Pending, t: TurnRecord): TurnRecord {
    Rewriter(IsStale(pc.path, pc.current), pc.outdated)(Rewriter(IsDuplicate(pc.current), pc.same)(t))
  }

  function Process(queue: seq<Pending>, t: TurnRecord): TurnRecord {
    if queue == [] then t else ProcessOne(queue[|queue| - 1], Process(queue[..|queue| - 1], t))
  }

  function Processor(queue: seq<Pending>): TurnRecord -> TurnRecord { t => Process(queue, t) }

  lemma {:induction false} CollapseIsPerRecord(s: Store, queue: seq<Pending>)
    ensures CollapseAll(s, queue) == s.(recent := Map(Processor(queue), s.recent))
  {
    if queue == [] {
      assert Map(Processor(queue), s.recent) == s.recent;
    } else {
      var before, pc := queue[..|queue| - 1], queue[|queue| - 1];
      CollapseIsPerRecord(s, before);
      CollapseOneIsPerRecord(s.(recent := Map(Processor(before), s.recent)), pc);
      assert Map(t => ProcessOne(pc, t), Map(Processor(before), s.recent)) == Map(Processor(queue), s.recent);
    }
  }

  lemma CollapseOneIsPerRecord(s: Store, pc: Pending)
    ensures CollapseOne(s, pc) == s.(recent := Map(t => ProcessOne(pc, t), s.recent))
  {
    var f, g := Rewriter(IsDuplicate(pc.current), pc.same), Rewriter(IsStale(pc.path, pc.current), pc.outdated);
    assert Map(g, Map(f, s.recent)) == Map(t => ProcessOne(pc, t), s.recent);
  }

  lemma ProcessOneHits(pc: Pending, t: TurnRecord)
    ensures !Hits(pc, t) ==> ProcessOne(pc, t) == t
    ensures Hits(pc, t) || t.observedPath == "" ==> ProcessOne(pc, t).observedPath == ""
  {
  }

  ghost predicate Hit(queue: seq<Pending>, t: TurnRecord) { exists pc :: pc in queue && Hits(pc, t) }

  /** A snapshot is left as it was exactly when no entry of the queue has its bytes for its own,
      or its file with other bytes; otherwise it is a snapshot no more. */
  lemma {:induction false} SurvivesExactlyWhen(queue: seq<Pending>, t: TurnRecord)
    requires t.observedPath != ""
    ensures !Hit(queue, t) ==> Process(queue, t) == t
    ensures Hit(queue, t) ==> Process(queue, t).observedPath == ""
  {
    if queue != [] {
      hide Hits, ProcessOne;
      var before, pc := queue[..|queue| - 1], queue[|queue| - 1];
      SurvivesExactlyWhen(before, t);
      ProcessOneHits(pc, Process(before, t));
      Unsnoc(queue);
      assert Hit(queue, t) <==> Hit(before, t) || Hits(pc, t);
    }
  }

  // --- What every run keeps ---------------------------------------------------------------------

  predicate Unmarked(s: string) { Find(s, NOTE_MARK) == None }

  /** Bytes a tool returned hold no note of their own, the repeat note is a short one, and nothing
      recorded is over the budget. */
  predicate Ordinary(budget: nat, e: Event) {
    e.Read? ==>
      Unmarked(e.bytes) && |NOTE_MARK| + |e.texts.repeat| < MIN_DUPLICATE &&
      |e.bytes| + |e.texts.repeat| + |e.texts.stale| + 2 * |NOTE_MARK| <= budget
  }

  ghost predicate OneEachPath(queue: seq<Pending>) {
    forall i, j :: 0 <= i < j < |queue| ==> queue[i].path != queue[j].path
  }

  ghost predicate Inv(budget: nat, a: Agent) {
    && a.store.observationBudget == budget
    && OneEachPath(a.queue)
    && forall pc :: pc in a.queue ==> Unmarked(pc.current) && pc.current != ""
  }

  lemma RestIsOneEach(queue: seq<Pending>)
    requires OneEachPath(queue) && queue != []
    ensures OneEachPath(queue[1..]) && forall pc :: pc in queue[1..] ==> pc.path != queue[0].path
  {
    forall pc | pc in queue[1..]
      ensures pc.path != queue[0].path
    {
      var i :| 0 <= i < |queue[1..]| && queue[1..][i] == pc;
      assert queue[i + 1] == pc;
    }
  }

  lemma OneMoreIsOneEach(first: Pending, rest: seq<Pending>)
    requires OneEachPath(rest) && forall pc :: pc in rest ==> pc.path != first.path
    ensures OneEachPath([first] + rest)
  {
    forall i, j | 0 <= i < j < |[first] + rest|
      ensures ([first] + rest)[i].path != ([first] + rest)[j].path
    {
      assert rest[j - 1] in rest;
    }
  }

  lemma {:induction false} WithoutIsFewer(queue: seq<Pending>, path: string)
    requires OneEachPath(queue)
    ensures var rest := Without(queue, path);
            OneEachPath(rest) && forall pc :: pc in rest <==> pc in queue && pc.path != path
  {
    if queue != [] {
      hide OneEachPath;
      var first, later := queue[0], queue[1..];
      assert queue == [first] + later;
      RestIsOneEach(queue);
      if first.path != path {
        WithoutIsFewer(later, path);
        OneMoreIsOneEach(first, Without(later, path));
      }
    }
  }

  lemma EnqueuedKeeps(queue: seq<Pending>, pc: Pending)
    requires OneEachPath(queue)
    ensures OneEachPath(Enqueued(queue, pc))
    ensures forall x :: x in Enqueued(queue, pc) <==> x == pc || (x in queue && x.path != pc.path)
  {
    WithoutIsFewer(queue, pc.path);
    var rest := Without(queue, pc.path);
    forall i | 0 <= i < |rest|
      ensures rest[i].path != pc.path
    {
      assert rest[i] in rest;
    }
  }

  lemma PerformKeepsInv(budget: nat, a: Agent, e: Event)
    requires Inv(budget, a) && Ordinary(budget, e)
    ensures Inv(budget, Perform(a, e))
  {
    match e
    case Read(_, _, _, _) => EnqueuedKeeps(a.queue, PendingOf(e));
    case OtherTurn(_) =>
    case Compact(_) => CollapseIsPerRecord(a.store, a.queue);
  }

  function Opening(mission: string, budget: nat): Agent {
    Agent(Fresh(mission, Unset, Unset).(observationBudget := budget), [])
  }

  lemma {:induction false} InvAlways(mission: string, budget: nat, es: seq<Event>)
    requires forall e :: e in es ==> Ordinary(budget, e)
    ensures Inv(budget, PerformAll(Opening(mission, budget), es))
  {
    if es != [] {
      var before, e := es[..|es| - 1], es[|es| - 1];
      InvAlways(mission, budget, before);
      PerformKeepsInv(budget, PerformAll(Opening(mission, budget), before), e);
    }
  }

  // --- Which copies a compaction leaves -----------------------------------------------------------

  /** A copy of the file that holds its bytes as last read. */
  predicate Live(path: string, bytes: string, t: TurnRecord) {
    t.observedPath == path && ObservedBytes(t.observation) == bytes
  }

  function LiveOf(pc: Pending): TurnRecord -> bool { t => Live(pc.path, pc.current, t) }

  /** One of those that carries a note. */
  function NotedLiveOf(pc: Pending): TurnRecord -> bool {
    t => Live(pc.path, pc.current, t) && t.observation != pc.current
  }

  lemma OnlyNotedCopiesStay(queue: seq<Pending>, pc: Pending, t: TurnRecord)
    requires OneEachPath(queue) && pc in queue && pc.path != ""
    requires forall x :: x in queue ==> Unmarked(x.current) && x.current != ""
    ensures LiveOf(pc)(Process(queue, t)) <==> NotedLiveOf(pc)(t)
    ensures NotedLiveOf(pc)(t) ==> Process(queue, t) == t
    ensures Process(queue, t).observedPath == pc.path ==> LiveOf(pc)(Process(queue, t))
  {
    hide Process;
    if t.observedPath == "" {
      PointersStay(queue, t);
    } else {
      SurvivesExactlyWhen(queue, t);
      if NotedLiveOf(pc)(t) {
        NotedIsNotHit(queue, pc, t);
      } else if t.observedPath == pc.path {
        OtherIsHit(queue, pc, t);
      }
    }
  }

  lemma NotedIsNotHit(queue: seq<Pending>, pc: Pending, t: TurnRecord)
    requires OneEachPath(queue) && pc in queue && forall x :: x in queue ==> Unmarked(x.current)
    requires NotedLiveOf(pc)(t)
    ensures !Hit(queue, t)
  {
    forall x | x in queue
      ensures !Hits(x, t)
    {
      OneEntry(queue, pc, x);
      UnmarkedIsNotNoted(x.current, t.observation);
    }
  }

  lemma OtherIsHit(queue: seq<Pending>, pc: Pending, t: TurnRecord)
    requires pc in queue && pc.path != "" && Unmarked(pc.current) && pc.current != ""
    requires t.observedPath == pc.path && !NotedLiveOf(pc)(t)
    ensures Hit(queue, t)
  {
    UnmarkedIsObserved(pc.current);
    assert Hits(pc, t);
  }

  lemma {:induction false} PointersStay(queue: seq<Pending>, t: TurnRecord)
    requires t.observedPath == ""
    ensures Process(queue, t).observedPath == ""
  {
    if queue != [] {
      PointersStay(queue[..|queue| - 1], t);
    }
  }

  lemma OneEntry(queue: seq<Pending>, pc: Pending, x: Pending)
    requires OneEachPath(queue) && pc in queue && x in queue
    ensures x == pc || x.path != pc.path
  {
    var i :| 0 <= i < |queue| && queue[i] == pc;
    var j :| 0 <= j < |queue| && queue[j] == x;
    assert i < j || j < i || i == j;
  }

  lemma UnmarkedIsObserved(s: string)
    requires Unmarked(s)
    ensures ObservedBytes(s) == s
  {
  }

  /** A text that differs from its observed bytes holds the mark, so it is not unmarked. */
  lemma UnmarkedIsNotNoted(s: string, observation: string)
    requires Unmarked(s) && observation != ObservedBytes(observation)
    ensures observation != s
  {
  }

  lemma {:induction false} CountAcross(p: TurnRecord -> bool, q: TurnRecord -> bool, f: TurnRecord -> TurnRecord,
                                       ts: seq<TurnRecord>)
    requires forall t :: p(f(t)) == q(t)
    ensures Count(p, Map(f, ts)) == Count(q, ts)
  {
    if ts != [] {
      var n := |ts| - 1;
      CountAcross(p, q, f, ts[..n]);
      assert Map(f, ts)[..n] == Map(f, ts[..n]);
    }
  }

  /** The records a trim keeps. */
  function Kept(s: Store, keep: nat): seq<TurnRecord> {
    if |s.recent| <= keep then s.recent else s.recent[|s.recent| - keep..]
  }

  lemma CompactIsProcessed(a: Agent, keep: nat)
    ensures Perform(a, Compact(keep)).store.recent == Map(Processor(a.queue), Kept(a.store, keep))
  {
    CollapseIsPerRecord(a.store, a.queue);
    var all := Map(Processor(a.queue), a.store.recent);
    if |a.store.recent| > keep {
      var drop := |a.store.recent| - keep;
      assert all[drop..] == Map(Processor(a.queue), a.store.recent[drop..]);
    }
  }

  /** The header says a collapse always leaves exactly one live copy, the newest. At a compaction,
      whatever went before, the copies of a queued file left with its bytes are exactly the kept
      ones that carry a note: none, one or many -- and no other copy of it is left. */
  lemma CopiesLeftAreTheNoted(mission: string, budget: nat, es: seq<Event>, keep: nat, pc: Pending)
    requires forall e :: e in es ==> Ordinary(budget, e)
    requires pc in PerformAll(Opening(mission, budget), es).queue && pc.path != ""
    ensures var a := PerformAll(Opening(mission, budget), es);
            var after := Perform(a, Compact(keep)).store.recent;
            Count(LiveOf(pc), after) == Count(NotedLiveOf(pc), Kept(a.store, keep)) &&
            (forall t :: t in after && t.observedPath == pc.path ==> LiveOf(pc)(t))
  {
    var a := PerformAll(Opening(mission, budget), es);
    InvAlways(mission, budget, es);
    CompactIsProcessed(a, keep);
    var kept := Kept(a.store, keep);
    forall t
      ensures LiveOf(pc)(Processor(a.queue)(t)) == NotedLiveOf(pc)(t)
      ensures Process(a.queue, t).observedPath == pc.path ==> LiveOf(pc)(Process(a.queue, t))
    {
      OnlyNotedCopiesStay(a.queue, pc, t);
    }
    CountAcross(LiveOf(pc), NotedLiveOf(pc), Processor(a.queue), kept);
    forall t | t in Map(Processor(a.queue), kept) && t.observedPath == pc.path
      ensures LiveOf(pc)(t)
    {
      var j :| 0 <= j < |kept| && Map(Processor(a.queue), kept)[j] == t;
    }
  }

  lemma {:induction false} NoneKeepsTheBytes(queue: seq<Pending>, pc: Pending, t: TurnRecord)
    requires pc in queue && pc.current != ""
    requires forall x :: x in queue ==> x.same != pc.current && x.outdated != pc.current
    ensures Process(queue, t).observation != pc.current
  {
    var before, last := queue[..|queue| - 1], queue[|queue| - 1];
    Unsnoc(queue);
    if last != pc {
      NoneKeepsTheBytes(before, pc, t);
    }
  }

  /** And has_observation, which is meant to find those bytes when they are read once more, does not:
      no copy is left that is exactly them, as long as no pointer text is. */
  lemma NoExactCopyIsLeft(s: Store, queue: seq<Pending>, pc: Pending)
    requires pc in queue
    requires forall x :: x in queue ==> x.same != pc.current && x.outdated != pc.current
    ensures !HasObservation(CollapseAll(s, queue), pc.current)
  {
    if pc.current != "" {
      CollapseIsPerRecord(s, queue);
      forall t | t in Map(Processor(queue), s.recent)
        ensures t.observation != pc.current
      {
        var j :| 0 <= j < |s.recent| && Map(Processor(queue), s.recent)[j] == t;
        NoneKeepsTheBytes(queue, pc, s.recent[j]);
      }
    }
  }

  // --- The newest copy --------------------------------------------------------------------------------

  /** A turn that neither compacts nor reads the file. */
  predicate Elsewhere(path: string, e: Event) { !e.Compact? && (e.Read? ==> e.path != path) }

  lemma NotedDiffers(a: Agent, e: Event)
    requires e.Read? && Unmarked(e.bytes)
    ensures ObservedBytes(Noted(a, e)) == e.bytes
    ensures Noted(a, e) == e.bytes <==> !e.repeats && StaleCopies(a.store, e.path, e.bytes) == 0
  {
    UnmarkedIsObserved(e.bytes);
    NotesAreNotObserved(e.bytes, e.texts.repeat);
    NotesAreNotObserved(Summary(e), e.texts.stale);
    assert |Summary(e) + NOTE_MARK + e.texts.stale| > |Summary(e)| >= |e.bytes|;
  }

  lemma ElsewhereKeeps(budget: nat, a: Agent, e: Event, pc: Pending, j: nat)
    requires Inv(budget, a) && Ordinary(budget, e) && Elsewhere(pc.path, e)
    requires pc in a.queue && j < |a.store.recent|
    ensures pc in Perform(a, e).queue && j < |Perform(a, e).store.recent|
    ensures Perform(a, e).store.recent[j] == a.store.recent[j]
  {
    if e.Read? {
      EnqueuedKeeps(a.queue, PendingOf(e));
    }
  }

  lemma {:induction false} ElsewhereKeepsAll(budget: nat, a: Agent, es: seq<Event>, pc: Pending, j: nat)
    requires Inv(budget, a) && pc in a.queue && j < |a.store.recent|
    requires forall e :: e in es ==> Ordinary(budget, e) && Elsewhere(pc.path, e)
    ensures var b := PerformAll(a, es);
            Inv(budget, b) && pc in b.queue && j < |b.store.recent| && b.store.recent[j] == a.store.recent[j]
  {
    if es != [] {
      hide Perform, Elsewhere, Ordinary, Inv;
      var before, e := es[..|es| - 1], es[|es| - 1];
      ElsewhereKeepsAll(budget, a, before, pc, j);
      assert e in es;
      ElsewhereKeeps(budget, PerformAll(a, before), e, pc, j);
      PerformKeepsInv(budget, PerformAll(a, before), e);
    }
  }

  lemma ReadQueuesAndRecords(budget: nat, a: Agent, e: Event)
    requires Inv(budget, a) && Ordinary(budget, e) && e.Read? && !Elided(a, e) && |Summary(e)| >= MIN_DUPLICATE
    ensures var b := Perform(a, e);
            PendingOf(e) in b.queue && |b.store.recent| == |a.store.recent| + 1 &&
            b.store.recent[|a.store.recent|] == Snapshot(a, e)
  {
    EnqueuedKeeps(a.queue, PendingOf(e));
  }

  predicate HoldsAt(s: Store, j: nat, t: TurnRecord) { j < |s.recent| && s.recent[j] == t }

  lemma TurnKeeps(a: Agent, e: Event, j: nat)
    requires !e.Compact? && j < |a.store.recent|
    ensures j < |Perform(a, e).store.recent| && Perform(a, e).store.recent[j] == a.store.recent[j]
  {
  }

  lemma {:induction false} TurnsKeep(budget: nat, a: Agent, es: seq<Event>, j: nat)
    requires Inv(budget, a) && j < |a.store.recent|
    requires forall e :: e in es ==> Ordinary(budget, e) && !e.Compact?
    ensures var b := PerformAll(a, es);
            Inv(budget, b) && j < |b.store.recent| && b.store.recent[j] == a.store.recent[j]
  {
    if es != [] {
      hide Perform, Ordinary, Inv;
      var before, e := es[..|es| - 1], es[|es| - 1];
      TurnsKeep(budget, a, before, j);
      assert e in es;
      TurnKeeps(PerformAll(a, before), e, j);
      PerformKeepsInv(budget, PerformAll(a, before), e);
    }
  }

  lemma ReadRecords(budget: nat, a: Agent, e: Event)
    requires Inv(budget, a) && Ordinary(budget, e) && e.Read? && !Elided(a, e)
    ensures var b := Perform(a, e);
            |b.store.recent| == |a.store.recent| + 1 && b.store.recent[|a.store.recent|] == Snapshot(a, e)
  {
  }

  /** The plans a copy of these bytes outlives: each for its file goes by the same bytes, and none
      goes by these bytes at all unless the copy carries a note. */
  ghost predicate Outlives(queue: seq<Pending>, path: string, bytes: string, noted: bool) {
    forall pc :: pc in queue ==> (pc.path == path ==> pc.current == bytes) && (pc.current == bytes ==> noted)
  }

  /** A read of a file, long or short, whatever was read before, and then any turns before the next
      compaction. Unless trimmed, the record of that read is left as it was if and only if it
      outlives the plans made by then. A note is there because the read repeated an earlier one, or
      because the prompt then held a stale copy. */
  lemma CopySurvivesExactlyWhen(mission: string, budget: nat, es: seq<Event>, e: Event, later: seq<Event>,
                                a: Agent, b: Agent)
    requires forall x :: x in es ==> Ordinary(budget, x)
    requires a == PerformAll(Opening(mission, budget), es)
    requires Ordinary(budget, e) && e.Read? && e.path != "" && !Elided(a, e)
    requires forall x :: x in later ==> Ordinary(budget, x) && !x.Compact?
    requires b == PerformAll(Perform(a, e), later)
    ensures HoldsAt(b.store, |a.store.recent|, Snapshot(a, e))
    ensures HoldsAt(CollapseAll(b.store, b.queue), |a.store.recent|, Snapshot(a, e)) <==>
            Outlives(b.queue, e.path, e.bytes, e.repeats || StaleCopies(a.store, e.path, e.bytes) > 0)
  {
    hide Perform, PerformAll, Elided, CollapseAll, Process, StaleCopies, Ordinary, Snapshot, Outlives;
    InvAlways(mission, budget, es);
    PerformKeepsInv(budget, a, e);
    ReadRecords(budget, a, e);
    TurnsKeep(budget, Perform(a, e), later, |a.store.recent|);
    CollapseIsPerRecord(b.store, b.queue);
    SnapshotFate(budget, a, e, b.queue);
  }

  lemma SnapshotFate(budget: nat, a: Agent, e: Event, queue: seq<Pending>)
    requires e.Read? && e.path != "" && Ordinary(budget, e)
    requires forall x :: x in queue ==> Unmarked(x.current) && x.current != ""
    ensures Processor(queue)(Snapshot(a, e)) == Snapshot(a, e) <==>
            Outlives(queue, e.path, e.bytes, e.repeats || StaleCopies(a.store, e.path, e.bytes) > 0)
  {
    hide Process, StaleCopies, Summary;
    var t := Snapshot(a, e);
    SurvivesExactlyWhen(queue, t);
    forall pc | pc in queue
      ensures Hits(pc, t) <==>
              (pc.path == e.path && pc.current != e.bytes) ||
              (pc.current == e.bytes && !(e.repeats || StaleCopies(a.store, e.path, e.bytes) > 0))
    {
      PlanHits(a, e, pc);
    }
  }

  lemma PlanHits(a: Agent, e: Event, pc: Pending)
    requires e.Read? && e.path != "" && Unmarked(e.bytes) && Unmarked(pc.current) && pc.current != ""
    ensures Hits(pc, Snapshot(a, e)) <==>
            (pc.path == e.path && pc.current != e.bytes) ||
            (pc.current == e.bytes && !(e.repeats || StaleCopies(a.store, e.path, e.bytes) > 0))
  {
    hide Noted, StaleCopies, Summary;
    NotedDiffers(a, e);
    UnmarkedIsObserved(pc.current);
    if Noted(a, e) != e.bytes {
      UnmarkedIsNotNoted(pc.current, Noted(a, e));
    }
  }

  /** So when the read queues its own collapse and its file is not read again, the newest copy
      survives if and only if it carries a note: a first read has none, and is lost. */
  lemma NewestCopySurvivesExactlyWhen(mission: string, budget: nat, es: seq<Event>, e: Event, later: seq<Event>,
                                      a: Agent, b: Agent)
    requires forall x :: x in es ==> Ordinary(budget, x)
    requires a == PerformAll(Opening(mission, budget), es)
    requires Ordinary(budget, e) && e.Read? && e.path != "" && !Elided(a, e) && |Summary(e)| >= MIN_DUPLICATE
    requires forall x :: x in later ==> Ordinary(budget, x) && Elsewhere(e.path, x)
    requires b == PerformAll(Perform(a, e), later)
    ensures HoldsAt(b.store, |a.store.recent|, Snapshot(a, e))
    ensures HoldsAt(CollapseAll(b.store, b.queue), |a.store.recent|, Snapshot(a, e)) <==>
            e.repeats || StaleCopies(a.store, e.path, e.bytes) > 0
  {
    hide Perform, PerformAll, Elided, Summary, CollapseAll, StaleCopies, Ordinary, HoldsAt, Snapshot;
    CopySurvivesExactlyWhen(mission, budget, es, e, later, a, b);
    InvAlways(mission, budget, es);
    PerformKeepsInv(budget, a, e);
    ReadQueuesAndRecords(budget, a, e);
    ElsewhereKeepsAll(budget, Perform(a, e), later, PendingOf(e), |a.store.recent|);
    forall pc | pc in b.queue
      ensures pc == PendingOf(e) || pc.path != e.path
    {
      OneEntry(b.queue, PendingOf(e), pc);
    }
  }

  // --- Which plan a file has -------------------------------------------------------------------------

  /** A read that queues the collapse of its own bytes. */
  predicate Plans(a: Agent, e: Event) { e.Read? && !Elided(a, e) && |Summary(e)| >= MIN_DUPLICATE }

  lemma PlanStep(a: Agent, e: Event)
    requires OneEachPath(a.queue)
    ensures var queue := Perform(a, e).queue;
            OneEachPath(queue) &&
            if e.Compact? then queue == []
            else if Plans(a, e) then
              forall pc :: pc in queue <==> pc == PendingOf(e) || (pc in a.queue && pc.path != e.path)
            else queue == a.queue
  {
    if e.Read? {
      EnqueuedKeeps(a.queue, PendingOf(e));
    }
  }

  /** The i-th step made this plan, and nothing since has replaced or applied it. */
  ghost predicate LastPlan(o: Agent, es: seq<Event>, i: int, pc: Pending) {
    && 0 <= i < |es| && Plans(PerformAll(o, es[..i]), es[i]) && pc == PendingOf(es[i])
    && forall j :: i < j < |es| ==>
         !es[j].Compact? && !(Plans(PerformAll(o, es[..j]), es[j]) && es[j].path == pc.path)
  }

  lemma LastPlanSnoc(o: Agent, before: seq<Event>, e: Event, i: int, pc: Pending)
    ensures i != |before| ==>
              (LastPlan(o, before + [e], i, pc) <==>
               LastPlan(o, before, i, pc) && !e.Compact? && !(Plans(PerformAll(o, before), e) && e.path == pc.path))
    ensures LastPlan(o, before + [e], |before|, pc) <==> Plans(PerformAll(o, before), e) && pc == PendingOf(e)
  {
    hide PerformAll, Elided, Summary;
    var es := before + [e];
    assert es[|before|] == e && es[..|before|] == before;
    assert forall j :: 0 <= j < |before| ==> es[..j] == before[..j] && es[j] == before[j];
  }

  lemma PerformAllSnoc(o: Agent, before: seq<Event>, e: Event)
    ensures PerformAll(o, before + [e]) == Perform(PerformAll(o, before), e)
  {
    assert (before + [e])[..|before|] == before;
  }

  /** The plans of any run are those of the last reads, file by file, that made one since the last
      compaction. */
  lemma {:induction false} PlansAreTheLastMade(o: Agent, es: seq<Event>)
    requires o.queue == []
    ensures OneEachPath(PerformAll(o, es).queue)
    ensures forall pc :: pc in PerformAll(o, es).queue <==> exists i :: LastPlan(o, es, i, pc)
  {
    if es == [] {
      assert PerformAll(o, es) == o;
    } else {
      hide Elided, Summary, PerformAll, Perform, OneEachPath, LastPlan;
      var n := |es| - 1;
      var before, e := es[..n], es[n];
      PlansAreTheLastMade(o, before);
      Unsnoc(es);
      PerformAllSnoc(o, before, e);
      PlanStep(PerformAll(o, before), e);
      forall pc
        ensures pc in PerformAll(o, es).queue <==> exists i :: LastPlan(o, es, i, pc)
      {
        forall i
          ensures i != n ==>
                    (LastPlan(o, es, i, pc) <==>
                     LastPlan(o, before, i, pc) && !e.Compact? &&
                     !(Plans(PerformAll(o, before), e) && e.path == pc.path))
        {
          LastPlanSnoc(o, before, e, i, pc);
        }
        LastPlanSnoc(o, before, e, n, pc);
      }
    }
  }

  ghost predicate GoesBy(queue: seq<Pending>, path: string, bytes: string) {
    forall pc :: pc in queue && pc.path == path ==> pc.current == bytes
  }

  /** A later read of a file is said to replace any earlier plan for it. Over any run, the file has no
      plan that goes by other bytes than those just read if and only if the read made one of its own
      -- it was not answered with a reference, and 512 characters or more came back -- or there was
      none that did before it. */
  lemma PlanIsReplacedExactlyWhen(o: Agent, es: seq<Event>, e: Event)
    requires o.queue == [] && e.Read?
    ensures var a := PerformAll(o, es);
            (GoesBy(Perform(a, e).queue, e.path, e.bytes) <==> Plans(a, e) || GoesBy(a.queue, e.path, e.bytes)) &&
            (Plans(a, e) ==> forall pc :: pc in Perform(a, e).queue && pc.path == e.path ==> pc == PendingOf(e)) &&
            (!Plans(a, e) ==> Perform(a, e).queue == a.queue)
  {
    hide Plans, PerformAll, Perform;
    PlansAreTheLastMade(o, es);
    PlanStep(PerformAll(o, es), e);
  }

  /** A short read queues nothing, and leaves the plan of an earlier, longer read of the file in
      place. So the copy that plan is measured by is the old one: at the compaction the newest
      copy is taken for stale and lost. */
  lemma ShortReadIsTakenForStale(mission: string, budget: nat, long: Event, short: Event)
    requires Ordinary(budget, long) && Ordinary(budget, short) && long.Read? && short.Read?
    requires long.path == short.path != "" && long.bytes != short.bytes
    requires |long.bytes| >= MIN_DUPLICATE && |Summary(short)| < MIN_DUPLICATE
    ensures var b := PerformAll(Opening(mission, budget), [long, short]);
            |b.store.recent| == 2 && ObservedBytes(b.store.recent[1].observation) == short.bytes &&
            forall t :: t in CollapseAll(b.store, b.queue).recent ==> !Live(short.path, short.bytes, t)
  {
    hide *;
    var o := Opening(mission, budget);
    TwoSteps(o, long, short);
    var a := Perform(o, long);
    OpeningIsEmpty(mission, budget, long);
    ReadQueuesAndRecords(budget, o, long);
    PerformKeepsInv(budget, o, long);
    ShortReadTaken(budget, a, long, short);
  }

  lemma OpeningIsEmpty(mission: string, budget: nat, e: Event)
    requires e.Read?
    ensures var o := Opening(mission, budget);
            Inv(budget, o) && o.store.recent == [] && !Elided(o, e) &&
            (|e.bytes| >= MIN_DUPLICATE ==> |Summary(e)| >= MIN_DUPLICATE)
  {
  }

  lemma ShortReadTaken(budget: nat, a: Agent, long: Event, short: Event)
    requires Inv(budget, a) && Ordinary(budget, short) && long.Read? && short.Read?
    requires long.path == short.path != "" && long.bytes != short.bytes && |Summary(short)| < MIN_DUPLICATE
    requires |a.store.recent| == 1 && PendingOf(long) in a.queue
    ensures var b := Perform(a, short);
            |b.store.recent| == 2 && ObservedBytes(b.store.recent[1].observation) == short.bytes &&
            forall t :: t in CollapseAll(b.store, b.queue).recent ==> !Live(short.path, short.bytes, t)
  {
    hide Perform, Process, CollapseAll, Summary, Elided, Ordinary, Live, Noted, StaleCopies;
    ShortReadQueuesNothing(budget, a, short);
    PerformKeepsInv(budget, a, short);
    OldBytesDecide(Perform(a, short), PendingOf(long), short);
  }

  lemma ShortReadQueuesNothing(budget: nat, a: Agent, e: Event)
    requires Inv(budget, a) && Ordinary(budget, e) && e.Read? && |Summary(e)| < MIN_DUPLICATE
    ensures var b := Perform(a, e);
            b.queue == a.queue && b.store.recent == a.store.recent + [Snapshot(a, e)] &&
            ObservedBytes(Snapshot(a, e).observation) == e.bytes
  {
    NotedDiffers(a, e);
  }

  lemma OldBytesDecide(b: Agent, pc: Pending, short: Event)
    requires OneEachPath(b.queue) && pc in b.queue
    requires forall x :: x in b.queue ==> Unmarked(x.current) && x.current != ""
    requires short.Read? && short.path == pc.path != "" && short.bytes != pc.current
    ensures forall t :: t in CollapseAll(b.store, b.queue).recent ==> !Live(short.path, short.bytes, t)
  {
    hide Process, CollapseAll;
    CollapseIsPerRecord(b.store, b.queue);
    forall t | t in Map(Processor(b.queue), b.store.recent)
      ensures !Live(short.path, short.bytes, t)
    {
      var j :| 0 <= j < |b.store.recent| && Map(Processor(b.queue), b.store.recent)[j] == t;
      OnlyNotedCopiesStay(b.queue, pc, b.store.recent[j]);
    }
  }

  lemma TwoSteps(a: Agent, x: Event, y: Event)
    ensures PerformAll(a, [x, y]) == Perform(Perform(a, x), y)
  {
    assert [x, y][..1] == [x] && [x][..0] == [];
    assert PerformAll(a, [x]) == Perform(PerformAll(a, []), x);
  }

  // --- What a read records and what a plan says ------------------------------------------------------

  /** A read is answered with a reference when it repeats one whose 512 bytes or more the prompt holds as
      they are, with no stale copy beside them; the record says so and is of no file. Else the record
      is of the file, with its bytes and what is to be noted after them; and the read makes a plan
      exactly when, with the first of the notes, that is 512 characters or more. */
  lemma ReadSays(budget: nat, a: Agent, e: Event)
    requires Inv(budget, a) && Ordinary(budget, e) && e.Read?
    ensures var reference := e.repeats && |e.bytes| >= 512 && HasObservation(a.store, e.bytes) &&
                             StaleCopies(a.store, e.path, e.bytes) == 0;
            var told := if e.repeats then e.bytes + "\n[Note:" + e.texts.repeat else e.bytes;
            var noted := if StaleCopies(a.store, e.path, e.bytes) > 0 then told + "\n[Note:" + e.texts.stale else told;
            var b, n := Perform(a, e), |a.store.recent|;
            |b.store.recent| == n + 1 && b.store.recent[..n] == a.store.recent &&
            (var t := b.store.recent[n];
             t.toolName == "read_file" && t.observedPath == (if reference then "" else e.path) &&
             (reference ==> (|e.texts.elision| <= budget ==> t.observation == e.texts.elision)) &&
             (!reference ==> t.observation == noted)) &&
            (reference || |told| < 512 ==> b.queue == a.queue) &&
            (!reference && |told| >= 512 ==>
               b.queue != [] &&
               b.queue[|b.queue| - 1] == Pending(e.path, e.bytes, e.texts.same, e.texts.outdated))
  {
    hide StaleCopies, HasObservation, Without;
  }

  /** One plan, applied: a record with exactly its bytes becomes the pointer to the copy that is the same;
      one of its file with other bytes, the pointer to the copy that is newer; any other stays. */
  lemma PlanSays(s: Store, pc: Pending, i: nat)
    requires i < |s.recent|
    ensures var s', t := CollapseOne(s, pc), s.recent[i];
            s' == s.(recent := s'.recent) && |s'.recent| == |s.recent| &&
            s'.recent[i] ==
              if pc.current != "" && t.observation == pc.current then t.(observation := pc.same, observedPath := "")
              else if pc.path != "" && t.observedPath == pc.path &&
                      ObservedBytes(t.observation) != ObservedBytes(pc.current)
              then t.(observation := pc.outdated, observedPath := "")
              else t
  {
    hide ObservedBytes;
  }

  /** A compaction applies every plan before it trims: what the sink is handed, and the span tells of, are
      the records as the plans left them, and no plan is left. */
  lemma CompactionCollapsesFirst(a: Agent, keep: nat)
    requires a.store.compactionSink.Installed? && |a.store.recent| > keep
    ensures var b, drop := Perform(a, Compact(keep)), |a.store.recent| - keep;
            var calls := a.store.compactionSink.calls;
            b.queue == [] && |b.store.spans| == |a.store.spans| + 1 &&
            b.store.compactionSink ==
              Installed(calls + [SinkCall(Map(Processor(a.queue), a.store.recent[..drop]), |a.store.spans|,
                                          b.store.spans[|a.store.spans|])])
  {
    hide Process, Span;
    CollapseIsPerRecord(a.store, a.queue);
    var all, drop := Map(Processor(a.queue), a.store.recent), |a.store.recent| - keep;
    assert all[..drop] == Map(Processor(a.queue), a.store.recent[..drop]);
  }
}
