/** What holds of the context store over whole runs: nothing recorded is lost, its books are
    kept, the two rewriting passes commute exactly when they describe one read, and an
    appended note never makes a snapshot look edited. */
module ContextLaws {
  import opened Sequences
  import opened Text
  import opened ContextModel

  // --- Nothing is lost to a trim --------------------------------------------------------

  /** Everything of a record that no later operation rewrites. */
  function Shell(t: TurnRecord): TurnRecord { t.(observation := "", observedPath := "") }

  function DroppedBy(c: SinkCall): seq<TurnRecord> { c.dropped }

  function Dropped(s: Store): seq<TurnRecord>
    requires s.compactionSink.Installed?
  {
    FlatMap(DroppedBy, s.compactionSink.calls)
  }

  predicate NamesItsSpan(c: SinkCall, i: nat, span: string) {
    c.spanIndex == i && c.dropped != [] && c.summary == span && span == Span(c.dropped)
  }

  ghost predicate Conserved(s: Store) {
    && s.turnSink.Installed? && s.compactionSink.Installed?
    && |s.turnSink.calls| == s.turnsRecorded
    && Map(Shell, Dropped(s) + s.recent) == Map(Shell, s.turnSink.calls)
    && |s.compactionSink.calls| == |s.spans|
    && forall i :: 0 <= i < |s.spans| ==> NamesItsSpan(s.compactionSink.calls[i], i, s.spans[i])
  }

  function BudgetAfter(budget: nat, ops: seq<Op>): nat {
    if ops == [] then budget
    else match ops[|ops| - 1]
      case SetBudgetOp(n) => n
      case _ => BudgetAfter(budget, ops[..|ops| - 1])
  }

  function Adds(budget: nat, op: Op): seq<TurnRecord> {
    match op
    case AddTurnOp(t) => [Clamp(budget, t)]
    case AddUserOp(text, images) => [Clamp(budget, HumanTurn(text, images))]
    case _ => []
  }

  /** The records a run adds, as they are kept: read off the operations alone. */
  function Recorded(budget: nat, ops: seq<Op>): seq<TurnRecord> {
    if ops == [] then []
    else
      var before := ops[..|ops| - 1];
      Recorded(budget, before) + Adds(BudgetAfter(budget, before), ops[|ops| - 1])
  }

  /** Rewriting recent records changes no shell. */
  lemma RewriteConserves(s: Store, recent: seq<TurnRecord>)
    requires Conserved(s) && Map(Shell, recent) == Map(Shell, s.recent)
    ensures Conserved(s.(recent := recent))
  {
    MapAppend(Shell, Dropped(s), s.recent);
    MapAppend(Shell, Dropped(s), recent);
  }

  lemma SupersedeConserves(s: Store, matches: TurnRecord -> bool, replacement: string)
    requires Conserved(s)
    ensures Conserved(Supersede(matches, replacement, s))
  {
    RewriteConserves(s, Supersede(matches, replacement, s).recent);
  }

  lemma RewriteOneConserves(s: Store, i: nat, observation: string)
    requires Conserved(s)
    ensures Conserved(RewriteObservation(s, i, observation))
  {
    RewriteConserves(s, RewriteObservation(s, i, observation).recent);
  }

  /** A trim moves turns from one side to the other. */
  lemma FoldMoves(s: Store, drop: nat, span: string, event: bool)
    requires s.compactionSink.Installed? && drop <= |s.recent|
    ensures Dropped(Fold(s, drop, span, event)) == Dropped(s) + s.recent[..drop]
    ensures Dropped(Fold(s, drop, span, event)) + Fold(s, drop, span, event).recent == Dropped(s) + s.recent
  {
    var call := SinkCall(s.recent[..drop], |s.spans|, span);
    FlatMapAppend(DroppedBy, s.compactionSink.calls, [call]);
    FlatMapOne(DroppedBy, call);
    Halves(s.recent, drop);
    Associative(Dropped(s), s.recent[..drop], s.recent[drop..]);
  }

  lemma FoldConserves(s: Store, drop: nat, span: string, event: bool)
    requires Conserved(s) && 0 < drop <= |s.recent| && span == Span(s.recent[..drop])
    ensures Conserved(Fold(s, drop, span, event))
  {
    FoldMoves(s, drop, span, event);
  }

  lemma CompactConserves(s: Store, keep: nat, event: bool)
    requires Conserved(s)
    ensures Conserved(CompactOldest(s, keep, event))
  {
    if |s.recent| > keep {
      FoldConserves(s, |s.recent| - keep, Span(s.recent[..|s.recent| - keep]), event);
    }
  }

  lemma AddTurnConserves(s: Store, t: TurnRecord)
    requires Conserved(s)
    ensures Conserved(AddTurn(s, t))
  {
    var kept := Clamp(s.observationBudget, t);
    assert Dropped(s) + (s.recent + [kept]) == (Dropped(s) + s.recent) + [kept];
    MapAppend(Shell, Dropped(s) + s.recent, [kept]);
    MapAppend(Shell, s.turnSink.calls, [kept]);
  }

  /** The promise is about the records, the spans and the sinks alone. */
  lemma ElsewhereConserves(s: Store, s': Store)
    requires Conserved(s) && s'.recent == s.recent && s'.spans == s.spans && s'.turnsRecorded == s.turnsRecorded
    requires s'.turnSink == s.turnSink && s'.compactionSink == s.compactionSink
    ensures Conserved(s')
  {
  }

  lemma ApplyConserves(s: Store, op: Op)
    requires Conserved(s)
    ensures Conserved(Apply(s, op))
  {
    hide Conserved, Supersede, CompactOldest, Clamp;
    match op
    case AddTurnOp(t) => AddTurnConserves(s, t);
    case AddUserOp(text, images) =>
      ElsewhereConserves(s, s.(userTurns := s.userTurns + [text]));
      AddTurnConserves(s.(userTurns := s.userTurns + [text]), HumanTurn(text, images));
    case SupersedeDuplicatesOp(o, r) => SupersedeConserves(s, IsDuplicate(o), r);
    case SupersedeStaleOp(p, c, r) => SupersedeConserves(s, IsStale(p, c), r);
    case RewriteOp(i, o) => RewriteOneConserves(s, i, o);
    case CompactOp(k, e) => CompactConserves(s, k, e);
    case _ => ElsewhereConserves(s, Apply(s, op));
  }

  lemma ApplyRecords(s: Store, op: Op)
    requires s.turnSink.Installed?
    ensures Apply(s, op).turnSink == Installed(s.turnSink.calls + Adds(s.observationBudget, op))
    ensures Apply(s, op).observationBudget == if op.SetBudgetOp? then op.budget else s.observationBudget
  {
    assert s.turnSink.calls + [] == s.turnSink.calls;
  }

  /** Over any run, the turns handed to the compaction sink followed by the recent ones are
      the turns handed to the turn sink -- in order, one for each turn added, equal in every
      field no rewrite touches -- and each sink call names the span it produced. */
  lemma {:induction false} NothingIsLost(mission: string, ops: seq<Op>)
    ensures var s := Run(Fresh(mission, Installed([]), Installed([])), ops);
            Conserved(s) && s.turnSink.calls == Recorded(DEFAULT_BUDGET, ops) &&
            s.observationBudget == BudgetAfter(DEFAULT_BUDGET, ops)
  {
    var empty := Fresh(mission, Installed([]), Installed([]));
    if ops == [] {
      assert Dropped(empty) + empty.recent == [];
    } else {
      var before := ops[..|ops| - 1];
      NothingIsLost(mission, before);
      var s := Run(empty, before);
      ApplyConserves(s, ops[|ops| - 1]);
      ApplyRecords(s, ops[|ops| - 1]);
    }
  }

  // --- The clamp -------------------------------------------------------------------------

  /** A cut record keeps the front of its observation and everything else, stays within the
      budget but for the mark, and is not cut again by a budget with room for the mark. It is
      unchanged exactly when it fits, or when the cut and the mark happen to give it back. */
  lemma ClampKeepsTheFront(budget: nat, t: TurnRecord)
    ensures var kept := Clamp(budget, t);
            var front := if |t.observation| < budget then |t.observation| else budget;
            Shell(kept) == Shell(t).(observedPath := "") && kept.observedPath == t.observedPath &&
            t.observation[..front] <= kept.observation && |kept.observation| <= budget + |TRUNCATION_MARK| &&
            Clamp(budget + |TRUNCATION_MARK|, kept) == kept &&
            (kept == t <==> |t.observation| <= budget || t.observation == t.observation[..budget] + TRUNCATION_MARK)
  {
    var kept := Clamp(budget, t);
    if OverBudget(budget, t) {
      assert kept.observation[..budget] == t.observation[..budget];
    }
  }

  // --- The books --------------------------------------------------------------------------

  function UserText(op: Op): seq<string> { if op.AddUserOp? then [op.text] else [] }

  function DeliverablePath(op: Op): seq<string> { if op.RecordDeliverableOp? then [op.path] else [] }

  predicate Writes(op: Op) { op.RecordDeliverableOp? || op.InvalidateFreshnessOp? }

  /** How many records a run had to cut down: read off the operations alone. */
  function Truncations(budget: nat, ops: seq<Op>): nat {
    if ops == [] then 0
    else
      var before, op := ops[..|ops| - 1], ops[|ops| - 1];
      Truncations(budget, before) +
      (if op.AddTurnOp? && OverBudget(BudgetAfter(budget, before), op.turn) then 1 else 0)
  }

  lemma ApplyKeepsBooks(s: Store, op: Op)
    ensures Apply(s, op).userTurns == s.userTurns + UserText(op)
    ensures Apply(s, op).workspaceWrites == s.workspaceWrites + if Writes(op) then 1 else 0
    ensures Apply(s, op).deliverables ==
            if op.RecordDeliverableOp? && op.path !in s.deliverables then s.deliverables + [op.path] else s.deliverables
    ensures Apply(s, op).truncatedObservations ==
            s.truncatedObservations + if op.AddTurnOp? && OverBudget(s.observationBudget, op.turn) then 1 else 0
  {
    assert s.userTurns + [] == s.userTurns;
  }

  /** Over any run the session's instructions are the mission and every message in order, the
      deliverables are the written paths without repeats in order of first write, the write
      counter counts the repeats too, and every cut observation is counted. */
  lemma {:induction false} BooksAreKept(mission: string, ops: seq<Op>)
    ensures var s := Run(Fresh(mission, Installed([]), Installed([])), ops);
            s.userTurns == [mission] + FlatMap(UserText, ops) &&
            s.deliverables == Distinct(FlatMap(DeliverablePath, ops)) &&
            s.workspaceWrites == Count(Writes, ops) &&
            s.truncatedObservations == Truncations(DEFAULT_BUDGET, ops)
  {
    if ops != [] {
      var before, op := ops[..|ops| - 1], ops[|ops| - 1];
      BooksAreKept(mission, before);
      NothingIsLost(mission, before);
      ApplyKeepsBooks(Run(Fresh(mission, Installed([]), Installed([])), before), op);
      Associative([mission], FlatMap(UserText, before), UserText(op));
      DistinctSnoc(FlatMap(DeliverablePath, before), DeliverablePath(op));
    }
  }

  // --- The two rewriting passes ---------------------------------------------------------

  // Both passes, in either order: the store they leave and how many records each rewrote.
  datatype Passes = Passes(store: Store, duplicates: nat, stale: nat)

  function DuplicatesThenStale(s: Store, observation: string, dup: string,
                               path: string, current: string, stale: string): Passes {
    var s1 := SupersedeDuplicates(s, observation, dup);
    Passes(SupersedeStale(s1, path, current, stale),
           Count(IsDuplicate(observation), s.recent), Count(IsStale(path, current), s1.recent))
  }

  function StaleThenDuplicates(s: Store, observation: string, dup: string,
                               path: string, current: string, stale: string): Passes {
    var s1 := SupersedeStale(s, path, current, stale);
    Passes(SupersedeDuplicates(s1, observation, dup),
           Count(IsDuplicate(observation), s1.recent), Count(IsStale(path, current), s.recent))
  }

  /** Rewriting what one predicate matches leaves another's count alone when, record by
      record, it changes nothing the other one sees. */
  lemma {:induction false} CountAfterRewrite(p: TurnRecord -> bool, f: TurnRecord -> TurnRecord, xs: seq<TurnRecord>)
    requires forall t :: t in xs ==> p(f(t)) == p(t)
    ensures Count(p, Map(f, xs)) == Count(p, xs)
  {
    if xs != [] {
      var n := |xs| - 1;
      assert Map(f, xs)[..n] == Map(f, xs[..n]);
      assert forall t :: t in xs[..n] ==> t in xs;
      CountAfterRewrite(p, f, xs[..n]);
    }
  }

  predicate OneRead(observation: string, path: string, current: string, stale: string) {
    observation == "" || path == "" ||
    (ObservedBytes(observation) == ObservedBytes(current) && stale != observation)
  }

  lemma {:induction false} PassesCommuteOn(s: Store, observation: string, dup: string,
                                           path: string, current: string, stale: string)
    requires OneRead(observation, path, current, stale)
    ensures DuplicatesThenStale(s, observation, dup, path, current, stale) ==
            StaleThenDuplicates(s, observation, dup, path, current, stale)
  {
    var d, e := IsDuplicate(observation), IsStale(path, current);
    var f, g := Rewriter(d, dup), Rewriter(e, stale);
    CountAfterRewrite(e, f, s.recent);
    CountAfterRewrite(d, g, s.recent);
    assert Map(g, Map(f, s.recent)) == Map(f, Map(g, s.recent));
  }

  /** A text other than a given one, and whose observed bytes are not the live ones. */
  function Another(observation: string, live: string): (other: string)
    ensures other != observation && ObservedBytes(other) != live
  {
    var candidates := ["", "a", "b"];
    Unnoted("");
    Unnoted("a");
    Unnoted("b");
    if "" != observation && "" != live then ""
    else if "a" != observation && "a" != live then "a"
    else "b"
  }

  lemma Unnoted(s: string)
    requires |s| <= 1
    ensures ObservedBytes(s) == s
  {
    FindAbsent(s, NOTE_MARK);
  }

  /** The header claims the two passes commute. They do, whatever the store holds, exactly
      when both describe one read: the stale pass measures against the same bytes, and its
      replacement is not itself the text the duplicate pass looks for. */
  lemma PassesCommute(observation: string, dup: string, path: string, current: string, stale: string)
    ensures (forall s: Store :: DuplicatesThenStale(s, observation, dup, path, current, stale) ==
                                StaleThenDuplicates(s, observation, dup, path, current, stale))
            <==> OneRead(observation, path, current, stale)
  {
    if OneRead(observation, path, current, stale) {
      forall s: Store
        ensures DuplicatesThenStale(s, observation, dup, path, current, stale) ==
                StaleThenDuplicates(s, observation, dup, path, current, stale)
      {
        PassesCommuteOn(s, observation, dup, path, current, stale);
      }
    } else {
      // A store with one snapshot of the file tells the two orders apart.
      var text := if stale == observation then Another(observation, ObservedBytes(current)) else observation;
      var t := BLANK_TURN.(observation := text, observedPath := path);
      var s := Fresh("", Unset, Unset).(recent := [t]);
      PassesDiffer(s, t, observation, dup, path, current, stale);
    }
  }

  lemma PassesDiffer(s: Store, t: TurnRecord, observation: string, dup: string,
                     path: string, current: string, stale: string)
    requires s.recent == [t] && observation != "" && path != "" && t.observedPath == path
    requires ObservedBytes(t.observation) != ObservedBytes(current)
    requires if stale == observation then t.observation != observation else t.observation == observation
    ensures DuplicatesThenStale(s, observation, dup, path, current, stale) !=
            StaleThenDuplicates(s, observation, dup, path, current, stale)
  {
    var d, e := IsDuplicate(observation), IsStale(path, current);
    assert forall p: TurnRecord -> bool, u: TurnRecord :: Count(p, [u]) == if p(u) then 1 else 0 by {
      forall p: TurnRecord -> bool, u: TurnRecord ensures Count(p, [u]) == if p(u) then 1 else 0 {
        assert [u][..0] == [];
      }
    }
    var byStale, byDup := Rewriter(e, stale)(t), Rewriter(d, dup)(t);
    assert SupersedeStale(s, path, current, stale).recent == [byStale];
    assert SupersedeDuplicates(s, observation, dup).recent == [byDup];
  }

  /** Each pass is idempotent: a repeat rewrites nothing, unless its replacement is itself
      matched again -- for the stale pass it never is. */
  lemma RepeatRewritesNothing(s: Store, observation: string, dup: string,
                              path: string, current: string, stale: string)
    ensures Count(IsStale(path, current), SupersedeStale(s, path, current, stale).recent) == 0
    ensures dup != observation ==>
              Count(IsDuplicate(observation), SupersedeDuplicates(s, observation, dup).recent) == 0
    ensures dup == observation ==>
              Count(IsDuplicate(observation), SupersedeDuplicates(s, observation, dup).recent) ==
              Count(IsDuplicate(observation), s.recent)
  {
    if dup == observation {
      CountAfterRewrite(IsDuplicate(observation), Rewriter(IsDuplicate(observation), dup), s.recent);
    }
  }

  /** After the stale pass no stale copy is left, and whatever is still tagged with the path
      holds the live bytes. */
  lemma NoStaleCopyIsLeft(s: Store, path: string, current: string, replacement: string)
    requires path != ""
    ensures var s' := SupersedeStale(s, path, current, replacement);
            StaleCopies(s', path, current) == 0 &&
            forall t :: t in s'.recent && t.observedPath == path ==>
              ObservedBytes(t.observation) == ObservedBytes(current) && t in s.recent
  {
  }

  // --- Notes ----------------------------------------------------------------------------

  /** Appending a note to an observation changes none of its observed bytes: the marker
      opens with the only newline it has, so it cannot straddle the join. */
  lemma NotesAreNotObserved(observation: string, note: string)
    ensures ObservedBytes(observation + NOTE_MARK + note) == ObservedBytes(observation)
  {
    var n := |observation|;
    var joined := observation + NOTE_MARK;
    if Find(observation, NOTE_MARK).Some? {
      FindExtends(observation, NOTE_MARK, NOTE_MARK + note);
      assert observation + (NOTE_MARK + note) == joined + note;
    } else {
      assert At(joined, NOTE_MARK, n);
      assert forall k :: 1 <= k < |NOTE_MARK| ==> NOTE_MARK[k] != '\n';
      forall j | 0 <= j < n
        ensures !At(joined, NOTE_MARK, j)
      {
        if j + |NOTE_MARK| <= n {
          assert joined[j..j + |NOTE_MARK|] == observation[j..j + |NOTE_MARK|];
          assert !At(observation, NOTE_MARK, j);
        } else if j + |NOTE_MARK| <= |joined| {
          assert joined[j..j + |NOTE_MARK|][n - j] == joined[n] == '\n' != NOTE_MARK[n - j];
        }
      }
      FindIs(joined, NOTE_MARK, n);
      FindExtends(joined, NOTE_MARK, note);
    }
  }

  /** So noting either side of the comparison leaves every stale count as it was. */
  lemma NotesDoNotMakeStale(s: Store, i: nat, path: string, current: string, note: string)
    requires i < |s.recent|
    ensures var noted := s.recent[i].(observation := s.recent[i].observation + NOTE_MARK + note);
            StaleCopies(s.(recent := s.recent[i := noted]), path, current) == StaleCopies(s, path, current)
    ensures StaleCopies(s, path, current + NOTE_MARK + note) == StaleCopies(s, path, current)
  {
    NotesAreNotObserved(s.recent[i].observation, note);
    NotesAreNotObserved(current, note);
    var noted := s.recent[i].(observation := s.recent[i].observation + NOTE_MARK + note);
    CountPointwise((t: TurnRecord) => Stale(path, current, t), (t: TurnRecord) => Stale(path, current, t),
                   s.recent, s.recent[i := noted]);
    CountPointwise((t: TurnRecord) => Stale(path, current, t),
                   (t: TurnRecord) => Stale(path, current + NOTE_MARK + note, t), s.recent, s.recent);
  }

  lemma {:induction false} CountPointwise<T>(p: T -> bool, q: T -> bool, xs: seq<T>, ys: seq<T>)
    requires |xs| == |ys|
    requires forall i :: 0 <= i < |xs| ==> p(xs[i]) == q(ys[i])
    ensures Count(p, xs) == Count(q, ys)
  {
    if xs != [] {
      CountPointwise(p, q, xs[..|xs| - 1], ys[..|ys| - 1]);
    }
  }
}
