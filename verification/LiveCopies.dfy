/** One live copy: when every read first collapses what it makes redundant and then adds its
    own record, the recent turns hold at most one copy of any observation -- the newest --
    and has_observation says exactly whether it is still there. */
module LiveCopies {
  import opened Sequences
  import opened Text
  import opened ContextModel
  import opened ContextLaws

  // What happens to the recent turns: a tool turn comes in, or the oldest ones are trimmed.
  datatype Event =
    | Read(turn: TurnRecord, duplicateText: string, staleText: string)
    | Trim(keep: nat, countAsEvent: bool)

  function Perform(s: Store, e: Event): Store {
    match e
    case Read(t, dup, stale) =>
      AddTurn(SupersedeStale(SupersedeDuplicates(s, t.observation, dup), t.observedPath, t.observation, stale), t)
    case Trim(k, c) => CompactOldest(s, k, c)
  }

  function PerformAll(s: Store, es: seq<Event>): Store {
    if es == [] then s else Perform(PerformAll(s, es[..|es| - 1]), es[|es| - 1])
  }

  // Where the one copy of an observation is: the number of the turn that read it and the
  // path it is a snapshot of -- or nowhere.
  datatype Live = Gone | Held(turn: nat, path: string)

  // What the events alone say: turns read so far, how many are still recent, and the copy.
  datatype Ledger = Ledger(turns: nat, window: nat, live: Live)

  function Track(l: Ledger, x: string, e: Event): Ledger {
    match e
    case Read(t, _, _) =>
      Ledger(l.turns + 1, l.window + 1,
        if t.observation == x then Held(l.turns, t.observedPath)
        else if l.live.Held? && t.observedPath != "" && t.observedPath == l.live.path &&
                ObservedBytes(t.observation) != ObservedBytes(x) then Gone
        else l.live)
    case Trim(keep, _) =>
      var window := if l.window <= keep then l.window else keep;
      Ledger(l.turns, window,
        if l.live.Held? && l.live.turn < l.turns - window then Gone else l.live)
  }

  function TrackAll(x: string, es: seq<Event>): Ledger {
    if es == [] then Ledger(0, 0, Gone) else Track(TrackAll(x, es[..|es| - 1]), x, es[|es| - 1])
  }

  /** A replacement text is never the observation itself. */
  predicate Foreign(x: string, e: Event) {
    e.Read? ==> e.duplicateText != x && e.staleText != x
  }

  ghost predicate Agrees(s: Store, x: string, l: Ledger) {
    && s.turnsRecorded == l.turns && |s.recent| == l.window && l.window <= l.turns
    && (l.live.Held? ==> l.turns - l.window <= l.live.turn < l.turns)
    && forall j :: 0 <= j < |s.recent| ==>
         (s.recent[j].observation == x <==> l.live.Held? && l.live.turn == l.turns - l.window + j) &&
         (s.recent[j].observation == x ==> s.recent[j].observedPath == l.live.path)
  }

  lemma ReadAgrees(s: Store, x: string, l: Ledger, e: Event)
    requires e.Read? && Foreign(x, e) && Agrees(s, x, l)
    requires x != "" && |x| <= s.observationBudget
    ensures Agrees(Perform(s, e), x, Track(l, x, e))
  {
    var s1 := SupersedeDuplicates(s, e.turn.observation, e.duplicateText);
    var s2 := SupersedeStale(s1, e.turn.observedPath, e.turn.observation, e.staleText);
    var s3 := AddTurn(s2, e.turn);
    var l' := Track(l, x, e);
    assert s3.recent[|s2.recent|].observation == x <==> e.turn.observation == x;
    forall j | 0 <= j < |s2.recent|
      ensures s3.recent[j].observation == x <==> l'.live.Held? && l'.live.turn == l'.turns - l'.window + j
      ensures s3.recent[j].observation == x ==> s3.recent[j].observedPath == l'.live.path
    {
      var t := s.recent[j];
      assert s3.recent[j] == s2.recent[j];
      assert s1.recent[j] == Rewriter(IsDuplicate(e.turn.observation), e.duplicateText)(t);
      assert s2.recent[j] == Rewriter(IsStale(e.turn.observedPath, e.turn.observation), e.staleText)(s1.recent[j]);
    }
  }

  lemma TrimAgrees(s: Store, x: string, l: Ledger, e: Event)
    requires e.Trim? && Agrees(s, x, l)
    ensures Agrees(Perform(s, e), x, Track(l, x, e))
  {
    hide Span;
    if |s.recent| > e.keep {
      var drop := |s.recent| - e.keep;
      forall j | 0 <= j < e.keep
        ensures Perform(s, e).recent[j] == s.recent[drop + j]
      {
      }
    }
  }

  /** A store just opened, its budget set. */
  function Opened(mission: string, budget: nat): Store { Fresh(mission, Unset, Unset).(observationBudget := budget) }

  /** Through any number of reads and trims, has_observation is true exactly while the newest
      copy is neither trimmed nor superseded as stale, and no second copy ever exists. */
  lemma {:induction false} OneLiveCopy(mission: string, budget: nat, x: string, es: seq<Event>)
    requires x != "" && |x| <= budget
    requires forall e :: e in es ==> Foreign(x, e)
    ensures var s := PerformAll(Opened(mission, budget), es);
            var l := TrackAll(x, es);
            s.observationBudget == budget && Agrees(s, x, l) &&
            (HasObservation(s, x) <==> l.live.Held?)
  {
    if es != [] {
      var before, e := es[..|es| - 1], es[|es| - 1];
      OneLiveCopy(mission, budget, x, before);
      var s := PerformAll(Opened(mission, budget), before);
      if e.Read? {
        ReadAgrees(s, x, TrackAll(x, before), e);
      } else {
        TrimAgrees(s, x, TrackAll(x, before), e);
      }
    }
    HeldIsPresent(PerformAll(Opened(mission, budget), es), x, TrackAll(x, es));
  }

  lemma HeldIsPresent(s: Store, x: string, l: Ledger)
    requires x != "" && Agrees(s, x, l)
    ensures HasObservation(s, x) <==> l.live.Held?
  {
    if l.live.Held? {
      var j := l.live.turn - (l.turns - l.window);
      assert s.recent[j] in s.recent && s.recent[j].observation == x;
    }
  }

  /** The copy the ledger holds is the newest: the last read of the observation. */
  lemma {:induction false} HeldIsTheLastRead(x: string, es: seq<Event>, i: nat)
    requires i < |es| && es[i].Read? && es[i].turn.observation == x
    requires forall j :: i < j < |es| && es[j].Read? ==> es[j].turn.observation != x
    ensures TrackAll(x, es).live.Held? ==>
              TrackAll(x, es).live == Held(TrackAll(x, es[..i]).turns, es[i].turn.observedPath)
  {
    var n := |es| - 1;
    if i < n {
      HeldIsTheLastRead(x, es[..n], i);
      assert es[..n][..i] == es[..i];
    }
  }

  /** The order matters. Collapsing after the record is added leaves no copy at all, so the
      promise that one copy stays live holds exactly when the pass runs first. */
  lemma CollapsingLateLeavesNoCopy(s: Store, t: TurnRecord, replacement: string)
    requires t.observation != "" && |t.observation| <= s.observationBudget && replacement != t.observation
    ensures HasObservation(AddTurn(SupersedeDuplicates(s, t.observation, replacement), t), t.observation)
    ensures !HasObservation(SupersedeDuplicates(AddTurn(s, t), t.observation, replacement), t.observation)
  {
    var early := AddTurn(SupersedeDuplicates(s, t.observation, replacement), t);
    assert early.recent[|early.recent| - 1] == t;
    var late := SupersedeDuplicates(AddTurn(s, t), t.observation, replacement);
    forall u | u in late.recent
      ensures u.observation != t.observation
    {
      var j :| 0 <= j < |late.recent| && late.recent[j] == u;
    }
  }
}
