/** What each operation of the store does to it, field by field and record by record. */
module Steps {
  import opened Sequences
  import opened Text
  import opened ContextModel

  /** The texts the store puts in itself, and how much of an observation it keeps unless told. */
  lemma MarksAndLimits(mission: string, turns: Sink<TurnRecord>, compacted: Sink<SinkCall>)
    ensures var s := Fresh(mission, turns, compacted);
            s.observationBudget == 1048576 && s.userTurns == [mission] && s.recent == [] && s.spans == [] &&
            s.turnsRecorded == s.compactions == s.truncatedObservations == s.workspaceWrites == 0 &&
            s.deliverables == [] && s.checklist == [] && s.lastCheck.None? &&
            s.turnSink == turns && s.compactionSink == compacted
    ensures TRUNCATION_MARK == "\n[truncated at the observation budget]\n" && NOTE_MARK == "\n[Note:"
  {
  }

  predicate SameButObservation(t: TurnRecord, kept: TurnRecord) {
    && kept.userText == t.userText && kept.assistantText == t.assistantText && kept.toolName == t.toolName
    && kept.toolArgsSummary == t.toolArgsSummary && kept.toolCallText == t.toolCallText
    && kept.observedPath == t.observedPath && kept.observedImages == t.observedImages && kept.isError == t.isError
    && kept.firstEventSeq == t.firstEventSeq && kept.lastEventSeq == t.lastEventSeq
  }

  /** A turn is appended as it is, or with an observation over the budget cut there and marked, and then
      it is counted as cut; it is counted; and the sink is handed what was kept. */
  lemma TurnIsKept(s: Store, t: TurnRecord)
    ensures var s', n, cut := Apply(s, AddTurnOp(t)), |s.recent|, |t.observation| > s.observationBudget;
            |s'.recent| == n + 1 && s'.recent[..n] == s.recent && SameButObservation(t, s'.recent[n]) &&
            s'.recent[n].observation ==
              (if cut then t.observation[..s.observationBudget] + "\n[truncated at the observation budget]\n"
               else t.observation) &&
            s'.turnSink == (match s.turnSink
                            case Installed(calls) => Installed(calls + [s'.recent[n]])
                            case Unset => Unset) &&
            s' == s.(recent := s'.recent, turnsRecorded := s.turnsRecorded + 1, turnSink := s'.turnSink,
                     truncatedObservations := s.truncatedObservations + if cut then 1 else 0)
  {
  }

  /** A message of the user's joins the instructions and becomes a turn with its text and images and
      nothing else. */
  lemma MessageIsKept(s: Store, text: string, images: seq<string>)
    ensures var s', n := Apply(s, AddUserOp(text, images)), |s.recent|;
            s'.userTurns == s.userTurns + [text] && |s'.recent| == n + 1 && s'.recent[..n] == s.recent &&
            (var t := s'.recent[n];
             t.userText == text && t.observedImages == images && t.assistantText == t.toolName == "" &&
             t.toolArgsSummary == t.toolCallText == t.observedPath == t.observation == "" &&
             !t.isError && t.firstEventSeq == t.lastEventSeq == 0) &&
            s'.turnsRecorded == s.turnsRecorded + 1 && s'.truncatedObservations == s.truncatedObservations
  {
  }

  /** The record is a pointer now: this text, no snapshot of a file, and all else as it was. */
  predicate Pointed(t: TurnRecord, t': TurnRecord, text: string) {
    t' == t.(observation := t'.observation, observedPath := t'.observedPath) &&
    t'.observation == text && t'.observedPath == ""
  }

  /** The records with exactly these bytes become pointers; the others, and all else, stay. */
  lemma DuplicatesArePointed(s: Store, observation: string, replacement: string, i: nat)
    requires i < |s.recent|
    ensures var s' := Apply(s, SupersedeDuplicatesOp(observation, replacement));
            s' == s.(recent := s'.recent) && |s'.recent| == |s.recent| &&
            if observation != "" && s.recent[i].observation == observation
            then Pointed(s.recent[i], s'.recent[i], replacement)
            else s'.recent[i] == s.recent[i]
  {
  }

  /** The bytes without the notes: up to the first line that opens as one. */
  lemma ObservedUpToTheFirstNote(observation: string, n: nat)
    requires n <= |observation| && "\n[Note:" <= observation[n..]
    requires forall j :: 0 <= j < n ==> !("\n[Note:" <= observation[j..])
    ensures ObservedBytes(observation) == observation[..n]
  {
    assert observation[n..n + 7] == observation[n..][..7];
    assert At(observation, NOTE_MARK, n);
    forall j | 0 <= j < n
      ensures !At(observation, NOTE_MARK, j)
    {
      if j + 7 <= |observation| {
        assert observation[j..j + 7] == observation[j..][..7];
      }
    }
    FindIs(observation, NOTE_MARK, n);
  }

  /** The records of the file whose bytes are not these become pointers; the others, and all else, stay. */
  lemma StaleCopiesArePointed(s: Store, path: string, current: string, replacement: string, i: nat)
    requires i < |s.recent|
    ensures var s', t := Apply(s, SupersedeStaleOp(path, current, replacement)), s.recent[i];
            s' == s.(recent := s'.recent) && |s'.recent| == |s.recent| &&
            if path != "" && t.observedPath == path && ObservedBytes(t.observation) != ObservedBytes(current)
            then Pointed(t, s'.recent[i], replacement)
            else s'.recent[i] == t
  {
  }

  /** One record becomes a pointer, or none when there is no such record. */
  lemma OneIsPointed(s: Store, index: nat, text: string, i: nat)
    requires i < |s.recent|
    ensures var s' := Apply(s, RewriteOp(index, text));
            s' == s.(recent := s'.recent) && |s'.recent| == |s.recent| &&
            if i == index then Pointed(s.recent[i], s'.recent[i], text) else s'.recent[i] == s.recent[i]
  {
  }

  /** The rest touch one field or two. */
  lemma TheRestIsBooks(s: Store, path: string, items: seq<ChecklistItem>, check: CheckResult, budget: nat)
    ensures Apply(s, RecordDeliverableOp(path)) ==
            s.(workspaceWrites := s.workspaceWrites + 1,
               deliverables := s.deliverables + if path in s.deliverables then [] else [path])
    ensures Apply(s, InvalidateFreshnessOp) == s.(workspaceWrites := s.workspaceWrites + 1)
    ensures Apply(s, SetChecklistOp(items)) == s.(checklist := items)
    ensures Apply(s, SetLastCheckOp(check)) == s.(lastCheck := Some(check))
    ensures Apply(s, SetBudgetOp(budget)) == s.(observationBudget := budget)
    ensures Apply(s, NoteCompactionOp) == s.(compactions := s.compactions + 1)
  {
    assert s.deliverables + [] == s.deliverables;
  }
}
