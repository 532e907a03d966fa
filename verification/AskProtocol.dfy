/** The file handshake between a worker run and the parents that answer its questions, as a
    machine of single file accesses. The worker clears, asks, polls and closes as
    src/surface/worker.cpp and sidecar.cpp do; a parent reads the ask file, then the result
    file, then checks the writer is alive, and only then writes an answer, as
    scripts/piper_worker.py does. Any number of parents interleave with the worker. */
module AskProtocol {
  import opened Sequences

  // awaiting_user.json: the question, bound to its run and event number, and the asking process.
  datatype Ask = Ask(run: nat, no: nat, question: string, pid: nat)

  // answer.json. `about` is the ask the parent was looking at, and `writer` is that parent; the file
  // carries run and no.
  datatype Answer = Answer(run: nat, no: nat, text: string, about: Ask, writer: nat)

  datatype Worker =
    | Off
    | Clearing(run: nat, step: nat)
    | Running(run: nat, next: nat)
    | Asking(ask: Ask)
    | Discarding(ask: Ask)
    | Accepting(ask: Ask)
    | Closing(ask: Ask)
    | Finishing(run: nat)
    | Finished(run: nat)

  datatype Parent =
    | Arrived
    | SawAsk(seen: Option<Ask>)
    | SawBoth(seen: Option<Ask>, result: Option<nat>)
    | Reported(ask: Ask)
    | Refused
    | Answered

  datatype Applied = Applied(ask: Ask, answer: Answer)

  // The files, the processes, and the history the promises are about.
  datatype World = World(
    ask: Option<Ask>,
    answer: Option<Answer>,
    result: Option<nat>,
    worker: Worker,
    parents: seq<Parent>,
    runs: nat,
    pid: nat,
    asked: seq<Ask>,
    finished: set<nat>,
    applied: seq<Applied>)

  const INITIAL := World(None, None, None, Off, [], 0, 0, [], {}, [])

  datatype Action =
    | Launch
    | Clear
    | OpenAsk(gap: nat, question: string)
    | Poll
    | RemoveAnswer
    | RemoveAsk
    | GiveUp
    | Finish
    | CloseRun
    | WriteResult
    | Crash
    | ParentArrives
    | ReadAsk(who: nat)
    | ReadResult(who: nat)
    | Judge(who: nat)
    | WriteAnswer(who: nat, text: string)

  /** An ask speaks for a run only while the process that wrote it lives. */
  predicate AskIsLive(w: World, a: Ask) { a.pid == w.pid }

  predicate Bound(x: Answer, a: Ask) { x.run == a.run && x.no == a.no }

  /** collect_run_status as one look at all the files. */
  function Status(w: World): Option<Ask> {
    if w.result.None? && w.ask.Some? && AskIsLive(w, w.ask.value) then w.ask else None
  }

  /** The worker's way from launch to result. */
  function RunStep(w: World, a: Action): World {
    match (a, w.worker)
    case (Launch, Off) => w.(worker := Clearing(w.runs, 0), runs := w.runs + 1)
    case (Clear, Clearing(r, k)) =>
      if k == 0 then w.(ask := None, worker := Clearing(r, 1))
      else if k == 1 then w.(answer := None, worker := Clearing(r, 2))
      else w.(result := None, worker := Running(r, 0))
    case (Finish, Running(r, n)) => w.(worker := Finishing(r))
    case (CloseRun, Finishing(r)) => w.(ask := None, worker := Finished(r))
    case (WriteResult, Finished(r)) => w.(result := Some(r), finished := w.finished + {r}, worker := Off)
    case (Crash, _) => w.(worker := Off, pid := w.pid + 1)
    case _ => w
  }

  /** The worker with a question. */
  function AskStep(w: World, a: Action): World {
    match (a, w.worker)
    case (OpenAsk(gap, question), Running(r, n)) =>
      var ask := Ask(r, n + gap, question, w.pid);
      w.(ask := Some(ask), asked := w.asked + [ask], worker := Asking(ask))
    case (Poll, Asking(ask)) =>
      if w.answer.None? then w
      else if Bound(w.answer.value, ask) then
        w.(worker := Accepting(ask), applied := w.applied + [Applied(ask, w.answer.value)])
      else w.(worker := Discarding(ask))
    case (RemoveAnswer, Discarding(ask)) => w.(answer := None, worker := Asking(ask))
    case (RemoveAnswer, Accepting(ask)) => w.(answer := None, worker := Closing(ask))
    case (GiveUp, Asking(ask)) => w.(worker := Closing(ask))
    case (RemoveAsk, Closing(ask)) => w.(ask := None, worker := Running(ask.run, ask.no + 1))
    case _ => w
  }

  function ParentStep(w: World, a: Action): World {
    match a
    case ParentArrives => w.(parents := w.parents + [Arrived])
    case ReadAsk(i) =>
      if i < |w.parents| && w.parents[i].Arrived? then w.(parents := w.parents[i := SawAsk(w.ask)]) else w
    case ReadResult(i) =>
      if i < |w.parents| && w.parents[i].SawAsk? then
        w.(parents := w.parents[i := SawBoth(w.parents[i].seen, w.result)])
      else w
    case Judge(i) =>
      if i < |w.parents| && w.parents[i].SawBoth? then
        var p := w.parents[i];
        w.(parents := w.parents[i :=
          if p.result.None? && p.seen.Some? && AskIsLive(w, p.seen.value) then Reported(p.seen.value) else Refused])
      else w
    case WriteAnswer(i, text) =>
      if i < |w.parents| && w.parents[i].Reported? then
        var ask := w.parents[i].ask;
        w.(answer := Some(Answer(ask.run, ask.no, text, ask, i)), parents := w.parents[i := Answered])
      else w
    case _ => w
  }

  predicate ParentActs(a: Action) { a.ParentArrives? || a.ReadAsk? || a.ReadResult? || a.Judge? || a.WriteAnswer? }

  predicate Asks(a: Action) { a.OpenAsk? || a.Poll? || a.RemoveAnswer? || a.GiveUp? || a.RemoveAsk? }

  function Step(w: World, a: Action): World {
    if ParentActs(a) then ParentStep(w, a) else if Asks(a) then AskStep(w, a) else RunStep(w, a)
  }

  function Reached(actions: seq<Action>): World {
    if actions == [] then INITIAL else Step(Reached(actions[..|actions| - 1]), actions[|actions| - 1])
  }

  // --- The invariant ------------------------------------------------------------------------------

  function CurrentRun(w: Worker): Option<nat> {
    match w
    case Off => None
    case Clearing(r, _) => Some(r)
    case Running(r, _) => Some(r)
    case Asking(a) => Some(a.run)
    case Discarding(a) => Some(a.run)
    case Accepting(a) => Some(a.run)
    case Closing(a) => Some(a.run)
    case Finishing(r) => Some(r)
    case Finished(r) => Some(r)
  }

  predicate Waiting(w: Worker) { w.Asking? || w.Discarding? || w.Accepting? || w.Closing? }

  function Saw(p: Parent): Option<Ask> { if p.SawAsk? || p.SawBoth? then p.seen else None }

  ghost predicate KnownAsks(w: World) {
    && (w.ask.Some? ==> w.ask.value in w.asked)
    && (forall i :: 0 <= i < |w.parents| && w.parents[i].Reported? ==> w.parents[i].ask in w.asked)
    && (forall i :: 0 <= i < |w.parents| && Saw(w.parents[i]).Some? ==> Saw(w.parents[i]).value in w.asked)
    && (w.answer.Some? ==> w.answer.value.about in w.asked && Bound(w.answer.value, w.answer.value.about))
  }

  /** Asks are told apart by run and number; a run numbers its asks upward. */
  ghost predicate AsksAreDistinct(w: World) {
    && (forall i, j :: 0 <= i < j < |w.asked| ==>
          w.asked[i].run != w.asked[j].run || w.asked[i].no != w.asked[j].no)
    && (forall a :: a in w.asked ==> a.run < w.runs)
    && (w.worker.Clearing? ==> forall a :: a in w.asked ==> a.run != w.worker.run)
    && (w.worker.Running? ==> forall a :: a in w.asked && a.run == w.worker.run ==> a.no < w.worker.next)
    && (Waiting(w.worker) ==> w.worker.ask in w.asked)
    && (Waiting(w.worker) ==> forall a :: a in w.asked && a.run == w.worker.ask.run ==> a.no <= w.worker.ask.no)
  }

  /** Where the worker is and what the files then hold. */
  ghost predicate FilesFitWorker(w: World) {
    && (CurrentRun(w.worker).Some? ==>
          CurrentRun(w.worker).value + 1 == w.runs && CurrentRun(w.worker).value !in w.finished)
    && (Waiting(w.worker) ==> w.ask == Some(w.worker.ask) && w.worker.ask.pid == w.pid)
    && (w.ask.Some? ==> w.ask.value.run !in w.finished && w.ask.value.pid <= w.pid)
    && (w.ask.Some? && w.ask.value.pid == w.pid ==> Waiting(w.worker))
    && (w.worker.Finished? ==> w.ask.None?)
    && (Waiting(w.worker) || w.worker.Running? ==> w.result.None?)
    && (forall r :: r in w.finished ==> r < w.runs && (r + 1 == w.runs ==> w.result == Some(r)))
    && (w.result.Some? ==> w.result.value in w.finished)
  }

  /** An ask of a process still alive is that of a finished run, or of the one going on. */
  ghost predicate LiveAsksAreAccountedFor(w: World) {
    forall a :: a in w.asked ==>
      a.pid <= w.pid && (a.pid == w.pid ==> a.run in w.finished || CurrentRun(w.worker) == Some(a.run))
  }

  ghost predicate AnswersFitAsks(w: World) {
    && (forall k :: 0 <= k < |w.applied| ==>
          w.applied[k].ask in w.asked && w.applied[k].answer.about == w.applied[k].ask)
    && (forall j, k :: 0 <= j < k < |w.applied| ==> w.applied[j].ask != w.applied[k].ask)
    && (w.worker.Asking? || w.worker.Discarding? ==>
          forall k :: 0 <= k < |w.applied| ==> w.applied[k].ask != w.worker.ask)
  }

  ghost predicate Inv(w: World) {
    KnownAsks(w) && AsksAreDistinct(w) && FilesFitWorker(w) && LiveAsksAreAccountedFor(w) && AnswersFitAsks(w)
  }

  // --- What each kind of step keeps ------------------------------------------------------------------

  lemma RunKnowsAsks(w: World, a: Action)
    requires KnownAsks(w)
    ensures KnownAsks(RunStep(w, a))
  {
  }

  lemma RunKeepsAsksDistinct(w: World, a: Action)
    requires AsksAreDistinct(w)
    ensures AsksAreDistinct(RunStep(w, a))
  {
  }

  lemma AskKnowsAsks(w: World, a: Action)
    requires KnownAsks(w)
    ensures KnownAsks(AskStep(w, a))
  {
  }

  lemma AskKeepsAsksDistinct(w: World, a: Action)
    requires AsksAreDistinct(w) && FilesFitWorker(w)
    ensures AsksAreDistinct(AskStep(w, a))
  {
  }

  lemma ParentKnowsAsks(w: World, a: Action)
    requires KnownAsks(w)
    ensures KnownAsks(ParentStep(w, a))
  {
  }

  lemma ParentKeepsAsksDistinct(w: World, a: Action)
    requires AsksAreDistinct(w)
    ensures AsksAreDistinct(ParentStep(w, a))
  {
  }

  lemma RunFitsFiles(w: World, a: Action)
    requires AsksAreDistinct(w) && FilesFitWorker(w)
    ensures FilesFitWorker(RunStep(w, a))
  {
  }

  lemma AskFitsFiles(w: World, a: Action)
    requires FilesFitWorker(w)
    ensures FilesFitWorker(AskStep(w, a))
  {
  }

  lemma ParentFitsFiles(w: World, a: Action)
    requires FilesFitWorker(w)
    ensures FilesFitWorker(ParentStep(w, a))
  {
  }

  lemma ParentFitsAnswers(w: World, a: Action)
    requires AnswersFitAsks(w)
    ensures AnswersFitAsks(ParentStep(w, a))
  {
  }

  lemma RunAccountsForAsks(w: World, a: Action)
    requires AsksAreDistinct(w) && FilesFitWorker(w) && LiveAsksAreAccountedFor(w)
    ensures LiveAsksAreAccountedFor(RunStep(w, a))
  {
  }

  lemma AskAccountsForAsks(w: World, a: Action)
    requires LiveAsksAreAccountedFor(w)
    ensures LiveAsksAreAccountedFor(AskStep(w, a))
  {
  }

  lemma ParentAccountsForAsks(w: World, a: Action)
    requires LiveAsksAreAccountedFor(w)
    ensures LiveAsksAreAccountedFor(ParentStep(w, a))
  {
  }

  lemma RunFitsAnswers(w: World, a: Action)
    requires AnswersFitAsks(w)
    ensures AnswersFitAsks(RunStep(w, a))
  {
  }

  lemma PollFitsAnswers(w: World, a: Action)
    requires KnownAsks(w) && AsksAreDistinct(w) && AnswersFitAsks(w) && a.Poll?
    ensures AnswersFitAsks(AskStep(w, a))
  {
    if w.worker.Asking? && w.answer.Some? && Bound(w.answer.value, w.worker.ask) {
      SameAsk(w, w.answer.value.about, w.worker.ask);
    }
  }

  lemma AskFitsAnswers(w: World, a: Action)
    requires AsksAreDistinct(w) && AnswersFitAsks(w) && !a.Poll?
    ensures AnswersFitAsks(AskStep(w, a))
  {
  }

  lemma SameAsk(w: World, x: Ask, y: Ask)
    requires AsksAreDistinct(w) && x in w.asked && y in w.asked && x.run == y.run && x.no == y.no
    ensures x == y
  {
    var i :| 0 <= i < |w.asked| && w.asked[i] == x;
    var j :| 0 <= j < |w.asked| && w.asked[j] == y;
    assert !(i < j) && !(j < i);
  }

  lemma StepKeepsInv(w: World, a: Action)
    requires Inv(w)
    ensures Inv(Step(w, a))
  {
    hide RunStep, AskStep, ParentStep, KnownAsks, AsksAreDistinct, FilesFitWorker;
    hide LiveAsksAreAccountedFor, AnswersFitAsks;
    if ParentActs(a) {
      ParentKnowsAsks(w, a);
      ParentKeepsAsksDistinct(w, a);
      ParentFitsFiles(w, a);
      ParentFitsAnswers(w, a);
      ParentAccountsForAsks(w, a);
    } else if Asks(a) {
      AskKnowsAsks(w, a);
      AskKeepsAsksDistinct(w, a);
      AskFitsFiles(w, a);
      AskAccountsForAsks(w, a);
      if a.Poll? {
        PollFitsAnswers(w, a);
      } else {
        AskFitsAnswers(w, a);
      }
    } else {
      RunKnowsAsks(w, a);
      RunKeepsAsksDistinct(w, a);
      RunFitsFiles(w, a);
      RunAccountsForAsks(w, a);
      RunFitsAnswers(w, a);
    }
  }

  lemma {:induction false} InvAlways(actions: seq<Action>)
    ensures Inv(Reached(actions))
  {
    if actions != [] {
      hide Step, Inv;
      InvAlways(actions[..|actions| - 1]);
      StepKeepsInv(Reached(actions[..|actions| - 1]), actions[|actions| - 1]);
    } else {
      InitiallyInv();
    }
  }

  lemma InitiallyInv()
    ensures Inv(INITIAL)
  {
  }

  // --- What the protocol promises --------------------------------------------------------------------

  /** In every interleaving an answer is applied only to the very ask its parent saw open, and
      no ask is ever answered twice. */
  lemma AnswersReachTheirAsk(actions: seq<Action>)
    ensures var w := Reached(actions);
            (forall k :: 0 <= k < |w.applied| ==>
               w.applied[k].ask in w.asked && w.applied[k].answer.about == w.applied[k].ask) &&
            (forall j, k :: 0 <= j < k < |w.applied| ==> w.applied[j].ask != w.applied[k].ask)
  {
    InvAlways(actions);
  }

  /** In every interleaving a status taken at one moment reports an ask exactly while a live
      run is waiting on it -- never one whose result exists, nor one of a dead process. */
  lemma StatusReportsExactlyTheOpenAsk(actions: seq<Action>)
    ensures var w := Reached(actions);
            Status(w) == (if Waiting(w.worker) then Some(w.worker.ask) else None) &&
            (Status(w).Some? ==> Status(w).value.run !in w.finished)
  {
    InvAlways(actions);
  }

  /** A parent reads the two files one after the other. If by the second read the run it saw
      asking has finished, yet no result is found, another run has been launched since. */
  lemma SplitReadMissesResultOnlyAcrossRuns(actions: seq<Action>, who: nat)
    ensures var w := Reached(actions);
            who < |w.parents| && w.parents[who].SawAsk? && w.parents[who].seen.Some? && w.result.None? &&
            w.parents[who].seen.value.run in w.finished ==>
              w.parents[who].seen.value.run + 1 < w.runs
  {
    InvAlways(actions);
  }

  /** A parent reads the ask, then the result, then looks at the process. When it then finds the
      process alive, the run it saw asking has finished exactly when that run's result is there
      by now, or another run has been launched since -- and the ask is reported all the same
      when the result it read earlier was none. */
  lemma ReportIsOutdatedExactlyWhen(actions: seq<Action>, who: nat)
    requires var w := Reached(actions);
             who < |w.parents| && w.parents[who].SawBoth? && w.parents[who].seen.Some? &&
             AskIsLive(w, w.parents[who].seen.value)
    ensures var w := Reached(actions);
            var ask := w.parents[who].seen.value;
            (ask.run in w.finished <==> w.result == Some(ask.run) || ask.run + 1 < w.runs) &&
            (Step(w, Judge(who)).parents[who] == Reported(ask) <==> w.parents[who].result.None?)
  {
    InvAlways(actions);
  }

  /** The moment a parent read the ask file, as far as it still remembers it. */
  ghost predicate ReadThen(actions: seq<Action>, who: nat, n: nat, ask: Ask) {
    n < |actions| && actions[n] == ReadAsk(who) && Reached(actions[..n]).ask == Some(ask)
  }

  lemma ReadThenExtends(actions: seq<Action>, a: Action, who: nat, n: nat, ask: Ask)
    requires ReadThen(actions, who, n, ask)
    ensures ReadThen(actions + [a], who, n, ask)
  {
    assert (actions + [a])[..n] == actions[..n];
  }

  lemma PidStep(w: World, a: Action)
    ensures w.pid <= Step(w, a).pid
  {
  }

  /** Process numbers only go up. */
  lemma {:induction false} PidsGoUp(actions: seq<Action>, n: nat)
    requires n <= |actions|
    ensures Reached(actions[..n]).pid <= Reached(actions).pid
    decreases |actions|
  {
    hide Step;
    if n < |actions| {
      var before := actions[..|actions| - 1];
      PidsGoUp(before, n);
      PidStep(Reached(before), actions[|actions| - 1]);
      assert before[..n] == actions[..n];
    } else {
      assert actions[..n] == actions;
    }
  }

  /** A parent comes to hold an ask by reading it, and no other way. */
  lemma SawStep(w: World, a: Action, who: nat)
    requires who < |Step(w, a).parents| && Saw(Step(w, a).parents[who]).Some?
    ensures if a == ReadAsk(who) && who < |w.parents| && w.parents[who].Arrived?
            then w.ask == Saw(Step(w, a).parents[who])
            else who < |w.parents| && Saw(w.parents[who]) == Saw(Step(w, a).parents[who])
  {
  }

  /** A parent comes to report an ask by judging the one it holds, its process alive. */
  lemma ReportedStep(w: World, a: Action, who: nat)
    requires who < |Step(w, a).parents| && Step(w, a).parents[who].Reported?
    ensures who < |w.parents|
    ensures var ask := Step(w, a).parents[who].ask;
            if a == Judge(who) && w.parents[who].SawBoth? then Saw(w.parents[who]) == Some(ask) && AskIsLive(w, ask)
            else w.parents[who] == Reported(ask)
  {
  }

  /** Whatever ask a parent holds it has read off the file itself. */
  lemma {:induction false} SeenAsksWereThere(actions: seq<Action>, who: nat) returns (n: nat)
    requires who < |Reached(actions).parents| && Saw(Reached(actions).parents[who]).Some?
    ensures ReadThen(actions, who, n, Saw(Reached(actions).parents[who]).value)
  {
    hide Step, Saw;
    var before, a := actions[..|actions| - 1], actions[|actions| - 1];
    var w := Reached(before);
    SawStep(w, a, who);
    if a == ReadAsk(who) && who < |w.parents| && w.parents[who].Arrived? {
      n := |before|;
    } else {
      n := SeenAsksWereThere(before, who);
      ReadThenExtends(before, a, who, n, Saw(w.parents[who]).value);
      assert before + [a] == actions;
    }
  }

  /** Every ask a parent reports was the open ask when it read the file: a status taken at that
      moment would have said so. */
  lemma {:induction false} ReportedAsksWereOpen(actions: seq<Action>, who: nat) returns (n: nat)
    requires who < |Reached(actions).parents| && Reached(actions).parents[who].Reported?
    ensures n < |actions| && actions[n] == ReadAsk(who)
    ensures Status(Reached(actions[..n])) == Some(Reached(actions).parents[who].ask)
  {
    hide Step, Saw, Status;
    var before, a := actions[..|actions| - 1], actions[|actions| - 1];
    var w := Reached(before);
    ReportedStep(w, a, who);
    if a == Judge(who) && w.parents[who].SawBoth? {
      n := SeenAsksWereThere(before, who);
      PidsGoUp(before, n);
      OpenAskIsStatus(before[..n], Reached(actions).parents[who].ask);
    } else {
      n := ReportedAsksWereOpen(before, who);
    }
    assert before[..n] == actions[..n];
  }

  lemma OpenAskIsStatus(actions: seq<Action>, ask: Ask)
    requires Reached(actions).ask == Some(ask) && ask.pid >= Reached(actions).pid
    ensures Status(Reached(actions)) == Some(ask)
  {
    InvAlways(actions);
  }

  lemma AtFirst()
    ensures Reached([]) == INITIAL
  {
  }

  lemma Go(actions: seq<Action>, w: World, a: Action) returns (more: seq<Action>, w': World)
    requires Reached(actions) == w
    ensures more == actions + [a] && w' == Step(w, a) && Reached(more) == w'
  {
    more, w' := actions + [a], Step(w, a);
    assert more[..|actions|] == actions;
  }

  /** A run is launched, clears the directory, and opens an ask. */
  lemma GoToAsk(actions: seq<Action>, w: World) returns (more: seq<Action>, w': World)
    requires Reached(actions) == w && w.worker == Off
    ensures var ask := Ask(w.runs, 0, "?", w.pid);
            Reached(more) == w' &&
            w' == w.(ask := Some(ask), answer := None, result := None, worker := Asking(ask),
                     runs := w.runs + 1, asked := w.asked + [ask])
  {
    hide Reached;
    more, w' := Go(actions, w, Launch);
    var launched := w.(runs := w.runs + 1);
    assert w' == launched.(worker := Clearing(w.runs, 0));
    more, w' := Go(more, w', Clear);
    assert w' == launched.(worker := Clearing(w.runs, 1), ask := None);
    more, w' := Go(more, w', Clear);
    assert w' == launched.(worker := Clearing(w.runs, 2), ask := None, answer := None);
    more, w' := Go(more, w', Clear);
    assert w' == launched.(worker := Running(w.runs, 0), ask := None, answer := None, result := None);
    more, w' := Go(more, w', OpenAsk(0, "?"));
  }

  /** The wait ends unanswered and the run with it. */
  lemma GoToResult(actions: seq<Action>, w: World) returns (more: seq<Action>, w': World)
    requires Reached(actions) == w && w.worker.Asking?
    ensures Reached(more) == w'
    ensures w' == w.(ask := None, worker := Off, result := Some(w.worker.ask.run),
                     finished := w.finished + {w.worker.ask.run})
  {
    hide Reached;
    var run := w.worker.ask.run;
    more, w' := Go(actions, w, GiveUp);
    more, w' := Go(more, w', RemoveAsk);
    more, w' := Go(more, w', Finish);
    assert w' == w.(ask := None, worker := Finishing(run));
    more, w' := Go(more, w', CloseRun);
    more, w' := Go(more, w', WriteResult);
  }

  /** Both ways of being late are real. With the two reads in different runs, a parent reports as
      open an ask whose run has finished. (Its answer is discarded, by the promise above.) */
  lemma SplitReadCanReportAFinishedRun() returns (actions: seq<Action>)
    ensures var w := Reached(actions);
            |w.parents| == 1 && w.parents[0].Reported? && w.parents[0].ask.run in w.finished
  {
    var w;
    var ask := Ask(0, 0, "?", 0);
    actions, w := GoToAsk([], INITIAL);
    actions, w := Go(actions, w, ParentArrives);
    actions, w := Go(actions, w, ReadAsk(0));
    assert w.parents == [SawAsk(Some(ask))] && w.worker == Asking(ask) && w.pid == 0;
    actions, w := GoToResult(actions, w);
    assert w.parents == [SawAsk(Some(ask))] && w.worker == Off && w.pid == 0 && 0 in w.finished;
    actions, w := GoToAsk(actions, w);
    actions := SecondRead(actions, w, ask);
  }

  lemma SecondRead(actions: seq<Action>, w: World, ask: Ask) returns (more: seq<Action>)
    requires Reached(actions) == w && w.parents == [SawAsk(Some(ask))] && w.result.None? && AskIsLive(w, ask)
    ensures Reached(more).parents == [Reported(ask)] && Reached(more).finished == w.finished
  {
    hide Reached;
    var w';
    more, w' := Go(actions, w, ReadResult(0));
    assert w'.parents == [SawBoth(Some(ask), None)];
    more, w' := Go(more, w', Judge(0));
  }

  /** A first run asks, and a parent finds the ask and no result. */
  lemma GoToBothReads() returns (actions: seq<Action>, w: World)
    ensures var ask := Ask(0, 0, "?", 0);
            Reached(actions) == w && w.parents == [SawBoth(Some(ask), None)] && w.worker == Asking(ask) &&
            w.pid == 0 && w.runs == 1
  {
    hide Reached;
    AtFirst();
    actions, w := GoToAsk([], INITIAL);
    actions, w := Go(actions, w, ParentArrives);
    actions, w := Go(actions, w, ReadAsk(0));
    actions, w := Go(actions, w, ReadResult(0));
  }

  lemma LastLook(actions: seq<Action>, w: World, ask: Ask) returns (more: seq<Action>)
    requires Reached(actions) == w && w.parents == [SawBoth(Some(ask), None)] && AskIsLive(w, ask)
    ensures var w' := Reached(more);
            w'.parents == [Reported(ask)] && w'.finished == w.finished && w'.runs == w.runs
  {
    hide Reached;
    var w';
    more, w' := Go(actions, w, Judge(0));
  }

  /** And with the run ending between the second read and the report, no other run is needed. */
  lemma LateLookCanReportAFinishedRun() returns (actions: seq<Action>)
    ensures var w := Reached(actions);
            |w.parents| == 1 && w.parents[0].Reported? && w.parents[0].ask.run in w.finished && w.runs == 1
  {
    hide Step;
    var w;
    actions, w := GoToBothReads();
    actions, w := GoToResult(actions, w);
    actions := LastLook(actions, w, Ask(0, 0, "?", 0));
  }

  // --- Who touches which file ------------------------------------------------------------------------

  /** The ask file is written by the worker that asks, with its run, a number not used before, its question
      and its process, and removed by the one that starts, that has done waiting, or that closes. The
      answer file is written by a parent that was told of an ask, for that ask, and removed by the
      worker that starts, that has taken an answer, or that has turned one down. The result file is
      written by the worker that is done and removed by the one that starts. */
  lemma FilesAreTouchedBy(w: World, a: Action)
    ensures var w' := Step(w, a);
            (w'.ask == w.ask ||
             (w'.ask.None? && ((a == Clear && w.worker.Clearing? && w.worker.step == 0) ||
                               (a == RemoveAsk && w.worker.Closing?) || (a == CloseRun && w.worker.Finishing?))) ||
             (a.OpenAsk? && w.worker.Running? &&
              w'.ask == Some(Ask(w.worker.run, w.worker.next + a.gap, a.question, w.pid)))) &&
            (w'.answer == w.answer ||
             (w'.answer.None? && ((a == Clear && w.worker.Clearing? && w.worker.step == 1) ||
                                  (a == RemoveAnswer && (w.worker.Accepting? || w.worker.Discarding?)))) ||
             (a.WriteAnswer? && a.who < |w.parents| && w.parents[a.who].Reported? &&
              var ask := w.parents[a.who].ask; w'.answer == Some(Answer(ask.run, ask.no, a.text, ask, a.who)))) &&
            (w'.result == w.result ||
             (w'.result.None? && a == Clear && w.worker.Clearing? && w.worker.step > 1) ||
             (a == WriteResult && w.worker.Finished? && w'.result == Some(w.worker.run)))
  {
  }

  /** And each of them does: the worker that starts empties the directory in three steps, the one that
      took or turned down an answer removes it, the one done waiting removes its ask, the one that
      closes its run leaves none, and the one that is done writes its result. */
  lemma FilesAreRemoved(w: World)
    ensures w.worker.Clearing? && w.worker.step == 0 ==> Step(w, Clear).ask.None? && Step(w, Clear).worker.Clearing?
    ensures w.worker.Clearing? && w.worker.step == 1 ==> Step(w, Clear).answer.None? && Step(w, Clear).worker.Clearing?
    ensures w.worker.Clearing? && w.worker.step == 2 ==> Step(w, Clear).result.None? && Step(w, Clear).worker.Running?
    ensures w.worker.Accepting? || w.worker.Discarding? ==> Step(w, RemoveAnswer).answer.None?
    ensures w.worker.Closing? ==> Step(w, RemoveAsk).ask.None? && Step(w, RemoveAsk).worker.Running?
    ensures w.worker.Finishing? ==> Step(w, CloseRun).ask.None? && Step(w, CloseRun).worker.Finished?
    ensures w.worker.Finished? ==>
              Step(w, WriteResult).result == Some(w.worker.run) && Step(w, WriteResult).worker.Off?
  {
  }
}
