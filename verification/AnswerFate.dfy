/** What becomes of an answer in the handshake of AskProtocol.dfy: when the worker applies the one
    a parent has written, and when that answer is lost whatever happens next. */
module AnswerFate {
  import opened Sequences
  import opened AskProtocol

  function AnswerOf(ask: Ask, text: string, who: nat): Answer { Answer(ask.run, ask.no, text, ask, who) }

  ghost predicate AppliedIn(w: World, x: Answer) { exists k :: 0 <= k < |w.applied| && w.applied[k].answer == x }

  /** The answer is in the file, and the worker waits on its ask and looks for one. */
  predicate Deliverable(w: World, x: Answer) { w.answer == Some(x) && w.worker == Asking(x.about) }

  /** The parent has written this answer, for an ask that was made. */
  ghost predicate Written(w: World, x: Answer) {
    && x.about in w.asked && Bound(x, x.about)
    && x.writer < |w.parents| && w.parents[x.writer] == Answered
  }

  lemma WrittenStays(w: World, a: Action, x: Answer)
    requires Written(w, x)
    ensures Written(Step(w, a), x)
  {
  }

  /** An answer is applied when the worker polls while it can be delivered, and at no other step. */
  lemma AppliedStep(w: World, a: Action, x: Answer)
    requires Inv(w) && Written(w, x)
    ensures AppliedIn(Step(w, a), x) <==> AppliedIn(w, x) || (a == Poll && Deliverable(w, x))
  {
    if a == Poll && w.worker.Asking? && w.answer.Some? && Bound(w.answer.value, w.worker.ask) {
      SameAsk(w, w.answer.value.about, w.worker.ask);
      var w' := Step(w, a);
      assert w'.applied[|w.applied|].answer == w.answer.value;
      assert forall k :: 0 <= k < |w.applied| ==> w'.applied[k] == w.applied[k];
    } else {
      NothingApplied(w, a);
    }
  }

  lemma NothingApplied(w: World, a: Action)
    requires !(a == Poll && w.worker.Asking? && w.answer.Some? && Bound(w.answer.value, w.worker.ask))
    ensures Step(w, a).applied == w.applied
  {
  }

  /** What cannot be delivered now will not be later: no parent writes twice, and a worker does not
      come back to an ask it has left. */
  lemma UndeliverableStays(w: World, a: Action, x: Answer)
    requires Inv(w) && Written(w, x) && !Deliverable(w, x)
    ensures !Deliverable(Step(w, a), x)
  {
    if a.OpenAsk? && w.worker.Running? {
      assert x.about in w.asked;
    }
  }

  lemma ReachedMore(before: seq<Action>, more: seq<Action>)
    ensures if more == [] then before + more == before
            else Reached(before + more) == Step(Reached(before + more[..|more| - 1]), more[|more| - 1])
  {
    if more != [] {
      assert (before + more)[..|before + more| - 1] == before + more[..|more| - 1];
      ReachedStep(before + more);
    }
  }

  lemma ReachedStep(actions: seq<Action>)
    requires actions != []
    ensures Reached(actions) == Step(Reached(actions[..|actions| - 1]), actions[|actions| - 1])
  {
  }

  /** The worker polls at the k-th of these steps, and finds the answer while it waits on its ask. */
  ghost predicate PolledAt(before: seq<Action>, more: seq<Action>, k: int, x: Answer) {
    0 <= k < |more| && more[k] == Poll && Deliverable(Reached(before + more[..k]), x)
  }

  ghost predicate Polled(before: seq<Action>, more: seq<Action>, x: Answer) {
    exists k :: PolledAt(before, more, k, x)
  }

  /** Whatever happens after an answer is written, it is applied exactly if the worker polls while
      the file holds that answer and the ask it was written for is the one waited on. */
  lemma {:induction false} AppliedExactlyWhenPolled(before: seq<Action>, more: seq<Action>, x: Answer)
    requires Written(Reached(before), x) && !AppliedIn(Reached(before), x)
    ensures Written(Reached(before + more), x)
    ensures AppliedIn(Reached(before + more), x) <==> Polled(before, more, x)
  {
    ReachedMore(before, more);
    if more != [] {
      hide Reached, Step, Written, AppliedIn, Deliverable, Inv, Polled;
      var n := |more| - 1;
      var front, a := more[..n], more[n];
      AppliedExactlyWhenPolled(before, front, x);
      InvAlways(before + front);
      WrittenStays(Reached(before + front), a, x);
      AppliedStep(Reached(before + front), a, x);
      PolledSnoc(before, more, x);
    }
  }

  lemma PolledSnoc(before: seq<Action>, more: seq<Action>, x: Answer)
    requires more != []
    ensures var n := |more| - 1;
            Polled(before, more, x) <==>
            Polled(before, more[..n], x) ||
            (more[n] == Poll && Deliverable(Reached(before + more[..n]), x))
  {
    hide Reached, Deliverable;
    var n := |more| - 1;
    var front := more[..n];
    forall k | 0 <= k < n
      ensures PolledAt(before, more, k, x) <==> PolledAt(before, front, k, x)
    {
      assert front[..k] == more[..k];
    }
    assert PolledAt(before, more, n, x) <==> more[n] == Poll && Deliverable(Reached(before + front), x);
  }

  lemma {:induction false} UndeliverableForGood(before: seq<Action>, more: seq<Action>, x: Answer)
    requires Written(Reached(before), x) && !Deliverable(Reached(before), x)
    ensures Written(Reached(before + more), x) && !Deliverable(Reached(before + more), x)
  {
    ReachedMore(before, more);
    if more != [] {
      hide Reached, Step, Written, Deliverable, Inv;
      var front := more[..|more| - 1];
      UndeliverableForGood(before, front, x);
      InvAlways(before + front);
      WrittenStays(Reached(before + front), more[|more| - 1], x);
      UndeliverableStays(Reached(before + front), more[|more| - 1], x);
    }
  }

  lemma WriteStep(w: World, who: nat, text: string)
    requires Inv(w) && who < |w.parents| && w.parents[who].Reported?
    ensures var x := AnswerOf(w.parents[who].ask, text, who);
            var w' := Step(w, WriteAnswer(who, text));
            Written(w', x) && w'.answer == Some(x) && w'.worker == w.worker && w'.applied == w.applied
  {
  }

  /** A parent that has not written yet has nothing applied. */
  ghost predicate WritersAreDone(w: World) {
    && (forall k :: 0 <= k < |w.applied| ==>
          w.applied[k].answer.writer < |w.parents| && w.parents[w.applied[k].answer.writer] == Answered)
    && (w.answer.Some? ==> w.answer.value.writer < |w.parents| && w.parents[w.answer.value.writer] == Answered)
  }

  lemma StepKeepsWriters(w: World, a: Action)
    requires WritersAreDone(w)
    ensures WritersAreDone(Step(w, a))
  {
  }

  lemma {:induction false} WritersAreAlwaysDone(actions: seq<Action>)
    ensures WritersAreDone(Reached(actions))
  {
    if actions != [] {
      hide Step, WritersAreDone;
      WritersAreAlwaysDone(actions[..|actions| - 1]);
      StepKeepsWriters(Reached(actions[..|actions| - 1]), actions[|actions| - 1]);
    }
  }

  /** A parent that was told of an open ask writes its answer. At that moment it is settled whether
      the answer can ever be applied: it can exactly when the worker is still waiting on that ask
      and looking -- not taking an answer, and not removing one it has just turned down. */
  lemma AnswerIsLostExactlyWhen(actions: seq<Action>, who: nat, text: string)
    requires who < |Reached(actions).parents| && Reached(actions).parents[who].Reported?
    ensures var w, ask := Reached(actions), Reached(actions).parents[who].ask;
            (exists more ::
               AppliedIn(Reached(actions + [WriteAnswer(who, text)] + more), AnswerOf(ask, text, who))) <==>
            w.worker == Asking(ask)
  {
    hide Reached, Step, Written, AppliedIn, Inv;
    var w, ask := Reached(actions), Reached(actions).parents[who].ask;
    var x, next := AnswerOf(ask, text, who), actions + [WriteAnswer(who, text)];
    InvAlways(actions);
    assert next[..|next| - 1] == actions;
    ReachedStep(next);
    WriteStep(w, who, text);
    NotAppliedYet(actions, who, text);
    if w.worker == Asking(ask) {
      AppliedExactlyWhenPolled(next, [Poll], x);
      assert next + [Poll][..0] == next;
      assert PolledAt(next, [Poll], 0, x);
    } else {
      forall more
        ensures !AppliedIn(Reached(next + more), x)
      {
        AppliedExactlyWhenPolled(next, more, x);
        forall k | 0 <= k < |more|
          ensures !PolledAt(next, more, k, x)
        {
          UndeliverableForGood(next, more[..k], x);
        }
      }
    }
  }

  lemma NotAppliedYet(actions: seq<Action>, who: nat, text: string)
    requires who < |Reached(actions).parents| && Reached(actions).parents[who].Reported?
    ensures var ask := Reached(actions).parents[who].ask;
            !AppliedIn(Reached(actions + [WriteAnswer(who, text)]), AnswerOf(ask, text, who))
  {
    hide Reached;
    var next := actions + [WriteAnswer(who, text)];
    assert next[..|next| - 1] == actions;
    ReachedStep(next);
    WritersAreAlwaysDone(actions);
  }

  /** The ask can be open all the while: a worker that has turned down a stale answer removes whatever
      the file holds by then. The answer to the open ask goes with it. */
  lemma RaceLosesTheAnswer() returns (actions: seq<Action>, ask: Ask)
    ensures var w := Reached(actions);
            |w.parents| == 2 && w.parents[1] == Reported(ask) && Status(w) == Some(ask) && w.worker != Asking(ask)
    ensures forall text, more ::
              !AppliedIn(Reached(actions + [WriteAnswer(1, text)] + more), AnswerOf(ask, text, 1))
  {
    hide Step;
    var w;
    ask := Ask(1, 0, "?", 0);
    var stale := Ask(0, 0, "?", 0);
    actions, w := GoToFirstReport();
    actions, w := GoToResult(actions, w);
    actions, w := GoToAsk(actions, w);
    actions := StaleAnswerThenReport(actions, w, stale, ask);
    forall text, more
      ensures !AppliedIn(Reached(actions + [WriteAnswer(1, text)] + more), AnswerOf(ask, text, 1))
    {
      AnswerIsLostExactlyWhen(actions, 1, text);
    }
  }

  lemma GoToFirstReport() returns (actions: seq<Action>, w: World)
    ensures var ask := Ask(0, 0, "?", 0);
            Reached(actions) == w && w.parents == [Reported(ask)] && w.worker == Asking(ask) &&
            w.pid == 0 && w.runs == 1
  {
    hide Reached;
    actions, w := GoToBothReads();
    actions, w := Go(actions, w, Judge(0));
  }

  lemma StaleAnswerThenReport(actions: seq<Action>, w: World, stale: Ask, ask: Ask) returns (more: seq<Action>)
    requires Reached(actions) == w && w.parents == [Reported(stale)] && w.worker == Asking(ask)
    requires w.ask == Some(ask) && w.result.None? && AskIsLive(w, ask) && stale.run != ask.run
    ensures var w' := Reached(more);
            w'.parents == [Answered, Reported(ask)] && w'.worker == Discarding(ask) && Status(w') == Some(ask)
  {
    hide Reached;
    var w';
    more, w' := Go(actions, w, WriteAnswer(0, "!"));
    more, w' := Go(more, w', Poll);
    assert w' == w.(answer := w'.answer, parents := [Answered], worker := Discarding(ask));
    more := SecondParentReports(more, w', ask);
  }

  lemma SecondParentReports(actions: seq<Action>, w: World, ask: Ask) returns (more: seq<Action>)
    requires Reached(actions) == w && w.parents == [Answered]
    requires w.ask == Some(ask) && w.result.None? && AskIsLive(w, ask)
    ensures Reached(more) == w.(parents := [Answered, Reported(ask)])
  {
    hide Reached;
    var w';
    more, w' := Go(actions, w, ParentArrives);
    assert w' == w.(parents := [Answered, Arrived]);
    more, w' := Go(more, w', ReadAsk(1));
    assert w' == w.(parents := [Answered, SawAsk(Some(ask))]);
    more, w' := Go(more, w', ReadResult(1));
    assert w' == w.(parents := [Answered, SawBoth(Some(ask), None)]);
    more, w' := Go(more, w', Judge(1));
  }
}
