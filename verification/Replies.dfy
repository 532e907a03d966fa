/** What becomes of a request the client has sent: it waits exactly until the sidecar answers it or
    exits, and settles with what came first. */
module Replies {
  import opened Sequences
  import opened Text
  import opened Lines
  import opened Client
  import Utf8

  /** The line answers this request. */
  predicate Answers(parse: string -> Message, raw: string, id: string) { parse(raw).Reply? && parse(raw).id == id }

  /** What was dispatched since the k-th event. */
  function Since(parse: string -> Message, es: seq<Event>, k: nat): seq<string>
    requires k <= |es|
  {
    var n, all := |HappenAll(parse, es[..k]).dispatched|, HappenAll(parse, es).dispatched;
    if n <= |all| then all[n..] else []
  }

  /** The first exit after the k-th event, or the end. */
  function ExitAfter(es: seq<Event>, k: nat): (e: nat)
    requires k < |es|
    ensures k < e <= |es| && (forall j :: k < j < e ==> es[j] != ExitEvent) && (e < |es| ==> es[e] == ExitEvent)
  {
    if |es| == k + 1 then k + 1
    else
      var e := ExitAfter(es[..|es| - 1], k);
      if e < |es| - 1 || es[|es| - 1] == ExitEvent then e else |es|
  }

  /** The lines dispatched since the k-th event and before the process exited. */
  function HeardSince(parse: string -> Message, es: seq<Event>, k: nat): seq<string>
    requires k < |es|
  {
    Since(parse, es[..ExitAfter(es, k)], k)
  }

  // --- What each step does to one request ---------------------------------------------------------

  ghost predicate SettledWith(s: State, id: string, why: Outcome) {
    Settlement(id, why) in s.settled && id !in s.pending
  }

  /** Where a request stands, given the lines heard while the process lived, and whether it exited. */
  ghost predicate Stands(parse: string -> Message, s: State, id: string, heard: seq<string>, exited: bool) {
    && (forall m :: FirstAnswer(parse, heard, id, m) ==> SettledWith(s, id, Replied(parse(heard[m]).outcome)))
    && ((forall m :: 0 <= m < |heard| ==> !Answers(parse, heard[m], id)) ==>
          if exited then SettledWith(s, id, Exited) else id in s.pending && id !in SettledIds(s))
  }

  ghost predicate FirstAnswer(parse: string -> Message, heard: seq<string>, id: string, m: int) {
    0 <= m < |heard| && Answers(parse, heard[m], id) && forall j :: 0 <= j < m ==> !Answers(parse, heard[j], id)
  }

  /** Some line answers, and then one does first. */
  lemma {:induction false} AnAnswerComesFirst(parse: string -> Message, heard: seq<string>, id: string) returns (m: nat)
    requires exists j :: 0 <= j < |heard| && Answers(parse, heard[j], id)
    ensures FirstAnswer(parse, heard, id, m)
  {
    var n := |heard| - 1;
    if j :| 0 <= j < n && Answers(parse, heard[j], id) {
      assert heard[..n][j] == heard[j];
      m := AnAnswerComesFirst(parse, heard[..n], id);
    } else {
      m := n;
    }
  }

  lemma FirstAnswerSnoc(parse: string -> Message, heard: seq<string>, raw: string, id: string)
    ensures forall m :: FirstAnswer(parse, heard + [raw], id, m) <==>
              FirstAnswer(parse, heard, id, m) ||
              (m == |heard| && Answers(parse, raw, id) &&
               forall j :: 0 <= j < |heard| ==> !Answers(parse, heard[j], id))
  {
    var all := heard + [raw];
    assert all[|heard|] == raw && forall j :: 0 <= j < |heard| ==> all[j] == heard[j];
  }

  /** An id is pending once, or settled once, and not both. */
  lemma OneStanding(s: State, id: string)
    requires Accounted(s)
    ensures id in SettledIds(s) ==> id !in s.pending
    ensures multiset(s.pending)[id] <= 1
  {
    hide Decimal;
    IssuedAreDistinct(s);
    DistinctOnce(s.issued, id);
  }

  lemma SettledIdsOf(s: State, id: string)
    ensures id in SettledIds(s) <==> exists why :: Settlement(id, why) in s.settled
  {
    if id in SettledIds(s) {
      var j :| 0 <= j < |s.settled| && SettledIds(s)[j] == id;
      assert Settlement(id, s.settled[j].why) in s.settled;
    }
    if why :| Settlement(id, why) in s.settled {
      var j :| 0 <= j < |s.settled| && s.settled[j] == Settlement(id, why);
      assert SettledIds(s)[j] == id;
    }
  }

  /** What has settled stays so: settlements are only added, and the id is not pending again. */
  lemma SettledStays(s: State, s': State, id: string, why: Outcome)
    requires Settlement(id, why) in s.settled && s.settled <= s'.settled && Accounted(s')
    ensures SettledWith(s', id, why)
  {
    SettledIdsOf(s', id);
    OneStanding(s', id);
  }

  lemma DispatchStands(parse: string -> Message, s: State, raw: string, id: string, heard: seq<string>)
    requires Accounted(s) && Stands(parse, s, id, heard, false)
    ensures var s' := Dispatch(s, parse(raw), raw);
            Accounted(s') && s.settled <= s'.settled && Stands(parse, s', id, heard + [raw], false)
  {
    hide Remove, Accounted;
    var s' := Dispatch(s, parse(raw), raw);
    DispatchAccounts(s, parse(raw), raw);
    FirstAnswerSnoc(parse, heard, raw, id);
    assert (heard + [raw])[|heard|] == raw && forall j :: 0 <= j < |heard| ==> (heard + [raw])[j] == heard[j];
    if forall m :: 0 <= m < |heard| ==> !Answers(parse, heard[m], id) {
      FirstTurn(parse, s, raw, id);
    } else {
      var m := AnAnswerComesFirst(parse, heard, id);
      SettledStays(s, s', id, Replied(parse(heard[m]).outcome));
    }
  }

  lemma AnsweredNow(parse: string -> Message, s: State, raw: string, id: string)
    requires Accounted(s) && id in s.pending && Answers(parse, raw, id)
    ensures SettledWith(Dispatch(s, parse(raw), raw), id, Replied(parse(raw).outcome))
  {
    hide Accounted, Remove;
    var s' := Dispatch(s, parse(raw), raw);
    DispatchAccounts(s, parse(raw), raw);
    assert s'.settled[|s.settled|] == Settlement(id, Replied(parse(raw).outcome));
    SettledStays(s', s', id, Replied(parse(raw).outcome));
  }

  lemma StillWaiting(parse: string -> Message, s: State, raw: string, id: string)
    requires Accounted(s) && id in s.pending && id !in SettledIds(s) && !Answers(parse, raw, id)
    ensures var s' := Dispatch(s, parse(raw), raw); id in s'.pending && id !in SettledIds(s')
  {
    hide Accounted, Remove;
    var s' := Dispatch(s, parse(raw), raw);
    SettledIdsOf(s, id);
    SettledIdsOf(s', id);
    if parse(raw).Reply? && parse(raw).id in s.pending {
      RemoveOne(s.pending, parse(raw).id);
      assert multiset(s'.pending)[id] == multiset(s.pending)[id] > 0;
    }
  }

  /** A line met while the request waits. */
  lemma FirstTurn(parse: string -> Message, s: State, raw: string, id: string)
    requires Accounted(s) && id in s.pending && id !in SettledIds(s)
    ensures var s' := Dispatch(s, parse(raw), raw);
            if Answers(parse, raw, id) then SettledWith(s', id, Replied(parse(raw).outcome))
            else id in s'.pending && id !in SettledIds(s')
  {
    hide Accounted, SettledIds, Dispatch, SettledWith;
    if Answers(parse, raw, id) {
      AnsweredNow(parse, s, raw, id);
    } else {
      StillWaiting(parse, s, raw, id);
    }
  }

  lemma {:induction false} DispatchAllStands(parse: string -> Message, s: State, lines: seq<string>, id: string,
                                             heard: seq<string>)
    requires Accounted(s) && Stands(parse, s, id, heard, false)
    ensures var s' := DispatchAll(parse, s, lines);
            Accounted(s') && s.settled <= s'.settled && s.dispatched <= s'.dispatched &&
            Stands(parse, s', id, heard + s'.dispatched[|s.dispatched|..], false)
    decreases |lines|
  {
    hide Stands, Accounted, Dispatch;
    DispatchLogs(parse, s, lines);
    if lines == [] {
      assert heard + s.dispatched[|s.dispatched|..] == heard;
    } else {
      var line := lines[0];
      var next := Offer(parse, s, line);
      OfferLogs(parse, s, line);
      if line != "" {
        DispatchStands(parse, s, line, id, heard);
      }
      assert heard + [] == heard;
      if Breaks(parse, line) {
        assert next.dispatched[|s.dispatched|..] == [line];
      } else {
        DispatchAllStands(parse, next, lines[1..], id, heard + NonEmpty(line));
        var s' := DispatchAll(parse, s, lines);
        assert s'.dispatched[|s.dispatched|..] == NonEmpty(line) + s'.dispatched[|next.dispatched|..];
        Associative(heard, NonEmpty(line), s'.dispatched[|next.dispatched|..]);
      }
    }
  }

  lemma ExitStands(parse: string -> Message, s: State, id: string, heard: seq<string>)
    requires Accounted(s) && Stands(parse, s, id, heard, false)
    ensures Stands(parse, Exit(s), id, heard, true)
  {
    var s' := Exit(s);
    ExitAccounts(s);
    assert s.settled <= s'.settled;
    if id in s.pending {
      var j :| 0 <= j < |s.pending| && s.pending[j] == id;
      assert s'.settled[|s.settled| + j] == Settlement(id, Exited);
    }
    forall m | FirstAnswer(parse, heard, id, m)
      ensures SettledWith(s', id, Replied(parse(heard[m]).outcome))
    {
      assert Settlement(id, Replied(parse(heard[m]).outcome)) in s.settled;
    }
  }

  lemma RequestStands(parse: string -> Message, s: State, id: string, heard: seq<string>)
    requires Accounted(s) && Stands(parse, s, id, heard, false)
    ensures Stands(parse, Request(s), id, heard, false)
  {
    hide Accounted;
    var s' := Request(s);
    RequestAccounts(s);
    assert s.settled == s'.settled && SettledIds(s') == SettledIds(s);
    forall m | FirstAnswer(parse, heard, id, m)
      ensures SettledWith(s', id, Replied(parse(heard[m]).outcome))
    {
      SettledStays(s, s', id, Replied(parse(heard[m]).outcome));
    }
  }

  /** Once the process it was sent to has exited, nothing changes how a request settled. */
  lemma StandsForGood(parse: string -> Message, s: State, s': State, id: string, heard: seq<string>)
    requires Stands(parse, s, id, heard, true) && s.settled <= s'.settled && Accounted(s')
    ensures Stands(parse, s', id, heard, true)
  {
    hide Accounted;
    forall m | FirstAnswer(parse, heard, id, m)
      ensures SettledWith(s', id, Replied(parse(heard[m]).outcome))
    {
      SettledStays(s, s', id, Replied(parse(heard[m]).outcome));
    }
    if forall m :: 0 <= m < |heard| ==> !Answers(parse, heard[m], id) {
      SettledStays(s, s', id, Exited);
    }
  }

  // --- A new request --------------------------------------------------------------------------------

  lemma NewIdIsNew(s: State)
    requires Accounted(s)
    ensures Decimal(s.nextId) !in s.issued && Decimal(s.nextId) !in s.pending && Decimal(s.nextId) !in SettledIds(s)
  {
    hide Decimal;
    var id := Decimal(s.nextId);
    forall i | 0 <= i < |s.issued|
      ensures s.issued[i] != id
    {
      if s.issued[i] == id {
        DecimalInjective(i + 1, s.nextId);
      }
    }
    assert multiset(s.issued)[id] == 0;
  }

  lemma SentStands(parse: string -> Message, s: State)
    requires Accounted(s) && s.running
    ensures Stands(parse, Request(s), Decimal(s.nextId), [], false)
  {
    hide Decimal;
    NewIdIsNew(s);
    assert SettledIds(Request(s)) == SettledIds(s);
  }

  // --- Over a run --------------------------------------------------------------------------------------

  lemma OnlyAdds(parse: string -> Message, s: State, e: Event)
    ensures s.settled <= Happen(parse, s, e).settled && s.dispatched <= Happen(parse, s, e).dispatched
    ensures !e.StdoutEvent? ==> Happen(parse, s, e).dispatched == s.dispatched
  {
    if e.StdoutEvent? {
      var text := s.accumulator + Utf8.Decode(e.chunk);
      DispatchLogs(parse, s.(accumulator := Partial(text)), Complete(text));
      DispatchSettles(parse, s.(accumulator := Partial(text)), Complete(text));
    }
  }

  lemma {:induction false} DispatchSettles(parse: string -> Message, s: State, lines: seq<string>)
    ensures s.settled <= DispatchAll(parse, s, lines).settled
    decreases |lines|
  {
    if lines != [] {
      DispatchSettles(parse, Offer(parse, s, lines[0]), lines[1..]);
    }
  }

  lemma {:induction false} DispatchedGrows(parse: string -> Message, es: seq<Event>, k: nat)
    requires k <= |es|
    ensures HappenAll(parse, es[..k]).dispatched <= HappenAll(parse, es).dispatched
    decreases |es|
  {
    hide Happen;
    if k == |es| {
      assert es[..k] == es;
    } else {
      var n := |es| - 1;
      DispatchedGrows(parse, es[..n], k);
      assert es[..n][..k] == es[..k];
      OnlyAdds(parse, HappenAll(parse, es[..n]), es[n]);
    }
  }

  lemma ReceiveStands(parse: string -> Message, s: State, chunk: seq<Utf8.Byte>, id: string, heard: seq<string>)
    requires Accounted(s) && Stands(parse, s, id, heard, false)
    ensures var s' := Receive(parse, s, chunk);
            s.dispatched <= s'.dispatched && Stands(parse, s', id, heard + s'.dispatched[|s.dispatched|..], false)
  {
    hide DispatchAll, Utf8.Decode;
    var text := s.accumulator + Utf8.Decode(chunk);
    var t := s.(accumulator := Partial(text));
    assert Accounted(t) && Stands(parse, t, id, heard, false) by {
      assert SettledIds(t) == SettledIds(s);
    }
    DispatchAllStands(parse, t, Complete(text), id, heard);
  }

  lemma HappenStands(parse: string -> Message, s: State, e: Event, id: string, heard: seq<string>)
    requires Accounted(s) && Stands(parse, s, id, heard, false)
    ensures var s' := Happen(parse, s, e);
            s.dispatched <= s'.dispatched &&
            Stands(parse, s', id, heard + s'.dispatched[|s.dispatched|..], e == ExitEvent)
  {
    hide Accounted, Receive;
    assert s.dispatched[|s.dispatched|..] == [] && heard + [] == heard;
    match e
    case StartEvent => assert SettledIds(Start(s)) == SettledIds(s);
    case RequestEvent => RequestStands(parse, s, id, heard);
    case ExitEvent => ExitStands(parse, s, id, heard);
    case StdoutEvent(chunk) => ReceiveStands(parse, s, chunk, id, heard);
  }

  lemma SinceSnoc(parse: string -> Message, es: seq<Event>, k: nat)
    requires k < |es| - 1
    ensures var n := |es| - 1;
            var s, s' := HappenAll(parse, es[..n]), HappenAll(parse, es);
            s.dispatched <= s'.dispatched &&
            Since(parse, es, k) == Since(parse, es[..n], k) + s'.dispatched[|s.dispatched|..]
  {
    hide HappenAll;
    var n := |es| - 1;
    DispatchedGrows(parse, es[..n], k);
    DispatchedGrows(parse, es, n);
    assert es[..n][..k] == es[..k];
  }

  function IdAt(parse: string -> Message, es: seq<Event>, k: nat): string
    requires k <= |es|
  {
    Decimal(HappenAll(parse, es[..k]).nextId)
  }

  lemma PrefixSame(parse: string -> Message, es: seq<Event>, k: nat)
    requires k < |es| - 1
    ensures es[..|es| - 1][..k] == es[..k] && IdAt(parse, es[..|es| - 1], k) == IdAt(parse, es, k)
  {
    assert es[..|es| - 1][..k] == es[..k];
  }

  lemma HappenSnoc(parse: string -> Message, es: seq<Event>)
    requires es != []
    ensures HappenAll(parse, es) == Happen(parse, HappenAll(parse, es[..|es| - 1]), es[|es| - 1])
  {
  }

  lemma {:induction false} RequestStandsAfter(parse: string -> Message, es: seq<Event>, k: nat)
    requires k < |es| && es[k].RequestEvent? && HappenAll(parse, es[..k]).running
    ensures Stands(parse, HappenAll(parse, es), IdAt(parse, es, k), HeardSince(parse, es, k), ExitAfter(es, k) < |es|)
    decreases |es|
  {
    hide *;
    var n := |es| - 1;
    if n == k {
      JustSent(parse, es, k);
    } else {
      PrefixSame(parse, es, k);
      RequestStandsAfter(parse, es[..n], k);
      AlwaysAccounted(parse, es[..n]);
      AlwaysAccounted(parse, es);
      HappenSnoc(parse, es);
      OneMoreEvent(parse, es, k, IdAt(parse, es, k));
    }
  }

  lemma OneMoreEvent(parse: string -> Message, es: seq<Event>, k: nat, id: string)
    requires k < |es| - 1 && Accounted(HappenAll(parse, es[..|es| - 1])) && Accounted(HappenAll(parse, es))
    requires HappenAll(parse, es) == Happen(parse, HappenAll(parse, es[..|es| - 1]), es[|es| - 1])
    requires var before := es[..|es| - 1];
             Stands(parse, HappenAll(parse, before), id, HeardSince(parse, before, k), ExitAfter(before, k) < |before|)
    ensures Stands(parse, HappenAll(parse, es), id, HeardSince(parse, es, k), ExitAfter(es, k) < |es|)
  {
    hide Accounted, Stands, Happen, HappenAll, Since;
    var n := |es| - 1;
    var before, e := es[..n], es[n];
    var s, x := HappenAll(parse, before), ExitAfter(before, k);
    if x < n {
      assert before[..x] == es[..x];
      OnlyAdds(parse, s, e);
      StandsForGood(parse, s, HappenAll(parse, es), id, HeardSince(parse, es, k));
    } else {
      assert before[..n] == before;
      SinceSnoc(parse, es, k);
      HappenStands(parse, s, e, id, Since(parse, before, k));
      ExitIsSilent(parse, es, k);
    }
  }

  lemma JustSent(parse: string -> Message, es: seq<Event>, k: nat)
    requires |es| == k + 1 && es[k].RequestEvent? && HappenAll(parse, es[..k]).running
    ensures Stands(parse, HappenAll(parse, es), IdAt(parse, es, k), HeardSince(parse, es, k), false)
    ensures ExitAfter(es, k) == |es|
  {
    hide Decimal, Accounted, Stands;
    var s := HappenAll(parse, es[..k]);
    AlwaysAccounted(parse, es[..k]);
    SentStands(parse, s);
    assert es[..|es|] == es && HappenAll(parse, es) == Request(s);
    assert Request(s).dispatched[|s.dispatched|..] == [];
  }

  /** The last event is the first exit, or there is none: what was heard, either way. */
  lemma ExitIsSilent(parse: string -> Message, es: seq<Event>, k: nat)
    requires k < |es| - 1 && ExitAfter(es[..|es| - 1], k) == |es| - 1
    ensures ExitAfter(es, k) == if es[|es| - 1] == ExitEvent then |es| - 1 else |es|
    ensures HeardSince(parse, es, k) == Since(parse, es, k)
  {
    hide HappenAll;
    var n := |es| - 1;
    if es[n] == ExitEvent {
      SinceSnoc(parse, es, k);
      OnlyAddsAt(parse, es);
    } else {
      assert es[..|es|] == es;
    }
  }

  lemma OnlyAddsAt(parse: string -> Message, es: seq<Event>)
    requires es != [] && es[|es| - 1] == ExitEvent
    ensures HappenAll(parse, es).dispatched == HappenAll(parse, es[..|es| - 1]).dispatched
  {
    OnlyAdds(parse, HappenAll(parse, es[..|es| - 1]), es[|es| - 1]);
  }

  /** Over any run, a request sent to a live process is waiting exactly while no line dispatched since
      answers it and no exit has come. If a line answers it before the process exits, it settles
      with the first such line's outcome; if none does and the process exits, with that; and no
      request settles before. */
  lemma RequestWaitsExactlyUntil(parse: string -> Message, es: seq<Event>, k: nat)
    requires k < |es| && es[k].RequestEvent? && HappenAll(parse, es[..k]).running
    ensures var id, s := Decimal(HappenAll(parse, es[..k]).nextId), HappenAll(parse, es);
            var since, heard := Since(parse, es, k), HeardSince(parse, es, k);
            HappenAll(parse, es[..k]).dispatched + since == s.dispatched && heard <= since &&
            (id in s.pending <==>
               (forall m :: 0 <= m < |since| ==> !Answers(parse, since[m], id)) &&
               (forall j :: k < j < |es| ==> es[j] != ExitEvent)) &&
            (forall m :: FirstAnswer(parse, heard, id, m) ==>
               Settlement(id, Replied(parse(heard[m]).outcome)) in s.settled) &&
            ((forall m :: 0 <= m < |heard| ==> !Answers(parse, heard[m], id)) && ExitAfter(es, k) < |es| ==>
               Settlement(id, Exited) in s.settled) &&
            (id in s.pending <==> id !in SettledIds(s))
  {
    hide Decimal, HappenAll, SettledIds, Since, HeardSince, Stands;
    RequestStandsAfter(parse, es, k);
    HeardIsPart(parse, es, k);
    StandsSays(parse, HappenAll(parse, es), Decimal(HappenAll(parse, es[..k]).nextId), HeardSince(parse, es, k),
               ExitAfter(es, k) < |es|);
  }

  lemma SuffixesGrow(a: seq<string>, b: seq<string>, c: seq<string>)
    requires a <= b <= c
    ensures b[|a|..] <= c[|a|..] && a + c[|a|..] == c
  {
  }

  /** What was heard while the process lived comes first of all that was dispatched since. */
  lemma HeardIsPart(parse: string -> Message, es: seq<Event>, k: nat)
    requires k < |es|
    ensures HappenAll(parse, es[..k]).dispatched + Since(parse, es, k) == HappenAll(parse, es).dispatched
    ensures HeardSince(parse, es, k) <= Since(parse, es, k)
    ensures ExitAfter(es, k) == |es| ==> HeardSince(parse, es, k) == Since(parse, es, k)
  {
    hide HappenAll, ExitAfter;
    var x := ExitAfter(es, k);
    DispatchedGrows(parse, es, x);
    assert es[..x][..k] == es[..k];
    DispatchedGrows(parse, es[..x], k);
    SuffixesGrow(HappenAll(parse, es[..k]).dispatched, HappenAll(parse, es[..x]).dispatched,
                 HappenAll(parse, es).dispatched);
    assert es[..|es|] == es;
  }

  lemma StandsSays(parse: string -> Message, s: State, id: string, heard: seq<string>, exited: bool)
    requires Stands(parse, s, id, heard, exited)
    ensures id in s.pending <==> !exited && forall m :: 0 <= m < |heard| ==> !Answers(parse, heard[m], id)
    ensures forall m :: FirstAnswer(parse, heard, id, m) ==>
              Settlement(id, Replied(parse(heard[m]).outcome)) in s.settled
    ensures exited && (forall m :: 0 <= m < |heard| ==> !Answers(parse, heard[m], id)) ==>
              Settlement(id, Exited) in s.settled
    ensures id in s.pending <==> id !in SettledIds(s)
  {
    SettledIdsOf(s, id);
    if exists m :: 0 <= m < |heard| && Answers(parse, heard[m], id) {
      var m := AnAnswerComesFirst(parse, heard, id);
    }
  }

  // --- The rest of what a run does -------------------------------------------------------------------

  /** What is shown to the user: a line that is no message, and a notice. */
  predicate Shown(m: Message) { m.Malformed? || m.Notice? }

  lemma EmittedSnoc(parse: string -> Message, s: State, raw: string)
    requires s.emitted == Filter(Shown, Map(parse, s.dispatched))
    ensures var s' := Dispatch(s, parse(raw), raw); s'.emitted == Filter(Shown, Map(parse, s'.dispatched))
  {
    hide Filter, Remove;
    MapAppend(parse, s.dispatched, [raw]);
    assert Map(parse, [raw]) == [parse(raw)];
    FilterSnoc(Shown, Map(parse, s.dispatched), parse(raw));
    assert s.emitted + [] == s.emitted;
  }

  lemma {:induction false} EmittedOfLines(parse: string -> Message, s: State, lines: seq<string>)
    requires s.emitted == Filter(Shown, Map(parse, s.dispatched))
    ensures var s' := DispatchAll(parse, s, lines); s'.emitted == Filter(Shown, Map(parse, s'.dispatched))
    decreases |lines|
  {
    if lines != [] {
      hide Dispatch;
      EmittedSnoc(parse, s, lines[0]);
      if !Breaks(parse, lines[0]) {
        EmittedOfLines(parse, Offer(parse, s, lines[0]), lines[1..]);
      }
    }
  }

  /** Over any run, what is emitted is what the dispatched lines parse to, where that is a notice or no
      message at all, in order. */
  lemma {:induction false} EmittedAreTheNotices(parse: string -> Message, es: seq<Event>)
    ensures var s := HappenAll(parse, es); s.emitted == Filter(Shown, Map(parse, s.dispatched))
  {
    if es == [] {
      assert Map(parse, CREATED.dispatched) == [];
    } else {
      hide DispatchAll, Filter;
      var s, e := HappenAll(parse, es[..|es| - 1]), es[|es| - 1];
      EmittedAreTheNotices(parse, es[..|es| - 1]);
      if e.StdoutEvent? {
        var text := s.accumulator + Utf8.Decode(e.chunk);
        EmittedOfLines(parse, s.(accumulator := Partial(text)), Complete(text));
      }
    }
  }

  ghost predicate StartedAt(es: seq<Event>, k: int) {
    0 <= k < |es| && es[k] == StartEvent && forall j :: k < j < |es| ==> es[j] != ExitEvent
  }

  lemma RunningMoves(parse: string -> Message, s: State, e: Event)
    ensures var s' := Happen(parse, s, e);
            s'.running == (e == StartEvent || (s.running && e != ExitEvent)) &&
            |s'.issued| + s'.refused == |s.issued| + s.refused + if e == RequestEvent then 1 else 0
  {
    hide DispatchAll, Decimal, Utf8.Decode;
    if e.StdoutEvent? {
      var text := s.accumulator + Utf8.Decode(e.chunk);
      DispatchLogs(parse, s.(accumulator := Partial(text)), Complete(text));
      DispatchIssues(parse, s.(accumulator := Partial(text)), Complete(text));
    }
  }

  ghost predicate SomeStart(es: seq<Event>) { exists k :: StartedAt(es, k) }

  lemma StartsSnoc(before: seq<Event>, e: Event)
    ensures SomeStart(before + [e]) <==> e == StartEvent || (SomeStart(before) && e != ExitEvent)
  {
    var es, n := before + [e], |before|;
    assert es[n] == e && forall j :: 0 <= j < n ==> es[j] == before[j];
    forall k | 0 <= k < n
      ensures StartedAt(es, k) <==> StartedAt(before, k) && e != ExitEvent
    {
    }
    assert StartedAt(es, n) <==> e == StartEvent;
  }

  function IsRequest(): Event -> bool { (e: Event) => e == RequestEvent }

  /** A process runs while it was started and has not exited since; every request was either sent to one
      or refused. */
  lemma {:induction false} RunningSinceAStart(parse: string -> Message, es: seq<Event>)
    ensures var s := HappenAll(parse, es);
            (s.running <==> SomeStart(es)) && |s.issued| + s.refused == Count(IsRequest(), es)
  {
    if es != [] {
      hide Happen, SomeStart, Count;
      var before, e := es[..|es| - 1], es[|es| - 1];
      RunningSinceAStart(parse, before);
      RunningMoves(parse, HappenAll(parse, before), e);
      Unsnoc(es);
      StartsSnoc(before, e);
      CountSnoc(IsRequest(), before, e);
    }
  }

  lemma {:induction false} DispatchIssues(parse: string -> Message, s: State, lines: seq<string>)
    ensures DispatchAll(parse, s, lines).issued == s.issued && DispatchAll(parse, s, lines).refused == s.refused
    decreases |lines|
  {
    if lines != [] {
      DispatchIssues(parse, Offer(parse, s, lines[0]), lines[1..]);
    }
  }

  function ChunkOf(e: Event): seq<seq<Utf8.Byte>> { if e.StdoutEvent? then [e.chunk] else [] }

  /** The output of a process, up to here. */
  function Output(es: seq<Event>): string { Utf8.DecodePieces(FlatMap(ChunkOf, es)) }

  /** Each process is framed alone: started when none was running, whatever an earlier one left
      unfinished, its complete lines are what is dispatched while it lives, as long as none throws
      but the last to say something. */
  lemma {:induction false} EachProcessIsFramedAlone(parse: string -> Message, s: State, more: seq<Event>)
    requires !s.running && forall e :: e in more ==> e != ExitEvent
    ensures var s' := HappenFrom(parse, Start(s), more);
            s'.running && s'.accumulator == Partial(Output(more)) &&
            (BreaksLast(parse, Said(Complete(Output(more)))) ==>
               s'.dispatched == s.dispatched + Said(Complete(Output(more))))
  {
    hide DispatchAll, Utf8.Decode, Utf8.DecodePieces, Partial, Complete, Said, Heeded, BreaksLast, Decimal;
    if more == [] {
      NothingDecoded();
      assert FlatMap(ChunkOf, more) == [] && s.dispatched + [] == s.dispatched;
    } else {
      hide FlatMap;
      var n := |more| - 1;
      var t, e := HappenFrom(parse, Start(s), more[..n]), more[n];
      assert e in more && forall x :: x in more[..n] ==> x in more;
      EachProcessIsFramedAlone(parse, s, more[..n]);
      Unsnoc(more);
      FlatMapSnoc(ChunkOf, more[..n], e);
      var chunks := FlatMap(ChunkOf, more[..n]);
      if e.StdoutEvent? {
        FramedOn(parse, s.dispatched, t, chunks, e.chunk);
      } else {
        assert chunks + [] == chunks;
      }
    }
  }

  function HappenFrom(parse: string -> Message, s: State, es: seq<Event>): State {
    if es == [] then s else Happen(parse, HappenFrom(parse, s, es[..|es| - 1]), es[|es| - 1])
  }

  lemma FramedOn(parse: string -> Message, dispatched: seq<string>, t: State, chunks: seq<seq<Utf8.Byte>>,
                 chunk: seq<Utf8.Byte>)
    requires t.running && t.accumulator == Partial(Utf8.DecodePieces(chunks))
    requires BreaksLast(parse, Said(Complete(Utf8.DecodePieces(chunks)))) ==>
               t.dispatched == dispatched + Said(Complete(Utf8.DecodePieces(chunks)))
    ensures var t', all := Receive(parse, t, chunk), Utf8.DecodePieces(chunks + [chunk]);
            t'.running && t'.accumulator == Partial(all) &&
            (BreaksLast(parse, Said(Complete(all))) ==> t'.dispatched == dispatched + Said(Complete(all)))
  {
    hide DispatchAll, Utf8.Decode, Utf8.DecodePieces, Partial, Complete, Said, Heeded, BreaksLast;
    var text := t.accumulator + Utf8.Decode(chunk);
    var before := Said(Complete(Utf8.DecodePieces(chunks)));
    SaidSoFar(chunks, chunk);
    DispatchLogs(parse, t.(accumulator := Partial(text)), Complete(text));
    if BreaksLast(parse, Said(Complete(Utf8.DecodePieces(chunks + [chunk])))) {
      BreaksLastParts(parse, before, Said(Complete(text)));
      AllHeededExactlyWhen(parse, Complete(text));
      Associative(dispatched, before, Said(Complete(text)));
    }
  }
}
