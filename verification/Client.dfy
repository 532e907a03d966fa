/** SidecarClient of extension/src/client.ts: framing the sidecar's output into lines, and the
    table of requests waiting for their replies. */
module Client {
  import opened Sequences
  import opened Text
  import opened Lines
  import opened Utf8

  // What JSON.parse makes of a line, as dispatch() tells it apart. A null, or a method that is no
  // text, throws where dispatch() looks into it.
  datatype Message =
    | Malformed
    | Throws
    | Reply(id: string, outcome: string)
    | Notice(name: string)
    | Ignored

  // Why a request settled.
  datatype Outcome = Replied(outcome: string) | Exited

  datatype Settlement = Settlement(id: string, why: Outcome)

  // The client and what it has done: `pending` in the insertion order of the map it models.
  datatype State = State(
    running: bool,
    accumulator: string,
    nextId: nat,
    pending: seq<string>,
    issued: seq<string>,
    settled: seq<Settlement>,
    refused: nat,
    dispatched: seq<string>,
    emitted: seq<Message>)

  const CREATED := State(false, "", 1, [], [], [], 0, [], [])

  function Remove(ids: seq<string>, id: string): seq<string> {
    if ids == [] then []
    else if ids[|ids| - 1] == id then ids[..|ids| - 1]
    else Remove(ids[..|ids| - 1], id) + [ids[|ids| - 1]]
  }

  function Dispatch(s: State, m: Message, raw: string): State {
    var s := s.(dispatched := s.dispatched + [raw]);
    match m
    case Reply(id, outcome) =>
      if id in s.pending then
        s.(pending := Remove(s.pending, id), settled := s.settled + [Settlement(id, Replied(outcome))])
      else s
    case Ignored => s
    case Throws => s
    case _ => s.(emitted := s.emitted + [m])
  }

  /** Blank lines are passed over. */
  function Offer(parse: string -> Message, s: State, line: string): State {
    if line == "" then s else Dispatch(s, parse(line), line)
  }

  predicate Breaks(parse: string -> Message, line: string) { line != "" && parse(line).Throws? }

  /** The lines of one read, up to the first that throws: the exception ends the loop. */
  function DispatchAll(parse: string -> Message, s: State, lines: seq<string>): State
    decreases |lines|
  {
    if lines == [] then s
    else if Breaks(parse, lines[0]) then Offer(parse, s, lines[0])
    else DispatchAll(parse, Offer(parse, s, lines[0]), lines[1..])
  }

  function Receive(parse: string -> Message, s: State, chunk: seq<Byte>): State {
    var text := s.accumulator + Utf8.Decode(chunk);
    DispatchAll(parse, s.(accumulator := Partial(text)), Complete(text))
  }

  function Start(s: State): State { if s.running then s else s.(running := true, accumulator := "") }

  function Request(s: State): State {
    if !s.running then s.(refused := s.refused + 1)
    else
      var id := Decimal(s.nextId);
      s.(nextId := s.nextId + 1, pending := s.pending + [id], issued := s.issued + [id])
  }

  function SettleByExit(id: string): Settlement { Settlement(id, Exited) }

  function Exit(s: State): State {
    s.(running := false, settled := s.settled + Map(SettleByExit, s.pending), pending := [])
  }

  // --- The class ------------------------------------------------------------------------------

  class SidecarClient {
    var running: bool
    var accumulator: string
    var nextId: nat
    var pending: seq<string>
    ghost var issued: seq<string>
    var settled: seq<Settlement>
    var refused: nat
    var dispatched: seq<string>
    var emitted: seq<Message>

    ghost function Now(): State
      reads this
    {
      State(running, accumulator, nextId, pending, issued, settled, refused, dispatched, emitted)
    }

    constructor ()
      ensures Now() == CREATED
    {
      running, accumulator, nextId, pending := false, "", 1, [];
      issued, settled, refused, dispatched, emitted := [], [], 0, [], [];
    }

    // Throws, changing nothing, when a sidecar is already running.
    method StartSidecar() returns (threw: bool)
      modifies this
      ensures threw == old(running) && Now() == Start(old(Now()))
    {
      if running {
        return true;
      }
      accumulator := "";
      running := true;
      return false;
    }

    // The id sent, or none when the request settles at once because nothing is running.
    method SendRequest() returns (id: Option<string>)
      modifies this
      ensures Now() == Request(old(Now()))
      ensures id == if old(running) then Some(Decimal(old(nextId))) else None
    {
      if !running {
        refused := refused + 1;
        return None;
      }
      var sent := Decimal(nextId);
      nextId := nextId + 1;
      pending := pending + [sent];
      issued := issued + [sent];
      return Some(sent);
    }

    method OnExit()
      modifies this
      ensures Now() == Exit(old(Now()))
    {
      running := false;
      ghost var before := settled;
      assert pending[..|pending|] == pending;
      for i := 0 to |pending|
        invariant pending == old(pending)
        invariant Now() == old(Now()).(running := false, settled := before + Map(SettleByExit, pending[..i]))
      {
        assert Map(SettleByExit, pending[..i + 1]) == Map(SettleByExit, pending[..i]) + [SettleByExit(pending[i])];
        settled := settled + [Settlement(pending[i], Exited)];
      }
      pending := [];
    }

    method DispatchLine(parse: string -> Message, raw: string) returns (threw: bool)
      modifies this
      ensures Now() == Dispatch(old(Now()), parse(raw), raw)
      ensures threw == parse(raw).Throws?
    {
      var m := parse(raw);
      dispatched := dispatched + [raw];
      threw := false;
      match m {
        case Throws => threw := true;
        case Malformed => emitted := emitted + [m];
        case Notice(_) => emitted := emitted + [m];
        case Ignored =>
        case Reply(id, outcome) =>
          if id in pending {
            pending := Remove(pending, id);
            settled := settled + [Settlement(id, Replied(outcome))];
          }
      }
    }

    method OnStdout(parse: string -> Message, chunk: seq<Byte>)
      modifies this
      ensures Now() == Receive(parse, old(Now()), chunk)
    {
      hide DispatchAll, Utf8.Decode, Split, LastNewline, Offer;
      accumulator := accumulator + Utf8.Decode(chunk);
      var text := accumulator;
      var lastNl := LastNewline(text);
      if lastNl == -1 {
        NoNewlineOnePiece(text);
        DispatchNothing(parse, Now());
        return;
      }
      var complete := text[..lastNl];
      accumulator := text[lastNl + 1..];
      UpToLastNewline(text);
      DispatchComplete(parse, complete);
    }

    // The index loop over the text up to the last newline.
    method DispatchComplete(parse: string -> Message, complete: string)
      modifies this
      ensures Now() == DispatchAll(parse, old(Now()), Split(complete))
    {
      hide Offer, DispatchAll, Remaining, Split;
      var start := 0;
      ghost var before := Now();
      AllPieces(parse, before, complete);
      while start <= |complete|
        invariant 0 <= start <= |complete| + 1
        invariant Remaining(parse, Now(), complete, start) == Remaining(parse, before, complete, 0)
      {
        NextPiece(parse, Now(), complete, start);
        var threw;
        start, threw := DispatchPiece(parse, complete, start);
        if threw {
          return;
        }
      }
      NoPieces(parse, Now(), complete, start);
    }

    method DispatchPiece(parse: string -> Message, complete: string, start: nat) returns (next: nat, threw: bool)
      requires start <= |complete|
      modifies this
      ensures next == start + NextNewline(complete[start..]) + 1
      ensures Now() == Offer(parse, old(Now()), complete[start..next - 1])
      ensures threw == Breaks(parse, complete[start..next - 1])
    {
      var nl := start + NextNewline(complete[start..]);
      threw := false;
      if nl > start {
        threw := DispatchLine(parse, complete[start..nl]);
      }
      next := nl + 1;
    }
  }

  /** What dispatching the pieces not yet looked at will make of a state. */
  function Remaining(parse: string -> Message, c: State, s: string, start: nat): State {
    if start <= |s| then DispatchAll(parse, c, Split(s[start..])) else c
  }

  lemma AllPieces(parse: string -> Message, c: State, s: string)
    ensures Remaining(parse, c, s, 0) == DispatchAll(parse, c, Split(s))
  {
    assert s[0..] == s;
  }

  lemma NoPieces(parse: string -> Message, c: State, s: string, start: nat)
    requires start > |s|
    ensures Remaining(parse, c, s, start) == c
  {
  }

  lemma DispatchFirst(parse: string -> Message, c: State, lines: seq<string>)
    requires lines != []
    ensures var c' := Offer(parse, c, lines[0]);
            DispatchAll(parse, c, lines) ==
            if Breaks(parse, lines[0]) then c' else DispatchAll(parse, c', lines[1..])
  {
  }

  lemma DispatchNothing(parse: string -> Message, c: State)
    ensures DispatchAll(parse, c, []) == c
  {
  }

  lemma NextPiece(parse: string -> Message, c: State, s: string, start: nat)
    requires start <= |s|
    ensures var nl := start + NextNewline(s[start..]);
            var c' := Offer(parse, c, s[start..nl]);
            Remaining(parse, c, s, start) ==
            if Breaks(parse, s[start..nl]) then c' else Remaining(parse, c', s, nl + 1)
  {
    hide DispatchAll, Offer, Split, Breaks;
    var rest, n := s[start..], NextNewline(s[start..]);
    FirstPiece(rest);
    DispatchFirst(parse, c, Split(rest));
    assert rest[..n] == s[start..start + n];
    if n < |rest| {
      assert rest[n + 1..] == s[start + n + 1..];
    } else {
      DispatchNothing(parse, Offer(parse, c, rest[..n]));
    }
  }

  /** The index of the first newline, or the length. */
  function NextNewline(s: string): (n: nat)
    ensures n <= |s| && (forall j :: 0 <= j < n ==> s[j] != '\n') && (n < |s| ==> s[n] == '\n')
  {
    if s == "" || s[0] == '\n' then 0 else 1 + NextNewline(s[1..])
  }

  lemma Cons<T>(x: T, ys: seq<T>)
    ensures ([x] + ys)[0] == x && ([x] + ys)[1..] == ys
  {
  }

  lemma FirstPiece(s: string)
    ensures var n := NextNewline(s);
            Split(s)[0] == s[..n] && Split(s)[1..] == if n < |s| then Split(s[n + 1..]) else []
  {
    hide Split, NextNewline;
    var n := NextNewline(s);
    if n < |s| {
      SplitFirst(s, n);
      Cons(s[..n], Split(s[n + 1..]));
    } else {
      NoNewlineOnePiece(s);
    }
  }

  /** What lies before the last newline holds exactly the complete lines. */
  lemma UpToLastNewline(text: string)
    requires LastNewline(text) >= 0
    ensures Split(text[..LastNewline(text)]) == Complete(text) && text[LastNewline(text) + 1..] == Partial(text)
  {
    var nl := LastNewline(text);
    var tail := text[nl + 1..];
    NoNewlineOnePiece(tail);
    SplitEnded(text[..nl], tail);
    TakeSnoc(text, nl);
    Halves(text, nl + 1);
  }

  // --- Framing ---------------------------------------------------------------------------------

  function NonEmpty(line: string): seq<string> { if line == "" then [] else [line] }

  /** The lines with something in them. */
  function Said(lines: seq<string>): seq<string> { FlatMap(NonEmpty, lines) }

  /** What one read dispatches of its lines: those with something in them, up to the first that
      throws. */
  function Heeded(parse: string -> Message, lines: seq<string>): seq<string>
    decreases |lines|
  {
    if lines == [] then []
    else if Breaks(parse, lines[0]) then [lines[0]]
    else NonEmpty(lines[0]) + Heeded(parse, lines[1..])
  }

  lemma OfferLogs(parse: string -> Message, s: State, line: string)
    ensures var s' := Offer(parse, s, line);
            s'.dispatched == s.dispatched + NonEmpty(line) && s'.accumulator == s.accumulator && s'.running == s.running
    ensures Breaks(parse, line) ==> NonEmpty(line) == [line]
  {
  }

  lemma {:induction false} DispatchLogs(parse: string -> Message, s: State, lines: seq<string>)
    ensures var s' := DispatchAll(parse, s, lines);
            s'.dispatched == s.dispatched + Heeded(parse, lines) &&
            s'.accumulator == s.accumulator && s'.running == s.running
    decreases |lines|
  {
    if lines != [] {
      hide DispatchAll, Breaks, NonEmpty;
      OfferLogs(parse, s, lines[0]);
      DispatchFirst(parse, s, lines);
      if !Breaks(parse, lines[0]) {
        DispatchLogs(parse, Offer(parse, s, lines[0]), lines[1..]);
        Associative(s.dispatched, NonEmpty(lines[0]), Heeded(parse, lines[1..]));
      }
    } else {
      DispatchNothing(parse, s);
    }
  }

  /** No line throws but the last, if that: then nothing is left undispatched. */
  ghost predicate BreaksLast(parse: string -> Message, said: seq<string>) {
    forall i :: 0 <= i < |said| - 1 ==> !parse(said[i]).Throws?
  }

  lemma SaidHead(lines: seq<string>)
    requires lines != []
    ensures Said(lines) == NonEmpty(lines[0]) + Said(lines[1..])
  {
    FlatMapHead(NonEmpty, lines);
  }

  /** One read dispatches all its lines exactly when none but the last to say something throws. */
  lemma {:induction false} AllHeededExactlyWhen(parse: string -> Message, lines: seq<string>)
    ensures Heeded(parse, lines) == Said(lines) <==> BreaksLast(parse, Said(lines))
    ensures |Heeded(parse, lines)| <= |Said(lines)|
    decreases |lines|
  {
    if lines != [] {
      hide Said;
      SaidHead(lines);
      var rest := Said(lines[1..]);
      AllHeededExactlyWhen(parse, lines[1..]);
      if lines[0] == "" {
        assert [] + Heeded(parse, lines[1..]) == Heeded(parse, lines[1..]) && [] + rest == rest;
      } else {
        assert Said(lines) == [lines[0]] + rest;
        BreaksLastCons(parse, lines[0], rest);
        SameTail([lines[0]], if Breaks(parse, lines[0]) then [] else Heeded(parse, lines[1..]), rest);
        assert [lines[0]] + [] == [lines[0]];
      }
    }
  }

  lemma SameTail<T>(a: seq<T>, b: seq<T>, c: seq<T>)
    ensures a + b == a + c <==> b == c
  {
    if a + b == a + c {
      assert b == (a + b)[|a|..] == (a + c)[|a|..] == c;
    }
  }

  lemma BreaksLastCons(parse: string -> Message, x: string, rest: seq<string>)
    ensures BreaksLast(parse, [x] + rest) <==> (rest == [] || !parse(x).Throws?) && BreaksLast(parse, rest)
  {
    var all := [x] + rest;
    assert all[0] == x && forall i :: 0 <= i < |rest| ==> all[i + 1] == rest[i];
    if BreaksLast(parse, all) {
      forall i | 0 <= i < |rest| - 1
        ensures !parse(rest[i]).Throws?
      {
        assert !parse(all[i + 1]).Throws?;
      }
    } else {
      var i :| 0 <= i < |all| - 1 && parse(all[i]).Throws?;
      assert i > 0 ==> all[i] == rest[i - 1];
    }
  }

  lemma BreaksLastParts(parse: string -> Message, xs: seq<string>, ys: seq<string>)
    requires BreaksLast(parse, xs + ys)
    ensures BreaksLast(parse, xs) && BreaksLast(parse, ys)
  {
    var all := xs + ys;
    assert forall i :: 0 <= i < |xs| ==> all[i] == xs[i];
    assert forall i :: 0 <= i < |ys| ==> all[|xs| + i] == ys[i];
  }

  function ReceiveAll(parse: string -> Message, s: State, chunks: seq<seq<Byte>>): State {
    if chunks == [] then s
    else Receive(parse, ReceiveAll(parse, s, chunks[..|chunks| - 1]), chunks[|chunks| - 1])
  }

  lemma LinesOfTwo(held: string, more: string)
    ensures Complete(held + more) == Complete(held) + Complete(Partial(held) + more)
    ensures Partial(held + more) == Partial(Partial(held) + more)
  {
    hide Complete, Partial;
    CutAtPartial(held);
    var head := held[..|held| - |Partial(held)|];
    Associative(head, Partial(held), more);
    LinesCompose(head, Partial(held) + more);
  }

  /** The lines of the text decoded so far are those before, and those the next read completes. */
  lemma SaidSoFar(before: seq<seq<Byte>>, chunk: seq<Byte>)
    ensures var held := DecodePieces(before);
            var now := DecodePieces(before + [chunk]);
            var text := Partial(held) + Utf8.Decode(chunk);
            Said(Complete(now)) == Said(Complete(held)) + Said(Complete(text)) && Partial(now) == Partial(text)
  {
    hide Utf8.Decode, Complete, Partial, FlatMap;
    FlatMapSnoc(Utf8.Decode, before, chunk);
    LinesOfTwo(DecodePieces(before), Utf8.Decode(chunk));
    FlatMapAppend(NonEmpty, Complete(DecodePieces(before)),
                  Complete(Partial(DecodePieces(before)) + Utf8.Decode(chunk)));
  }

  /** The accumulator is always the unfinished line of the text decoded, and holds no newline. */
  lemma {:induction false} AccumulatorIsPartial(parse: string -> Message, s: State, chunks: seq<seq<Byte>>)
    requires s.accumulator == ""
    ensures var s' := ReceiveAll(parse, s, chunks);
            s'.accumulator == Partial(DecodePieces(chunks)) && '\n' !in s'.accumulator
  {
    hide DispatchAll, Utf8.Decode, DecodePieces, Partial, Complete;
    if chunks == [] {
      NothingDecoded();
    } else {
      var before, chunk := chunks[..|chunks| - 1], chunks[|chunks| - 1];
      AccumulatorIsPartial(parse, s, before);
      var t := ReceiveAll(parse, s, before);
      var text := t.accumulator + Utf8.Decode(chunk);
      DispatchLogs(parse, t.(accumulator := Partial(text)), Complete(text));
      SaidSoFar(before, chunk);
      Unsnoc(chunks);
      CutAtPartial(text);
    }
  }

  lemma NothingDecoded()
    ensures DecodePieces([]) == "" && Partial("") == "" && Complete("") == [] && Said([]) == []
  {
  }

  /** However the output is cut into reads, as long as no line throws but the last to say
      something, what has been dispatched is every complete line of the text decoded so far
      that says something, in order. */
  lemma {:induction false} FramingIgnoresChunks(parse: string -> Message, s: State, chunks: seq<seq<Byte>>)
    requires s.accumulator == "" && BreaksLast(parse, Said(Complete(DecodePieces(chunks))))
    ensures ReceiveAll(parse, s, chunks).dispatched == s.dispatched + Said(Complete(DecodePieces(chunks)))
  {
    hide DispatchAll, Utf8.Decode, DecodePieces, Partial, Complete, Said, Heeded, BreaksLast;
    if chunks == [] {
      NothingDecoded();
      assert s.dispatched + [] == s.dispatched;
    } else {
      var before, chunk := chunks[..|chunks| - 1], chunks[|chunks| - 1];
      Unsnoc(chunks);
      SaidSoFar(before, chunk);
      AccumulatorIsPartial(parse, s, before);
      var t := ReceiveAll(parse, s, before);
      var text := t.accumulator + Utf8.Decode(chunk);
      BreaksLastParts(parse, Said(Complete(DecodePieces(before))), Said(Complete(text)));
      FramingIgnoresChunks(parse, s, before);
      DispatchLogs(parse, t.(accumulator := Partial(text)), Complete(text));
      AllHeededExactlyWhen(parse, Complete(text));
      Associative(s.dispatched, Said(Complete(DecodePieces(before))), Said(Complete(text)));
    }
  }

  /** A cut of a text's bytes that splits no character. */
  ghost predicate WholeCut(text: string, chunks: seq<seq<Byte>>) {
    Flatten(chunks) == Encode(text) && forall i :: 0 <= i < |chunks| ==> !StartsMidCharacter(chunks[i])
  }

  lemma OneReadHeeds(parse: string -> Message, s: State, text: string)
    requires s.accumulator == ""
    ensures WholeCut(text, [Encode(text)])
    ensures ReceiveAll(parse, s, [Encode(text)]).dispatched == s.dispatched + Heeded(parse, Complete(text))
  {
    hide DispatchAll, Utf8.Decode, Complete, Partial, Heeded;
    var chunks := [Encode(text)];
    assert chunks[..0] == [];
    StartsWhole(text);
    Utf8.DecodeInvertsEncode(text);
    assert "" + text == text;
    assert ReceiveAll(parse, s, chunks) == Receive(parse, ReceiveAll(parse, s, []), Encode(text));
    DispatchLogs(parse, s.(accumulator := Partial(text)), Complete(text));
  }

  lemma StartsWhole(text: string)
    ensures !StartsMidCharacter(Encode(text)) && Flatten([Encode(text)]) == Encode(text)
  {
    assert [Encode(text)][..0] == [];
    if text != "" {
      FlatMapHead(EncodeChar, text);
      CharRoundTrip(text[0]);
    }
  }

  /** The lines the sidecar wrote are dispatched, however its output is cut between characters, if
      and only if none but the last to say something throws: the exception loses the rest of
      the read it falls in. */
  lemma SidecarLinesArriveExactlyWhen(parse: string -> Message, s: State, text: string)
    requires s.accumulator == ""
    ensures (forall chunks | WholeCut(text, chunks) ::
               ReceiveAll(parse, s, chunks).dispatched == s.dispatched + Said(Complete(text))) <==>
            BreaksLast(parse, Said(Complete(text)))
  {
    hide Said, Complete, BreaksLast, ReceiveAll, Heeded, WholeCut;
    OneReadHeeds(parse, s, text);
    AllHeededExactlyWhen(parse, Complete(text));
    SameTail(s.dispatched, Heeded(parse, Complete(text)), Said(Complete(text)));
    if BreaksLast(parse, Said(Complete(text))) {
      forall chunks | WholeCut(text, chunks)
        ensures ReceiveAll(parse, s, chunks).dispatched == s.dispatched + Said(Complete(text))
      {
        WholeCutDecodes(text, chunks);
        FramingIgnoresChunks(parse, s, chunks);
      }
    }
  }

  lemma WholeCutDecodes(text: string, chunks: seq<seq<Byte>>)
    requires WholeCut(text, chunks)
    ensures DecodePieces(chunks) == text
  {
    PiecesDecodeExactlyWhen(text, chunks);
  }

  /** A read boundary is meant never to be visible. Inside a character it is: the same bytes cut
      there are dispatched as another line. */
  lemma CutInsideACharacterIsVisible(parse: string -> Message)
    ensures var whole: seq<seq<Byte>> := [[0xC3, 0xA9, 0x0A]];
            var cut: seq<seq<Byte>> := [[0xC3], [0xA9, 0x0A]];
            Flatten(cut) == Flatten(whole) &&
            ReceiveAll(parse, CREATED, whole).dispatched == ["\U{E9}"] &&
            ReceiveAll(parse, CREATED, cut).dispatched == ["\U{FFFD}\U{FFFD}"]
  {
    hide ReceiveAll, DecodePieces;
    WholeBytes();
    CutBytes();
    FramedLine(parse, [[0xC3, 0xA9, 0x0A]], "\U{E9}");
    FramedLine(parse, [[0xC3], [0xA9, 0x0A]], "\U{FFFD}\U{FFFD}");
  }

  lemma FramedLine(parse: string -> Message, chunks: seq<seq<Byte>>, line: string)
    requires DecodePieces(chunks) == line + "\n" && line != "" && '\n' !in line
    ensures ReceiveAll(parse, CREATED, chunks).dispatched == [line]
  {
    hide ReceiveAll, Complete, Said, DecodePieces;
    OneLineOf(line);
    FramingIgnoresChunks(parse, CREATED, chunks);
  }

  lemma OneLineOf(line: string)
    requires line != "" && '\n' !in line
    ensures Said(Complete(line + "\n")) == [line]
  {
    NoNewlineOnePiece(line);
    SplitSnoc(line, '\n');
    FlatMapOne(NonEmpty, line);
  }

  lemma WholeBytes()
    ensures Flatten<Byte>([[0xC3, 0xA9, 0x0A]]) == [0xC3, 0xA9, 0x0A]
    ensures DecodePieces([[0xC3, 0xA9, 0x0A]]) == "\U{E9}" + "\n"
  {
    var bytes: seq<Byte> := [0xC3, 0xA9, 0x0A];
    var chunks := [bytes];
    assert chunks[..0] == [];
    FlatMapOne(Utf8.Decode, bytes);
    var t := "\U{E9}\n";
    assert EncodeChar('\U{E9}') == [0xC3, 0xA9] && EncodeChar('\n') == [0x0A];
    FlatMapAppend(EncodeChar, "\U{E9}", "\n");
    FlatMapOne(EncodeChar, '\U{E9}');
    FlatMapOne(EncodeChar, '\n');
    assert t == "\U{E9}" + "\n" && Encode(t) == bytes;
    DecodeInvertsEncode(t);
  }

  lemma CutBytes()
    ensures Flatten<Byte>([[0xC3], [0xA9, 0x0A]]) == [0xC3, 0xA9, 0x0A]
    ensures DecodePieces([[0xC3], [0xA9, 0x0A]]) == "\U{FFFD}\U{FFFD}" + "\n"
  {
    var first: seq<Byte> := [0xC3];
    var second: seq<Byte> := [0xA9, 0x0A];
    var chunks := [first, second];
    assert chunks[..1] == [first] && [first][..0] == [];
    assert Flatten([first]) == first;
    assert first[1..] == [] && second[1..] == [0x0A] && second[1..][1..] == [];
    assert Utf8.Decode(second[1..]) == "\n";
    assert Utf8.Decode(first) == [REPLACEMENT];
    assert Utf8.Decode(second) == [REPLACEMENT] + "\n";
    FlatMapOne(Utf8.Decode, first);
    FlatMapTake(Utf8.Decode, chunks, 1);
    assert chunks[..2] == chunks;
  }

  // --- Requests settle once ---------------------------------------------------------------------

  datatype Event = StartEvent | RequestEvent | ExitEvent | StdoutEvent(chunk: seq<Byte>)

  function Happen(parse: string -> Message, s: State, e: Event): State {
    match e
    case StartEvent => Start(s)
    case RequestEvent => Request(s)
    case ExitEvent => Exit(s)
    case StdoutEvent(chunk) => Receive(parse, s, chunk)
  }

  function HappenAll(parse: string -> Message, es: seq<Event>): State {
    if es == [] then CREATED else Happen(parse, HappenAll(parse, es[..|es| - 1]), es[|es| - 1])
  }

  function IdOf(x: Settlement): string { x.id }

  function SettledIds(s: State): seq<string> { Map(IdOf, s.settled) }

  /** Every id issued is either still pending or settled, once. */
  ghost predicate Accounted(s: State) {
    && s.nextId == |s.issued| + 1
    && (forall i :: 0 <= i < |s.issued| ==> s.issued[i] == Decimal(i + 1))
    && multiset(s.issued) == multiset(s.pending) + multiset(SettledIds(s))
    && (!s.running ==> s.pending == [])
  }

  lemma {:induction false} RemoveOne(ids: seq<string>, id: string)
    requires id in ids
    ensures multiset(Remove(ids, id)) == multiset(ids) - multiset{id} && multiset(ids)[id] > 0
  {
    var n := |ids| - 1;
    assert ids == ids[..n] + [ids[n]];
    if ids[n] != id {
      RemoveOne(ids[..n], id);
    }
  }

  lemma ReplyAccounts(s: State, id: string, outcome: string)
    requires Accounted(s) && id in s.pending
    ensures Accounted(s.(pending := Remove(s.pending, id), settled := s.settled + [Settlement(id, Replied(outcome))]))
  {
    hide Remove;
    RemoveOne(s.pending, id);
    MapAppend(IdOf, s.settled, [Settlement(id, Replied(outcome))]);
    assert Map(IdOf, [Settlement(id, Replied(outcome))]) == [id];
    assert s.running;
  }

  lemma DispatchAccounts(s: State, m: Message, raw: string)
    requires Accounted(s)
    ensures Accounted(Dispatch(s, m, raw))
  {
    hide Remove;
    if m.Reply? && m.id in s.pending {
      ReplyAccounts(s.(dispatched := s.dispatched + [raw]), m.id, m.outcome);
    }
  }

  lemma {:induction false} DispatchAllAccounts(parse: string -> Message, s: State, lines: seq<string>)
    requires Accounted(s)
    ensures Accounted(DispatchAll(parse, s, lines))
    decreases |lines|
  {
    if lines != [] {
      DispatchAccounts(s, parse(lines[0]), lines[0]);
      DispatchAllAccounts(parse, Offer(parse, s, lines[0]), lines[1..]);
    }
  }

  lemma ExitAccounts(s: State)
    requires Accounted(s)
    ensures Accounted(Exit(s))
  {
    MapAppend(IdOf, s.settled, Map(SettleByExit, s.pending));
    assert Map(IdOf, Map(SettleByExit, s.pending)) == s.pending;
    assert SettledIds(Exit(s)) == SettledIds(s) + s.pending;
  }

  lemma ReceiveAccounts(parse: string -> Message, s: State, chunk: seq<Byte>)
    requires Accounted(s)
    ensures Accounted(Receive(parse, s, chunk))
  {
    var text := s.accumulator + Utf8.Decode(chunk);
    DispatchAllAccounts(parse, s.(accumulator := Partial(text)), Complete(text));
  }

  lemma RequestAccounts(s: State)
    requires Accounted(s)
    ensures Accounted(Request(s))
  {
  }

  lemma {:induction false} AlwaysAccounted(parse: string -> Message, es: seq<Event>)
    ensures Accounted(HappenAll(parse, es))
  {
    if es != [] {
      var s, e := HappenAll(parse, es[..|es| - 1]), es[|es| - 1];
      AlwaysAccounted(parse, es[..|es| - 1]);
      match e
      case StartEvent =>
      case RequestEvent => RequestAccounts(s);
      case ExitEvent => ExitAccounts(s);
      case StdoutEvent(chunk) => ReceiveAccounts(parse, s, chunk);
    }
  }

  lemma {:induction false} DistinctOnce(ids: seq<string>, id: string)
    requires forall i, j :: 0 <= i < j < |ids| ==> ids[i] != ids[j]
    ensures multiset(ids)[id] <= 1
  {
    if ids != [] {
      var n := |ids| - 1;
      assert ids == ids[..n] + [ids[n]];
      DistinctOnce(ids[..n], id);
      if ids[n] == id {
        assert id !in ids[..n];
      }
    }
  }

  /** Over any run of starts, requests, output and exits: no id is issued twice, no request
      settles twice, what was issued is exactly what is pending or settled, and with no process
      nothing is pending -- so by then every request sent has settled. */
  lemma RequestsSettleOnce(parse: string -> Message, es: seq<Event>)
    ensures var s := HappenAll(parse, es);
            (forall i, j :: 0 <= i < j < |s.issued| ==> s.issued[i] != s.issued[j]) &&
            (forall id: string :: multiset(SettledIds(s))[id] <= 1) &&
            multiset(s.issued) == multiset(s.pending) + multiset(SettledIds(s)) &&
            (!s.running ==> s.pending == [] && multiset(s.issued) == multiset(SettledIds(s)))
  {
    hide HappenAll, SettledIds;
    var s := HappenAll(parse, es);
    AlwaysAccounted(parse, es);
    IssuedAreDistinct(s);
    forall id: string
      ensures multiset(SettledIds(s))[id] <= 1
    {
      DistinctOnce(s.issued, id);
      SumBounds(s.issued, s.pending, SettledIds(s), id);
    }
  }

  lemma SumBounds(all: seq<string>, a: seq<string>, b: seq<string>, id: string)
    requires multiset(all) == multiset(a) + multiset(b)
    ensures multiset(b)[id] <= multiset(all)[id]
  {
  }

  lemma IssuedAreDistinct(s: State)
    requires Accounted(s)
    ensures forall i, j :: 0 <= i < j < |s.issued| ==> s.issued[i] != s.issued[j]
  {
    hide Decimal;
    forall i, j | 0 <= i < j < |s.issued|
      ensures s.issued[i] != s.issued[j]
    {
      if s.issued[i] == s.issued[j] {
        DecimalInjective(i + 1, j + 1);
      }
    }
  }

  // --- Replies are the sidecar's ---------------------------------------------------------------

  /** A request that settled with a reply did so because of a line that is that reply. */
  ghost predicate Founded(parse: string -> Message, s: State) {
    forall x :: x in s.settled && x.why.Replied? ==>
      exists raw :: raw in s.dispatched && parse(raw) == Reply(x.id, x.why.outcome)
  }

  lemma DispatchFounds(parse: string -> Message, s: State, raw: string)
    requires Founded(parse, s)
    ensures Founded(parse, Dispatch(s, parse(raw), raw))
  {
    hide Remove;
    var s' := Dispatch(s, parse(raw), raw);
    forall x | x in s'.settled && x.why.Replied?
      ensures exists r :: r in s'.dispatched && parse(r) == Reply(x.id, x.why.outcome)
    {
      if x in s.settled {
        var r :| r in s.dispatched && parse(r) == Reply(x.id, x.why.outcome);
        assert r in s'.dispatched;
      } else {
        assert raw in s'.dispatched;
      }
    }
  }

  lemma {:induction false} DispatchAllFounds(parse: string -> Message, s: State, lines: seq<string>)
    requires Founded(parse, s)
    ensures Founded(parse, DispatchAll(parse, s, lines))
    decreases |lines|
  {
    if lines != [] {
      DispatchFounds(parse, s, lines[0]);
      DispatchAllFounds(parse, Offer(parse, s, lines[0]), lines[1..]);
    }
  }

  /** Over any run, nothing settles with a reply the sidecar did not send for that very id. */
  lemma {:induction false} RepliesAreTheSidecars(parse: string -> Message, es: seq<Event>)
    ensures Founded(parse, HappenAll(parse, es))
  {
    if es != [] {
      var s, e := HappenAll(parse, es[..|es| - 1]), es[|es| - 1];
      RepliesAreTheSidecars(parse, es[..|es| - 1]);
      if e.StdoutEvent? {
        var text := s.accumulator + Utf8.Decode(e.chunk);
        DispatchAllFounds(parse, s.(accumulator := Partial(text)), Complete(text));
      }
    }
  }
}
