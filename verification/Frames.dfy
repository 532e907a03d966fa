/** The Content-Length frame decoder of scripts/warm_lsp_mcp.py. Bytes are modelled as
    characters. Decoding inverts encoding however the stream is cut into reads. */
module Frames {
  import opened Sequences
  import opened Text

  const CRLF2 := "\r\n\r\n"
  const LF2 := "\n\n"
  const LENGTH_KEY := "content-length:"

  // --- The header ------------------------------------------------------------------------

  predicate IsSpace(c: char) { c == ' ' || '\t' <= c <= '\r' || '\U{1C}' <= c <= '\U{1F}' }

  predicate IsLineBreak(c: char) { '\n' <= c <= '\r' || '\U{1C}' <= c <= '\U{1E}' }

  function Lower(c: char): char { if 'A' <= c <= 'Z' then c + ' ' else c }

  /** str.splitlines, but for "\r\n" counting as two breaks: the blank line that makes is never
      the one looked for. */
  function SplitLines(s: string): (lines: seq<string>)
    ensures lines != []
  {
    if s == "" then [""]
    else
      var before, c := SplitLines(s[..|s| - 1]), s[|s| - 1];
      if IsLineBreak(c) then before + [""]
      else before[..|before| - 1] + [before[|before| - 1] + [c]]
  }

  /** int(): digits, single underscores between them allowed. */
  function ParseDigits(s: string): Option<nat> {
    if s == "" || !IsDigit(s[|s| - 1]) then None
    else if |s| == 1 then Some(DigitValue(s[0]))
    else
      var init := s[..|s| - 1];
      match ParseDigits(if init[|init| - 1] == '_' then init[..|init| - 1] else init)
      case None => None
      case Some(v) => Some(10 * v + DigitValue(s[|s| - 1]))
  }

  function ParseInt(s: string): Option<int> {
    var t := Trim(IsSpace, s);
    if t != "" && t[0] == '-' then
      match ParseDigits(t[1..]) case Some(v) => var i: int := v; Some(-i) case None => None
    else ParseDigits(if t != "" && t[0] == '+' then t[1..] else t)
  }

  datatype Length = NoLength | Bytes(n: int) | BadNumber

  predicate IsLengthLine(line: string) { LENGTH_KEY <= Map(Lower, line) }

  /** The last Content-Length line wins; a number int() refuses raises at once. */
  function LengthIn(lines: seq<string>): Length {
    if lines == [] then NoLength
    else
      var before, line := LengthIn(lines[..|lines| - 1]), lines[|lines| - 1];
      if before.BadNumber? || !IsLengthLine(line) then before
      else match ParseInt(line[|LENGTH_KEY|..])
        case Some(n) => Bytes(n)
        case None => BadNumber
  }

  // --- One turn of the loop ---------------------------------------------------------------

  datatype Separator = Separator(at: nat, size: nat)

  function FindSeparator(buf: string): (r: Option<Separator>)
    ensures r.Some? ==> r.value.at + r.value.size <= |buf| && r.value.size >= 2
  {
    match Find(buf, CRLF2)
    case Some(k) => Some(Separator(k, 4))
    case None =>
      match Find(buf, LF2)
      case Some(k) => Some(Separator(k, 2))
      case None => None
  }

  /** An index as Python slices take it: negative ones count from the end. */
  function Clip(k: int, n: nat): (i: nat)
    ensures i <= n
  {
    if k >= n then n else if k >= 0 then k else if n + k >= 0 then n + k else 0
  }

  function Slice(s: string, i: int, j: int): string {
    if Clip(i, |s|) <= Clip(j, |s|) then s[Clip(i, |s|)..Clip(j, |s|)] else ""
  }

  datatype Step = Wait | Raise | Skip(rest: string) | Frame(body: string, rest: string)

  function DrainStep(buf: string): (r: Step)
    ensures r.Skip? ==> |r.rest| < |buf|
    ensures r.Frame? ==> |r.rest| <= |buf|
  {
    match FindSeparator(buf)
    case None => Wait
    case Some(sep) =>
      var start := sep.at + sep.size;
      match LengthIn(SplitLines(buf[..sep.at]))
      case BadNumber => Raise
      case NoLength => Skip(buf[start..])
      case Bytes(n) =>
        if |buf| < start + n then Wait
        else Frame(Slice(buf, start, start + n), buf[Clip(start + n, |buf|)..])
  }

  // What json.loads and the dispatch make of a body: a message, passed on; not JSON, passed
  // over; or something that raises -- bytes that are no text, a value that is no object -- and
  // ends the reader.
  datatype Reading = Message | NotJson | Fatal

  // How a drain ends: out of input, on an exception, or never (a length that moves nothing).
  datatype End = Waiting | Raised | Spinning

  datatype Drained = Drained(bodies: seq<string>, rest: string, end: End)

  /** What a body puts out. */
  function Heard(parse: string -> Reading, body: string): seq<string> { if parse(body).Message? then [body] else [] }

  /** The loop: the bodies put out, what is left in the buffer, and how it ends. */
  function Drain(parse: string -> Reading, buf: string): Drained
    decreases |buf|
  {
    match DrainStep(buf)
    case Wait => Drained([], buf, Waiting)
    case Raise => Drained([], buf, Raised)
    case Skip(rest) => Drain(parse, rest)
    case Frame(body, rest) =>
      if parse(body).Fatal? then Drained([], rest, Raised)
      else if |rest| == |buf| then Drained(Heard(parse, body), rest, Spinning)
      else var d := Drain(parse, rest); d.(bodies := Heard(parse, body) + d.bodies)
  }

  class LspReader {
    const parse: string -> Reading
    var buf: string
    var dispatched: seq<string>
    var end: End

    constructor (parse: string -> Reading)
      ensures this.parse == parse && State() == NEW_READER
    {
      this.parse := parse;
      buf, dispatched, end := "", [], Waiting;
    }

    method DrainFrames()
      modifies this`buf, this`dispatched, this`end
      ensures buf == Drain(parse, old(buf)).rest && end == Drain(parse, old(buf)).end
      ensures dispatched == old(dispatched) + Drain(parse, old(buf)).bodies
    {
      ghost var done: seq<string> := [];
      while true
        invariant dispatched == old(dispatched) + done
        invariant var d := Drain(parse, buf);
                  Drain(parse, old(buf)) == Drained(done + d.bodies, d.rest, d.end)
        decreases |buf|
      {
        var step := DrainStep(buf);
        match step {
          case Wait =>
            end := Waiting;
            return;
          case Raise =>
            end := Raised;
            return;
          case Skip(rest) =>
            buf := rest;
          case Frame(body, rest) =>
            var reading := parse(body);
            if reading.Fatal? {
              buf, end := rest, Raised;
              return;
            }
            Associative(old(dispatched), done, Heard(parse, body));
            Associative(done, Heard(parse, body), Drain(parse, rest).bodies);
            if reading.Message? {
              dispatched := dispatched + [body];
            }
            if |rest| == |buf| {
              buf, end := rest, Spinning;
              return;
            }
            done := done + Heard(parse, body);
            buf := rest;
        }
      }
    }

    // One read of the server's output; an exception has ended the reader thread for good.
    method Receive(chunk: string)
      modifies this`buf, this`dispatched, this`end
      ensures State() == Feed(parse, old(State()), chunk)
    {
      if end == Waiting {
        buf := buf + chunk;
        DrainFrames();
      }
    }

    function State(): Reader
      reads this
    {
      Reader(buf, dispatched, end)
    }
  }

  datatype Reader = Reader(buf: string, dispatched: seq<string>, end: End)

  const NEW_READER := Reader("", [], Waiting)

  function Feed(parse: string -> Reading, r: Reader, chunk: string): Reader {
    if r.end != Waiting then r
    else var d := Drain(parse, r.buf + chunk); Reader(d.rest, r.dispatched + d.bodies, d.end)
  }

  function FeedAll(parse: string -> Reading, chunks: seq<string>): Reader {
    if chunks == [] then NEW_READER
    else Feed(parse, FeedAll(parse, chunks[..|chunks| - 1]), chunks[|chunks| - 1])
  }

  // --- The encoder --------------------------------------------------------------------------

  // A header block, the blank line that ends it, and the body it announces.
  datatype WireFrame = WireFrame(header: string, blank: string, body: string)

  function Wire(f: WireFrame): string { f.header + f.blank + f.body }

  function Body(f: WireFrame): string { f.body }

  function SendFrame(body: string): WireFrame { WireFrame("Content-Length: " + Decimal(|body|), CRLF2, body) }

  /** A header block that states the body's length and holds no blank line of either kind. */
  predicate GoodFrame(f: WireFrame) {
    f.blank == CRLF2 && LengthIn(SplitLines(f.header)) == Bytes(|f.body|) &&
    Find(f.header + CRLF2, CRLF2) == Some(|f.header|) &&
    Find(f.header + CRLF2, LF2) == None
  }

  lemma FrameParts(f: WireFrame, more: string)
    ensures var buf := Wire(f) + more;
            var start := |f.header| + |f.blank|;
            buf == f.header + f.blank + (f.body + more) && buf[..|f.header|] == f.header &&
            buf[start..start + |f.body|] == f.body && buf[start + |f.body|..] == more
  {
  }

  lemma StepOnFrame(f: WireFrame, more: string)
    requires GoodFrame(f)
    ensures DrainStep(Wire(f) + more) == Frame(f.body, more)
  {
    FrameParts(f, more);
    FindExtends(f.header + CRLF2, CRLF2, f.body + more);
    StepOnLength(Wire(f) + more, Separator(|f.header|, 4), |f.body|);
  }

  lemma StepOnPart(f: WireFrame, part: string)
    requires GoodFrame(f) && part <= Wire(f) && |part| < |Wire(f)|
    ensures DrainStep(part) == Wait
  {
    var head := f.header + CRLF2;
    if |part| < |head| {
      assert part == head[..|part|];
      FindInPrefix(head, CRLF2, |part|);
      FindInPrefix(head, LF2, |part|);
    } else {
      var begun := f.body[..|part| - |head|];
      assert part == head + begun;
      FindExtends(head, CRLF2, begun);
      assert part[..|f.header|] == f.header;
    }
  }

  lemma StepOnLength(buf: string, sep: Separator, n: nat)
    requires FindSeparator(buf) == Some(sep) && sep.at <= |buf| && LengthIn(SplitLines(buf[..sep.at])) == Bytes(n)
    ensures var start := sep.at + sep.size;
            DrainStep(buf) ==
            if |buf| < start + n then Wait else Frame(buf[start..start + n], buf[start + n..])
  {
    hide FindSeparator, LengthIn, SplitLines;
  }

  // --- Streams the decoder walks through ---------------------------------------------------------

  /** The decoder takes the frame off any buffer that starts with it, and waits on part of it;
      `later` is what the stream holds after it. */
  ghost predicate TakesOff(f: WireFrame, later: string) {
    (forall more {:trigger DrainStep(Wire(f) + more)} | more <= later ::
       DrainStep(Wire(f) + more) == Frame(f.body, more)) &&
    (forall part {:trigger DrainStep(part)} | part <= Wire(f) && |part| < |Wire(f)| :: DrainStep(part) == Wait)
  }

  /** So it does frame by frame down a stream. */
  ghost predicate Walkable(fs: seq<WireFrame>) {
    fs == [] || (TakesOff(fs[0], FlatMap(Wire, fs[1..])) && Wire(fs[0]) != "" && Walkable(fs[1..]))
  }

  ghost predicate AllGood(fs: seq<WireFrame>) { forall f :: f in fs ==> GoodFrame(f) }

  lemma GoodTakesOff(f: WireFrame, later: string)
    requires GoodFrame(f)
    ensures TakesOff(f, later)
  {
    forall more | more <= later
      ensures DrainStep(Wire(f) + more) == Frame(f.body, more)
    {
      StepOnFrame(f, more);
    }
    forall part | part <= Wire(f) && |part| < |Wire(f)|
      ensures DrainStep(part) == Wait
    {
      StepOnPart(f, part);
    }
  }

  lemma {:induction false} GoodIsWalkable(fs: seq<WireFrame>)
    requires AllGood(fs)
    ensures Walkable(fs)
  {
    if fs != [] {
      hide TakesOff;
      GoodTakesOff(fs[0], FlatMap(Wire, fs[1..]));
      GoodIsWalkable(fs[1..]);
    }
  }

  lemma {:induction false} WalkableFrom(fs: seq<WireFrame>, k: nat)
    requires Walkable(fs) && k <= |fs|
    ensures Walkable(fs[k..])
  {
    if k > 0 {
      WalkableFrom(fs[1..], k - 1);
      assert fs[1..][k - 1..] == fs[k..];
    } else {
      assert fs[0..] == fs;
    }
  }

  // --- Decoding inverts encoding ---------------------------------------------------------------

  /** The first m frames of the stream are in, and what is left is less than the next. */
  ghost predicate DecodedTo(fs: seq<WireFrame>, m: nat, stream: string, rest: string) {
    && m <= |fs| && stream == FlatMap(Wire, fs[..m]) + rest
    && if m < |fs| then |rest| < |Wire(fs[m])| && rest <= Wire(fs[m]) else rest == ""
  }

  /** What a run of bodies puts out, up to the first that raises. */
  function AllHeard(parse: string -> Reading, bodies: seq<string>): seq<string> {
    if bodies == [] || parse(bodies[0]).Fatal? then [] else Heard(parse, bodies[0]) + AllHeard(parse, bodies[1..])
  }

  ghost predicate Ends(parse: string -> Reading, bodies: seq<string>) { exists b :: b in bodies && parse(b).Fatal? }

  /** The state that reading m whole frames and part of the next leaves. */
  ghost predicate HasRead(parse: string -> Reading, bodies: seq<string>, rest: string, r: Reader) {
    r.dispatched == AllHeard(parse, bodies) &&
    if Ends(parse, bodies) then r.end == Raised else r.end == Waiting && r.buf == rest
  }

  lemma {:induction false} AllHeardAppend(parse: string -> Reading, xs: seq<string>, ys: seq<string>)
    ensures AllHeard(parse, xs + ys) ==
            if Ends(parse, xs) then AllHeard(parse, xs) else AllHeard(parse, xs) + AllHeard(parse, ys)
    ensures Ends(parse, xs + ys) <==> Ends(parse, xs) || Ends(parse, ys)
  {
    if xs == [] {
      assert xs + ys == ys;
    } else {
      hide AllHeard, Heard, Ends;
      var x, rest := xs[0], xs[1..];
      assert xs == [x] + rest && xs + ys == [x] + (rest + ys);
      AllHeardAppend(parse, rest, ys);
      AllHeardCons(parse, x, rest);
      AllHeardCons(parse, x, rest + ys);
      Associative(Heard(parse, x), AllHeard(parse, rest), AllHeard(parse, ys));
      assert [] + AllHeard(parse, ys) == AllHeard(parse, ys);
    }
  }

  lemma AllHeardCons(parse: string -> Reading, x: string, xs: seq<string>)
    ensures AllHeard(parse, [x] + xs) == if parse(x).Fatal? then [] else Heard(parse, x) + AllHeard(parse, xs)
    ensures Ends(parse, [x] + xs) <==> parse(x).Fatal? || Ends(parse, xs)
  {
    assert ([x] + xs)[1..] == xs;
  }

  lemma DecodedAfterOne(f: WireFrame, later: seq<WireFrame>, m: nat, more: string, rest: string)
    requires DecodedTo(later, m, more, rest)
    ensures DecodedTo([f] + later, m + 1, Wire(f) + more, rest)
    ensures Map(Body, ([f] + later)[..m + 1]) == [f.body] + Map(Body, later[..m])
  {
    var fs := [f] + later;
    assert fs[..m + 1] == [f] + later[..m];
    FlatMapAppend(Wire, [f], later[..m]);
    FlatMapOne(Wire, f);
    Associative(Wire(f), FlatMap(Wire, later[..m]), rest);
  }

  lemma DrainWhole(parse: string -> Reading, f: WireFrame, later: string, more: string)
    requires TakesOff(f, later) && more <= later && Wire(f) != ""
    ensures var d := Drain(parse, more);
            Drain(parse, Wire(f) + more) ==
            if parse(f.body).Fatal? then Drained([], more, Raised)
            else Drained(Heard(parse, f.body) + d.bodies, d.rest, d.end)
  {
    assert DrainStep(Wire(f) + more) == Frame(f.body, more);
  }

  lemma DrainPart(parse: string -> Reading, f: WireFrame, later: string, part: string)
    requires TakesOff(f, later) && part <= Wire(f) && |part| < |Wire(f)|
    ensures Drain(parse, part) == Drained([], part, Waiting)
  {
    assert DrainStep(part) == Wait;
  }

  lemma {:induction false} DrainDecodes(parse: string -> Reading, fs: seq<WireFrame>, stream: string)
    returns (m: nat, rest: string)
    requires Walkable(fs) && stream <= FlatMap(Wire, fs)
    ensures DecodedTo(fs, m, stream, rest)
    ensures var d := Drain(parse, stream);
            HasRead(parse, Map(Body, fs[..m]), rest, Reader(d.rest, d.bodies, d.end))
    decreases |fs|
  {
    hide TakesOff, AllHeard, Drain, FlatMap;
    if fs == [] {
      NothingToDrain(parse);
      m, rest := 0, "";
      NothingRead(parse);
    } else {
      var f, later := fs[0], fs[1..];
      FlatMapHead(Wire, fs);
      if |stream| < |Wire(f)| {
        m, rest := 0, stream;
        PrefixOfFirst(stream, Wire(f), FlatMap(Wire, later));
        DrainPart(parse, f, FlatMap(Wire, later), stream);
        NothingRead(parse);
      } else {
        var more := stream[|Wire(f)|..];
        PastFirst(stream, Wire(f), FlatMap(Wire, later));
        DrainWhole(parse, f, FlatMap(Wire, later), more);
        m, rest := DrainDecodes(parse, later, more);
        DecodedAfterOne(f, later, m, more, rest);
        AllHeardCons(parse, f.body, Map(Body, later[..m]));
        assert fs == [f] + later;
        m := m + 1;
      }
    }
  }

  lemma NothingRead(parse: string -> Reading)
    ensures AllHeard(parse, []) == [] && FlatMap(Wire, []) == "" && !Ends(parse, [])
  {
  }

  lemma NothingToDrain(parse: string -> Reading)
    ensures Drain(parse, "") == Drained([], "", Waiting)
  {
    FindAbsent("", CRLF2);
    FindAbsent("", LF2);
  }

  lemma PrefixOfFirst(s: string, a: string, b: string)
    requires s <= a + b && |s| < |a|
    ensures s <= a
  {
    assert s == (a + b)[..|s|] == a[..|s|];
  }

  lemma PastFirst(s: string, a: string, b: string)
    requires s <= a + b && |s| >= |a|
    ensures s == a + s[|a|..] && s[|a|..] <= b
  {
    assert s[..|a|] == (a + b)[..|a|] == a;
    assert s[|a|..] == (a + b)[|a|..|s|] == b[..|s| - |a|];
  }

  lemma DecodedAfterMany(fs: seq<WireFrame>, k: nat, j: nat, pending: string, rest: string)
    requires k <= |fs| && DecodedTo(fs[k..], j, pending, rest)
    ensures DecodedTo(fs, k + j, FlatMap(Wire, fs[..k]) + pending, rest)
    ensures Map(Body, fs[..k + j]) == Map(Body, fs[..k]) + Map(Body, fs[k..][..j])
  {
    hide FlatMap;
    assert fs[..k + j] == fs[..k] + fs[k..][..j];
    FlatMapAppend(Wire, fs[..k], fs[k..][..j]);
    Associative(FlatMap(Wire, fs[..k]), FlatMap(Wire, fs[k..][..j]), rest);
  }

  /** At every point of every chunking the decoder has put out the messages among the first
      frames, in order, and holds exactly the bytes of the next one that have come in -- unless
      one of those frames has raised; then what came before it is out, and it reads no more. */
  lemma {:induction false} EveryChunkingDecodes(parse: string -> Reading, fs: seq<WireFrame>, chunks: seq<string>)
    returns (m: nat, rest: string)
    requires Walkable(fs) && Flatten(chunks) <= FlatMap(Wire, fs)
    ensures DecodedTo(fs, m, Flatten(chunks), rest)
    ensures HasRead(parse, Map(Body, fs[..m]), rest, FeedAll(parse, chunks))
  {
    if chunks == [] {
      m, rest := DrainDecodes(parse, fs, "");
      NothingToDrain(parse);
    } else {
      hide HasRead, Flatten, FlatMap, DecodedTo, Feed;
      var before, chunk := chunks[..|chunks| - 1], chunks[|chunks| - 1];
      FlattenLast(chunks);
      var k, buf := EveryChunkingDecodes(parse, fs, before);
      m, rest := ChunkDecodes(parse, fs, k, buf, chunk, Flatten(before), FeedAll(parse, before));
    }
  }

  lemma FlattenLast(chunks: seq<string>)
    requires chunks != []
    ensures Flatten(chunks) == Flatten(chunks[..|chunks| - 1]) + chunks[|chunks| - 1]
    ensures Flatten(chunks[..|chunks| - 1]) <= Flatten(chunks)
  {
  }

  /** One more read takes the decoder from k frames and part of the next to m and part of the
      next. */
  lemma ChunkDecodes(parse: string -> Reading, fs: seq<WireFrame>, k: nat, buf: string, chunk: string,
                     stream: string, r: Reader)
    returns (m: nat, rest: string)
    requires Walkable(fs) && DecodedTo(fs, k, stream, buf) && stream + chunk <= FlatMap(Wire, fs)
    requires HasRead(parse, Map(Body, fs[..k]), buf, r)
    ensures DecodedTo(fs, m, stream + chunk, rest)
    ensures HasRead(parse, Map(Body, fs[..m]), rest, Feed(parse, r, chunk))
  {
    hide FlatMap, AllHeard, Ends, Drain, Walkable;
    var j;
    j, rest := PendingDecodes(parse, fs, k, buf, chunk, stream);
    DecodedAfterMany(fs, k, j, buf + chunk, rest);
    Associative(FlatMap(Wire, fs[..k]), buf, chunk);
    AllHeardAppend(parse, Map(Body, fs[..k]), Map(Body, fs[k..][..j]));
    m := k + j;
  }

  lemma PendingDecodes(parse: string -> Reading, fs: seq<WireFrame>, k: nat, buf: string, chunk: string,
                       stream: string)
    returns (j: nat, rest: string)
    requires Walkable(fs) && DecodedTo(fs, k, stream, buf) && stream + chunk <= FlatMap(Wire, fs)
    ensures DecodedTo(fs[k..], j, buf + chunk, rest)
    ensures var d := Drain(parse, buf + chunk);
            HasRead(parse, Map(Body, fs[k..][..j]), rest, Reader(d.rest, d.bodies, d.end))
  {
    hide FlatMap, Walkable, HasRead, Drain;
    Halves(fs, k);
    FlatMapAppend(Wire, fs[..k], fs[k..]);
    Associative(FlatMap(Wire, fs[..k]), buf, chunk);
    PrefixCancels(FlatMap(Wire, fs[..k]), buf + chunk, FlatMap(Wire, fs[k..]));
    WalkableFrom(fs, k);
    j, rest := DrainDecodes(parse, fs[k..], buf + chunk);
  }

  lemma PrefixCancels(a: string, b: string, c: string)
    requires a + b <= a + c
    ensures b <= c
  {
    assert b == (a + b)[|a|..] && c == (a + c)[|a|..];
  }

  lemma {:induction false} WalkableAreWhole(fs: seq<WireFrame>, m: nat, rest: string)
    requires Walkable(fs) && DecodedTo(fs, m, FlatMap(Wire, fs), rest)
    ensures m == |fs| && rest == ""
  {
    hide FlatMap;
    Halves(fs, m);
    FlatMapAppend(Wire, fs[..m], fs[m..]);
    if m < |fs| {
      FlatMapHead(Wire, fs[m..]);
    }
  }

  /** Once the whole stream is in, the messages among all its bodies are out and the buffer is
      empty, unless one has raised. */
  lemma DecodingInvertsEncoding(parse: string -> Reading, fs: seq<WireFrame>, chunks: seq<string>)
    requires Walkable(fs) && Flatten(chunks) == FlatMap(Wire, fs)
    ensures HasRead(parse, Map(Body, fs), "", FeedAll(parse, chunks))
  {
    hide FlatMap, Flatten, HasRead, FeedAll, Walkable;
    var m, rest := EveryChunkingDecodes(parse, fs, chunks);
    WalkableAreWhole(fs, m, rest);
    assert fs[..|fs|] == fs;
  }

  // --- The frames _send writes are such frames ---------------------------------------------------

  lemma {:induction false} DecimalParses(n: nat)
    ensures ParseDigits(Decimal(n)) == Some(n)
  {
    if n >= 10 {
      DecimalParses(n / 10);
      var s := Decimal(n);
      assert s[..|s| - 1] == Decimal(n / 10);
      assert IsDigit(Decimal(n / 10)[|Decimal(n / 10)| - 1]);
    }
  }

  lemma {:induction false} OneLine(s: string)
    requires forall c :: c in s ==> !IsLineBreak(c)
    ensures SplitLines(s) == [s]
  {
    if s != "" {
      OneLine(s[..|s| - 1]);
      assert s == s[..|s| - 1] + [s[|s| - 1]];
    }
  }

  lemma LengthKeyRead(digits: string)
    ensures IsLengthLine("Content-Length: " + digits)
    ensures ("Content-Length: " + digits)[|LENGTH_KEY|..] == " " + digits
  {
    var line := "Content-Length: " + digits;
    assert Map(Lower, line)[..15] == LENGTH_KEY;
  }

  lemma DigitsParse(n: nat)
    ensures ParseInt(" " + Decimal(n)) == Some(n)
  {
    var digits := Decimal(n);
    assert (" " + digits)[1..] == digits;
    assert IsDigit(digits[0]) && IsDigit(digits[|digits| - 1]);
    assert TrimLeft(IsSpace, " " + digits) == digits;
    DecimalParses(n);
  }

  lemma SendHeaderParses(n: nat)
    ensures LengthIn(SplitLines("Content-Length: " + Decimal(n))) == Bytes(n)
  {
    var line := "Content-Length: " + Decimal(n);
    OneLine(line);
    var lines := [line];
    assert lines[..0] == [];
    LengthKeyRead(Decimal(n));
    DigitsParse(n);
  }

  /** A header of one line puts the blank line right after it. */
  lemma OneLineHeader(header: string)
    requires forall c :: c in header ==> !IsLineBreak(c)
    ensures Find(header + CRLF2, CRLF2) == Some(|header|) && Find(header + CRLF2, LF2) == None
  {
    var head := header + CRLF2;
    forall j | 0 <= j < |header|
      ensures head[j] != '\r' && head[j] != '\n'
    {
      assert header[j] in header && head[j] == header[j];
    }
    forall j | 0 <= j < |header|
      ensures !At(head, CRLF2, j)
    {
      assert head[j..j + 4][0] == head[j];
    }
    assert head[|header|..|header| + 4] == CRLF2;
    FindIs(head, CRLF2, |header|);
    forall j | 0 <= j <= |head|
      ensures !At(head, LF2, j)
    {
      if j + 2 <= |head| {
        assert head[j..j + 2][0] == head[j] && head[j..j + 2][1] == head[j + 1];
      }
    }
    FindAbsent(head, LF2);
  }

  lemma SendFrameIsGood(body: string)
    ensures GoodFrame(SendFrame(body))
  {
    hide Find, LengthIn, SplitLines, Decimal;
    SendHeaderParses(|body|);
    OneLineHeader("Content-Length: " + Decimal(|body|));
  }

  lemma {:induction false} AllMessagesAreHeard(parse: string -> Reading, bodies: seq<string>)
    requires forall b :: b in bodies ==> parse(b).Message?
    ensures AllHeard(parse, bodies) == bodies && !Ends(parse, bodies)
  {
    if bodies != [] {
      AllMessagesAreHeard(parse, bodies[1..]);
      assert bodies == [bodies[0]] + bodies[1..];
    }
  }

  /** For any bodies, blank lines in them or not, sent as _send sends them and read in any
      pieces, the decoder puts out exactly those bodies: the messages among them, and all of
      them when all are messages, as what _send encodes is. */
  lemma SentBodiesArrive(parse: string -> Reading, bodies: seq<string>, chunks: seq<string>)
    requires Flatten(chunks) == FlatMap(Wire, Map(SendFrame, bodies))
    ensures HasRead(parse, bodies, "", FeedAll(parse, chunks))
    ensures (forall b :: b in bodies ==> parse(b).Message?) ==> FeedAll(parse, chunks) == Reader("", bodies, Waiting)
  {
    hide FlatMap, Flatten, FeedAll, GoodFrame, Walkable;
    var fs := Map(SendFrame, bodies);
    forall f | f in fs
      ensures GoodFrame(f)
    {
      var i :| 0 <= i < |fs| && fs[i] == f;
      SendFrameIsGood(bodies[i]);
    }
    GoodIsWalkable(fs);
    DecodingInvertsEncoding(parse, fs, chunks);
    assert Map(Body, fs) == bodies;
    if forall b :: b in bodies ==> parse(b).Message? {
      AllMessagesAreHeard(parse, bodies);
    }
  }

  // --- Frames ended by bare newlines ---------------------------------------------------------------

  /** A header block that states the body's length, ended by the first "\n\n". */
  predicate NewlineFrame(f: WireFrame) {
    f.blank == LF2 && LengthIn(SplitLines(f.header)) == Bytes(|f.body|) &&
    Find(f.header + LF2, LF2) == Some(|f.header|)
  }

  lemma StepOnNewlineFrame(f: WireFrame, more: string)
    requires NewlineFrame(f) && Find(Wire(f) + more, CRLF2) == None
    ensures DrainStep(Wire(f) + more) == Frame(f.body, more)
  {
    FrameParts(f, more);
    FindExtends(f.header + LF2, LF2, f.body + more);
    StepOnLength(Wire(f) + more, Separator(|f.header|, 2), |f.body|);
  }

  lemma StepOnNewlinePart(f: WireFrame, part: string)
    requires NewlineFrame(f) && Find(part, CRLF2) == None && part <= Wire(f) && |part| < |Wire(f)|
    ensures DrainStep(part) == Wait
  {
    var head := f.header + LF2;
    if |part| < |head| {
      assert part == head[..|part|];
      FindInPrefix(head, LF2, |part|);
    } else {
      var begun := f.body[..|part| - |head|];
      assert part == head + begun;
      FindExtends(head, LF2, begun);
      assert part[..|f.header|] == f.header;
      StepOnLength(part, Separator(|f.header|, 2), |f.body|);
    }
  }

  lemma NewlineTakesOff(f: WireFrame, later: string)
    requires NewlineFrame(f) && Find(Wire(f) + later, CRLF2) == None
    ensures TakesOff(f, later)
  {
    var whole := Wire(f) + later;
    forall more | more <= later
      ensures DrainStep(Wire(f) + more) == Frame(f.body, more)
    {
      assert Wire(f) + more == whole[..|Wire(f) + more|];
      FindInPrefix(whole, CRLF2, |Wire(f) + more|);
      StepOnNewlineFrame(f, more);
    }
    forall part | part <= Wire(f) && |part| < |Wire(f)|
      ensures DrainStep(part) == Wait
    {
      assert part == whole[..|part|];
      FindInPrefix(whole, CRLF2, |part|);
      StepOnNewlinePart(f, part);
    }
  }

  lemma FindInSuffix(a: string, b: string, p: string)
    requires Find(a + b, p) == None
    ensures Find(b, p) == None
  {
    forall j: nat | j <= |b|
      ensures !At(b, p, j)
    {
      var i := |a| + j;
      assert !At(a + b, p, i);
      if j + |p| <= |b| {
        assert (a + b)[i..i + |p|] == b[j..j + |p|];
      }
    }
    FindAbsent(b, p);
  }

  ghost predicate AllNewline(fs: seq<WireFrame>) { forall f :: f in fs ==> NewlineFrame(f) }

  /** Frames ended by bare newlines decode under every chunking as long as no "\r\n\r\n" is
      anywhere in the stream: then the decoder walks it frame by frame. */
  lemma {:induction false} NewlinesAreWalkable(fs: seq<WireFrame>)
    requires AllNewline(fs) && Find(FlatMap(Wire, fs), CRLF2) == None
    ensures Walkable(fs)
  {
    if fs != [] {
      hide TakesOff, FlatMap, NewlineFrame;
      FlatMapHead(Wire, fs);
      NewlineTakesOff(fs[0], FlatMap(Wire, fs[1..]));
      FindInSuffix(Wire(fs[0]), FlatMap(Wire, fs[1..]), CRLF2);
      NewlinesAreWalkable(fs[1..]);
    }
  }

  // --- Exactly when they do --------------------------------------------------------------------------

  /** A frame ended by bare newlines whose header block, of one line or several, holds no carriage
      return. */
  predicate BareFrame(f: WireFrame) { NewlineFrame(f) && '\r' !in f.header }

  lemma NoHeaderNoLength()
    ensures LengthIn(SplitLines("")) == NoLength
  {
    assert [""][..0] == [];
    assert !IsLengthLine("");
  }

  lemma BareHasHeader(f: WireFrame)
    requires BareFrame(f)
    ensures f.header != "" && Wire(f) != ""
  {
    NoHeaderNoLength();
  }

  /** What comes right after the i-th body: the first character of the next header. */
  function Seam(fs: seq<WireFrame>, i: nat): string
    requires i < |fs|
  {
    if i + 1 < |fs| && fs[i + 1].header != "" then [fs[i + 1].header[0]] else ""
  }

  /** A blank line of the other kind is in the body, or at its end and finished by the next header. */
  predicate BlankAfter(fs: seq<WireFrame>, i: nat)
    requires i < |fs|
  {
    Find(fs[i].body + Seam(fs, i), CRLF2).Some?
  }

  ghost predicate NoBlanks(fs: seq<WireFrame>) { forall i: nat :: i < |fs| ==> !BlankAfter(fs, i) }

  /** A blank line of the other kind could only be in a body and the character after it: the header
      holds no part of one, nor does the header after the body. */
  lemma CrlfOnlyInBody(f: WireFrame, seam: string, later: string)
    requires BareFrame(f) && Find(f.body + seam, CRLF2) == None && Find(later, CRLF2) == None
    requires |seam| <= 1 && seam <= later && (later != "" ==> seam != "")
    requires forall k :: 0 <= k < 3 && k < |later| ==> later[k] != '\r'
    ensures Find(Wire(f) + later, CRLF2) == None
  {
    var head := f.header + LF2;
    NoReturnBeforeBody(f, later);
    Associative(head, f.body, later);
    BlankAcross(f.body, seam, later);
    forall j | 0 <= j <= |Wire(f) + later|
      ensures !At(Wire(f) + later, CRLF2, j)
    {
      NoBlankAt(head, f.body + later, j);
    }
    FindAbsent(Wire(f) + later, CRLF2);
  }

  /** No blank line across two texts, when neither holds one, the first none with the next character
      either, and the second has no carriage return near its start. */
  lemma BlankAcross(a: string, seam: string, b: string)
    requires Find(a + seam, CRLF2) == None && Find(b, CRLF2) == None
    requires |seam| <= 1 && seam <= b && (b != "" ==> seam != "")
    requires forall k :: 0 <= k < 3 && k < |b| ==> b[k] != '\r'
    ensures Find(a + b, CRLF2) == None
  {
    var s := a + b;
    forall j | 0 <= j <= |s|
      ensures !At(s, CRLF2, j)
    {
      if j + 4 <= |a + seam| {
        assert s[j..j + 4] == (a + seam)[j..j + 4];
        assert !At(a + seam, CRLF2, j);
      } else if |a| <= j && j + 4 <= |s| {
        assert s[j..j + 4] == b[j - |a|..j - |a| + 4];
        assert !At(b, CRLF2, j - |a|);
      } else if j + 4 <= |s| {
        ReturnNearStart(a, b, j);
      }
    }
    FindAbsent(s, CRLF2);
  }

  lemma ReturnNearStart(a: string, b: string, j: nat)
    requires j < |a| < j + 3 && j + 4 <= |a + b|
    requires forall k :: 0 <= k < 3 && k < |b| ==> b[k] != '\r'
    ensures !At(a + b, CRLF2, j)
  {
    var t := (a + b)[j..j + 4];
    if |a| == j + 2 {
      assert t[2] == b[0];
    } else {
      assert t[2] == b[1];
    }
  }

  lemma NoBlankAt(head: string, rest: string, j: nat)
    requires (forall i :: 0 <= i < |head| ==> (head + rest)[i] != '\r') && Find(rest, CRLF2) == None
    ensures !At(head + rest, CRLF2, j)
  {
    var s := head + rest;
    if j < |head| {
      if j + 4 <= |s| {
        assert s[j..j + 4][0] == s[j];
      }
    } else {
      assert !At(rest, CRLF2, j - |head|);
      if j + 4 <= |s| {
        assert s[j..j + 4] == rest[j - |head|..j - |head| + 4];
      }
    }
  }

  lemma NoReturnBeforeBody(f: WireFrame, later: string)
    requires BareFrame(f)
    ensures forall j :: 0 <= j < |f.header| + 2 ==> (Wire(f) + later)[j] != '\r'
  {
    forall j | 0 <= j < |f.header| + 2
      ensures (Wire(f) + later)[j] != '\r'
    {
      var head := f.header + LF2;
      assert (Wire(f) + later)[j] == head[j];
      assert head[j] in f.header || head[j] in LF2;
    }
  }

  lemma {:induction false} CrlfOnlyInBodies(fs: seq<WireFrame>)
    requires (forall f :: f in fs ==> BareFrame(f)) && NoBlanks(fs)
    ensures Find(FlatMap(Wire, fs), CRLF2) == None
  {
    hide FlatMap, BareFrame, Find;
    if fs == [] {
      NothingRead(b => NotJson);
      FindAbsent("", CRLF2);
    } else {
      SeamsOfRest(fs);
      CrlfOnlyInBodies(fs[1..]);
      FlatMapHead(Wire, fs);
      SeamStarts(fs);
      assert !BlankAfter(fs, 0);
      CrlfOnlyInBody(fs[0], Seam(fs, 0), FlatMap(Wire, fs[1..]));
    }
  }

  lemma SeamsOfRest(fs: seq<WireFrame>)
    requires fs != [] && NoBlanks(fs)
    ensures NoBlanks(fs[1..])
  {
    hide Find;
    forall i: nat | i < |fs[1..]|
      ensures !BlankAfter(fs[1..], i)
    {
      assert !BlankAfter(fs, i + 1);
      assert Seam(fs[1..], i) == Seam(fs, i + 1);
    }
  }

  /** The stream after a frame goes on with the next header, and that has no carriage return. */
  lemma SeamStarts(fs: seq<WireFrame>)
    requires fs != [] && forall f :: f in fs ==> BareFrame(f)
    ensures var later := FlatMap(Wire, fs[1..]);
            Seam(fs, 0) <= later && |Seam(fs, 0)| <= 1 && (later != "" ==> Seam(fs, 0) != "") &&
            forall k :: 0 <= k < 3 && k < |later| ==> later[k] != '\r'
  {
    hide FlatMap;
    if |fs| > 1 {
      FlatMapHead(Wire, fs[1..]);
      BareHasHeader(fs[1]);
      StartOfWire(fs[1]);
      NoReturnBeforeBody(fs[1], FlatMap(Wire, fs[1..][1..]));
    } else {
      NothingRead(b => NotJson);
      assert fs[1..] == [];
    }
  }

  /** With such a blank line at k in the buffer, no body the loop takes off it, from wherever it
      gets to, is longer than what follows that blank line. */
  lemma {:induction false} BodiesFitBehindBlank(parse: string -> Reading, buf: string, k: nat, from: nat)
    requires Find(buf, CRLF2) == Some(k) && from <= |buf|
    ensures forall b :: b in Drain(parse, buf[from..]).bodies ==> |b| + k + 4 <= |buf|
    decreases |buf| - from
  {
    hide Drain, DrainStep, Find, FindSeparator;
    var t := buf[from..];
    DrainOnce(parse, t);
    var step := DrainStep(t);
    if step.Skip? || (step.Frame? && !parse(step.body).Fatal? && |step.rest| != |t|) {
      RestIsSuffix(t);
      SuffixOfSuffix(buf, from, |t| - |step.rest|);
      BodiesFitBehindBlank(parse, buf, k, from + |t| - |step.rest|);
    }
    if step.Frame? {
      BodyFitsBehindBlank(buf, k, from);
    }
  }

  lemma SuffixOfSuffix(s: string, i: nat, j: nat)
    requires i + j <= |s|
    ensures s[i..][j..] == s[i + j..]
  {
  }

  /** One turn of the loop. */
  lemma DrainOnce(parse: string -> Reading, buf: string)
    ensures var step := DrainStep(buf);
            Drain(parse, buf).bodies ==
            if step.Skip? then Drain(parse, step.rest).bodies
            else if !step.Frame? || parse(step.body).Fatal? then []
            else if |step.rest| == |buf| then Heard(parse, step.body)
            else Heard(parse, step.body) + Drain(parse, step.rest).bodies
  {
  }

  lemma RestIsSuffix(t: string)
    ensures DrainStep(t).Skip? ==> DrainStep(t).rest == t[|t| - |DrainStep(t).rest|..]
    ensures DrainStep(t).Frame? ==> DrainStep(t).rest == t[|t| - |DrainStep(t).rest|..]
  {
  }

  lemma BodyIsBehindSeparator(t: string)
    requires DrainStep(t).Frame?
    ensures FindSeparator(t).Some?
    ensures var sep := FindSeparator(t).value; |DrainStep(t).body| + sep.at + sep.size <= |t|
  {
  }

  lemma FindBehind(buf: string, k: nat, from: nat)
    requires Find(buf, CRLF2) == Some(k) && from <= k
    ensures Find(buf[from..], CRLF2) == Some(k - from)
  {
    var t := buf[from..];
    forall j | 0 <= j < k - from
      ensures !At(t, CRLF2, j)
    {
      assert !At(buf, CRLF2, from + j);
      if j + 4 <= |t| {
        assert t[j..j + 4] == buf[from + j..from + j + 4];
      }
    }
    assert t[k - from..k - from + 4] == buf[k..k + 4];
    FindIs(t, CRLF2, k - from);
  }

  lemma NoSeparatorAtStart(t: string)
    requires |t| >= 2 && t[0] == '\n' && t[1] == '\r'
    ensures FindSeparator(t).Some? ==> FindSeparator(t).value.at > 0
  {
    assert t[..2][1] == t[1] != LF2[1];
    assert |t| >= 4 ==> t[..4][0] == t[0] != CRLF2[0];
  }

  lemma BodyFitsBehindBlank(buf: string, k: nat, from: nat)
    requires Find(buf, CRLF2) == Some(k) && from <= |buf| && DrainStep(buf[from..]).Frame?
    ensures |DrainStep(buf[from..]).body| + k + 4 <= |buf|
  {
    hide DrainStep;
    var t := buf[from..];
    BodyIsBehindSeparator(t);
    if from <= k {
      FindBehind(buf, k, from);
    } else if from == k + 1 {
      assert buf[k..k + 4][1] == t[0] && buf[k..k + 4][2] == t[1];
      NoSeparatorAtStart(t);
    }
  }

  /** How far a stream has been decoded is settled by how much of it there is. */
  lemma DecodedToPart(fs: seq<WireFrame>, k: nat, part: string, m: nat, rest: string)
    requires k <= |fs| && DecodedTo(fs, m, FlatMap(Wire, fs[..k]) + part, rest)
    requires if k < |fs| then part <= Wire(fs[k]) && |part| < |Wire(fs[k])| else part == ""
    requires forall f :: f in fs ==> Wire(f) != ""
    ensures m == k && rest == part
  {
    hide FlatMap;
    if m < k {
      assert fs[..k] == fs[..m] + [fs[m]] + fs[m + 1..k];
      FlatMapAppend(Wire, fs[..m] + [fs[m]], fs[m + 1..k]);
      FlatMapSnoc(Wire, fs[..m], fs[m]);
    } else if m > k {
      assert fs[..m] == fs[..k] + [fs[k]] + fs[k + 1..m];
      FlatMapAppend(Wire, fs[..k] + [fs[k]], fs[k + 1..m]);
      FlatMapSnoc(Wire, fs[..k], fs[k]);
    }
  }

  /** What is dispatched is the bodies of the frames that are in. */
  ghost predicate Delivers(parse: string -> Reading, fs: seq<WireFrame>, chunks: seq<string>) {
    exists m: nat, rest: string ::
      m <= |fs| && DecodedTo(fs, m, Flatten(chunks), rest) && FeedAll(parse, chunks).dispatched == Map(Body, fs[..m])
  }

  lemma BodyIsLost(parse: string -> Reading, f: WireFrame, seam: string)
    requires BareFrame(f) && |seam| <= 1 && Find(f.body + seam, CRLF2).Some?
    ensures f.body !in Drain(parse, Wire(f) + seam).bodies
  {
    hide Find, Drain, BareFrame;
    var text := Wire(f) + seam;
    BlankInBody(f, seam);
    BodiesFitBehindBlank(parse, text, Find(text, CRLF2).value, 0);
    assert text[0..] == text;
  }

  lemma FramesUpTo(fs: seq<WireFrame>, i: nat)
    requires i < |fs| && forall f :: f in fs ==> BareFrame(f)
    ensures var stream := Flatten([FlatMap(Wire, fs[..i]), Wire(fs[i]) + Seam(fs, i)]);
            stream == FlatMap(Wire, fs[..i + 1]) + Seam(fs, i) && stream <= FlatMap(Wire, fs)
  {
    hide FlatMap, Flatten, BareFrame;
    FlattenTwo(FlatMap(Wire, fs[..i]), Wire(fs[i]) + Seam(fs, i));
    Associative(FlatMap(Wire, fs[..i]), Wire(fs[i]), Seam(fs, i));
    FlatMapTake(Wire, fs, i);
    Halves(fs, i + 1);
    FlatMapAppend(Wire, fs[..i + 1], fs[i + 1..]);
    SeamStarts(fs[i..]);
    assert fs[i..][1..] == fs[i + 1..];
    PrefixAfter(FlatMap(Wire, fs[..i + 1]), Seam(fs, i), FlatMap(Wire, fs[i + 1..]));
  }

  lemma PrefixAfter(a: string, b: string, c: string)
    requires b <= c
    ensures a + b <= a + c
  {
  }

  lemma NotDelivered(parse: string -> Reading, fs: seq<WireFrame>, chunks: seq<string>, k: nat, part: string)
    requires k <= |fs| && Flatten(chunks) == FlatMap(Wire, fs[..k]) + part
    requires if k < |fs| then part <= Wire(fs[k]) && |part| < |Wire(fs[k])| else part == ""
    requires forall f :: f in fs ==> Wire(f) != ""
    requires FeedAll(parse, chunks).dispatched != Map(Body, fs[..k])
    ensures !Delivers(parse, fs, chunks)
  {
    hide FlatMap, Flatten, FeedAll, DecodedTo;
    var stream := Flatten(chunks);
    forall m: nat, rest: string | m <= |fs| && DecodedTo(fs, m, stream, rest)
      ensures FeedAll(parse, chunks).dispatched != Map(Body, fs[..m])
    {
      DecodedToPart(fs, k, part, m, rest);
    }
  }

  lemma SeamIsPart(fs: seq<WireFrame>, i: nat)
    requires i < |fs| && forall f :: f in fs ==> BareFrame(f)
    ensures if i + 1 < |fs| then Seam(fs, i) <= Wire(fs[i + 1]) && |Seam(fs, i)| < |Wire(fs[i + 1])|
            else Seam(fs, i) == ""
  {
    if i + 1 < |fs| {
      BareHasHeader(fs[i + 1]);
      StartOfWire(fs[i + 1]);
    }
  }

  lemma StartOfWire(f: WireFrame)
    requires f.header != "" && f.blank == LF2
    ensures |Wire(f)| > 2 && [f.header[0]] <= Wire(f)
  {
  }

  /** Read up to a frame, and then that frame and the next character: with the other blank line
      there, the body does not come out. */
  lemma BlankInBodyLosesIt(parse: string -> Reading, fs: seq<WireFrame>, i: nat)
    requires i < |fs| && forall f :: f in fs ==> BareFrame(f) && parse(f.body).Message?
    requires BlankAfter(fs, i) && forall j: nat :: j < i ==> !BlankAfter(fs, j)
    ensures !Delivers(parse, fs, [FlatMap(Wire, fs[..i]), Wire(fs[i]) + Seam(fs, i)])
  {
    hide *;
    var f, seam := fs[i], Seam(fs, i);
    var before, out := FlatMap(Wire, fs[..i]), Map(Body, fs[..i]);
    FramesUpTo(fs, i);
    ReadUpTo(parse, fs, i);
    BlankIsFound(fs, i);
    BodyIsLost(parse, f, seam);
    FeedLost(parse, before, out, Wire(f) + seam, f.body);
    BodiesTake(fs, i);
    NoEmptyFrames(fs);
    SeamIsPart(fs, i);
    NotDelivered(parse, fs, [before, Wire(f) + seam], i + 1, seam);
  }

  lemma BlankIsFound(fs: seq<WireFrame>, i: nat)
    requires i < |fs| && BlankAfter(fs, i)
    ensures Find(fs[i].body + Seam(fs, i), CRLF2).Some? && |Seam(fs, i)| <= 1
  {
  }

  lemma ReadUpTo(parse: string -> Reading, fs: seq<WireFrame>, i: nat)
    requires i < |fs| && forall f :: f in fs ==> BareFrame(f) && parse(f.body).Message?
    requires forall j: nat :: j < i ==> !BlankAfter(fs, j)
    ensures FeedAll(parse, [FlatMap(Wire, fs[..i])]) == Reader("", Map(Body, fs[..i]), Waiting)
  {
    hide FlatMap, BareFrame, FeedAll, Find;
    forall j: nat | j < i
      ensures !BlankAfter(fs[..i], j)
    {
      assert !BlankAfter(fs, j);
      BlankOfPrefix(fs, i, j);
    }
    ReadBefore(parse, fs[..i]);
  }

  lemma BlankOfPrefix(fs: seq<WireFrame>, i: nat, j: nat)
    requires j < i <= |fs| && !BlankAfter(fs, j)
    ensures !BlankAfter(fs[..i], j)
  {
    var a, b := fs[j].body + Seam(fs[..i], j), fs[j].body + Seam(fs, j);
    assert a == b[..|a|];
    FindInPrefix(b, CRLF2, |a|);
  }

  lemma BodiesTake(fs: seq<WireFrame>, i: nat)
    requires i < |fs|
    ensures Map(Body, fs[..i + 1]) == Map(Body, fs[..i]) + [fs[i].body]
  {
  }

  lemma NoEmptyFrames(fs: seq<WireFrame>)
    requires forall f :: f in fs ==> BareFrame(f)
    ensures forall f :: f in fs ==> Wire(f) != ""
  {
    forall f | f in fs
      ensures Wire(f) != ""
    {
      BareHasHeader(f);
    }
  }

  lemma FeedLost(parse: string -> Reading, before: string, out: seq<string>, chunk: string, body: string)
    requires FeedAll(parse, [before]) == Reader("", out, Waiting) && body !in Drain(parse, chunk).bodies
    ensures FeedAll(parse, [before, chunk]).dispatched != out + [body]
  {
    hide Drain, FeedAll, Feed;
    FeedTwo(parse, before, chunk);
    FeedAfter(parse, out, chunk);
    LastOne(out, Drain(parse, chunk).bodies, body);
  }

  lemma LastOne(out: seq<string>, xs: seq<string>, body: string)
    requires body !in xs
    ensures out + xs != out + [body]
  {
    if |xs| == 1 {
      assert (out + xs)[|out|] == xs[0] && xs[0] in xs;
      assert (out + [body])[|out|] == body;
    }
  }

  lemma ReadBefore(parse: string -> Reading, fs: seq<WireFrame>)
    requires (forall f :: f in fs ==> BareFrame(f) && parse(f.body).Message?) && NoBlanks(fs)
    ensures FeedAll(parse, [FlatMap(Wire, fs)]) == Reader("", Map(Body, fs), Waiting)
  {
    hide FlatMap, Flatten, NewlineFrame, NoBlanks, Walkable, Find, FeedAll;
    CrlfOnlyInBodies(fs);
    NewlinesAreWalkable(fs);
    FlattenOne(FlatMap(Wire, fs));
    DecodingInvertsEncoding(parse, fs, [FlatMap(Wire, fs)]);
    forall b | b in Map(Body, fs) ensures parse(b).Message? {
      var j :| 0 <= j < |fs| && Map(Body, fs)[j] == b;
    }
    AllMessagesAreHeard(parse, Map(Body, fs));
  }

  lemma FlattenOne(a: string)
    ensures Flatten([a]) == a
  {
    assert [a][..0] == [];
  }

  lemma FlattenTwo(a: string, b: string)
    ensures Flatten([a, b]) == a + b
  {
    assert [a, b][..1] == [a];
    FlattenOne(a);
  }

  lemma FeedTwo(parse: string -> Reading, first: string, second: string)
    ensures FeedAll(parse, [first, second]) == Feed(parse, FeedAll(parse, [first]), second)
  {
    assert [first, second][..1] == [first];
  }

  lemma FeedAfter(parse: string -> Reading, out: seq<string>, chunk: string)
    ensures Feed(parse, Reader("", out, Waiting), chunk).dispatched == out + Drain(parse, chunk).bodies
  {
    assert "" + chunk == chunk;
  }

  lemma FeedOne(parse: string -> Reading, chunk: string)
    ensures FeedAll(parse, [chunk]).dispatched == Drain(parse, chunk).bodies
  {
    assert [chunk][..0] == [];
    FeedAfter(parse, [], chunk);
    assert FeedAll(parse, [chunk]) == Feed(parse, FeedAll(parse, []), chunk);
  }

  lemma BlankInBody(f: WireFrame, seam: string)
    requires BareFrame(f) && Find(f.body + seam, CRLF2).Some?
    ensures var text := Wire(f) + seam;
            Find(text, CRLF2).Some? && Find(text, CRLF2).value >= |text| - |f.body + seam|
  {
    var head := f.header + LF2;
    Associative(head, f.body, seam);
    NoReturnBeforeBody(f, seam);
    BlankIsLater(head, f.body + seam);
  }

  lemma BlankIsLater(head: string, tail: string)
    requires forall j :: 0 <= j < |head| ==> (head + tail)[j] != '\r'
    requires Find(tail, CRLF2).Some?
    ensures Find(head + tail, CRLF2).Some? && Find(head + tail, CRLF2).value >= |head|
  {
    var s, k := head + tail, Find(tail, CRLF2).value;
    assert s[|head| + k..|head| + k + 4] == tail[k..k + 4];
    assert At(s, CRLF2, |head| + k);
    forall j | 0 <= j < |head|
      ensures !At(s, CRLF2, j)
    {
      assert j + 4 <= |s| ==> s[j..j + 4][0] == s[j];
    }
  }

  lemma MessagesAreDelivered(parse: string -> Reading, fs: seq<WireFrame>, chunks: seq<string>)
    requires Walkable(fs) && Flatten(chunks) <= FlatMap(Wire, fs)
    requires forall f :: f in fs ==> parse(f.body).Message?
    ensures Delivers(parse, fs, chunks)
  {
    hide FlatMap, Flatten, FeedAll, Walkable;
    var m, rest := EveryChunkingDecodes(parse, fs, chunks);
    forall b | b in Map(Body, fs[..m]) ensures parse(b).Message? {
      var j :| 0 <= j < m && Map(Body, fs[..m])[j] == b;
    }
    AllMessagesAreHeard(parse, Map(Body, fs[..m]));
  }

  /** Frames ended by bare newlines, with headers of any number of lines, decode alike however the
      stream is cut if and only if no body holds a "\r\n\r\n", the character after it included. */
  lemma NewlineStreamsDecodeExactlyWhen(parse: string -> Reading, fs: seq<WireFrame>)
    requires forall f :: f in fs ==> BareFrame(f) && parse(f.body).Message?
    ensures (forall chunks | Flatten(chunks) <= FlatMap(Wire, fs) :: Delivers(parse, fs, chunks)) <==> NoBlanks(fs)
    ensures (forall f :: f in fs ==> !("\n" <= f.header)) ==>
              (NoBlanks(fs) <==> forall f :: f in fs ==> Find(f.body, CRLF2) == None)
  {
    hide FlatMap, Flatten, FeedAll, Walkable, NewlineFrame, Find, DecodedTo, BlankAfter;
    if NoBlanks(fs) {
      CrlfOnlyInBodies(fs);
      NewlinesAreWalkable(fs);
      forall chunks | Flatten(chunks) <= FlatMap(Wire, fs)
        ensures Delivers(parse, fs, chunks)
      {
        MessagesAreDelivered(parse, fs, chunks);
      }
    } else {
      var i := FirstWithBlank(fs);
      BlankInBodyLosesIt(parse, fs, i);
      FramesUpTo(fs, i);
    }
    if forall f :: f in fs ==> !("\n" <= f.header) {
      BlanksAreInBodies(fs);
    }
  }

  lemma BlanksAreInBodies(fs: seq<WireFrame>)
    requires forall f :: f in fs ==> !("\n" <= f.header)
    ensures NoBlanks(fs) <==> forall f :: f in fs ==> Find(f.body, CRLF2) == None
  {
    hide Find;
    forall i: nat | i < |fs|
      ensures BlankAfter(fs, i) <==> Find(fs[i].body, CRLF2).Some?
    {
      var seam := Seam(fs, i);
      assert i + 1 < |fs| ==> fs[i + 1] in fs;
      BlankEndsInNewline(fs[i].body, seam);
    }
    forall f | f in fs && NoBlanks(fs)
      ensures Find(f.body, CRLF2) == None
    {
      var i :| 0 <= i < |fs| && fs[i] == f;
      assert !BlankAfter(fs, i);
    }
  }

  lemma BlankEndsInNewline(body: string, seam: string)
    requires seam == "" || (|seam| == 1 && seam != "\n")
    ensures Find(body + seam, CRLF2).Some? <==> Find(body, CRLF2).Some?
  {
    var s := body + seam;
    if Find(body, CRLF2).Some? {
      var k := Find(body, CRLF2).value;
      FindExtends(body, CRLF2, seam);
    } else {
      forall j | 0 <= j <= |s|
        ensures !At(s, CRLF2, j)
      {
        if j + 4 <= |body| {
          assert s[j..j + 4] == body[j..j + 4];
          assert !At(body, CRLF2, j);
        } else if j + 4 <= |s| {
          assert s[j..j + 4][3] == seam[0];
        }
      }
      FindAbsent(s, CRLF2);
    }
  }

  lemma FirstWithBlank(fs: seq<WireFrame>) returns (i: nat)
    requires !NoBlanks(fs)
    ensures i < |fs| && BlankAfter(fs, i) && forall j: nat :: j < i ==> !BlankAfter(fs, j)
  {
    hide BlankAfter;
    var k: nat :| k < |fs| && BlankAfter(fs, k);
    i := 0;
    while !BlankAfter(fs, i)
      invariant 0 <= i <= k && forall j: nat :: j < i ==> !BlankAfter(fs, j)
      decreases k - i
    {
      i := i + 1;
    }
  }

  /** The cut decides even when no body is at fault. A frame ended by bare newlines is put out
      when it is read before the next blank line of the other kind comes in, and never when
      both come in together. */
  lemma NewlineFramesDependOnTheCut(parse: string -> Reading, f: WireFrame)
    requires BareFrame(f) && '\r' !in f.body && f.body != "" && parse(f.body).Message?
    ensures FeedAll(parse, [Wire(f), CRLF2]).dispatched == [f.body]
    ensures f.body !in FeedAll(parse, [Wire(f) + CRLF2]).dispatched
  {
    hide Drain, BareFrame, FeedAll, Feed;
    var whole := Wire(f) + CRLF2;
    NoReturnInFrame(f);
    BlankAtEnd(Wire(f));
    BodiesFitBehindBlank(parse, whole, |Wire(f)|, 0);
    assert whole[0..] == whole;
    FeedOne(parse, whole);
    ReadOneFrame(parse, f);
    FeedTwo(parse, Wire(f), CRLF2);
    FeedAfter(parse, [f.body], CRLF2);
    EmptyHeaderSkipped(parse);
  }

  lemma NoReturnInFrame(f: WireFrame)
    requires BareFrame(f) && '\r' !in f.body
    ensures '\r' !in Wire(f)
  {
  }

  lemma ReadOneFrame(parse: string -> Reading, f: WireFrame)
    requires BareFrame(f) && '\r' !in f.body && parse(f.body).Message?
    ensures FeedAll(parse, [Wire(f)]) == Reader("", [f.body], Waiting)
  {
    hide BareFrame, FeedAll, Find;
    NoCarriageReturn(f.body);
    assert f.body + "" == f.body;
    assert !BlankAfter([f], 0);
    ReadBefore(parse, [f]);
    FlatMapOne(Wire, f);
    assert Map(Body, [f]) == [f.body];
  }

  lemma NoCarriageReturn(s: string)
    requires '\r' !in s
    ensures Find(s, CRLF2) == None
  {
    forall j | 0 <= j <= |s|
      ensures !At(s, CRLF2, j)
    {
      if j + 4 <= |s| {
        assert s[j..j + 4][0] == s[j] && s[j] in s;
      }
    }
    FindAbsent(s, CRLF2);
  }

  lemma BlankAtEnd(first: string)
    requires '\r' !in first
    ensures Find(first + CRLF2, CRLF2) == Some(|first|)
  {
    var whole := first + CRLF2;
    forall j | 0 <= j < |first|
      ensures !At(whole, CRLF2, j)
    {
      assert whole[j..j + 4][0] == first[j] && first[j] in first;
    }
    assert whole[|first|..|first| + 4] == CRLF2;
    FindIs(whole, CRLF2, |first|);
  }

  lemma EmptyHeaderSkipped(parse: string -> Reading)
    ensures Drain(parse, CRLF2) == Drained([], "", Waiting)
  {
    assert CRLF2[0..4] == CRLF2;
    FindIs(CRLF2, CRLF2, 0);
    assert CRLF2[..0] == "";
    NoHeaderNoLength();
    assert DrainStep(CRLF2) == Skip("");
    NothingToDrain(parse);
  }

  // --- Termination -----------------------------------------------------------------------------

  /** The loop shrinks its buffer unless the stated length ends the frame at or before the
      start of the buffer; then it comes back to the same buffer and never ends. */
  lemma SpinsExactlyWhen(buf: string)
    requires DrainStep(buf).Frame?
    ensures var sep := FindSeparator(buf).value;
            var end := sep.at + sep.size + LengthIn(SplitLines(buf[..sep.at])).n;
            (DrainStep(buf).rest == buf <==> end == 0 || end <= -|buf|) &&
            (DrainStep(buf).rest != buf ==> |DrainStep(buf).rest| < |buf|)
    ensures LengthIn(SplitLines(buf[..FindSeparator(buf).value.at])).n >= 0 ==> |DrainStep(buf).rest| < |buf|
  {
    var sep := FindSeparator(buf).value;
    var end := sep.at + sep.size + LengthIn(SplitLines(buf[..sep.at])).n;
    assert DrainStep(buf).rest == buf[Clip(end, |buf|)..];
    assert buf[0..] == buf;
  }
}
