/** LiveJournal of scripts/piper_worker.py: tokens are buffered per channel and written as
    numbered JSON lines, a turn writes what is buffered and then itself. */
module Journal {
  import opened Sequences
  import opened Json
  import opened Feed
  import Tail

  // --- Lines as text ---------------------------------------------------------------------------

  function ToObject(line: Line): seq<Member> {
    match line
    case DeltaLine(no, channel, text) =>
      [Member("kind", Str("delta")), Member("channel", Str(channel)), Member("text", Str(text)), Member("seq", Num(no))]
    case TurnLine(no, tool, path, command, status, summary, readBytes, editBytes, think, text, toolTokens) =>
      [Member("kind", Str("turn")), Member("tool", Str(tool)), Member("path", Str(path)),
       Member("command", Str(command)), Member("status", Str(status)), Member("summary", Str(summary)),
       Member("read_bytes", Num(readBytes)), Member("edit_bytes", Num(editBytes)),
       Member("think_tokens", Num(think)), Member("text_tokens", Num(text)), Member("tool_tokens", Num(toolTokens)),
       Member("seq", Num(no))]
    case WriteLine(no, tool, path, editBytes) =>
      [Member("kind", Str("write")), Member("tool", Str(tool)), Member("path", Str(path)),
       Member("edit_bytes", Num(editBytes)), Member("seq", Num(no))]
  }

  /** The value under a key, wherever it stands; of two with one key JSON.parse takes the last. */
  function Lookup(o: seq<Member>, key: string): Option<Value> {
    if o == [] then None
    else if o[|o| - 1].key == key then Some(o[|o| - 1].value)
    else Lookup(o[..|o| - 1], key)
  }

  predicate HasText(o: seq<Member>, key: string) { Lookup(o, key).Some? && Lookup(o, key).value.Str? }

  predicate HasNumber(o: seq<Member>, key: string) { Lookup(o, key).Some? && Lookup(o, key).value.Num? }

  function TextOf(o: seq<Member>, key: string): string
    requires HasText(o, key)
  {
    Lookup(o, key).value.s
  }

  function NumberOf(o: seq<Member>, key: string): int
    requires HasNumber(o, key)
  {
    Lookup(o, key).value.n
  }

  /** What the page makes of an object: it looks the fields of a line's kind up by their names. */
  function FromObject(o: seq<Member>): Option<Line> {
    if !HasText(o, "kind") || !HasNumber(o, "seq") || NumberOf(o, "seq") < 0 then None
    else
      var kind, no: nat := TextOf(o, "kind"), NumberOf(o, "seq");
      if kind == "delta" && HasText(o, "channel") && HasText(o, "text") then
        Some(DeltaLine(no, TextOf(o, "channel"), TextOf(o, "text")))
      else if kind == "turn" && HasText(o, "tool") && HasText(o, "path") && HasText(o, "command") &&
              HasText(o, "status") && HasText(o, "summary") && HasNumber(o, "read_bytes") &&
              HasNumber(o, "edit_bytes") && HasNumber(o, "think_tokens") && HasNumber(o, "text_tokens") &&
              HasNumber(o, "tool_tokens") then
        Some(TurnLine(no, TextOf(o, "tool"), TextOf(o, "path"), TextOf(o, "command"), TextOf(o, "status"),
                      TextOf(o, "summary"), NumberOf(o, "read_bytes"), NumberOf(o, "edit_bytes"),
                      NumberOf(o, "think_tokens"), NumberOf(o, "text_tokens"), NumberOf(o, "tool_tokens")))
      else if kind == "write" && HasText(o, "tool") && HasText(o, "path") && HasNumber(o, "edit_bytes") then
        Some(WriteLine(no, TextOf(o, "tool"), TextOf(o, "path"), NumberOf(o, "edit_bytes")))
      else None
  }

  function EncodeLine(line: Line): string { Json.Encode(ToObject(line)) }

  function DecodeLine(text: string): Option<Line> {
    match Json.Decode(text)
    case Some(o) => FromObject(o)
    case None => None
  }

  lemma {:induction false} LookupIs(o: seq<Member>, i: nat)
    requires i < |o| && forall j :: i < j < |o| ==> o[j].key != o[i].key
    ensures Lookup(o, o[i].key) == Some(o[i].value)
    decreases |o|
  {
    if i < |o| - 1 {
      assert forall j :: 0 <= j < |o| - 1 ==> o[..|o| - 1][j] == o[j];
      LookupIs(o[..|o| - 1], i);
    }
  }

  /** The keys of an object, no two alike. */
  ghost predicate DistinctKeys(o: seq<Member>) { forall i, j :: 0 <= i < j < |o| ==> o[i].key != o[j].key }

  lemma LookupAll(o: seq<Member>)
    requires DistinctKeys(o)
    ensures forall i :: 0 <= i < |o| ==> Lookup(o, o[i].key) == Some(o[i].value)
  {
    forall i | 0 <= i < |o|
      ensures Lookup(o, o[i].key) == Some(o[i].value)
    {
      LookupIs(o, i);
    }
  }

  lemma LineKeysAreDistinct(line: Line)
    ensures DistinctKeys(ToObject(line))
  {
  }

  lemma DeltaObject(line: Line)
    requires line.DeltaLine?
    ensures var o := ToObject(line);
            |o| == 4 && Lookup(o, "kind") == Some(Str("delta")) && Lookup(o, "channel") == Some(Str(line.channel)) &&
            Lookup(o, "text") == Some(Str(line.text)) && Lookup(o, "seq") == Some(Num(line.no))
  {
    hide Lookup;
    var o := ToObject(line);
    LineKeysAreDistinct(line);
    LookupAll(o);
    assert o[0].key == "kind" && o[1].key == "channel" && o[2].key == "text" && o[3].key == "seq";
  }

  lemma TurnObject(line: Line)
    requires line.TurnLine?
    ensures var o := ToObject(line);
            |o| == 12 && Lookup(o, "kind") == Some(Str("turn")) && Lookup(o, "tool") == Some(Str(line.tool)) &&
            Lookup(o, "path") == Some(Str(line.path)) && Lookup(o, "command") == Some(Str(line.command)) &&
            Lookup(o, "status") == Some(Str(line.status)) && Lookup(o, "summary") == Some(Str(line.summary)) &&
            Lookup(o, "read_bytes") == Some(Num(line.readBytes)) &&
            Lookup(o, "edit_bytes") == Some(Num(line.editBytes)) &&
            Lookup(o, "think_tokens") == Some(Num(line.thinkTokens)) &&
            Lookup(o, "text_tokens") == Some(Num(line.textTokens)) &&
            Lookup(o, "tool_tokens") == Some(Num(line.toolTokens)) && Lookup(o, "seq") == Some(Num(line.no))
  {
    hide Lookup;
    var o := ToObject(line);
    LineKeysAreDistinct(line);
    LookupAll(o);
    assert o[0].key == "kind" && o[1].key == "tool" && o[2].key == "path" && o[3].key == "command";
    assert o[4].key == "status" && o[5].key == "summary" && o[6].key == "read_bytes" && o[7].key == "edit_bytes";
    assert o[8].key == "think_tokens" && o[9].key == "text_tokens" && o[10].key == "tool_tokens" && o[11].key == "seq";
  }

  lemma WriteObject(line: Line)
    requires line.WriteLine?
    ensures var o := ToObject(line);
            |o| == 5 && Lookup(o, "kind") == Some(Str("write")) && Lookup(o, "tool") == Some(Str(line.tool)) &&
            Lookup(o, "path") == Some(Str(line.path)) && Lookup(o, "edit_bytes") == Some(Num(line.editBytes)) &&
            Lookup(o, "seq") == Some(Num(line.no))
  {
    hide Lookup;
    var o := ToObject(line);
    LineKeysAreDistinct(line);
    LookupAll(o);
    assert o[0].key == "kind" && o[1].key == "tool" && o[2].key == "path";
    assert o[3].key == "edit_bytes" && o[4].key == "seq";
  }

  lemma ObjectRoundTrip(line: Line)
    ensures FromObject(ToObject(line)) == Some(line) && ToObject(line) != []
  {
    hide ToObject, Lookup;
    match line
    case DeltaLine(_, _, _) => DeltaObject(line);
    case TurnLine(_, _, _, _, _, _, _, _, _, _, _) => TurnObject(line);
    case WriteLine(_, _, _, _) => WriteObject(line);
  }

  /** Every line written is the text of one JSON object with exactly the fields of its kind, each
      value under its own name. */
  lemma LineSaysItsFields(line: Line)
    ensures var o := Json.Decode(EncodeLine(line));
            o.Some? && DistinctKeys(o.value) && Lookup(o.value, "seq") == Some(Num(line.no)) &&
            match line
            case DeltaLine(_, channel, text) =>
              |o.value| == 4 && Lookup(o.value, "kind") == Some(Str("delta")) &&
              Lookup(o.value, "channel") == Some(Str(channel)) && Lookup(o.value, "text") == Some(Str(text))
            case TurnLine(_, tool, path, command, status, summary, readBytes, editBytes, think, text, toolTokens) =>
              |o.value| == 12 && Lookup(o.value, "kind") == Some(Str("turn")) &&
              Lookup(o.value, "tool") == Some(Str(tool)) && Lookup(o.value, "path") == Some(Str(path)) &&
              Lookup(o.value, "command") == Some(Str(command)) && Lookup(o.value, "status") == Some(Str(status)) &&
              Lookup(o.value, "summary") == Some(Str(summary)) &&
              Lookup(o.value, "read_bytes") == Some(Num(readBytes)) &&
              Lookup(o.value, "edit_bytes") == Some(Num(editBytes)) &&
              Lookup(o.value, "think_tokens") == Some(Num(think)) &&
              Lookup(o.value, "text_tokens") == Some(Num(text)) &&
              Lookup(o.value, "tool_tokens") == Some(Num(toolTokens))
            case WriteLine(_, tool, path, editBytes) =>
              |o.value| == 5 && Lookup(o.value, "kind") == Some(Str("write")) &&
              Lookup(o.value, "tool") == Some(Str(tool)) && Lookup(o.value, "path") == Some(Str(path)) &&
              Lookup(o.value, "edit_bytes") == Some(Num(editBytes))
  {
    hide ToObject, Lookup, Json.Encode, Json.Decode;
    DecodeInvertsEncode(ToObject(line));
    LineKeysAreDistinct(line);
    match line
    case DeltaLine(_, _, _) => DeltaObject(line);
    case TurnLine(_, _, _, _, _, _, _, _, _, _, _) => TurnObject(line);
    case WriteLine(_, _, _, _) => WriteObject(line);
  }

  lemma LineRoundTrip(line: Line)
    ensures DecodeLine(EncodeLine(line)) == Some(line)
    ensures '\n' !in EncodeLine(line) && Tail.Strip(EncodeLine(line)) == EncodeLine(line) != ""
  {
    hide ToObject, FromObject, Json.Encode, Json.Decode;
    ObjectRoundTrip(line);
    DecodeInvertsEncode(ToObject(line));
    EncodedIsOneLine(ToObject(line));
  }

  function FileLine(line: Line): string { EncodeLine(line) + "\n" }

  function FileOf(lines: seq<Line>): string { FlatMap(FileLine, lines) }

  // --- The writer --------------------------------------------------------------------------------

  // What a turn's notification says. The tool's arguments are the object they are, or parse to;
  // none when they are neither an object nor the text of one.
  datatype TurnParams = TurnParams(tool: string, args: Option<map<string, Value>>, status: string, summary: string,
                                   readBytes: int, editBytes: int, thinkTokens: int, textTokens: int, toolTokens: int)

  const PATH_KEYS := ["path", "file", "filepath", "file_path", "target"]
  const COMMAND_KEYS := ["command", "cmd"]

  /** The value under a key counts when it is a text that is not empty. */
  predicate Tells(args: map<string, Value>, key: string) {
    key in args && args[key].Str? && args[key].s != ""
  }

  /** The text under the first key that tells one. */
  function FirstTold(args: map<string, Value>, keys: seq<string>): (r: string)
    ensures r == "" <==> forall key :: key in keys ==> !Tells(args, key)
    ensures forall i ::
              0 <= i < |keys| && Tells(args, keys[i]) && (forall j :: 0 <= j < i ==> !Tells(args, keys[j])) ==>
                r == args[keys[i]].s
  {
    if keys == [] then ""
    else if Tells(args, keys[0]) then args[keys[0]].s
    else
      assert keys == [keys[0]] + keys[1..];
      FirstTold(args, keys[1..])
  }

  function Told(args: Option<map<string, Value>>, keys: seq<string>): string {
    match args
    case None => ""
    case Some(data) => FirstTold(data, keys)
  }

  method ParseToolArgs(args: Option<map<string, Value>>) returns (path: string, command: string)
    ensures path == Told(args, PATH_KEYS) && command == Told(args, COMMAND_KEYS)
  {
    if args.None? {
      return "", "";
    }
    path := FindTold(args.value, PATH_KEYS);
    command := FindTold(args.value, COMMAND_KEYS);
  }

  // The search through the keys.
  method FindTold(args: map<string, Value>, keys: seq<string>) returns (text: string)
    ensures text == FirstTold(args, keys)
  {
    for i := 0 to |keys|
      invariant forall j :: 0 <= j < i ==> !Tells(args, keys[j])
    {
      if keys[i] in args && args[keys[i]].Str? && args[keys[i]].s != "" {
        return args[keys[i]].s;
      }
    }
    return "";
  }

  datatype Notification =
    | Token(channel: string, text: string)
    | TurnEnd(params: TurnParams)
    | Flush
    | OtherMethod

  datatype Log = Log(lines: seq<Line>, buffer: string, channel: string)

  const NEW_LOG := Log([], "", "")

  predicate Journalled(channel: string) { channel == "thinking" || channel == "answer" }

  const FLUSH_AT: nat := 64

  predicate IsWriteTool(tool: string) { tool == "write_file" || tool == "apply_patch" || tool == "commit_think_block" }

  function Flushed(j: Log): Log {
    if j.buffer == "" then j
    else j.(lines := j.lines + [DeltaLine(|j.lines| + 1, j.channel, j.buffer)], buffer := "")
  }

  function Buffered(j: Log, channel: string, text: string): Log {
    var k := if channel != j.channel then Flushed(j).(channel := channel) else j;
    k.(buffer := k.buffer + text)
  }

  function TurnOf(no: nat, p: TurnParams): Line {
    TurnLine(no, p.tool, Told(p.args, PATH_KEYS), Told(p.args, COMMAND_KEYS), p.status,
             Truncate(p.summary, 240), p.readBytes, p.editBytes, p.thinkTokens, p.textTokens, p.toolTokens)
  }

  function WritesOf(no: nat, p: TurnParams): seq<Line> {
    if p.editBytes > 0 || IsWriteTool(p.tool) then [WriteLine(no, p.tool, Told(p.args, PATH_KEYS), p.editBytes)] else []
  }

  function TurnLines(no: nat, p: TurnParams): seq<Line> { [TurnOf(no, p)] + WritesOf(no + 1, p) }

  function Notify(j: Log, n: Notification): Log {
    match n
    case Token(channel, text) =>
      if !Journalled(channel) || text == "" then j
      else
        var k := Buffered(j, channel, text);
        if |k.buffer| >= FLUSH_AT then Flushed(k) else k
    case TurnEnd(p) => var k := Flushed(j); k.(lines := k.lines + TurnLines(|k.lines| + 1, p))
    case Flush => Flushed(j)
    case OtherMethod => j
  }

  function NotifyAll(notes: seq<Notification>): Log {
    if notes == [] then NEW_LOG else Notify(NotifyAll(notes[..|notes| - 1]), notes[|notes| - 1])
  }

  class LiveJournal {
    var file: string
    var no: nat
    var buffer: string
    var channel: string
    ghost var lines: seq<Line>

    ghost predicate Valid()
      reads this
    {
      no == |lines| && file == FileOf(lines)
    }

    ghost function State(): Log
      reads this
    {
      Log(lines, buffer, channel)
    }

    constructor ()
      ensures Valid() && State() == NEW_LOG
    {
      file, no, buffer, channel := "", 0, "", "";
      lines := [];
    }

    method WriteDelta()
      requires Valid()
      modifies this`file, this`no, this`lines
      ensures Valid() && lines == old(lines) + [DeltaLine(|old(lines)| + 1, channel, buffer)]
    {
      AppendToFile(DeltaLine(no + 1, channel, buffer));
    }

    // _write_line: number the object, append it, flush.
    method AppendToFile(line: Line)
      requires Valid() && line.no == no + 1
      modifies this`file, this`no, this`lines
      ensures Valid() && lines == old(lines) + [line]
    {
      FlatMapAppend(FileLine, lines, [line]);
      FlatMapOne(FileLine, line);
      no := no + 1;
      file := file + (EncodeLine(line) + "\n");
      lines := lines + [line];
    }

    method FlushBuffer()
      requires Valid()
      modifies this
      ensures Valid() && State() == Flushed(old(State()))
    {
      hide FileOf;
      if buffer != "" {
        WriteDelta();
        buffer := "";
      }
    }

    method OnNotification(n: Notification)
      requires Valid()
      modifies this
      ensures Valid() && State() == Notify(old(State()), n)
    {
      hide FileOf;
      match n {
        case Token(ch, text) =>
          if ch != "thinking" && ch != "answer" {
            return;
          }
          if text == "" {
            return;
          }
          if ch != channel {
            FlushBuffer();
            channel := ch;
          }
          buffer := buffer + text;
          if |buffer| >= 64 {
            FlushBuffer();
          }
        case TurnEnd(p) =>
          FlushBuffer();
          HandleTurn(p);
        case Flush =>
          FlushBuffer();
        case OtherMethod =>
      }
    }

    method HandleTurn(p: TurnParams)
      requires Valid()
      modifies this`file, this`no, this`lines
      ensures Valid() && lines == old(lines) + TurnLines(|old(lines)| + 1, p)
    {
      hide FileOf, FirstTold;
      var summary := if |p.summary| > 240 then p.summary[..240] else p.summary;
      var path, command := ParseToolArgs(p.args);
      var turn := TurnLine(no + 1, p.tool, path, command, p.status, summary, p.readBytes, p.editBytes,
                           p.thinkTokens, p.textTokens, p.toolTokens);
      AppendToFile(turn);
      Associative(old(lines), [turn], WritesOf(no + 1, p));
      WriteNote(p, path);
    }

    // The extra line a turn that edited leaves.
    method WriteNote(p: TurnParams, path: string)
      requires Valid() && path == Told(p.args, PATH_KEYS)
      modifies this`file, this`no, this`lines
      ensures Valid() && lines == old(lines) + WritesOf(|old(lines)| + 1, p)
    {
      if p.editBytes > 0 || IsWriteTool(p.tool) {
        AppendToFile(WriteLine(no + 1, p.tool, path, p.editBytes));
      }
    }
  }

  // --- What the journal holds ------------------------------------------------------------------

  ghost predicate CountedUp(lines: seq<Line>) { forall i :: 0 <= i < |lines| ==> lines[i].no == i + 1 }

  lemma {:induction false} LinesAreNumbered(notes: seq<Notification>)
    ensures CountedUp(NotifyAll(notes).lines)
  {
    if notes != [] {
      LinesAreNumbered(notes[..|notes| - 1]);
      NotifyCountsUp(NotifyAll(notes[..|notes| - 1]), notes[|notes| - 1]);
    }
  }

  lemma NotifyCountsUp(j: Log, n: Notification)
    requires CountedUp(j.lines)
    ensures CountedUp(Notify(j, n).lines)
  {
  }

  function TokenText(channel: string, n: Notification): string {
    if n.Token? && n.channel == channel then n.text else ""
  }

  function TokensOn(channel: string): Notification -> string { n => TokenText(channel, n) }

  function LineText(channel: string, line: Line): string {
    if line.DeltaLine? && line.channel == channel then line.text else ""
  }

  function LinesOn(channel: string): Line -> string { l => LineText(channel, l) }

  /** What the journal holds of a channel: its lines' text, then what is still buffered. */
  function Held(j: Log, channel: string): string {
    FlatMap(LinesOn(channel), j.lines) + if j.channel == channel then j.buffer else ""
  }

  /** Between channels nothing is left unwritten. */
  lemma FlushHolds(j: Log, channel: string)
    ensures Held(Flushed(j), channel) == Held(j, channel)
    ensures FlatMap(LinesOn(channel), Flushed(j).lines) == Held(j, channel)
  {
    if j.buffer != "" {
      var line := DeltaLine(|j.lines| + 1, j.channel, j.buffer);
      FlatMapAppend(LinesOn(channel), j.lines, [line]);
      FlatMapOne(LinesOn(channel), line);
    }
    assert FlatMap(LinesOn(channel), Flushed(j).lines) + "" == FlatMap(LinesOn(channel), Flushed(j).lines);
    assert FlatMap(LinesOn(channel), j.lines) + "" == FlatMap(LinesOn(channel), j.lines);
  }

  lemma TurnLinesHoldNoText(j: Log, channel: string, lines: seq<Line>)
    requires forall l :: l in lines ==> !l.DeltaLine?
    ensures FlatMap(LinesOn(channel), j.lines + lines) == FlatMap(LinesOn(channel), j.lines)
  {
    FlatMapAppend(LinesOn(channel), j.lines, lines);
    NoText(channel, lines);
  }

  lemma {:induction false} NoText(channel: string, lines: seq<Line>)
    requires forall l :: l in lines ==> !l.DeltaLine?
    ensures FlatMap(LinesOn(channel), lines) == ""
  {
    if lines != [] {
      assert lines[|lines| - 1] in lines;
      NoText(channel, lines[..|lines| - 1]);
    }
  }

  lemma BufferHolds(j: Log, ch: string, text: string, channel: string)
    ensures Held(Buffered(j, ch, text), channel) == Held(j, channel) + if ch == channel then text else ""
  {
    FlushHolds(j, channel);
    var k := if ch != j.channel then Flushed(j).(channel := ch) else j;
    assert Held(k, channel) == Held(j, channel);
    Associative(FlatMap(LinesOn(channel), k.lines), k.buffer, text);
    assert Held(j, channel) + "" == Held(j, channel);
  }

  lemma NotifyHolds(j: Log, n: Notification, channel: string)
    requires Journalled(channel)
    ensures Held(Notify(j, n), channel) == Held(j, channel) + TokenText(channel, n)
  {
    hide FlatMap, FirstTold, Flushed, Buffered;
    assert Held(j, channel) + "" == Held(j, channel);
    match n
    case Token(ch, text) =>
      if Journalled(ch) && text != "" {
        BufferHolds(j, ch, text, channel);
        FlushHolds(Buffered(j, ch, text), channel);
      }
    case TurnEnd(p) =>
      FlushHolds(j, channel);
      TurnLinesHoldNoText(Flushed(j), channel, TurnLines(|Flushed(j).lines| + 1, p));
    case Flush => FlushHolds(j, channel);
    case OtherMethod =>
  }

  /** Whatever the buffering, the journal holds exactly the tokens sent on each channel. */
  lemma {:induction false} JournalHoldsTheTokens(notes: seq<Notification>, channel: string)
    requires Journalled(channel)
    ensures Held(NotifyAll(notes), channel) == FlatMap(TokensOn(channel), notes)
  {
    if notes != [] {
      JournalHoldsTheTokens(notes[..|notes| - 1], channel);
      NotifyHolds(NotifyAll(notes[..|notes| - 1]), notes[|notes| - 1], channel);
    }
  }

  /** A buffer is flushed the moment it reaches its limit, so a reader is never further behind. */
  lemma {:induction false} BufferStaysShort(notes: seq<Notification>)
    ensures |NotifyAll(notes).buffer| < 64
  {
    if notes != [] {
      BufferStaysShort(notes[..|notes| - 1]);
    }
  }

  // --- What a turn leaves --------------------------------------------------------------------------

  /** The text told is that under the first of these keys whose value is a text that is not empty, and
      empty when there is none. */
  ghost predicate ToldUnder(args: Option<map<string, Value>>, keys: seq<string>, text: string) {
    match args
    case None => text == ""
    case Some(data) =>
      (forall i :: 0 <= i < |keys| && Tells(data, keys[i]) && (forall j :: 0 <= j < i ==> !Tells(data, keys[j])) ==>
         text == data[keys[i]].s) &&
      ((forall i :: 0 <= i < |keys| ==> !Tells(data, keys[i])) ==> text == "")
  }

  ghost predicate SaysTurn(line: Line, p: TurnParams) {
    && line.TurnLine? && line.tool == p.tool && line.status == p.status
    && ToldUnder(p.args, ["path", "file", "filepath", "file_path", "target"], line.path)
    && ToldUnder(p.args, ["command", "cmd"], line.command)
    && (if |p.summary| <= 240 then line.summary == p.summary else line.summary == p.summary[..240])
    && line.readBytes == p.readBytes && line.editBytes == p.editBytes
    && line.thinkTokens == p.thinkTokens && line.textTokens == p.textTokens && line.toolTokens == p.toolTokens
  }

  ghost predicate SaysWrite(line: Line, p: TurnParams) {
    && line.WriteLine? && line.tool == p.tool && line.editBytes == p.editBytes
    && ToldUnder(p.args, ["path", "file", "filepath", "file_path", "target"], line.path)
  }

  lemma ToldIsUnder(args: Option<map<string, Value>>, keys: seq<string>)
    ensures ToldUnder(args, keys, Told(args, keys))
  {
    if args.Some? {
      assert forall i :: 0 <= i < |keys| ==> keys[i] in keys;
    }
  }

  /** When a turn ends, what was buffered is written as one delta line of its channel, then the turn with
      what the notification says of it, and then, if it edited or its tool is one that writes, a
      write line. Nothing else is written, and no line before it is touched. */
  lemma TurnEndWrites(j: Log, p: TurnParams)
    ensures var lines, n := Notify(j, TurnEnd(p)).lines, |j.lines| + if j.buffer == "" then 0 else 1;
            var writes := p.editBytes > 0 || p.tool in {"write_file", "apply_patch", "commit_think_block"};
            |lines| == n + (if writes then 2 else 1) && j.lines <= lines &&
            (j.buffer != "" ==> lines[n - 1] == DeltaLine(n, j.channel, j.buffer)) &&
            lines[n].no == n + 1 && SaysTurn(lines[n], p) &&
            (writes ==> lines[n + 1].no == n + 2 && SaysWrite(lines[n + 1], p)) &&
            Notify(j, TurnEnd(p)).buffer == "" && Notify(j, TurnEnd(p)).channel == j.channel
  {
    hide FirstTold, ToldUnder;
    ToldIsUnder(p.args, PATH_KEYS);
    ToldIsUnder(p.args, COMMAND_KEYS);
  }

  /** A token that is not empty, on one of the two channels, is buffered; what another channel had there is
      written first, and the buffer is written when it comes to 64 characters, and not before. Any
      other token is passed over. */
  lemma TokenIsBuffered(j: Log, channel: string, text: string)
    ensures var k := Notify(j, Token(channel, text));
            if (channel != "thinking" && channel != "answer") || text == "" then k == j
            else
              var changes := channel != j.channel;
              var first := if changes && j.buffer != "" then [DeltaLine(|j.lines| + 1, j.channel, j.buffer)] else [];
              var held := (if changes then "" else j.buffer) + text;
              k.channel == channel &&
              (if |held| < 64 then k.buffer == held && k.lines == j.lines + first
               else k.buffer == "" && k.lines == j.lines + first + [DeltaLine(|j.lines + first| + 1, channel, held)])
  {
    assert j.lines + [] == j.lines && "" + text == text;
  }
}
