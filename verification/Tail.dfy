/** Tailing an append-only file: read_appended of scripts/piper_ui.py and the offset the
    watcher keeps between polls. */
module Tail {
  import opened Sequences
  import opened Lines
  import opened Text

  predicate IsByteSpace(c: char) { c == ' ' || '\t' <= c <= '\r' }

  function Strip(s: string): string { Trim(IsByteSpace, s) }

  /** What a line contributes: nothing when blank or malformed. */
  function ParseLine<T>(parse: string -> Option<T>, line: string): seq<T> {
    var stripped := Strip(line);
    if stripped == "" then []
    else match parse(stripped)
      case Some(obj) => [obj]
      case None => []
  }

  function LineParser<T>(parse: string -> Option<T>): string -> seq<T> { line => ParseLine(parse, line) }

  function ParseAll<T>(parse: string -> Option<T>, lines: seq<string>): seq<T> {
    FlatMap(LineParser(parse), lines)
  }

  lemma ParseAllAppend<T>(parse: string -> Option<T>, xs: seq<string>, ys: seq<string>)
    ensures ParseAll(parse, xs + ys) == ParseAll(parse, xs) + ParseAll(parse, ys)
  {
    FlatMapAppend(LineParser(parse), xs, ys);
  }

  /** The whole file read at once: its complete lines, parsed. */
  function Objects<T>(parse: string -> Option<T>, data: string): seq<T> { ParseAll(parse, Complete(data)) }

  /** How far the complete lines reach. */
  function Consumed(data: string): (n: nat)
    ensures n <= |data|
  {
    SplitLengths(data);
    |data| - |Partial(data)|
  }

  // --- One read --------------------------------------------------------------------------------

  datatype Read<T> = Read(objects: seq<T>, offset: nat)

  function ReadOnce<T>(parse: string -> Option<T>, file: Option<string>, offset: nat): Read<T> {
    match file
    case None => Read([], offset)
    case Some(content) =>
      var from := if |content| < offset then 0 else offset;
      Read(Objects(parse, content[from..]), from + Consumed(content[from..]))
  }

  method ReadAppended<T>(parse: string -> Option<T>, file: Option<string>, offset: nat)
    returns (parsed: seq<T>, newOffset: nat)
    ensures Read(parsed, newOffset) == ReadOnce(parse, file, offset)
  {
    hide Split, Strip, LastNewline;
    if file.None? {
      return [], offset;
    }
    var content := file.value;
    var size := |content|;
    var from := offset;
    if size < from {
      from := 0;
    }
    if size <= from {
      assert content[from..] == "";
      NothingToRead(parse);
      return [], from;
    }
    var data := content[from..];
    var lines := Split(data);
    var completeLines := lines[..|lines| - 1];
    var hasPartial := data[|data| - 1] != '\n' && lines[|lines| - 1] != "";
    parsed := [];
    ghost var f := LineParser(parse);
    assert completeLines[..|completeLines|] == completeLines;
    for i := 0 to |completeLines|
      invariant parsed == FlatMap(f, completeLines[..i])
    {
      FlatMapTake(f, completeLines, i);
      var stripped := Strip(completeLines[i]);
      if stripped == "" {
        continue;
      }
      var obj := parse(stripped);
      if obj.Some? {
        parsed := parsed + [obj.value];
      }
    }
    SplitLengths(data);
    if hasPartial {
      newOffset := from + (LastNewline(data) + 1);
    } else {
      newOffset := size;
    }
  }

  /** The whole file as the snapshot reads it: a last line without its newline counts too. */
  function ReadWhole<T>(parse: string -> Option<T>, file: Option<string>): seq<T> {
    match file
    case None => []
    case Some(content) => Objects(parse, content) + ParseLine(parse, Partial(content))
  }

  // read_jsonl without a limit: every line, the last one whether or not a newline ends it.
  method ReadJsonl<T>(parse: string -> Option<T>, file: Option<string>) returns (rows: seq<T>)
    ensures rows == ReadWhole(parse, file)
  {
    hide Split, Strip;
    rows := [];
    if file.None? {
      return;
    }
    var lines := Split(file.value);
    ghost var f := LineParser(parse);
    assert lines[..|lines|] == lines;
    for i := 0 to |lines|
      invariant rows == FlatMap(f, lines[..i])
    {
      FlatMapTake(f, lines, i);
      var stripped := Strip(lines[i]);
      if stripped == "" {
        continue;
      }
      var obj := parse(stripped);
      if obj.Some? {
        rows := rows + [obj.value];
      }
    }
    FlatMapTake(f, lines, |lines| - 1);
  }

  // --- A schedule of reads -----------------------------------------------------------------------

  function ReadAll<T>(parse: string -> Option<T>, start: nat, polls: seq<Option<string>>): Read<T> {
    if polls == [] then Read([], start)
    else
      var before := ReadAll(parse, start, polls[..|polls| - 1]);
      var now := ReadOnce(parse, polls[|polls| - 1], before.offset);
      Read(before.objects + now.objects, now.offset)
  }

  /** What the file held when it was last seen. */
  function LastSeen(initially: string, polls: seq<Option<string>>): string {
    if polls == [] then initially
    else match polls[|polls| - 1]
      case Some(content) => content
      case None => LastSeen(initially, polls[..|polls| - 1])
  }

  /** The file only ever grows at its end; it may not be there at some polls. */
  ghost predicate AppendOnly(initially: string, polls: seq<Option<string>>) {
    polls == [] ||
    (AppendOnly(initially, polls[..|polls| - 1]) &&
     (polls[|polls| - 1].Some? ==> LastSeen(initially, polls[..|polls| - 1]) <= polls[|polls| - 1].value))
  }

  predicate AfterNewline(content: string, offset: nat) {
    offset <= |content| && (offset == 0 || content[offset - 1] == '\n')
  }

  lemma AlignedHasNoPartial(content: string, n: nat)
    requires AfterNewline(content, n)
    ensures Partial(content[..n]) == ""
  {
    if n > 0 {
      assert content[..n][|content[..n]| - 1] == '\n';
    }
  }

  lemma ConsumedIsAligned(data: string)
    ensures AfterNewline(data, Consumed(data))
    ensures Complete(data[..Consumed(data)]) == Complete(data)
  {
    CutAtPartial(data);
  }

  /** Reading in two goes, the second from where the first stopped, is reading in one. */
  lemma ReadsCompose<T>(parse: string -> Option<T>, data: string, more: string)
    ensures Objects(parse, data + more) ==
            Objects(parse, data) + Objects(parse, (data + more)[Consumed(data)..])
    ensures Consumed(data + more) == Consumed(data) + Consumed((data + more)[Consumed(data)..])
  {
    var n := Consumed(data);
    var a, b := data[..n], (data + more)[n..];
    assert data + more == a + b;
    ConsumedIsAligned(data);
    AlignedHasNoPartial(data, n);
    LinesCompose(a, b);
    FlatMapAppend(LineParser(parse), Complete(a), Complete(b));
  }

  lemma ReadGrown<T>(parse: string -> Option<T>, initially: string, held: string, now: string)
    requires initially <= held <= now
    ensures var start := |initially|;
            var from := start + Consumed(held[start..]);
            from <= |now| &&
            Objects(parse, now[start..]) == Objects(parse, held[start..]) + Objects(parse, now[from..]) &&
            Consumed(now[start..]) == Consumed(held[start..]) + Consumed(now[from..])
  {
    var data, more := held[|initially|..], now[|held|..];
    assert now[|initially|..] == data + more;
    assert now[|initially| + Consumed(data)..] == (data + more)[Consumed(data)..];
    ReadsCompose(parse, data, more);
  }

  lemma NextRead<T>(parse: string -> Option<T>, initially: string, held: string, now: string)
    requires initially <= held <= now
    ensures var start := |initially|;
            var read := ReadOnce(parse, Some(now), start + Consumed(held[start..]));
            Objects(parse, held[start..]) + read.objects == Objects(parse, now[start..]) &&
            read.offset == start + Consumed(now[start..])
  {
    ReadGrown(parse, initially, held, now);
  }

  /** However the polls fall, the tail is at all times what one read of the file from the same
      starting point gives: every complete line once, in order, the offset just past the last. */
  lemma {:induction false} TailRefinesWholeRead<T>(parse: string -> Option<T>, initially: string,
                                                   polls: seq<Option<string>>)
    requires AppendOnly(initially, polls)
    ensures initially <= LastSeen(initially, polls)
    ensures var rest := LastSeen(initially, polls)[|initially|..];
            ReadAll(parse, |initially|, polls).objects == Objects(parse, rest) &&
            ReadAll(parse, |initially|, polls).offset == |initially| + Consumed(rest)
    decreases |polls|
  {
    hide Objects, Consumed, ReadOnce;
    if polls == [] {
      assert initially[|initially|..] == "";
      NothingToRead(parse);
    } else {
      var before, file := polls[..|polls| - 1], polls[|polls| - 1];
      TailRefinesWholeRead(parse, initially, before);
      if file.Some? {
        NextRead(parse, initially, LastSeen(initially, before), file.value);
      } else {
        NoFileToRead(parse, ReadAll(parse, |initially|, before));
      }
    }
  }

  lemma NothingToRead<T>(parse: string -> Option<T>)
    ensures Objects(parse, "") == [] && Consumed("") == 0
  {
  }

  lemma NoFileToRead<T>(parse: string -> Option<T>, before: Read<T>)
    ensures ReadOnce(parse, None, before.offset) == Read([], before.offset)
    ensures before.objects + [] == before.objects
  {
  }

  /** From offset 0 the tail is the whole file, and the offset is always 0 or past a newline. */
  lemma TailIsTheWholeFile<T>(parse: string -> Option<T>, polls: seq<Option<string>>)
    requires AppendOnly("", polls)
    ensures ReadAll(parse, 0, polls).objects == Objects(parse, LastSeen("", polls))
    ensures AfterNewline(LastSeen("", polls), ReadAll(parse, 0, polls).offset)
  {
    TailRefinesWholeRead(parse, "", polls);
    assert LastSeen("", polls)[0..] == LastSeen("", polls);
    ConsumedIsAligned(LastSeen("", polls));
  }

  // --- Arming the watcher --------------------------------------------------------------------------

  predicate Blank(s: string) { Strip(s) == "" }

  /** The watcher starts at end of file and leaves the lines before to a snapshot. Nothing is
      torn exactly when no line with content was half written at that moment. */
  lemma ArmingIsSafeExactlyWhen(history: string)
    ensures (forall parse: string -> Option<string>, more: string ::
               Objects(parse, history) + Objects(parse, more) == Objects(parse, history + more)) <==>
            Blank(Partial(history))
  {
    if Blank(Partial(history)) {
      forall parse: string -> Option<string>, more: string
        ensures Objects(parse, history) + Objects(parse, more) == Objects(parse, history + more)
      {
        BlankPartialIsHarmless(parse, history, more);
      }
    } else {
      var parse: string -> Option<string> := s => Some(s);
      HalfALineIsTorn(parse, history);
    }
  }

  lemma {:induction false} TrimLeftBlank(p: string, t: string)
    requires forall c :: c in p ==> IsByteSpace(c)
    ensures TrimLeft(IsByteSpace, p + t) == TrimLeft(IsByteSpace, t)
  {
    if p == "" {
      assert p + t == t;
    } else {
      assert (p + t)[1..] == p[1..] + t;
      TrimLeftBlank(p[1..], t);
    }
  }

  lemma {:induction false} TrimLeftKeeps(p: string, t: string)
    requires exists c :: c in p && !IsByteSpace(c)
    ensures TrimLeft(IsByteSpace, p + t) == TrimLeft(IsByteSpace, p) + t && TrimLeft(IsByteSpace, p) != ""
  {
    if IsByteSpace(p[0]) {
      assert (p + t)[1..] == p[1..] + t;
      assert p == [p[0]] + p[1..];
      TrimLeftKeeps(p[1..], t);
    }
  }

  lemma {:induction false} TrimRightKeepsHead(s: string)
    requires s != "" && !IsByteSpace(s[0])
    ensures TrimRight(IsByteSpace, s) != ""
  {
    if IsByteSpace(s[|s| - 1]) {
      TrimRightKeepsHead(s[..|s| - 1]);
    }
  }

  lemma BlankMeansSpaces(p: string)
    ensures Blank(p) <==> forall c :: c in p ==> IsByteSpace(c)
  {
    if forall c :: c in p ==> IsByteSpace(c) {
      TrimLeftBlank(p, "");
      assert p + "" == p;
    } else {
      TrimLeftKeeps(p, "");
      assert p + "" == p;
      TrimRightKeepsHead(TrimLeft(IsByteSpace, p));
    }
  }

  /** Lines of a glued text, when the second part completes the line the first left open. */
  lemma GluedLines(history: string, more: string)
    ensures Complete(more) == [] ==> Complete(history + more) == Complete(history)
    ensures Complete(more) != [] ==>
              Complete(history + more) ==
              Complete(history) + ([Partial(history) + Complete(more)[0]] + Complete(more)[1..])
  {
    SplitAppend(history, more);
    GlueInit(Split(history), Split(more));
  }

  lemma GlueInit(xs: seq<string>, ys: seq<string>)
    requires xs != [] && ys != []
    ensures var g, init := Glue(xs, ys), ys[..|ys| - 1];
            g[..|g| - 1] ==
            xs[..|xs| - 1] + if init == [] then [] else [xs[|xs| - 1] + init[0]] + init[1..]
  {
  }

  lemma BlankPartialIsHarmless(parse: string -> Option<string>, history: string, more: string)
    requires Blank(Partial(history))
    ensures Objects(parse, history) + Objects(parse, more) == Objects(parse, history + more)
  {
    var f := LineParser(parse);
    var p, lines := Partial(history), Complete(more);
    GluedLines(history, more);
    if lines == [] {
      assert Objects(parse, history) + [] == Objects(parse, history);
    } else {
      var glued := [p + lines[0]] + lines[1..];
      BlankMeansSpaces(p);
      TrimLeftBlank(p, lines[0]);
      FlatMapAppend(f, Complete(history), glued);
      FlatMapHead(f, glued);
      FlatMapHead(f, lines);
    }
  }

  lemma HalfALineIsTorn(parse: string -> Option<string>, history: string)
    requires !Blank(Partial(history)) && forall s :: parse(s) == Some(s)
    ensures Objects(parse, history) + Objects(parse, "x\n") != Objects(parse, history + "x\n")
  {
    var f := LineParser(parse);
    var p := Partial(history);
    OneLineSplit();
    GluedLines(history, "x\n");
    var glued := [p + "x"];
    assert [p + "x"] + ["x"][1..] == glued;
    FlatMapAppend(f, Complete(history), glued);
    FlatMapOne(f, p + "x");
    FlatMapOne(f, "x");
    TornLine(parse, p);
    assert f(p + "x") != f("x") && |f(p + "x")| == |f("x")| == 1;
    assert (Objects(parse, history) + f("x"))[|Objects(parse, history)|] == f("x")[0];
  }

  lemma TornLine(parse: string -> Option<string>, p: string)
    requires !Blank(p) && forall s :: parse(s) == Some(s)
    ensures ParseLine(parse, "x") == ["x"]
    ensures |ParseLine(parse, p + "x")| == 1 && ParseLine(parse, p + "x")[0] != "x"
  {
    BlankMeansSpaces(p);
    TrimLeftKeeps(p, "x");
    var whole := TrimLeft(IsByteSpace, p) + "x";
    assert TrimRight(IsByteSpace, whole) == whole && |whole| > 1;
  }

  lemma OneLineSplit()
    ensures Complete("x\n") == ["x"]
  {
    assert "x\n"[..1] == "x" && "x"[..0] == "" && "" + ['x'] == "x";
    assert Split("x") == ["x"];
  }

  /** One read, off the file: nothing without it, and the offset stays; from the start again when the file
      is shorter than the offset; and then the complete lines from there, the offset moving past the
      last newline, to which everything is read and past which nothing is. */
  lemma OneReadSays<T>(parse: string -> Option<T>, file: Option<string>, offset: nat)
    ensures var r := ReadOnce(parse, file, offset);
            match file
            case None => r.objects == [] && r.offset == offset
            case Some(content) =>
              var from := if |content| < offset then 0 else offset;
              from <= r.offset <= |content| && r.objects == Objects(parse, content[from..r.offset]) &&
              (r.offset > from ==> content[r.offset - 1] == '\n') &&
              forall j :: r.offset <= j < |content| ==> content[j] != '\n'
  {
    hide Objects, Split;
    if file.Some? {
      var from := if |file.value| < offset then 0 else offset;
      ReadsToTheLastNewline(parse, file.value[from..]);
      var n := Consumed(file.value[from..]);
      assert file.value[from..][..n] == file.value[from..from + n];
      forall j | from + n <= j < |file.value|
        ensures file.value[j] != '\n'
      {
        assert file.value[j] == file.value[from..][j - from];
      }
    }
  }

  lemma ReadsToTheLastNewline<T>(parse: string -> Option<T>, data: string)
    ensures var n := Consumed(data);
            Objects(parse, data) == Objects(parse, data[..n]) && (n > 0 ==> data[n - 1] == '\n') &&
            forall j :: n <= j < |data| ==> data[j] != '\n'
  {
    hide Split;
    SplitLengths(data);
    CutAtPartial(data);
  }

  /** Blanks are stripped from both ends of a line and nowhere else, and only what bytes count as blank. */
  lemma StripsBlanks(before: string, text: string, after: string)
    requires forall c :: c in before + after ==> c in " \t\n\U{B}\U{C}\r"
    requires text == "" || (text[0] !in " \t\n\U{B}\U{C}\r" && text[|text| - 1] !in " \t\n\U{B}\U{C}\r")
    ensures Strip(before + text + after) == text
  {
    forall c: char
      ensures c in " \t\n\U{B}\U{C}\r" <==> IsByteSpace(c)
    {
    }
    assert forall c :: c in before ==> c in before + after;
    assert forall c :: c in after ==> c in before + after;
    Associative(before, text, after);
    TrimLeftBlank(before, text + after);
    if text == "" {
      assert text + after == after && after + "" == after;
      TrimLeftBlank(after, "");
    } else {
      assert (text + after)[0] == text[0];
      TrimRightBlank(text, after);
    }
  }

  lemma {:induction false} TrimRightBlank(text: string, after: string)
    requires forall c :: c in after ==> IsByteSpace(c)
    requires text != "" && !IsByteSpace(text[|text| - 1])
    ensures TrimRight(IsByteSpace, text + after) == text
  {
    if after == "" {
      assert text + after == text;
    } else {
      var n := |after| - 1;
      assert (text + after)[..|text + after| - 1] == text + after[..n];
      assert after[n] in after && (text + after)[|text + after| - 1] == after[n];
      TrimRightBlank(text, after[..n]);
    }
  }
}
