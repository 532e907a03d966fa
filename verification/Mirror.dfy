/** The document mirror of LspSession.diagnostics: versions, texts, and the full-range change
    it sends, against what a server does with that change (Text Document Synchronization in
    LSP 3.17: lines end in \n, \r\n or \r, and characters are counted in UTF-16 units). */
module Mirror {
  import opened Sequences
  import opened Lines
  import opened Text

  datatype Position = Position(line: nat, character: nat)

  // --- The server's reading of a position ------------------------------------------------

  function Units(c: char): nat { if c as int >= 0x1_0000 then 2 else 1 }

  predicate IsEol(c: char) { c == '\n' || c == '\r' }

  /** Where the first line ends. */
  function LineEnd(text: string): (e: nat)
    ensures e <= |text| && forall j :: 0 <= j < e ==> !IsEol(text[j])
    ensures e < |text| ==> IsEol(text[e])
  {
    if text == "" || IsEol(text[0]) then 0 else 1 + LineEnd(text[1..])
  }

  /** Where the line after the first begins. */
  function NextLine(text: string): (n: nat)
    requires LineEnd(text) < |text|
    ensures LineEnd(text) < n <= |text|
  {
    var e := LineEnd(text);
    if text[e] == '\r' && e + 1 < |text| && text[e + 1] == '\n' then e + 2 else e + 1
  }

  /** How many characters of a line lie before `units` UTF-16 units, at most the whole line. */
  function OffsetInLine(line: string, units: nat): (o: nat)
    ensures o <= |line|
  {
    if line == "" || Units(line[0]) > units then 0
    else 1 + OffsetInLine(line[1..], units - Units(line[0]))
  }

  function Offset(text: string, p: Position): (o: nat)
    ensures o <= |text|
    decreases |text|
  {
    var e := LineEnd(text);
    if p.line == 0 then OffsetInLine(text[..e], p.character)
    else if e == |text| then |text|
    else NextLine(text) + Offset(text[NextLine(text)..], Position(p.line - 1, p.character))
  }

  datatype Change = WholeText(text: string) | FromStart(end: Position, text: string)

  function Applied(copy: string, change: Change): string {
    match change
    case WholeText(text) => text
    case FromStart(end, text) => text + copy[Offset(copy, end)..]
  }

  // --- The client's end of text -------------------------------------------------------------

  function EndOf(prior: string): Position {
    if prior == "" || prior[|prior| - 1] == '\n' then Position(Newlines(prior), 0)
    else Position(Newlines(prior), |Partial(prior)|)
  }

  // --- Exactly when the range covers the server's copy ----------------------------------------

  predicate LoneCrAt(text: string, i: int) {
    0 <= i < |text| && text[i] == '\r' && (i + 1 == |text| || text[i + 1] != '\n')
  }

  ghost predicate LoneCr(text: string) { exists i :: LoneCrAt(text, i) }

  ghost predicate RangeSafe(text: string) {
    !LoneCr(text) && Narrow(Partial(text))
  }

  predicate Narrow(line: string) { forall c :: c in line ==> Units(c) == 1 }

  lemma {:induction false} OffsetInWholeLine(line: string, units: nat)
    requires units <= |line|
    ensures OffsetInLine(line, units) <= units
    ensures OffsetInLine(line, |line|) == |line| <==> Narrow(line)
    decreases |line|
  {
    if line != "" {
      var rest := line[1..];
      assert line == [line[0]] + rest;
      assert Units(line[0]) >= 1;
      OffsetInWholeLine(rest, |rest|);
      if Units(line[0]) <= units {
        OffsetInWholeLine(rest, units - Units(line[0]));
      }
      if Units(line[0]) == 2 && |rest| >= 1 {
        OffsetInWholeLine(rest, |rest| - 1);
      }
    }
  }

  lemma PartialAfter(head: string, rest: string)
    requires head != "" && head[|head| - 1] == '\n'
    ensures Partial(head + rest) == Partial(rest)
  {
    LinesCompose(head, rest);
  }

  lemma NewlinesSnoc(s: string, c: char)
    ensures Newlines(s + [c]) == Newlines(s) + if c == '\n' then 1 else 0
  {
    assert (s + [c])[..|s|] == s;
  }

  lemma LineHoldsNoNewline(text: string)
    ensures Newlines(text[..LineEnd(text)]) == 0
  {
    hide Newlines;
    NoNewlines(text[..LineEnd(text)]);
  }

  lemma NextLineIs(text: string)
    requires LineEnd(text) < |text|
    ensures var e, n := LineEnd(text), NextLine(text);
            if n == e + 2 then e + 1 < |text| && text[e] == '\r' && text[e + 1] == '\n' else n == e + 1
  {
  }

  /** The first line and its end hold one newline, or none when they end in a lone CR. */
  lemma FirstLineNewlines(text: string)
    requires LineEnd(text) < |text|
    ensures var n := NextLine(text);
            Newlines(text) == Newlines(text[n..]) + (if text[n - 1] == '\n' then 1 else 0)
  {
    hide Newlines, LineEnd, NextLine;
    var e, n := LineEnd(text), NextLine(text);
    NextLineIs(text);
    Halves(text, n);
    NewlinesAppend(text[..n], text[n..]);
    LineHoldsNoNewline(text);
    TakeSnoc(text, e);
    NewlinesSnoc(text[..e], text[e]);
    if n == e + 2 {
      TakeSnoc(text, e + 1);
      NewlinesSnoc(text[..e + 1], text[e + 1]);
    }
  }

  lemma LoneCrShift(text: string, n: nat)
    requires n <= |text| && forall i :: 0 <= i < n ==> !LoneCrAt(text, i)
    ensures LoneCr(text) <==> LoneCr(text[n..])
  {
    var rest := text[n..];
    assert forall i :: n <= i < |text| ==> LoneCrAt(text, i) == LoneCrAt(rest, i - n);
    if i :| LoneCrAt(rest, i) {
      assert LoneCrAt(text, n + i) == LoneCrAt(rest, n + i - n);
    }
  }

  lemma LoneCrFromNext(text: string, e: nat, n: nat)
    requires e < n <= |text| && forall j :: 0 <= j < e ==> !IsEol(text[j])
    requires (n == e + 1 && text[e] == '\n') || (n == e + 2 && text[e] == '\r' && text[e + 1] == '\n')
    ensures LoneCr(text) <==> LoneCr(text[n..])
  {
    forall i | 0 <= i < n
      ensures !LoneCrAt(text, i)
    {
      if i < e {
        assert !IsEol(text[i]);
      }
    }
    LoneCrShift(text, n);
  }

  lemma EndAcrossLine(head: string, rest: string)
    requires head != "" && head[|head| - 1] == '\n' && Newlines(head + rest) == Newlines(rest) + 1
    ensures EndOf(head + rest) == Position(EndOf(rest).line + 1, EndOf(rest).character)
    ensures Partial(head + rest) == Partial(rest)
  {
    PartialAfter(head, rest);
    EndsAre(head + rest);
    EndsAre(rest);
  }

  lemma LineEndsInNewline(text: string)
    requires LineEnd(text) < |text| && text[NextLine(text) - 1] == '\n'
    ensures var e, n := LineEnd(text), NextLine(text);
            (n == e + 1 && text[e] == '\n') || (n == e + 2 && text[e] == '\r' && text[e + 1] == '\n')
  {
  }

  lemma OffsetAcrossLine(text: string, p: Position)
    requires LineEnd(text) < |text|
    ensures Offset(text, Position(p.line + 1, p.character)) == NextLine(text) + Offset(text[NextLine(text)..], p)
  {
  }

  lemma OffsetInFirstLine(text: string, character: nat)
    ensures Offset(text, Position(0, character)) <= LineEnd(text)
  {
  }

  /** A line the server numbers below the newlines the client counted ends before the text. */
  lemma {:induction false} EarlierLineFallsShort(text: string, p: Position)
    requires p.line < Newlines(text)
    ensures Offset(text, p) < |text|
    decreases |text|
  {
    hide Offset, LineEnd, NextLine, Newlines;
    NoNewlines(text);
    if p.line == 0 {
      OffsetInFirstLine(text, p.character);
    } else {
      var n := NextLine(text);
      FirstLineNewlines(text);
      OffsetAcrossLine(text, Position(p.line - 1, p.character));
      EarlierLineFallsShort(text[n..], Position(p.line - 1, p.character));
    }
  }

  /** Past a line that ends in a newline, client and server count on alike. */
  lemma RangeAcrossLine(text: string, head: string, rest: string)
    requires LineEnd(text) < |text| && head == text[..NextLine(text)] && rest == text[NextLine(text)..]
    requires head[|head| - 1] == '\n'
    ensures Offset(text, EndOf(text)) == |head| + Offset(rest, EndOf(rest))
    ensures Partial(text) == Partial(rest)
  {
    FirstLineNewlines(text);
    assert head + rest == text;
    EndAcrossLine(head, rest);
    OffsetAcrossLine(text, EndOf(rest));
  }

  lemma SafeAcrossLine(text: string, e: nat, n: nat)
    requires e < n <= |text| && forall j :: 0 <= j < e ==> !IsEol(text[j])
    requires (n == e + 1 && text[e] == '\n') || (n == e + 2 && text[e] == '\r' && text[e + 1] == '\n')
    requires Partial(text) == Partial(text[n..])
    ensures RangeSafe(text) <==> RangeSafe(text[n..])
  {
    LoneCrFromNext(text, e, n);
  }

  lemma EndsAre(text: string)
    ensures EndOf(text) == Position(Newlines(text), |Partial(text)|)
  {
  }

  /** A line that ends in a lone CR is one the client never counted. */
  lemma RangeAcrossLoneCr(text: string)
    requires LineEnd(text) < |text| && text[NextLine(text) - 1] != '\n'
    ensures Offset(text, EndOf(text)) < |text|
  {
    var line, character := EndOf(text).line, EndOf(text).character;
    FirstLineNewlines(text);
    EndsAre(text);
    if line > 0 {
      OffsetAcrossLine(text, Position(line - 1, character));
      EarlierLineFallsShort(text[NextLine(text)..], Position(line - 1, character));
    }
  }

  lemma RangeOfOneLine(text: string)
    requires LineEnd(text) == |text|
    ensures Offset(text, EndOf(text)) == |text| <==> RangeSafe(text)
  {
    NoNewlines(text);
    assert text[..|text|] == text;
    NoNewlineOnePiece(text);
    EndsAre(text);
    OffsetInWholeLine(text, |text|);
    assert forall i :: !LoneCrAt(text, i);
  }

  lemma LoneCrIsUnsafe(text: string)
    requires LineEnd(text) < |text| && text[NextLine(text) - 1] != '\n'
    ensures !RangeSafe(text)
  {
    hide LineEnd, NextLine, Partial;
    NextLineOrCr(text);
    assert LoneCrAt(text, LineEnd(text));
  }

  lemma NextLineOrCr(text: string)
    requires LineEnd(text) < |text| && text[NextLine(text) - 1] != '\n'
    ensures LoneCrAt(text, LineEnd(text))
  {
    hide LineEnd;
  }

  /** The range the client sends reaches the end of the server's copy exactly when the text has
      no lone CR and its last line no character of two UTF-16 units. */
  lemma {:induction false} RangeCoversExactlyWhen(text: string)
    ensures Offset(text, EndOf(text)) == |text| <==> RangeSafe(text)
    decreases |text|
  {
    if LineEnd(text) == |text| {
      RangeOfOneLine(text);
    } else if text[NextLine(text) - 1] == '\n' {
      var head, rest := text[..NextLine(text)], text[NextLine(text)..];
      RangeAcrossLine(text, head, rest);
      LineEndsInNewline(text);
      SafeAcrossLine(text, LineEnd(text), NextLine(text));
      RangeCoversExactlyWhen(rest);
    } else {
      RangeAcrossLoneCr(text);
      LoneCrIsUnsafe(text);
    }
  }

  // --- The session ---------------------------------------------------------------------------

  // The language a server speaks, and whether it takes whole texts only.
  datatype Server = Server(language: string, syncFull: bool)

  datatype Note =
    | DidOpen(uri: string, languageId: string, version: nat, text: string)
    | DidChange(uri: string, version: nat, change: Change)

  datatype Session = Session(versions: map<string, nat>, texts: map<string, string>, sent: seq<Note>)

  // A document and its text; `suffix` is that of the path, in lower case.
  datatype DocCall = DocCall(uri: string, suffix: string, text: string)

  function LanguageId(language: string, suffix: string): string {
    if language == "python" || language == "gdscript" then language
    else if suffix == ".c" then "c"
    else "cpp"
  }

  function NextVersion(s: Session, uri: string): nat { if uri in s.versions then s.versions[uri] + 1 else 1 }

  function NoteFor(server: Server, s: Session, c: DocCall): Note {
    var version := NextVersion(s, c.uri);
    var prior := if c.uri in s.texts then s.texts[c.uri] else "";
    if version == 1 then DidOpen(c.uri, LanguageId(server.language, c.suffix), version, c.text)
    else DidChange(c.uri, version, if server.syncFull then WholeText(c.text) else FromStart(EndOf(prior), c.text))
  }

  function Diagnose(server: Server, s: Session, c: DocCall): Session {
    Session(s.versions[c.uri := NextVersion(s, c.uri)], s.texts[c.uri := c.text], s.sent + [NoteFor(server, s, c)])
  }

  function Session0(): Session { Session(map[], map[], []) }

  function DiagnoseAll(server: Server, calls: seq<DocCall>): Session {
    if calls == [] then Session0()
    else Diagnose(server, DiagnoseAll(server, calls[..|calls| - 1]), calls[|calls| - 1])
  }

  /** What a server holds after the notifications. */
  function Served(notes: seq<Note>): map<string, string> {
    if notes == [] then map[]
    else
      var docs := Served(notes[..|notes| - 1]);
      match notes[|notes| - 1]
      case DidOpen(uri, _, _, text) => docs[uri := text]
      case DidChange(uri, _, change) =>
        if uri in docs then docs[uri := Applied(docs[uri], change)] else docs
  }

  class LspSession {
    const server: Server
    var versions: map<string, nat>
    var texts: map<string, string>
    var sent: seq<Note>

    constructor (server: Server)
      ensures State() == Session0() && this.server == server
    {
      this.server := server;
      versions, texts, sent := map[], map[], [];
    }

    function State(): Session
      reads this
    {
      Session(versions, texts, sent)
    }

    // diagnostics(), up to waiting for the answer, which it does differently when the text is
    // the one the server already has.
    method Diagnostics(uri: string, suffix: string, text: string) returns (same: bool)
      modifies this`versions, this`texts, this`sent
      ensures State() == Diagnose(server, old(State()), DocCall(uri, suffix, text))
      ensures same <==> uri in old(texts) && old(texts)[uri] == text
    {
      same := uri in texts && texts[uri] == text;
      var version := (if uri in versions then versions[uri] else 0) + 1;
      versions := versions[uri := version];
      if version == 1 {
        var languageId;
        if server.language == "python" {
          languageId := "python";
        } else if server.language == "gdscript" {
          languageId := "gdscript";
        } else if suffix == ".c" {
          languageId := "c";
        } else {
          languageId := "cpp";
        }
        sent := sent + [DidOpen(uri, languageId, version, text)];
      } else {
        var change;
        if server.syncFull {
          change := WholeText(text);
        } else {
          var prior := if uri in texts then texts[uri] else "";
          var end;
          if prior == "" || prior[|prior| - 1] == '\n' {
            end := Position(Newlines(prior), 0);
          } else {
            end := Position(Newlines(prior), |Partial(prior)|);
          }
          change := FromStart(end, text);
        }
        sent := sent + [DidChange(uri, version, change)];
      }
      texts := texts[uri := text];
    }
  }

  function OnDocument(uri: string): DocCall -> bool { (c: DocCall) => c.uri == uri }

  /** Versions count the calls: the i-th call on a document sends version i, one more each time. */
  lemma {:induction false} VersionsCountCalls(server: Server, calls: seq<DocCall>, uri: string)
    ensures var s := DiagnoseAll(server, calls);
            var n := Count(OnDocument(uri), calls);
            (uri in s.versions <==> n > 0) && (n > 0 ==> s.versions[uri] == n) && s.versions.Keys == s.texts.Keys
  {
    if calls != [] {
      VersionsCountCalls(server, calls[..|calls| - 1], uri);
    }
  }

  lemma LastNote(server: Server, calls: seq<DocCall>)
    requires calls != []
    ensures var n := |calls| - 1;
            var s := DiagnoseAll(server, calls[..n]);
            DiagnoseAll(server, calls).sent == s.sent + [NoteFor(server, s, calls[n])]
  {
  }

  lemma NoteIsOf(server: Server, s: Session, c: DocCall)
    ensures var note := NoteFor(server, s, c);
            note.uri == c.uri && note.version == NextVersion(s, c.uri) && (note.DidOpen? <==> note.version == 1)
  {
  }

  lemma {:induction false} OneNoteEach(server: Server, calls: seq<DocCall>)
    ensures |DiagnoseAll(server, calls).sent| == |calls|
  {
    if calls != [] {
      OneNoteEach(server, calls[..|calls| - 1]);
    }
  }

  lemma NextVersionCounts(server: Server, calls: seq<DocCall>, uri: string)
    ensures NextVersion(DiagnoseAll(server, calls), uri) == Count(OnDocument(uri), calls) + 1
  {
    VersionsCountCalls(server, calls, uri);
  }

  /** Every call sends one notification about its document: the i-th about a document carries
      version i, and is the one that opens it exactly when i is 1. */
  lemma {:induction false} NoteCarriesItsVersion(server: Server, calls: seq<DocCall>, i: nat)
    requires i < |calls|
    ensures var sent := DiagnoseAll(server, calls).sent;
            |sent| == |calls| && sent[i].uri == calls[i].uri &&
            sent[i].version == Count(OnDocument(calls[i].uri), calls[..i + 1]) &&
            (sent[i].DidOpen? <==> sent[i].version == 1)
  {
    hide *;
    var n := |calls| - 1;
    var before, c := calls[..n], calls[n];
    OneNoteEach(server, before);
    LastNote(server, calls);
    if i < n {
      NoteCarriesItsVersion(server, before, i);
      assert before[..i + 1] == calls[..i + 1];
    } else {
      NoteIsOf(server, DiagnoseAll(server, before), c);
      NextVersionCounts(server, before, c.uri);
      CountTake(OnDocument(c.uri), calls, n);
      OnItself(c);
    }
  }

  lemma OnItself(c: DocCall)
    ensures OnDocument(c.uri)(c)
  {
  }

  ghost predicate Mirrors(s: Session) { Served(s.sent) == s.texts }

  ghost predicate Versioned(s: Session) {
    s.versions.Keys == s.texts.Keys && forall uri :: uri in s.versions ==> s.versions[uri] >= 1
  }

  lemma {:induction false} AlwaysVersioned(server: Server, calls: seq<DocCall>)
    ensures Versioned(DiagnoseAll(server, calls))
  {
    if calls != [] {
      AlwaysVersioned(server, calls[..|calls| - 1]);
    }
  }

  /** One call keeps the mirror exactly when the server is told the whole text, the document is
      new, or the text being replaced is safe to measure. */
  lemma StepMirrorsExactlyWhen(server: Server, s: Session, c: DocCall)
    requires Versioned(s) && Mirrors(s)
    ensures Mirrors(Diagnose(server, s, c)) <==> server.syncFull || c.uri !in s.texts || RangeSafe(s.texts[c.uri])
  {
    var s' := Diagnose(server, s, c);
    assert s'.sent[..|s'.sent| - 1] == s.sent;
    if c.uri in s.texts && !server.syncFull {
      var prior := s.texts[c.uri];
      RangeCoversExactlyWhen(prior);
      var copy := c.text + prior[Offset(prior, EndOf(prior))..];
      assert Served(s'.sent)[c.uri] == copy;
      assert copy == c.text <==> |copy| == |c.text|;
      assert s'.texts[c.uri] == c.text;
    }
  }

  /** The server's copy equals the text on file now, and did after every earlier call. */
  ghost predicate AlwaysMirrors(server: Server, calls: seq<DocCall>) {
    Mirrors(DiagnoseAll(server, calls)) && (calls == [] || AlwaysMirrors(server, calls[..|calls| - 1]))
  }

  ghost predicate SentAgain(calls: seq<DocCall>, i: int) {
    0 <= i < |calls| && exists j :: i < j < |calls| && calls[j].uri == calls[i].uri
  }

  ghost predicate ReplacedAreSafe(calls: seq<DocCall>) {
    forall i :: 0 <= i < |calls| && SentAgain(calls, i) ==> RangeSafe(calls[i].text)
  }

  /** The text on file for a document is that of its last call. */
  lemma {:induction false} TextIsTheLastSent(server: Server, calls: seq<DocCall>, uri: string) returns (k: int)
    requires uri in DiagnoseAll(server, calls).texts
    ensures 0 <= k < |calls| && calls[k].uri == uri && !SentAgain(calls, k)
    ensures DiagnoseAll(server, calls).texts[uri] == calls[k].text
  {
    var n := |calls| - 1;
    if calls[n].uri == uri {
      k := n;
    } else {
      k := TextIsTheLastSent(server, calls[..n], uri);
      forall j | k < j < |calls|
        ensures calls[j].uri != calls[k].uri
      {
        if j < n {
          assert calls[..n][j] == calls[j];
        }
      }
    }
  }

  /** Over any run the server's copy equals the text on file after every call exactly when the
      server syncs whole texts, or every text that was later replaced is safe to measure. */
  lemma {:induction false} MirrorHoldsExactlyWhen(server: Server, calls: seq<DocCall>)
    ensures AlwaysMirrors(server, calls) <==> server.syncFull || ReplacedAreSafe(calls)
  {
    if calls != [] {
      var n := |calls| - 1;
      var before, c := calls[..n], calls[n];
      MirrorHoldsExactlyWhen(server, before);
      AlwaysVersioned(server, before);
      if AlwaysMirrors(server, before) {
        StepMirrorsExactlyWhen(server, DiagnoseAll(server, before), c);
        if !server.syncFull {
          ReplacedSnoc(server, calls);
        }
      } else {
        ReplacedPrefix(calls);
      }
    }
  }

  lemma ReplacedPrefix(calls: seq<DocCall>)
    requires calls != []
    ensures ReplacedAreSafe(calls) ==> ReplacedAreSafe(calls[..|calls| - 1])
  {
    var before := calls[..|calls| - 1];
    forall i | 0 <= i < |before| && SentAgain(before, i)
      ensures SentAgain(calls, i)
    {
      var j :| i < j < |before| && before[j].uri == before[i].uri;
      assert calls[j].uri == calls[i].uri;
    }
  }

  lemma ReplacedSnoc(server: Server, calls: seq<DocCall>)
    requires calls != [] && ReplacedAreSafe(calls[..|calls| - 1])
    ensures var n := |calls| - 1;
            var texts := DiagnoseAll(server, calls[..n]).texts;
            ReplacedAreSafe(calls) <==> calls[n].uri !in texts || RangeSafe(texts[calls[n].uri])
  {
    var n := |calls| - 1;
    var before, uri := calls[..n], calls[n].uri;
    var texts := DiagnoseAll(server, before).texts;
    if uri in texts {
      var k := TextIsTheLastSent(server, before, uri);
      assert SentAgain(calls, k) by {
        assert calls[n].uri == calls[k].uri;
      }
      forall i | 0 <= i < |calls| && SentAgain(calls, i) && i != k
        ensures RangeSafe(calls[i].text)
      {
        StillSentAgain(calls, i, k);
        assert before[i] == calls[i];
      }
    } else {
      forall i | 0 <= i < |calls| && SentAgain(calls, i)
        ensures RangeSafe(calls[i].text)
      {
        var j :| i < j < |calls| && calls[j].uri == calls[i].uri;
        if j == n {
          NeverSent(server, before, uri, i);
        } else {
          assert before[j].uri == before[i].uri;
          assert SentAgain(before, i) && before[i] == calls[i];
        }
      }
    }
  }

  lemma {:induction false} NeverSent(server: Server, calls: seq<DocCall>, uri: string, i: nat)
    requires i < |calls| && calls[i].uri == uri
    ensures uri in DiagnoseAll(server, calls).texts
  {
    var n := |calls| - 1;
    if i < n {
      NeverSent(server, calls[..n], uri, i);
    }
  }

  lemma StillSentAgain(calls: seq<DocCall>, i: int, k: int)
    requires 0 <= i < |calls| && SentAgain(calls, i) && i != k
    requires 0 <= k < |calls| - 1 && calls[k].uri == calls[|calls| - 1].uri && !SentAgain(calls[..|calls| - 1], k)
    ensures SentAgain(calls[..|calls| - 1], i)
  {
    var n := |calls| - 1;
    var before := calls[..n];
    var j :| i < j < |calls| && calls[j].uri == calls[i].uri;
    if j == n {
      assert before[k].uri == before[i].uri;
    } else {
      assert before[j].uri == before[i].uri;
    }
  }

  /** What the i-th call sends: the first about a document opens it with its text, in the server's language
      -- Python or GDScript when it speaks that, else C for a path in ".c" and C++ for any other; a later one
      gives the text again, whole when the server takes it so, else for a range that starts at the
      beginning and ends, in UTF-16 units or not, where the last text sent was counted to end. */
  lemma {:induction false} NoteSays(server: Server, calls: seq<DocCall>, i: nat)
    requires i < |calls|
    ensures var sent, c, language := DiagnoseAll(server, calls).sent, calls[i], server.language;
            i < |sent| &&
            match sent[i]
            case DidOpen(uri, languageId, version, text) =>
              uri == c.uri && text == c.text && version == 1 &&
              languageId == (if language == "python" || language == "gdscript" then language
                             else if c.suffix == ".c" then "c" else "cpp")
            case DidChange(uri, version, change) =>
              uri == c.uri && version > 1 &&
              (change.WholeText? <==> server.syncFull) && change.text == c.text
  {
    hide EndOf, Count;
    var n := |calls| - 1;
    OneNoteEach(server, calls[..n]);
    LastNote(server, calls);
    if i < n {
      NoteSays(server, calls[..n], i);
    }
  }
}
