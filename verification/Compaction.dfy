/** Trimming: one big trim and many small ones keep the same evidence, and a span stays one
    bounded line per turn however large the observations it stands for. */
module Compaction {
  import opened Sequences
  import opened Text
  import opened ContextModel
  import opened ContextLaws

  // --- Trims compose --------------------------------------------------------------------

  /** What a span says below its title. */
  function SpanBody(span: string): string {
    match Find(span, "\n")
    case Some(nl) => span[nl + 1..]
    case None => ""
  }

  function AnchorText(s: Store): string { FlatMap(SpanBody, s.spans) }

  lemma FirstNewline(line: string, rest: string)
    requires '\n' !in line
    ensures Find(line + "\n" + rest, "\n") == Some(|line|)
  {
    var s := line + "\n" + rest;
    assert s[|line|..|line| + 1] == "\n";
    forall j | 0 <= j < |line|
      ensures !At(s, "\n", j)
    {
      assert s[j..j + 1][0] == line[j];
    }
    FindIs(s, "\n", |line|);
  }

  lemma SpanBodyIsAnchors(dropped: seq<TurnRecord>)
    requires dropped != []
    ensures SpanBody(Span(dropped)) == FlatMap(AnchorLine, dropped)
  {
    var title, anchors := SpanTitle(dropped), FlatMap(AnchorLine, dropped);
    TitleIsOneLine(dropped);
    FirstNewline(title, anchors);
    assert (title + "\n" + anchors)[|title| + 1..] == anchors;
  }

  lemma TitleIsOneLine(dropped: seq<TurnRecord>)
    requires dropped != []
    ensures '\n' !in SpanTitle(dropped)
  {
    var a, b, c := Decimal(|dropped|), Decimal(dropped[0].firstEventSeq), Decimal(dropped[|dropped| - 1].lastEventSeq);
    assert '\n' !in a && '\n' !in b && '\n' !in c;
    assert '\n' !in "Earlier in this run (turns 1-" && '\n' !in ", events ";
  }

  /** Two stores a later prompt or query cannot tell apart by what trims kept of the past. */
  ghost predicate SameEvidence(a: Store, b: Store) {
    && a.compactionSink.Installed? && b.compactionSink.Installed?
    && Dropped(a) == Dropped(b)
    && AnchorText(a) == AnchorText(b)
    && a == b.(spans := a.spans, compactionSink := a.compactionSink)
  }

  lemma Reflexive(s: Store)
    requires s.compactionSink.Installed?
    ensures SameEvidence(s, s)
  {
  }

  /** One trim sinks and anchors exactly the turns it drops. */
  lemma FoldKeepsEvidence(s: Store, drop: nat, span: string)
    requires s.compactionSink.Installed? && 0 < drop <= |s.recent|
    requires SpanBody(span) == FlatMap(AnchorLine, s.recent[..drop])
    ensures var s' := Fold(s, drop, span, false);
            s'.compactionSink.Installed? && s'.recent == s.recent[drop..] &&
            Dropped(s') == Dropped(s) + s.recent[..drop] &&
            AnchorText(s') == AnchorText(s) + FlatMap(AnchorLine, s.recent[..drop])
  {
    FoldMoves(s, drop, span, false);
    FlatMapAppend(SpanBody, s.spans, [span]);
    FlatMapOne(SpanBody, span);
  }

  lemma TwoTakes<T>(xs: seq<T>, m: nat, n: nat)
    requires m + n <= |xs|
    ensures xs[..m] + xs[m..][..n] == xs[..m + n] && xs[m..][n..] == xs[m + n..]
  {
  }

  lemma FoldsLeaveTheSame(s: Store, m: nat, n: nat, x: string, y: string, z: string)
    requires m + n <= |s.recent|
    ensures var a, b := Fold(Fold(s, m, x, false), n, y, false), Fold(s, m + n, z, false);
            a == b.(spans := a.spans, compactionSink := a.compactionSink)
  {
    TwoTakes(s.recent, m, n);
  }

  lemma FoldsKeepTheSame(s: Store, m: nat, n: nat, x: string, y: string, z: string)
    requires s.compactionSink.Installed? && 0 < m && 0 < n && m + n <= |s.recent|
    requires SpanBody(x) == FlatMap(AnchorLine, s.recent[..m])
    requires SpanBody(y) == FlatMap(AnchorLine, s.recent[m..][..n])
    requires SpanBody(z) == FlatMap(AnchorLine, s.recent[..m + n])
    ensures var a, b := Fold(Fold(s, m, x, false), n, y, false), Fold(s, m + n, z, false);
            Dropped(a) == Dropped(b) && AnchorText(a) == AnchorText(b)
  {
    hide Fold, FlatMap, SpanBody, Dropped, AnchorText;
    var d, e := s.recent[..m], s.recent[m..][..n];
    TwoTakes(s.recent, m, n);
    FoldKeepsEvidence(s, m, x);
    FoldKeepsEvidence(Fold(s, m, x, false), n, y);
    FoldKeepsEvidence(s, m + n, z);
    Associative(Dropped(s), d, e);
    FlatMapAppend(AnchorLine, d, e);
    Associative(AnchorText(s), FlatMap(AnchorLine, d), FlatMap(AnchorLine, e));
  }

  lemma FoldsCompose(s: Store, m: nat, n: nat)
    requires s.compactionSink.Installed? && 0 < m && 0 < n && m + n <= |s.recent|
    ensures var t := Fold(s, m, Span(s.recent[..m]), false);
            SameEvidence(Fold(t, n, Span(t.recent[..n]), false), Fold(s, m + n, Span(s.recent[..m + n]), false))
  {
    SpanBodyIsAnchors(s.recent[..m]);
    SpanBodyIsAnchors(s.recent[m..][..n]);
    SpanBodyIsAnchors(s.recent[..m + n]);
    var x, y, z := Span(s.recent[..m]), Span(s.recent[m..][..n]), Span(s.recent[..m + n]);
    FoldsKeepTheSame(s, m, n, x, y, z);
    FoldsLeaveTheSame(s, m, n, x, y, z);
  }

  /** Trimming to m and then to k keeps what one trim to k keeps. */
  lemma TrimsCompose(s: Store, m: nat, k: nat)
    requires s.compactionSink.Installed? && k <= m
    ensures SameEvidence(CompactOldest(CompactOldest(s, m, false), k, false), CompactOldest(s, k, false))
  {
    hide SameEvidence, Span;
    Reflexive(CompactOldest(s, k, false));
    if k < m < |s.recent| {
      FoldsCompose(s, |s.recent| - m, m - k);
    }
  }

  /** The budget loop: drop one turn, measure, drop the next. */
  function TrimOneByOne(s: Store, k: nat): Store
    decreases |s.recent|
  {
    if |s.recent| <= k then s else TrimOneByOne(CompactOldest(s, |s.recent| - 1, false), k)
  }

  lemma {:induction false} OneByOneIsOneTrim(s: Store, k: nat)
    requires s.compactionSink.Installed?
    ensures SameEvidence(TrimOneByOne(s, k), CompactOldest(s, k, false))
    decreases |s.recent|
  {
    if |s.recent| > k {
      var m := |s.recent| - 1;
      OneByOneIsOneTrim(CompactOldest(s, m, false), k);
      TrimsCompose(s, m, k);
    }
  }

  // --- The shape of a span ---------------------------------------------------------------

  lemma FirstLineShape(text: string, cap: nat)
    ensures Newlines(FirstLine(text, cap)) == 0 && |FirstLine(text, cap)| <= cap + 3
    ensures |FirstLine(text, cap)| <= cap ==> FirstLine(text, cap) <= text
  {
    var line := match Find(text, "\n") case Some(nl) => text[..nl] case None => text;
    forall j | 0 <= j < |line|
      ensures line[j] != '\n'
    {
      assert !At(text, "\n", j);
      assert text[j..j + 1] == [text[j]];
    }
    NoNewlines(FirstLine(text, cap));
  }

  /** Whether a turn's anchor line spells its tool name out. */
  predicate ShowsName(t: TurnRecord) { t.userText == "" && t.toolName != "" && !NamesItself(t) }

  function ExtraLines(t: TurnRecord): nat { if ShowsName(t) then Newlines(t.toolName) else 0 }

  lemma NewlinesOf4(a: string, b: string, c: string, d: string)
    ensures Newlines(a + b + c + d) == Newlines(a) + Newlines(b) + Newlines(c) + Newlines(d)
  {
    NewlinesAppend(a, b);
    NewlinesAppend(a + b, c);
    NewlinesAppend(a + b + c, d);
  }

  lemma Constants()
    ensures Newlines("- you were told: ") == Newlines("- said: ") == Newlines("- ") == 0
    ensures Newlines("(") == Newlines(")") == Newlines("") == 0
    ensures Newlines(" FAILED: ") == Newlines(" -> ") == 0 && Newlines("\n") == 1
  {
    NoNewlines("- you were told: ");
    NoNewlines("- said: ");
    NoNewlines("- ");
    NoNewlines("(");
    NoNewlines(")");
    NoNewlines(" FAILED: ");
    NoNewlines(" -> ");
    assert "\n"[..0] == "";
  }

  lemma TextLineShape(lead: string, text: string, cap: nat)
    requires Newlines(lead) == 0
    ensures Newlines(lead + FirstLine(text, cap) + "\n") == 1
    ensures |lead + FirstLine(text, cap) + "\n"| <= |lead| + cap + 4
  {
    Constants();
    FirstLineShape(text, cap);
    NewlinesAppend(lead, FirstLine(text, cap));
    NewlinesAppend(lead + FirstLine(text, cap), "\n");
  }

  lemma ToolLineShape(call: string, arrow: string, observation: string)
    requires Newlines(arrow) == 0 && |arrow| <= 9
    ensures var line := "- " + call + arrow + FirstLine(observation, 200) + "\n";
            Newlines(line) == 1 + Newlines(call) && |line| <= |call| + 215
  {
    Constants();
    FirstLineShape(observation, 200);
    NewlinesOf4("- ", call, arrow, FirstLine(observation, 200));
    NewlinesAppend("- " + call + arrow + FirstLine(observation, 200), "\n");
  }

  lemma AnchorLineShape(t: TurnRecord)
    ensures Newlines(AnchorLine(t)) == 1 + ExtraLines(t)
    ensures |AnchorLine(t)| <= if ShowsName(t) then 300 + |t.toolName| else 421
  {
    Constants();
    if t.userText != "" {
      TextLineShape("- you were told: ", t.userText, 400);
    } else if t.toolName == "" {
      TextLineShape("- said: ", t.assistantText, 160);
    } else {
      CallPartShape(t);
      ToolLineShape(CallPart(t), if t.isError then " FAILED: " else " -> ", t.observation);
    }
  }

  function CallPart(t: TurnRecord): string {
    if NamesItself(t) then FirstLine(t.toolArgsSummary, 80)
    else t.toolName + (if t.toolArgsSummary == "" then "" else "(" + FirstLine(t.toolArgsSummary, 80) + ")")
  }

  lemma CallPartShape(t: TurnRecord)
    ensures Newlines(CallPart(t)) == if NamesItself(t) then 0 else Newlines(t.toolName)
    ensures |CallPart(t)| <= if NamesItself(t) then 83 else 85 + |t.toolName|
  {
    var args := FirstLine(t.toolArgsSummary, 80);
    FirstLineShape(t.toolArgsSummary, 80);
    Constants();
    NewlinesAppend("(", args);
    NewlinesAppend("(" + args, ")");
    NewlinesAppend(t.toolName, if t.toolArgsSummary == "" then "" else "(" + args + ")");
  }

  function Sum(f: TurnRecord -> nat, ts: seq<TurnRecord>): (n: nat)
    ensures n == 0 <==> forall t :: t in ts ==> f(t) == 0
  {
    if ts == [] then 0
    else
      assert ts == ts[..|ts| - 1] + [ts[|ts| - 1]];
      Sum(f, ts[..|ts| - 1]) + f(ts[|ts| - 1])
  }

  lemma {:induction false} AnchorsShape(ts: seq<TurnRecord>)
    ensures Newlines(FlatMap(AnchorLine, ts)) == |ts| + Sum(ExtraLines, ts)
  {
    if ts != [] {
      var n := |ts| - 1;
      AnchorsShape(ts[..n]);
      AnchorLineShape(ts[n]);
      NewlinesAppend(FlatMap(AnchorLine, ts[..n]), AnchorLine(ts[n]));
    }
  }

  /** A span is its title and one line per dropped turn exactly when no tool name it spells
      out holds a newline; each such newline adds one line. */
  lemma SpanIsOneLinePerTurn(dropped: seq<TurnRecord>)
    requires dropped != []
    ensures Newlines(Span(dropped)) == |dropped| + 1 + Sum(ExtraLines, dropped)
    ensures Newlines(Span(dropped)) == |dropped| + 1 <==>
            forall t :: t in dropped && ShowsName(t) ==> '\n' !in t.toolName
  {
    TitleIsOneLine(dropped);
    NoNewlines(SpanTitle(dropped));
    NewlinesAppend(SpanTitle(dropped), "\n");
    Constants();
    NewlinesAppend(SpanHeader(dropped), FlatMap(AnchorLine, dropped));
    AnchorsShape(dropped);
    forall t | t in dropped
      ensures ExtraLines(t) == 0 <==> (ShowsName(t) ==> '\n' !in t.toolName)
    {
      NoNewlines(t.toolName);
    }
  }

  function NameLength(t: TurnRecord): nat { |t.toolName| }

  lemma {:induction false} AnchorsAreBounded(dropped: seq<TurnRecord>)
    ensures |FlatMap(AnchorLine, dropped)| <= 421 * |dropped| + Sum(NameLength, dropped)
  {
    if dropped != [] {
      hide AnchorLine, ShowsName;
      var n := |dropped| - 1;
      AnchorsAreBounded(dropped[..n]);
      AnchorLineShape(dropped[n]);
      AnchorBound(dropped[n]);
    }
  }

  lemma AnchorBound(t: TurnRecord)
    ensures |AnchorLine(t)| <= 421 + NameLength(t)
  {
    hide AnchorLine;
    AnchorLineShape(t);
  }

  /** How many characters the numbers in a span's title take. */
  function TitleDigits(dropped: seq<TurnRecord>): nat
    requires dropped != []
  {
    |Decimal(|dropped|)| + |Decimal(dropped[0].firstEventSeq)| + |Decimal(dropped[|dropped| - 1].lastEventSeq)|
  }

  lemma HeaderLength(dropped: seq<TurnRecord>)
    requires dropped != []
    ensures |SpanHeader(dropped)| == 42 + TitleDigits(dropped)
  {
    hide Decimal;
    assert |"Earlier in this run (turns 1-"| == 29 && |", events "| == 9;
  }

  /** A span's length is bounded by its turn count, its tool names and the digits of the event
      numbers in its title, whatever was observed. */
  lemma SpanIsBounded(dropped: seq<TurnRecord>)
    requires dropped != []
    ensures |Span(dropped)| <= 421 * |dropped| + Sum(NameLength, dropped) + 42 + TitleDigits(dropped)
  {
    hide SpanHeader, FlatMap, TitleDigits;
    AnchorsAreBounded(dropped);
    HeaderLength(dropped);
  }
}
