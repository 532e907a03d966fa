/** What a summary span says of the turns it stands for. */
module Anchors {
  import opened Sequences
  import opened Text
  import opened Lines
  import opened ContextModel
  import opened Compaction

  /** The first line of the text, whole when it has at most `cap` characters, else its first `cap` and
      three dots. */
  ghost predicate Leads(lead: string, text: string, cap: nat) {
    exists n: nat :: EndsFirstLine(text, n) && lead == if n <= cap then text[..n] else text[..cap] + "..."
  }

  predicate EndsFirstLine(text: string, n: nat) {
    n <= |text| && '\n' !in text[..n] && (n < |text| ==> text[n] == '\n')
  }

  /** The call, named: its arguments' own first line when they begin with the tool's name and a
      parenthesis, else the tool, with the first line of its arguments in parentheses if it has any. */
  ghost predicate NamesCall(call: string, t: TurnRecord) {
    if t.toolName + "(" <= t.toolArgsSummary then Leads(call, t.toolArgsSummary, 80)
    else if t.toolArgsSummary == "" then call == t.toolName
    else exists args :: Leads(args, t.toolArgsSummary, 80) && call == t.toolName + "(" + args + ")"
  }

  ghost predicate TellsOfCall(anchor: string, t: TurnRecord) {
    exists call, lead ::
      NamesCall(call, t) && Leads(lead, t.observation, 200) &&
      anchor == "- " + call + (if t.isError then " FAILED: " else " -> ") + lead + "\n"
  }

  /** What stands in a span for one turn. */
  ghost predicate Tells(anchor: string, t: TurnRecord) {
    if t.userText != "" then exists lead :: Leads(lead, t.userText, 400) && anchor == "- you were told: " + lead + "\n"
    else if t.toolName == "" then exists lead :: Leads(lead, t.assistantText, 160) && anchor == "- said: " + lead + "\n"
    else TellsOfCall(anchor, t)
  }

  lemma FirstLineLeads(text: string, cap: nat)
    ensures Leads(FirstLine(text, cap), text, cap)
  {
    var n := match Find(text, "\n") case Some(nl) => nl case None => |text|;
    forall j | 0 <= j < n
      ensures text[j] != '\n'
    {
      assert !At(text, "\n", j);
      assert text[j..j + 1] == [text[j]];
    }
    assert EndsFirstLine(text, n);
    assert n > cap ==> text[..n][..cap] == text[..cap];
  }

  lemma CallIsNamed(t: TurnRecord) returns (call: string)
    ensures NamesCall(call, t)
    ensures call == if NamesItself(t) then FirstLine(t.toolArgsSummary, 80)
                    else t.toolName + (if t.toolArgsSummary == "" then ""
                                       else "(" + FirstLine(t.toolArgsSummary, 80) + ")")
  {
    hide FirstLine, Leads;
    FirstLineLeads(t.toolArgsSummary, 80);
    var args := FirstLine(t.toolArgsSummary, 80);
    call := if NamesItself(t) then args else t.toolName + (if t.toolArgsSummary == "" then "" else "(" + args + ")");
    assert t.toolName + "" == t.toolName;
    assert t.toolName + ("(" + args + ")") == t.toolName + "(" + args + ")";
  }

  lemma AnchorTells(t: TurnRecord)
    ensures Tells(AnchorLine(t), t)
  {
    hide FirstLine, Leads, NamesCall;
    if t.userText != "" {
      FirstLineLeads(t.userText, 400);
    } else if t.toolName == "" {
      FirstLineLeads(t.assistantText, 160);
    } else {
      var call := CallIsNamed(t);
      FirstLineLeads(t.observation, 200);
      var lead := FirstLine(t.observation, 200);
      assert AnchorLine(t) == "- " + call + (if t.isError then " FAILED: " else " -> ") + lead + "\n";
    }
  }

  /** The title counts the turns and gives the first and the last event number, and below it one anchor
      for each turn, in order, tells of it. */
  ghost predicate Summarizes(span: string, anchors: seq<string>, dropped: seq<TurnRecord>) {
    && |anchors| == |dropped| > 0
    && span == "Earlier in this run (turns 1-" + Decimal(|dropped|) + ", events " + Decimal(dropped[0].firstEventSeq) +
               "-" + Decimal(dropped[|dropped| - 1].lastEventSeq) + "):\n" + Flatten(anchors)
    && forall i :: 0 <= i < |dropped| ==> Tells(anchors[i], dropped[i])
  }

  lemma {:induction false} FlattenAnchors(dropped: seq<TurnRecord>)
    ensures Flatten(Map(AnchorLine, dropped)) == FlatMap(AnchorLine, dropped)
  {
    if dropped == [] {
      assert Map(AnchorLine, dropped) == [];
    } else {
      hide AnchorLine;
      var n := |dropped| - 1;
      FlattenAnchors(dropped[..n]);
      assert Map(AnchorLine, dropped)[..n] == Map(AnchorLine, dropped[..n]);
    }
  }

  lemma SpanSummarizes(dropped: seq<TurnRecord>) returns (anchors: seq<string>)
    requires dropped != []
    ensures Summarizes(Span(dropped), anchors, dropped)
  {
    hide AnchorLine, Decimal, Tells;
    anchors := Map(AnchorLine, dropped);
    FlattenAnchors(dropped);
    forall i | 0 <= i < |dropped|
      ensures Tells(anchors[i], dropped[i])
    {
      AnchorTells(dropped[i]);
    }
    TitleEnds(Decimal(|dropped|), Decimal(dropped[0].firstEventSeq), Decimal(dropped[|dropped| - 1].lastEventSeq));
  }

  lemma TitleEnds(n: string, first: string, last: string)
    ensures "Earlier in this run (turns 1-" + n + ", events " + first + "-" + last + "):" + "\n" ==
            "Earlier in this run (turns 1-" + n + ", events " + first + "-" + last + "):\n"
  {
    Associative("Earlier in this run (turns 1-" + n + ", events " + first + "-" + last, "):", "\n");
    assert "):" + "\n" == "):\n";
  }

  /** A trim leaves the newest `keep` turns as they were. The others become one span after those there
      were, which summarizes them; the sink is handed those turns, that span and its place. With no
      more than `keep` turns nothing happens. */
  lemma TrimSays(s: Store, keep: nat, countAsEvent: bool) returns (anchors: seq<string>)
    ensures var s', drop := CompactOldest(s, keep, countAsEvent), |s.recent| - keep;
            if drop <= 0 then s' == s
            else
              s'.recent == s.recent[drop..] && |s'.spans| == |s.spans| + 1 && s.spans <= s'.spans &&
              Summarizes(s'.spans[|s.spans|], anchors, s.recent[..drop]) &&
              s'.compactions == s.compactions + (if countAsEvent then 1 else 0) &&
              (s.compactionSink.Installed? ==>
                 s'.compactionSink ==
                   Installed(s.compactionSink.calls + [SinkCall(s.recent[..drop], |s.spans|, s'.spans[|s.spans|])])) &&
              (s.compactionSink.Unset? ==> s'.compactionSink.Unset?)
  {
    hide Span, Summarizes;
    anchors := [];
    if |s.recent| > keep {
      anchors := SpanSummarizes(s.recent[..|s.recent| - keep]);
    }
  }

  // --- Line by line --------------------------------------------------------------------------------

  /** The anchor is one line: its tool's name, when it is spelled out, holds no newline. */
  predicate OneLine(t: TurnRecord) { ShowsName(t) ==> '\n' !in t.toolName }

  function Body(t: TurnRecord): string { if AnchorLine(t) == "" then "" else AnchorLine(t)[..|AnchorLine(t)| - 1] }

  lemma AnchorIsOneLine(t: TurnRecord)
    requires OneLine(t)
    ensures AnchorLine(t) == Body(t) + "\n" && '\n' !in Body(t)
  {
    AnchorLineShape(t);
    NoNewlines(t.toolName);
    AnchorEnds(t);
    Constants();
    NewlinesAppend(Body(t), "\n");
    NoNewlines(Body(t));
  }

  lemma AnchorEnds(t: TurnRecord)
    ensures AnchorLine(t) != "" && AnchorLine(t) == Body(t) + "\n"
  {
    hide FirstLine;
  }

  lemma {:induction false} AnchorsSplit(header: string, ts: seq<TurnRecord>)
    requires Partial(header) == "" && forall t :: t in ts ==> OneLine(t)
    ensures Split(header + FlatMap(AnchorLine, ts)) == Complete(header) + Map(Body, ts) + [""]
  {
    hide Split, AnchorLine, OneLine, Body;
    if ts == [] {
      assert header + "" == header && Map(Body, ts) == [] && Complete(header) + [] == Complete(header);
      Unsnoc(Split(header));
    } else {
      var n := |ts| - 1;
      var before := header + FlatMap(AnchorLine, ts[..n]);
      AnchorsSplit(header, ts[..n]);
      assert ts[n] in ts;
      AnchorIsOneLine(ts[n]);
      Associative(header, FlatMap(AnchorLine, ts[..n]), AnchorLine(ts[n]));
      EndedLine(before, Body(ts[n]), Complete(header) + Map(Body, ts[..n]));
      assert Map(Body, ts) == Map(Body, ts[..n]) + [Body(ts[n])];
    }
  }

  /** And so, when no tool name that is spelled out holds a newline, a span is its title and a line for
      each turn, and the i-th line below the title tells of the i-th turn. */
  lemma LinesTell(dropped: seq<TurnRecord>, i: nat)
    requires i < |dropped| && forall t :: t in dropped ==> OneLine(t)
    ensures |Split(Span(dropped))| == |dropped| + 2 && Tells(Split(Span(dropped))[i + 1] + "\n", dropped[i])
  {
    hide AnchorLine, Split, Tells, OneLine, Body, SpanTitle;
    TitleIsOneLine(dropped);
    var title := SpanTitle(dropped);
    NoNewlineOnePiece(title);
    SplitEnded(title, "");
    assert [title] + [""] == [title, ""];
    AnchorsSplit(title + "\n", dropped);
    assert dropped[i] in dropped;
    AnchorIsOneLine(dropped[i]);
    AnchorTells(dropped[i]);
  }
}
