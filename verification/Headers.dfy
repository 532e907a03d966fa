/** What the frame decoder reads off a header, and what it does with it. */
module Headers {
  import opened Sequences
  import opened Text
  import opened Frames

  // --- The length ---------------------------------------------------------------------------------

  /** The line is a Content-Length line, however its letters are cased. */
  predicate NamesLength(line: string) {
    var key := "content-length:";
    |line| >= |key| &&
    forall j :: 0 <= j < |key| ==> line[j] == key[j] || ('a' <= key[j] <= 'z' && line[j] == key[j] - ' ')
  }

  lemma NamesLengthIs(line: string)
    ensures IsLengthLine(line) <==> NamesLength(line)
  {
    if |line| >= 15 {
      assert IsLengthLine(line) <==> Map(Lower, line)[..15] == LENGTH_KEY;
      assert forall j :: 0 <= j < 15 ==> Map(Lower, line)[..15][j] == Lower(line[j]);
    }
  }

  ghost predicate LastNamed(lines: seq<string>, k: int) {
    0 <= k < |lines| && NamesLength(lines[k]) && forall j :: k < j < |lines| ==> !NamesLength(lines[j])
  }

  /** The value a Content-Length line gives, or none where it is not a number. */
  function Given(line: string): Option<int>
    requires NamesLength(line)
  {
    ParseInt(line[15..])
  }

  ghost predicate SomeBad(lines: seq<string>) {
    exists i :: 0 <= i < |lines| && NamesLength(lines[i]) && Given(lines[i]).None?
  }

  lemma SomeBadSnoc(before: seq<string>, line: string)
    ensures SomeBad(before + [line]) <==> SomeBad(before) || (NamesLength(line) && Given(line).None?)
  {
    hide NamesLength, Given;
    var lines := before + [line];
    assert lines[|before|] == line && forall i :: 0 <= i < |before| ==> lines[i] == before[i];
  }

  lemma LastNamedSnoc(before: seq<string>, line: string)
    ensures NamesLength(line) ==> forall k :: LastNamed(before + [line], k) ==> k == |before|
    ensures !NamesLength(line) ==> forall k :: LastNamed(before + [line], k) <==> LastNamed(before, k)
    ensures (forall i :: 0 <= i < |before| + 1 ==> !NamesLength((before + [line])[i])) <==>
            !NamesLength(line) && forall i :: 0 <= i < |before| ==> !NamesLength(before[i])
  {
    hide NamesLength;
    var lines := before + [line];
    assert lines[|before|] == line && forall i :: 0 <= i < |before| ==> lines[i] == before[i];
  }

  /** There is no length without such a line; a number that cannot be read anywhere spoils the header;
      and else the last such line counts. */
  lemma {:induction false} LastLengthCounts(lines: seq<string>)
    ensures LengthIn(lines) == NoLength <==> forall i :: 0 <= i < |lines| ==> !NamesLength(lines[i])
    ensures LengthIn(lines) == BadNumber <==> SomeBad(lines)
    ensures LengthIn(lines) != BadNumber ==>
              forall k :: LastNamed(lines, k) ==>
                Given(lines[k]).Some? && LengthIn(lines) == Bytes(Given(lines[k]).value)
  {
    if lines != [] {
      hide LengthIn, NamesLength, Given, LastNamed, SomeBad;
      var n := |lines| - 1;
      var before, line := lines[..n], lines[n];
      LastLengthCounts(before);
      LengthSnoc(lines);
      Unsnoc(lines);
      SomeBadSnoc(before, line);
      LastNamedSnoc(before, line);
      LastIsThere(before);
    }
  }

  lemma LastIsThere(lines: seq<string>)
    ensures forall k :: LastNamed(lines, k) ==> 0 <= k < |lines| && NamesLength(lines[k])
  {
  }

  lemma LengthSnoc(lines: seq<string>)
    requires lines != []
    ensures var before, line := LengthIn(lines[..|lines| - 1]), lines[|lines| - 1];
            LengthIn(lines) == if before.BadNumber? || !NamesLength(line) then before
                               else match Given(line)
                                 case Some(n) => Bytes(n)
                                 case None => BadNumber
  {
    hide NamesLength, IsLengthLine, ParseInt;
    NamesLengthIs(lines[|lines| - 1]);
    KeyLength();
  }

  lemma KeyLength()
    ensures |LENGTH_KEY| == 15
  {
  }

  /** A number is read with blanks around it and a sign before it. */
  lemma SignedNumberIsRead(before: string, n: nat, after: string)
    requires forall c :: c in before + after ==> IsSpace(c)
    ensures ParseInt(before + Decimal(n) + after) == Some(n)
    ensures ParseInt(before + ("+" + Decimal(n)) + after) == Some(n)
    ensures ParseInt(before + ("-" + Decimal(n)) + after) == Some(0 - n as int)
  {
    hide Decimal, ParseDigits;
    var digits := Decimal(n);
    DecimalParses(n);
    assert IsDigit(digits[0]) && IsDigit(digits[|digits| - 1]);
    assert forall c :: c in before ==> c in before + after;
    assert forall c :: c in after ==> c in before + after;
    TrimBoth(before, digits, after);
    TrimBoth(before, "+" + digits, after);
    TrimBoth(before, "-" + digits, after);
    assert ("-" + digits)[1..] == digits && ("+" + digits)[1..] == digits;
  }

  lemma TrimBoth(before: string, text: string, after: string)
    requires forall c :: c in before ==> IsSpace(c)
    requires forall c :: c in after ==> IsSpace(c)
    requires text != "" && !IsSpace(text[0]) && !IsSpace(text[|text| - 1])
    ensures Trim(IsSpace, before + text + after) == text
  {
    Associative(before, text, after);
    TrimLeftBlanks(before, text + after);
    assert (text + after)[0] == text[0];
    TrimRightBlanks(text, after);
  }

  lemma {:induction false} TrimLeftBlanks(before: string, text: string)
    requires forall c :: c in before ==> IsSpace(c)
    ensures TrimLeft(IsSpace, before + text) == TrimLeft(IsSpace, text)
  {
    if before == "" {
      assert before + text == text;
    } else {
      assert (before + text)[1..] == before[1..] + text;
      assert before == [before[0]] + before[1..];
      TrimLeftBlanks(before[1..], text);
    }
  }

  lemma {:induction false} TrimRightBlanks(text: string, after: string)
    requires forall c :: c in after ==> IsSpace(c)
    requires text != "" && !IsSpace(text[|text| - 1])
    ensures TrimRight(IsSpace, text + after) == text
  {
    if after == "" {
      assert text + after == text;
    } else {
      var n := |after| - 1;
      assert (text + after)[..|text + after| - 1] == text + after[..n];
      assert after[n] in after && (text + after)[|text + after| - 1] == after[n];
      TrimRightBlanks(text, after[..n]);
    }
  }

  /** A text without a digit is no number. */
  lemma NoDigitsNoNumber(text: string)
    requires forall c :: c in text ==> !IsDigit(c)
    ensures ParseInt(text) == None
  {
    var t := Trim(IsSpace, text);
    TrimIsPart(text);
    assert forall c :: c in t ==> c in text;
    if t != "" {
      assert forall c :: c in t[1..] ==> c in t;
      NoDigits(t[1..]);
    }
    NoDigits(t);
  }

  lemma NoDigits(t: string)
    requires forall c :: c in t ==> !IsDigit(c)
    ensures ParseDigits(t) == None
  {
  }

  lemma TrimIsPart(text: string)
    ensures forall c :: c in Trim(IsSpace, text) ==> c in text
  {
    LeftIsPart(text);
    RightIsPart(TrimLeft(IsSpace, text));
  }

  lemma {:induction false} LeftIsPart(text: string)
    ensures forall c :: c in TrimLeft(IsSpace, text) ==> c in text
  {
    if text != "" {
      LeftIsPart(text[1..]);
    }
  }

  lemma {:induction false} RightIsPart(text: string)
    ensures forall c :: c in TrimRight(IsSpace, text) ==> c in text
  {
    if text != "" {
      RightIsPart(text[..|text| - 1]);
    }
  }

  // --- One turn of the loop ------------------------------------------------------------------------

  ghost predicate FirstAt(buf: string, mark: string, k: nat) {
    k <= |buf| && mark <= buf[k..] && forall j :: 0 <= j < k ==> !(mark <= buf[j..])
  }

  lemma AtIsPrefix(buf: string, mark: string, j: nat)
    requires j <= |buf|
    ensures At(buf, mark, j) <==> mark <= buf[j..]
  {
    if j + |mark| <= |buf| {
      assert buf[j..][..|mark|] == buf[j..j + |mark|];
    }
  }

  lemma FindIsFirst(buf: string, mark: string, k: nat)
    requires FirstAt(buf, mark, k)
    ensures Find(buf, mark) == Some(k)
  {
    AtIsPrefix(buf, mark, k);
    forall j | 0 <= j < k
      ensures !At(buf, mark, j)
    {
      AtIsPrefix(buf, mark, j);
    }
    FindIs(buf, mark, k);
  }

  ghost predicate Lacks(buf: string, mark: string) { forall j :: 0 <= j <= |buf| ==> !(mark <= buf[j..]) }

  lemma NotFound(buf: string, mark: string)
    requires Lacks(buf, mark)
    ensures Find(buf, mark) == None
  {
    forall j | 0 <= j <= |buf|
      ensures !At(buf, mark, j)
    {
      AtIsPrefix(buf, mark, j);
    }
    FindAbsent(buf, mark);
  }

  /** What is done with the header up to k and what follows its blank line. */
  predicate Does(step: Step, buf: string, k: nat, blank: nat)
    requires k + blank <= |buf|
  {
    match LengthIn(SplitLines(buf[..k]))
    case NoLength => step == Skip(buf[k + blank..])
    case BadNumber => step == Raise
    case Bytes(n) =>
      if n < 0 then true
      else if |buf| < k + blank + n then step == Wait
      else step == Frame(buf[k + blank..k + blank + n], buf[k + blank + n..])
  }

  lemma StepAt(buf: string, k: nat, blank: nat)
    requires FindSeparator(buf) == Some(Separator(k, blank))
    ensures k + blank <= |buf| && Does(DrainStep(buf), buf, k, blank)
  {
    hide LengthIn, SplitLines, FindSeparator;
  }

  /** The header ends at the first blank line of the four-character kind, or without one at the first of
      the two-character kind, and without either the decoder waits. A header without a length is
      skipped, one with a length that is no number ends the reader, and else the body is the so many
      characters that follow, once they are there. */
  lemma StepSays(buf: string, k: nat)
    ensures FirstAt(buf, "\r\n\r\n", k) ==> k + 4 <= |buf| && Does(DrainStep(buf), buf, k, 4)
    ensures Lacks(buf, "\r\n\r\n") && FirstAt(buf, "\n\n", k) ==> k + 2 <= |buf| && Does(DrainStep(buf), buf, k, 2)
    ensures Lacks(buf, "\r\n\r\n") && Lacks(buf, "\n\n") ==> DrainStep(buf) == Wait
  {
    hide DrainStep, Find, Does, FirstAt, Lacks;
    if FirstAt(buf, "\r\n\r\n", k) {
      FindIsFirst(buf, "\r\n\r\n", k);
      StepAt(buf, k, 4);
    }
    if Lacks(buf, "\r\n\r\n") {
      NotFound(buf, "\r\n\r\n");
      if FirstAt(buf, "\n\n", k) {
        FindIsFirst(buf, "\n\n", k);
        StepAt(buf, k, 2);
      }
      if Lacks(buf, "\n\n") {
        NotFound(buf, "\n\n");
        NoSeparatorWaits(buf);
      }
    }
  }

  lemma NoSeparatorWaits(buf: string)
    requires FindSeparator(buf).None?
    ensures DrainStep(buf) == Wait
  {
  }

  // --- The header written ----------------------------------------------------------------------------

  /** A frame is sent as its length under its name, a blank line, and its body. */
  lemma SentAs(body: string)
    ensures Wire(SendFrame(body)) == "Content-Length: " + Decimal(|body|) + "\r\n\r\n" + body
  {
    hide Decimal;
  }
}
