/** Parts of a journal line. A reader that starts or stops in the middle of a line sees only part
    of it -- and no proper part of a line, from either end, reads as a line. */
module Torn {
  import opened Sequences
  import opened Text
  import opened Json
  import opened Feed
  import opened Journal
  import Tail

  // --- What a line is made of ---------------------------------------------------------------

  /** A key the journal might write: of small letters and underscores. */
  predicate Plain(key: string) { key != "" && forall c :: c in key ==> 'a' <= c <= 'z' || c == '_' }

  /** Members as the journal writes them: plain keys, and a number last. */
  predicate Written(ms: seq<Member>) {
    ms != [] && ms[|ms| - 1].value.Num? && forall i :: 0 <= i < |ms| ==> Plain(ms[i].key)
  }

  lemma DeltaKeysArePlain()
    ensures Plain("kind") && Plain("channel") && Plain("text") && Plain("seq")
  {
  }

  lemma ToolKeysArePlain()
    ensures Plain("tool") && Plain("path") && Plain("command") && Plain("status") && Plain("summary")
  {
  }

  lemma CountKeysArePlain()
    ensures Plain("read_bytes") && Plain("edit_bytes")
    ensures Plain("think_tokens") && Plain("text_tokens") && Plain("tool_tokens")
  {
  }

  lemma LinesAreWritten(line: Line)
    ensures Written(ToObject(line))
  {
    hide Plain;
    DeltaKeysArePlain();
    ToolKeysArePlain();
    CountKeysArePlain();
  }

  lemma PlainEscape(key: string)
    requires Plain(key)
    ensures '{' !in key && EscapeChar(key[0]) == [key[0]] && key[0] != ':'
  {
    assert key[0] in key;
  }

  // --- From the middle to the end --------------------------------------------------------------

  /** What follows an opening brace inside a line: a character that cannot start a key, or the end
      of the text the brace is in, and then another key. */
  predicate NoObject(after: string) {
    |after| >= 2 &&
    (after[0] != '"' || (|after| >= 5 && after[..4] == "\", \"" && after[4] != ':'))
  }

  /** Nowhere in the text does an object start that could be read. */
  ghost predicate Inert(s: string) {
    forall j :: 0 <= j < |s| && s[j] == '{' ==> NoObject(s[j + 1..])
  }

  lemma NoObjectDoesNotParse(after: string)
    requires NoObject(after)
    ensures ParseMembers(after) == None && after != "}"
  {
    hide ParseMembers;
    if after[0] != '"' {
      NoKeyNoMember(after);
    } else {
      var rest := after[1..];
      assert after[..4][1] == ',' && after[..4][2] == ' ' && after[..4][3] == '"';
      CommaIsAKey(rest);
      assert rest[3..][0] == after[4];
      NoMember(after, ", ", rest[3..]);
    }
  }

  /** The text between two values, read as a text. */
  lemma CommaIsAKey(s: string)
    requires |s| >= 3 && s[0] == ',' && s[1] == ' ' && s[2] == '"'
    ensures ParseChars(s) == Some(Parsed(", ", s[3..]))
  {
    var two, one := s[2..], s[1..];
    assert one[1..] == two && two[1..] == s[3..];
    assert ParseChars(two) == Some(Parsed("", s[3..]));
    assert ParseChar(one) == Some(Parsed(' ', two));
    assert ParseChars(one) == Some(Parsed(" " + "", s[3..]));
    assert ParseChar(s) == Some(Parsed(',', one));
    assert [','] + (" " + "") == ", ";
  }

  lemma NoKeyNoMember(s: string)
    requires s != "" && s[0] != '"'
    ensures ParseMembers(s) == None
  {
  }

  lemma NoMember(s: string, key: string, rest: string)
    requires ParseQuoted(s) == Some(Parsed(key, rest)) && rest != "" && rest[0] != ':'
    ensures ParseMembers(s) == None
  {
    if |rest| >= 2 {
      assert rest[..2][0] == rest[0];
    }
  }

  lemma InertPrepend(a: string, b: string)
    requires '{' !in a && Inert(b)
    ensures Inert(a + b)
  {
    forall j | 0 <= j < |a|
      ensures (a + b)[j] != '{'
    {
      assert a[j] in a && (a + b)[j] == a[j];
    }
    forall j | |a| <= j < |a + b| && (a + b)[j] == '{'
      ensures NoObject((a + b)[j + 1..])
    {
      assert (a + b)[j + 1..] == b[j - |a| + 1..];
    }
  }

  lemma EscapedHasNoBrace(c: char)
    requires c != '{'
    ensures '{' !in EscapeChar(c)
  {
  }

  lemma EscapeStart(t: string)
    requires t != ""
    ensures Escape(t) != "" && Escape(t)[0] == EscapeChar(t[0])[0] != '"'
  {
  }

  /** What comes after a text of a member that is not the last. */
  predicate EndsText(tail: string) { |tail| >= 5 && tail[..4] == "\", \"" && tail[4] != ':' }

  lemma BraceInText(t: string, tail: string)
    requires EndsText(tail)
    ensures NoObject(Escape(t) + tail)
  {
    if t == "" {
      assert Escape(t) + tail == tail;
    } else {
      EscapeStart(t);
    }
  }

  lemma {:induction false} TextIsInert(t: string, tail: string)
    requires EndsText(tail) && Inert(tail)
    ensures Inert(Escape(t) + tail)
  {
    if t == "" {
      assert Escape(t) + tail == tail;
    } else {
      var rest := Escape(t[1..]) + tail;
      TextIsInert(t[1..], tail);
      Associative(EscapeChar(t[0]), Escape(t[1..]), tail);
      if t[0] == '{' {
        BraceInText(t[1..], tail);
        BraceIsInert(rest);
      } else {
        EscapedHasNoBrace(t[0]);
        InertPrepend(EscapeChar(t[0]), rest);
      }
    }
  }

  lemma BraceIsInert(rest: string)
    requires NoObject(rest) && Inert(rest)
    ensures Inert("{" + rest)
  {
    var s := "{" + rest;
    forall j | 0 <= j < |s| && s[j] == '{'
      ensures NoObject(s[j + 1..])
    {
      if j == 0 {
        assert s[1..] == rest;
      } else {
        assert s[j + 1..] == rest[j..];
      }
    }
  }

  lemma {:induction false} EscapeOfNoBrace(t: string)
    requires '{' !in t
    ensures '{' !in Escape(t)
  {
    if t != "" {
      assert t == [t[0]] + t[1..];
      EscapedHasNoBrace(t[0]);
      EscapeOfNoBrace(t[1..]);
    }
  }

  lemma NumberHasNoBrace(n: int)
    ensures '{' !in EncodeInt(n)
  {
    hide Decimal;
    var digits := Decimal(if n < 0 then -n else n);
    assert forall c :: c in digits ==> IsDigit(c);
  }

  /** A key and what follows it up to its value. */
  function KeyPart(m: Member): string { Quote(m.key) + ": " }

  lemma KeyHasNoBrace(m: Member)
    requires Plain(m.key)
    ensures '{' !in KeyPart(m)
  {
    PlainEscape(m.key);
    EscapeOfNoBrace(m.key);
  }

  lemma MemberParts(m: Member, tail: string)
    ensures EncodeMember(m) + tail == KeyPart(m) + (EncodeValue(m.value) + tail)
  {
    Associative(KeyPart(m), EncodeValue(m.value), tail);
  }

  lemma MemberIsInert(m: Member, tail: string)
    requires Plain(m.key) && Inert(tail) && (m.value.Str? ==> EndsText("\"" + tail))
    ensures Inert(EncodeMember(m) + tail)
  {
    hide Escape, Inert, Plain, EndsText, EncodeInt, Quote;
    MemberParts(m, tail);
    KeyHasNoBrace(m);
    match m.value {
      case Str(t) =>
        InertPrepend("\"", tail);
        TextIsInert(t, "\"" + tail);
        InertPrepend("\"", Escape(t) + ("\"" + tail));
        QuoteParts(t, tail);
      case Num(n) =>
        NumberHasNoBrace(n);
        InertPrepend(EncodeInt(n), tail);
    }
    InertPrepend(KeyPart(m), EncodeValue(m.value) + tail);
  }

  lemma QuoteParts(t: string, tail: string)
    ensures Quote(t) + tail == "\"" + (Escape(t) + ("\"" + tail))
  {
  }

  lemma NextKeyEndsText(m: Member, more: string)
    requires Plain(m.key)
    ensures EndsText("\"" + (", " + (EncodeMember(m) + more)))
  {
    EscapeStart(m.key);
    PlainEscape(m.key);
    var s := "\"" + (", " + (EncodeMember(m) + more));
    assert EncodeMember(m)[0] == '"' && EncodeMember(m)[1] == Escape(m.key)[0];
    assert s[..4] == "\", \"" && s[4] == EncodeMember(m)[1];
  }

  lemma MembersStart(ms: seq<Member>) returns (more: string)
    requires ms != []
    ensures EncodeMembers(ms) == EncodeMember(ms[0]) + more
  {
    if |ms| == 1 {
      more := "";
    } else {
      more := ", " + EncodeMembers(ms[1..]);
      Associative(EncodeMember(ms[0]), ", ", EncodeMembers(ms[1..]));
    }
  }

  lemma MembersSplit(ms: seq<Member>)
    requires |ms| > 1
    ensures EncodeMembers(ms) + "}" == EncodeMember(ms[0]) + (", " + (EncodeMembers(ms[1..]) + "}"))
  {
    Regroup(EncodeMember(ms[0]), ", ", EncodeMembers(ms[1..]), "}");
  }

  lemma {:induction false} MembersAreInert(ms: seq<Member>)
    requires Written(ms)
    ensures Inert(EncodeMembers(ms) + "}")
  {
    if |ms| == 1 {
      MemberIsInert(ms[0], "}");
    } else {
      hide EncodeMembers, EncodeMember, Inert, EndsText, Plain;
      var rest := EncodeMembers(ms[1..]) + "}";
      WrittenTail(ms);
      MembersAreInert(ms[1..]);
      InertPrepend(", ", rest);
      var more := MembersStart(ms[1..]);
      Associative(EncodeMember(ms[1]), more, "}");
      NextKeyEndsText(ms[1], more + "}");
      MemberIsInert(ms[0], ", " + rest);
      MembersSplit(ms);
    }
  }

  lemma WrittenTail(ms: seq<Member>)
    requires Written(ms) && |ms| > 1
    ensures Written(ms[1..]) && Plain(ms[0].key) && Plain(ms[1].key) && ms[1..][0] == ms[1]
  {
    assert ms[1..][|ms[1..]| - 1] == ms[|ms| - 1];
  }

  lemma DecodeFails(s: string)
    requires s != "{}" && (s == "" || s[0] != '{' || ParseMembers(s[1..]) == None)
    ensures DecodeLine(s) == None
  {
  }

  /** An encoded line: a brace, and its members up to the other. */
  function Inner(line: Line): string { EncodeMembers(ToObject(line)) + "}" }

  lemma LineIsInner(line: Line)
    ensures EncodeLine(line) == "{" + Inner(line) && EncodeLine(line)[1..] == Inner(line)
  {
    hide EncodeMembers, ToObject;
    LinesAreWritten(line);
    Associative("{", EncodeMembers(ToObject(line)), "}");
  }

  lemma LineIsInert(line: Line)
    ensures Inert(Inner(line))
  {
    hide EncodeMembers, Inert, ToObject, Written;
    LinesAreWritten(line);
    MembersAreInert(ToObject(line));
  }

  /** No proper end of a line reads as a line. */
  lemma EndDoesNotRead(line: Line, i: nat)
    requires 0 < i <= |EncodeLine(line)|
    ensures DecodeLine(EncodeLine(line)[i..]) == None
  {
    hide EncodeLine, Inner, ParseMembers, Inert, DecodeLine;
    LineIsInner(line);
    LineIsInert(line);
    var inner := Inner(line);
    var s := EncodeLine(line)[i..];
    assert s == inner[i - 1..];
    if s != "" && s[0] == '{' {
      InertAt(inner, i - 1);
      assert s[1..] == inner[i..];
      NoObjectDoesNotParse(s[1..]);
    }
    DecodeFails(s);
  }

  lemma InertAt(s: string, j: nat)
    requires Inert(s) && j < |s| && s[j] == '{'
    ensures NoObject(s[j + 1..])
  {
  }

  // --- From the start to the middle ---------------------------------------------------------------

  lemma {:induction false} CharsCut(t: string, p: string)
    requires p <= Escape(t) + "\"" && |p| <= |Escape(t)|
    ensures ParseChars(p) == None
    decreases |t|
  {
    if t == "" {
      assert p == "";
    } else {
      var e := EscapeChar(t[0]);
      var all := Escape(t) + "\"";
      Associative(e, Escape(t[1..]), "\"");
      assert all == e + (Escape(t[1..]) + "\"");
      if |p| < |e| {
        assert p == all[..|p|] == e[..|p|];
        EscapeCut(t[0], p);
      } else {
        var q := p[|e|..];
        assert p == e + q && q <= Escape(t[1..]) + "\"";
        CharsCut(t[1..], q);
        CharRoundTrip(t[0], q);
      }
    }
  }

  /** Part of an escaped character is no character, and no closing quote. */
  lemma EscapeCut(c: char, p: string)
    requires |p| < |EscapeChar(c)| && p == EscapeChar(c)[..|p|]
    ensures ParseChars(p) == None
  {
    EscapeShape(c);
    hide EscapeChar, ParseChar;
    if p == "" {
      NothingParses();
    } else {
      ShortEscape(p);
    }
  }

  lemma ShortEscape(p: string)
    requires 0 < |p| < 6 && p[0] == '\\' && (|p| >= 2 ==> p[1] == 'u')
    ensures ParseChar(p) == None
  {
  }

  lemma EscapeShape(c: char)
    ensures var e := EscapeChar(c);
            |e| <= 6 && (|e| > 1 ==> e[0] == '\\') && (|e| > 2 ==> e[1] == 'u')
  {
  }

  lemma QuotedCut(t: string, p: string)
    requires p <= Quote(t) && |p| < |Quote(t)|
    ensures ParseQuoted(p) == None
  {
    if p != "" {
      assert p[1..] <= Escape(t) + "\"" by {
        assert Quote(t)[1..] == Escape(t) + "\"";
        assert p[1..] == Quote(t)[..|p|][1..] == Quote(t)[1..|p|];
      }
      CharsCut(t, p[1..]);
    }
  }

  lemma {:induction false} DigitsEnd(p: string)
    requires forall c :: c in p ==> IsDigit(c)
    ensures DigitRun(p) == |p|
  {
    if p != "" {
      assert p == [p[0]] + p[1..];
      DigitsEnd(p[1..]);
    }
  }

  /** Part of a number is no number, or one that goes on to the end of what there is. */
  lemma NumberCut(n: int, p: string)
    requires p <= EncodeInt(n)
    ensures ParseNumber(p).Some? ==> ParseNumber(p).value.rest == ""
    ensures p == "" || p[0] != '"'
  {
    var digits := Decimal(if n < 0 then -n else n);
    forall c | c in digits ensures IsDigit(c) {}
    var t := if p != "" && p[0] == '-' then p[1..] else p;
    assert IsDigit(digits[0]);
    forall c | c in t
      ensures IsDigit(c)
    {
      var j :| 0 <= j < |t| && t[j] == c;
      if n < 0 {
        if p[0] == '-' { assert t[j] == p[j + 1] == EncodeInt(n)[j + 1] == digits[j]; }
      } else {
        assert p[0] == digits[0];
        assert t[j] == p[j] == digits[j];
      }
    }
    DigitsEnd(t);
  }

  lemma ValueCut(v: Value, p: string)
    requires p <= EncodeValue(v) && |p| < |EncodeValue(v)|
    ensures ParseValue(p).Some? ==> ParseValue(p).value.rest == ""
  {
    match v
    case Str(t) =>
      QuotedCut(t, p);
      if p != "" { assert p[0] == Quote(t)[0] == '"'; }
      NothingParses();
    case Num(n) => NumberCut(n, p);
  }

  lemma NothingParses()
    ensures ParseNumber("") == None && ParseQuoted("") == None && ParseChars("") == None
  {
  }

  /** Part of a member is no member, or one with nothing after it. */
  lemma MemberCut(m: Member, p: string)
    requires p <= EncodeMember(m) && |p| < |EncodeMember(m)|
    ensures ParseMember(p).Some? ==> ParseMember(p).value.rest == ""
  {
    hide ParseQuoted, ParseValue, Quote, EncodeValue;
    var q, v := Quote(m.key), EncodeValue(m.value);
    assert EncodeMember(m) == q + (": " + v);
    if |p| < |q| {
      assert p == q[..|p|];
      QuotedCut(m.key, p);
    } else {
      var rest := p[|q|..];
      assert p == q + rest && rest == (": " + v)[..|rest|];
      QuotedRoundTrip(m.key, rest);
      if |rest| >= 2 {
        assert rest[..2] == ": " && rest[2..] == v[..|rest| - 2];
        ValueCut(m.value, rest[2..]);
      }
    }
  }

  lemma WholeMemberEnds(m: Member)
    ensures ParseMember(EncodeMember(m)) == Some(Parsed(m, ""))
  {
    MemberRoundTrip(m, "");
    assert EncodeMember(m) + "" == EncodeMember(m);
  }

  lemma {:induction false} MembersCut(ms: seq<Member>, p: string)
    requires ms != [] && p <= EncodeMembers(ms) + "}" && |p| <= |EncodeMembers(ms)|
    ensures ParseMembers(p) == None
    decreases |ms|
  {
    hide EncodeMember, ParseMember;
    var e := EncodeMember(ms[0]);
    if |p| < |e| {
      var more := MembersStart(ms);
      assert p == (EncodeMembers(ms) + "}")[..|p|] == e[..|p|];
      MemberCut(ms[0], p);
    } else if |p| == |e| {
      var more := MembersStart(ms);
      assert p == (EncodeMembers(ms) + "}")[..|p|] == e;
      WholeMemberEnds(ms[0]);
    } else {
      MembersSplit(ms);
      var tail := EncodeMembers(ms[1..]) + "}";
      var rest := p[|e|..];
      assert p == e + rest && rest == (", " + tail)[..|rest|];
      assert rest[0] == ',';
      MemberRoundTrip(ms[0], rest);
      if |rest| >= 2 {
        assert rest[2..] == tail[..|rest| - 2];
        MembersCut(ms[1..], rest[2..]);
      }
    }
  }

  lemma InnerCut(line: Line, p: string)
    requires p <= Inner(line) && |p| < |Inner(line)|
    ensures ParseMembers(p) == None && (p != "" ==> p[0] == '"')
  {
    hide EncodeMembers, ParseMembers, ToObject;
    LinesAreWritten(line);
    MembersCut(ToObject(line), p);
    QuoteFirst(ToObject(line));
    assert p != "" ==> p[0] == Inner(line)[0];
  }

  /** No proper start of a line reads as a line. */
  lemma StartDoesNotRead(line: Line, p: string)
    requires p <= EncodeLine(line) && |p| < |EncodeLine(line)|
    ensures DecodeLine(p) == None
  {
    hide EncodeLine, Inner, ParseMembers, DecodeLine;
    LineIsInner(line);
    if p != "" {
      assert p[1..] == Inner(line)[..|p| - 1];
      InnerCut(line, p[1..]);
      assert p == [p[0]] + p[1..];
    }
    DecodeFails(p);
  }
}
