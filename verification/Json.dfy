/** The line encoder of the live journal: flat JSON objects as json.dumps(ensure_ascii=False)
    writes them, with the string escaping of section 7 of RFC 8259, and a reader for them. */
module Json {
  import opened Sequences
  import opened Text

  datatype Value = Str(s: string) | Num(n: int)

  datatype Member = Member(key: string, value: Value)

  // --- Writing ------------------------------------------------------------------------------

  function HexDigit(d: nat): (c: char)
    requires d < 16
  {
    if d < 10 then '0' + d as char else 'a' + (d - 10) as char
  }

  function EscapeChar(c: char): string {
    if c == '"' then "\\\""
    else if c == '\\' then "\\\\"
    else if c == '\n' then "\\n"
    else if c == '\r' then "\\r"
    else if c == '\t' then "\\t"
    else if c == '\U{8}' then "\\b"
    else if c == '\U{C}' then "\\f"
    else if c < ' ' then "\\u00" + [HexDigit(c as nat / 16), HexDigit(c as nat % 16)]
    else [c]
  }

  function Escape(s: string): string {
    if s == "" then "" else EscapeChar(s[0]) + Escape(s[1..])
  }

  function Quote(s: string): string { "\"" + Escape(s) + "\"" }

  function EncodeInt(n: int): string { if n < 0 then "-" + Decimal(-n) else Decimal(n) }

  function EncodeValue(v: Value): string {
    match v
    case Str(s) => Quote(s)
    case Num(n) => EncodeInt(n)
  }

  function EncodeMember(m: Member): string { Quote(m.key) + ": " + EncodeValue(m.value) }

  function EncodeMembers(ms: seq<Member>): string
    requires ms != []
  {
    if |ms| == 1 then EncodeMember(ms[0]) else EncodeMember(ms[0]) + ", " + EncodeMembers(ms[1..])
  }

  function Encode(o: seq<Member>): string {
    if o == [] then "{}" else "{" + EncodeMembers(o) + "}"
  }

  // --- Reading ------------------------------------------------------------------------------

  datatype Parsed<T> = Parsed(value: T, rest: string)

  function HexValue(c: char): Option<nat> {
    if '0' <= c <= '9' then Some((c - '0') as nat)
    else if 'a' <= c <= 'f' then Some((c - 'a') as nat + 10)
    else if 'A' <= c <= 'F' then Some((c - 'A') as nat + 10)
    else None
  }

  /** Four hex digits, as a character; a lone surrogate is not one. */
  function HexChar(s: string): Option<char> {
    if |s| != 4 || exists i :: 0 <= i < 4 && HexValue(s[i]).None? then None
    else
      var n := HexValue(s[0]).value * 4096 + HexValue(s[1]).value * 256 +
               HexValue(s[2]).value * 16 + HexValue(s[3]).value;
      if n < 0xD800 || 0xDFFF < n <= 0xFFFF then Some(n as char) else None
  }

  function Unescaped(c: char): Option<char> {
    if c == '"' then Some('"')
    else if c == '\\' then Some('\\')
    else if c == '/' then Some('/')
    else if c == 'n' then Some('\n')
    else if c == 'r' then Some('\r')
    else if c == 't' then Some('\t')
    else if c == 'b' then Some('\U{8}')
    else if c == 'f' then Some('\U{C}')
    else None
  }

  function ParseChar(s: string): (r: Option<Parsed<char>>)
    ensures r.Some? ==> |r.value.rest| < |s|
  {
    if s == "" || s[0] < ' ' then None
    else if s[0] != '\\' then Some(Parsed(s[0], s[1..]))
    else if |s| >= 6 && s[1] == 'u' then
      match HexChar(s[2..6]) case Some(c) => Some(Parsed(c, s[6..])) case None => None
    else if |s| >= 2 then
      match Unescaped(s[1]) case Some(c) => Some(Parsed(c, s[2..])) case None => None
    else None
  }

  /** The rest of a string, after its opening quote. */
  function ParseChars(s: string): (r: Option<Parsed<string>>)
    ensures r.Some? ==> |r.value.rest| < |s|
    decreases |s|
  {
    if s != "" && s[0] == '"' then Some(Parsed("", s[1..]))
    else match ParseChar(s)
      case None => None
      case Some(Parsed(c, rest)) =>
        match ParseChars(rest)
        case None => None
        case Some(Parsed(more, rest')) => Some(Parsed([c] + more, rest'))
  }

  function ParseQuoted(s: string): (r: Option<Parsed<string>>)
    ensures r.Some? ==> |r.value.rest| < |s|
  {
    if s != "" && s[0] == '"' then ParseChars(s[1..]) else None
  }

  function ParseNumber(s: string): (r: Option<Parsed<int>>)
    ensures r.Some? ==> |r.value.rest| < |s|
  {
    var negative := s != "" && s[0] == '-';
    var t := if negative then s[1..] else s;
    var k := DigitRun(t);
    if k == 0 then None
    else var v: int := DigitsValue(t[..k]); Some(Parsed(if negative then -v else v, t[k..]))
  }

  function ParseValue(s: string): (r: Option<Parsed<Value>>)
    ensures r.Some? ==> |r.value.rest| < |s|
  {
    if s != "" && s[0] == '"' then
      match ParseQuoted(s) case Some(Parsed(t, rest)) => Some(Parsed(Str(t), rest)) case None => None
    else
      match ParseNumber(s) case Some(Parsed(n, rest)) => Some(Parsed(Num(n), rest)) case None => None
  }

  function ParseMember(s: string): (r: Option<Parsed<Member>>)
    ensures r.Some? ==> |r.value.rest| < |s|
  {
    match ParseQuoted(s)
    case None => None
    case Some(Parsed(key, rest)) =>
      if |rest| < 2 || rest[..2] != ": " then None
      else match ParseValue(rest[2..])
        case None => None
        case Some(Parsed(v, rest')) => Some(Parsed(Member(key, v), rest'))
  }

  /** One or more members, up to the end of the object and of the text. */
  function ParseMembers(s: string): Option<seq<Member>>
    decreases |s|
  {
    match ParseMember(s)
    case None => None
    case Some(Parsed(m, rest)) =>
      if rest == "}" then Some([m])
      else if |rest| < 2 || rest[..2] != ", " then None
      else match ParseMembers(rest[2..])
        case None => None
        case Some(ms) => Some([m] + ms)
  }

  function Decode(s: string): Option<seq<Member>> {
    if s == "{}" then Some([])
    else if s != "" && s[0] == '{' then ParseMembers(s[1..])
    else None
  }

  // --- Reading inverts writing ----------------------------------------------------------------

  lemma HexRoundTrip(c: char)
    requires c < ' '
    ensures HexChar("00" + [HexDigit(c as nat / 16), HexDigit(c as nat % 16)]) == Some(c)
  {
    var a, b := c as nat / 16, c as nat % 16;
    var s := "00" + [HexDigit(a), HexDigit(b)];
    assert HexValue(HexDigit(a)) == Some(a) && HexValue(HexDigit(b)) == Some(b) && HexValue('0') == Some(0);
    assert forall i :: 0 <= i < 4 ==> HexValue(s[i]).Some?;
  }

  lemma CharRoundTrip(c: char, rest: string)
    ensures EscapeChar(c)[0] != '"' && ParseChar(EscapeChar(c) + rest) == Some(Parsed(c, rest))
  {
    var e := EscapeChar(c);
    var s := e + rest;
    assert s[|e|..] == rest;
    if c < ' ' && |e| == 6 {
      HexRoundTrip(c);
      assert s[2..6] == "00" + [HexDigit(c as nat / 16), HexDigit(c as nat % 16)];
    }
  }

  lemma {:induction false} CharsRoundTrip(t: string, rest: string)
    ensures ParseChars(Escape(t) + ("\"" + rest)) == Some(Parsed(t, rest))
  {
    if t == "" {
      assert "" + ("\"" + rest) == "\"" + rest;
      assert ("\"" + rest)[1..] == rest;
    } else {
      var tail := Escape(t[1..]) + ("\"" + rest);
      Associative(EscapeChar(t[0]), Escape(t[1..]), "\"" + rest);
      CharRoundTrip(t[0], tail);
      CharsRoundTrip(t[1..], rest);
      assert t == [t[0]] + t[1..];
      FirstOf(EscapeChar(t[0]), tail);
    }
  }

  lemma FirstOf(a: string, b: string)
    requires a != ""
    ensures (a + b)[0] == a[0]
  {
  }

  lemma QuotedRoundTrip(t: string, rest: string)
    ensures ParseQuoted(Quote(t) + rest) == Some(Parsed(t, rest))
  {
    assert (Quote(t) + rest)[1..] == Escape(t) + ("\"" + rest);
    CharsRoundTrip(t, rest);
  }

  lemma DigitsRoundTrip(n: nat, rest: string)
    requires rest == "" || !IsDigit(rest[0])
    ensures var t := Decimal(n) + rest;
            var k := DigitRun(t);
            k > 0 && t[..k] == Decimal(n) && t[k..] == rest && IsDigit(t[0]) && DigitsValue(t[..k]) == n
  {
    DigitRunIs(Decimal(n), rest);
    DecimalRoundTrip(n);
    assert IsDigit(Decimal(n)[0]);
  }

  lemma NumberRoundTrip(n: int, rest: string)
    requires rest == "" || !IsDigit(rest[0])
    ensures ParseNumber(EncodeInt(n) + rest) == Some(Parsed(n, rest))
    ensures EncodeInt(n)[0] != '"'
  {
    DigitsRoundTrip(if n < 0 then -n else n, rest);
    if n < 0 {
      Associative("-", Decimal(-n), rest);
      assert ("-" + (Decimal(-n) + rest))[1..] == Decimal(-n) + rest;
    }
  }

  lemma ValueRoundTrip(v: Value, rest: string)
    requires rest == "" || !IsDigit(rest[0])
    ensures ParseValue(EncodeValue(v) + rest) == Some(Parsed(v, rest))
  {
    match v
    case Str(s) => QuotedRoundTrip(s, rest);
    case Num(n) => NumberRoundTrip(n, rest);
  }

  lemma MemberRoundTrip(m: Member, rest: string)
    requires rest == "" || !IsDigit(rest[0])
    ensures ParseMember(EncodeMember(m) + rest) == Some(Parsed(m, rest))
  {
    var after := EncodeValue(m.value) + rest;
    assert EncodeMember(m) + rest == Quote(m.key) + (": " + after);
    QuotedRoundTrip(m.key, ": " + after);
    assert (": " + after)[..2] == ": " && (": " + after)[2..] == after;
    ValueRoundTrip(m.value, rest);
  }

  lemma MoreMembers(m: Member, tail: string)
    requires ParseMembers(tail).Some? && tail != ""
    ensures ParseMembers(EncodeMember(m) + (", " + tail)) == Some([m] + ParseMembers(tail).value)
  {
    MemberRoundTrip(m, ", " + tail);
    assert (", " + tail)[..2] == ", " && (", " + tail)[2..] == tail && (", " + tail)[0] != '}';
  }

  lemma Regroup(a: string, b: string, c: string, d: string)
    ensures a + b + c + d == a + (b + (c + d))
  {
  }

  lemma LastMember(m: Member)
    ensures ParseMembers(EncodeMember(m) + "}") == Some([m])
  {
    hide EncodeMember, ParseMember;
    MemberRoundTrip(m, "}");
  }

  lemma {:induction false} MembersRoundTrip(ms: seq<Member>)
    requires ms != []
    ensures ParseMembers(EncodeMembers(ms) + "}") == Some(ms)
  {
    hide ParseMembers, EncodeMember;
    if |ms| == 1 {
      LastMember(ms[0]);
      assert ms == [ms[0]];
    } else {
      MembersRoundTrip(ms[1..]);
      MoreMembers(ms[0], EncodeMembers(ms[1..]) + "}");
      Regroup(EncodeMember(ms[0]), ", ", EncodeMembers(ms[1..]), "}");
      assert ms == [ms[0]] + ms[1..];
    }
  }

  /** Every object written is read back as it was. */
  lemma DecodeInvertsEncode(o: seq<Member>)
    ensures Decode(Encode(o)) == Some(o)
  {
    hide EncodeMembers, ParseMembers;
    if o != [] {
      MembersRoundTrip(o);
      QuoteFirst(o);
      assert Encode(o)[1..] == EncodeMembers(o) + "}";
      assert Encode(o)[1] == '"';
    }
  }

  lemma QuoteFirst(ms: seq<Member>)
    requires ms != []
    ensures EncodeMembers(ms) != "" && EncodeMembers(ms)[0] == '"'
  {
  }

  // --- A line stays a line -----------------------------------------------------------------------

  lemma {:induction false} EscapeIsOneLine(s: string)
    ensures forall c :: c in Escape(s) ==> c >= ' '
  {
    if s != "" {
      EscapeIsOneLine(s[1..]);
      EscapedChar(s[0]);
    }
  }

  lemma EscapedChar(c: char)
    ensures forall d :: d in EscapeChar(c) ==> d >= ' '
  {
  }

  lemma ValueIsOneLine(v: Value)
    ensures forall c :: c in EncodeValue(v) ==> c >= ' '
  {
    if v.Str? {
      EscapeIsOneLine(v.s);
    }
  }

  lemma {:induction false} MembersAreOneLine(ms: seq<Member>)
    requires ms != []
    ensures forall c :: c in EncodeMembers(ms) ==> c >= ' '
  {
    EscapeIsOneLine(ms[0].key);
    ValueIsOneLine(ms[0].value);
    if |ms| > 1 {
      MembersAreOneLine(ms[1..]);
    }
  }

  /** An encoded object is one line, from brace to brace, whatever its strings hold. */
  lemma EncodedIsOneLine(o: seq<Member>)
    ensures '\n' !in Encode(o) && |Encode(o)| >= 2 && Encode(o)[0] == '{' && Encode(o)[|Encode(o)| - 1] == '}'
  {
    if o != [] {
      MembersAreOneLine(o);
    }
  }

  // --- The text is JSON's ----------------------------------------------------------------------------

  /** How a character is written inside a string: the two that must be escaped and the five that have a
      short form by a backslash, any other control character by its number, and the rest as they are. */
  lemma EscapesAreStandard(c: char)
    ensures EscapeChar('"') == "\\\"" && EscapeChar('\\') == "\\\\" && EscapeChar('\n') == "\\n"
    ensures EscapeChar('\r') == "\\r" && EscapeChar('\t') == "\\t"
    ensures EscapeChar('\U{8}') == "\\b" && EscapeChar('\U{C}') == "\\f"
    ensures c < ' ' && c !in "\n\r\t\U{8}\U{C}" ==>
              var e, hex := EscapeChar(c), "0123456789abcdef";
              |e| == 6 && e[..4] == "\\u00" && e[4] == hex[c as nat / 16] && e[5] == hex[c as nat % 16]
    ensures c >= ' ' && c != '"' && c != '\\' ==> EscapeChar(c) == [c]
  {
    if c < ' ' {
      HexOf(c as nat / 16);
      HexOf(c as nat % 16);
    }
  }

  lemma HexOf(d: nat)
    requires d < 16
    ensures HexDigit(d) == "0123456789abcdef"[d]
  {
  }

  /** An object is its members in braces, a comma and a blank between two; a member is its key in quotes,
      a colon and a blank, and its value, a text in quotes or a number in decimal. */
  lemma {:induction false} MembersAreJoined(o: seq<Member>, m: Member)
    ensures var text := "\"" + Escape(m.key) + "\"" + ": " +
                        (match m.value
                         case Str(s) => "\"" + Escape(s) + "\""
                         case Num(n) => if n < 0 then "-" + Decimal(-n) else Decimal(n));
            Encode([]) == "{}" && Encode([m]) == "{" + text + "}" &&
            (o != [] ==> Encode(o + [m]) == Encode(o)[..|Encode(o)| - 1] + ", " + text + "}")
  {
    hide Escape, Decimal;
    if o != [] {
      JoinsBehind(o, m);
      assert Encode(o)[..|Encode(o)| - 1] == "{" + EncodeMembers(o);
      Regroup("{", EncodeMembers(o), ", ", EncodeMember(m));
    }
  }

  lemma {:induction false} JoinsBehind(o: seq<Member>, m: Member)
    requires o != []
    ensures EncodeMembers(o + [m]) == EncodeMembers(o) + (", " + EncodeMember(m))
  {
    hide EncodeMember;
    assert (o + [m])[1..] == o[1..] + [m];
    if |o| > 1 {
      JoinsBehind(o[1..], m);
      Regroup(EncodeMember(o[0]), ", ", EncodeMembers(o[1..]), ", " + EncodeMember(m));
    }
  }
}
