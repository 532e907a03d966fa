/** Strings as the sources use them: substring search, decimal numerals, line counting. */
module Text {
  import opened Sequences

  predicate At(s: string, p: string, i: int) {
    0 <= i && i + |p| <= |s| && s[i..i + |p|] == p
  }

  /** std::string::find / bytes.find: the first occurrence at or after `i`. */
  function FindFrom(s: string, p: string, i: nat): (r: Option<nat>)
    ensures r.Some? ==> i <= r.value && At(s, p, r.value) &&
                        forall j :: i <= j < r.value ==> !At(s, p, j)
    ensures r.None? ==> forall j :: i <= j ==> !At(s, p, j)
    decreases |s| - i
  {
    if i + |p| > |s| then None
    else if s[i..i + |p|] == p then Some(i)
    else FindFrom(s, p, i + 1)
  }

  function Find(s: string, p: string): (r: Option<nat>)
    ensures r.Some? ==> At(s, p, r.value) && forall j :: 0 <= j < r.value ==> !At(s, p, j)
    ensures r.None? ==> forall j :: 0 <= j ==> !At(s, p, j)
  {
    FindFrom(s, p, 0)
  }

  lemma FindIs(s: string, p: string, k: nat)
    requires At(s, p, k)
    requires forall j :: 0 <= j < k ==> !At(s, p, j)
    ensures Find(s, p) == Some(k)
  {
  }

  lemma FindAbsent(s: string, p: string)
    requires forall j :: 0 <= j <= |s| ==> !At(s, p, j)
    ensures Find(s, p) == None
  {
  }

  /** What follows a text does not move an occurrence that lies wholly inside it. */
  lemma FindExtends(s: string, p: string, more: string)
    requires Find(s, p).Some?
    ensures Find(s + more, p) == Find(s, p)
  {
    var k := Find(s, p).value;
    forall j | 0 <= j <= k
      ensures At(s + more, p, j) == At(s, p, j)
    {
      assert (s + more)[j..j + |p|] == s[j..j + |p|];
    }
    FindIs(s + more, p, k);
  }

  /** A prefix too short to hold the first occurrence holds none. */
  lemma FindInPrefix(s: string, p: string, n: nat)
    requires n <= |s| && (Find(s, p).None? || n < Find(s, p).value + |p|)
    ensures Find(s[..n], p) == None
  {
    forall j | 0 <= j <= n
      ensures !At(s[..n], p, j)
    {
      if At(s[..n], p, j) {
        assert s[..n][j..j + |p|] == s[j..j + |p|];
        assert At(s, p, j);
      }
    }
    FindAbsent(s[..n], p);
  }

  /** The text without the leading and trailing characters that count as space. */
  function Trim(space: char -> bool, s: string): string { TrimRight(space, TrimLeft(space, s)) }

  function TrimLeft(space: char -> bool, s: string): (r: string)
    ensures |r| <= |s| && (r != "" ==> !space(r[0]))
  {
    if s != "" && space(s[0]) then TrimLeft(space, s[1..]) else s
  }

  function TrimRight(space: char -> bool, s: string): string {
    if s != "" && space(s[|s| - 1]) then TrimRight(space, s[..|s| - 1]) else s
  }

  function Newlines(s: string): nat {
    if s == "" then 0
    else Newlines(s[..|s| - 1]) + if s[|s| - 1] == '\n' then 1 else 0
  }

  lemma {:induction false} NewlinesAppend(s: string, t: string)
    ensures Newlines(s + t) == Newlines(s) + Newlines(t)
  {
    if t == "" {
      assert s + t == s;
    } else {
      var init := t[..|t| - 1];
      assert (s + t)[..|s + t| - 1] == s + init;
      NewlinesAppend(s, init);
    }
  }

  lemma {:induction false} NoNewlines(s: string)
    ensures Newlines(s) == 0 <==> '\n' !in s
  {
    if s != "" {
      NoNewlines(s[..|s| - 1]);
      assert s == s[..|s| - 1] + [s[|s| - 1]];
    }
  }

  // --- Decimal numerals -------------------------------------------------------------

  predicate IsDigit(c: char) { '0' <= c <= '9' }

  function DigitChar(d: nat): (c: char)
    requires d < 10
    ensures IsDigit(c) && DigitValue(c) == d
  {
    '0' + d as char
  }

  function DigitValue(c: char): nat
    requires IsDigit(c)
  {
    (c - '0') as nat
  }

  /** std::to_string, str(int) and String(n) for a non-negative integer. */
  function Decimal(n: nat): (s: string)
    ensures s != "" && forall c :: c in s ==> IsDigit(c)
  {
    if n < 10 then [DigitChar(n)] else Decimal(n / 10) + [DigitChar(n % 10)]
  }

  function DigitsValue(s: string): nat
    requires forall c :: c in s ==> IsDigit(c)
  {
    if s == "" then 0 else 10 * DigitsValue(s[..|s| - 1]) + DigitValue(s[|s| - 1])
  }

  lemma {:induction false} DecimalRoundTrip(n: nat)
    ensures DigitsValue(Decimal(n)) == n
  {
    if n < 10 {
      assert [DigitChar(n)][..0] == "";
    } else {
      DecimalRoundTrip(n / 10);
      assert Decimal(n)[..|Decimal(n)| - 1] == Decimal(n / 10);
    }
  }

  lemma DecimalInjective(m: nat, n: nat)
    requires Decimal(m) == Decimal(n)
    ensures m == n
  {
    DecimalRoundTrip(m);
    DecimalRoundTrip(n);
  }

  /** How many digits a text starts with. */
  function DigitRun(s: string): (n: nat)
    ensures n <= |s| && forall i :: 0 <= i < n ==> IsDigit(s[i])
  {
    if s != "" && IsDigit(s[0]) then 1 + DigitRun(s[1..]) else 0
  }

  lemma {:induction false} DigitRunIs(digits: string, rest: string)
    requires forall c :: c in digits ==> IsDigit(c)
    requires rest == "" || !IsDigit(rest[0])
    ensures DigitRun(digits + rest) == |digits|
  {
    if digits == "" {
      assert digits + rest == rest;
    } else {
      assert (digits + rest)[1..] == digits[1..] + rest;
      DigitRunIs(digits[1..], rest);
    }
  }

  /** std::atoi: leading space, a sign, and as many digits as follow; 0 when there are none. */
  function Atoi(s: string): int {
    var t := TrimLeft((c: char) => c == ' ' || '\t' <= c <= '\r', s);
    var digits := if t != "" && (t[0] == '-' || t[0] == '+') then t[1..] else t;
    var value: int := DigitsValue(digits[..DigitRun(digits)]);
    if t != "" && t[0] == '-' then -value else value
  }

  /** It reads back what std::to_string wrote. */
  lemma AtoiReadsDecimal(n: nat)
    ensures Atoi(Decimal(n)) == n
  {
    var s := Decimal(n);
    assert IsDigit(s[0]);
    DigitRunIs(s, "");
    assert s + "" == s && s[..|s|] == s;
    DecimalRoundTrip(n);
  }
}
