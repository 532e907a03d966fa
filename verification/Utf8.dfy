/** UTF-8, and decoding it in pieces: Buffer.toString("utf8") on each chunk of a stream, which
    puts U+FFFD wherever a piece does not hold a whole character. */
module Utf8 {
  import opened Sequences

  type Byte = b: nat | b < 256

  const REPLACEMENT := '\U{FFFD}'

  predicate IsContinuation(b: Byte) { 0x80 <= b < 0xC0 }

  // --- Encoding ---------------------------------------------------------------------------

  function EncodeChar(c: char): seq<Byte> {
    var n := c as int;
    if n < 0x80 then [n]
    else if n < 0x800 then [0xC0 + n / 64, 0x80 + n % 64]
    else if n < 0x1_0000 then [0xE0 + n / 4096, 0x80 + n / 64 % 64, 0x80 + n % 64]
    else [0xF0 + n / 262144, 0x80 + n / 4096 % 64, 0x80 + n / 64 % 64, 0x80 + n % 64]
  }

  function Encode(t: string): seq<Byte> { FlatMap(EncodeChar, t) }

  // --- Decoding ---------------------------------------------------------------------------

  /** How many bytes a lead byte announces; 0 for a byte that leads nothing. */
  function Announced(b: Byte): nat {
    if b < 0x80 then 1
    else if b < 0xC2 then 0
    else if b < 0xE0 then 2
    else if b < 0xF0 then 3
    else if b < 0xF5 then 4
    else 0
  }

  /** How many of the next bytes, at most `limit`, are continuations. */
  function Run(bs: seq<Byte>, limit: nat): (n: nat)
    ensures n <= limit && n <= |bs|
  {
    if limit > 0 && bs != [] && IsContinuation(bs[0]) then 1 + Run(bs[1..], limit - 1) else 0
  }

  function CodePoint(bs: seq<Byte>): int
    requires 1 <= |bs| <= 4
  {
    var lead: int := bs[0];
    if |bs| == 1 then lead
    else if |bs| == 2 then lead % 32 * 64 + Low(bs[1])
    else if |bs| == 3 then lead % 16 * 4096 + Low(bs[1]) * 64 + Low(bs[2])
    else lead % 8 * 262144 + Low(bs[1]) * 4096 + Low(bs[2]) * 64 + Low(bs[3])
  }

  function Low(b: Byte): int { b % 64 }

  /** The character a complete sequence stands for, or the replacement if it stands for none. */
  function CharOf(bs: seq<Byte>): char
    requires 1 <= |bs| <= 4
  {
    var n := CodePoint(bs);
    if n < 0xD800 || 0xDFFF < n < 0x11_0000 then n as char else REPLACEMENT
  }

  // One decoded character and the bytes it took.
  datatype Taken = Taken(c: char, size: nat)

  function Take(bs: seq<Byte>): (t: Taken)
    requires bs != []
    ensures 1 <= t.size <= |bs|
    ensures forall i :: 1 <= i < t.size ==> IsContinuation(bs[i])
  {
    RunIsContinuations(bs[1..], 3);
    var n := Announced(bs[0]);
    if n == 0 then Taken(REPLACEMENT, 1)
    else
      RunIsContinuations(bs[1..], n - 1);
      var k := 1 + Run(bs[1..], n - 1);
      Taken(if k == n then CharOf(bs[..k]) else REPLACEMENT, k)
  }

  lemma {:induction false} RunIsContinuations(bs: seq<Byte>, limit: nat)
    ensures forall i :: 0 <= i < Run(bs, limit) ==> IsContinuation(bs[i])
  {
    if limit > 0 && bs != [] && IsContinuation(bs[0]) {
      RunIsContinuations(bs[1..], limit - 1);
    }
  }

  function Decode(bs: seq<Byte>): string
    decreases |bs|
  {
    if bs == [] then "" else [Take(bs).c] + Decode(bs[Take(bs).size..])
  }

  // --- Whole characters ----------------------------------------------------------------------

  /** A number below 64^4 is its four groups of six bits. */
  lemma SixBits(n: nat)
    ensures n / 64 % 64 * 64 + n % 64 == n % 4096
    ensures n / 4096 % 64 * 4096 + n % 4096 == n % 262144
  {
    assert n / 4096 == n / 64 / 64 && n / 262144 == n / 4096 / 64;
  }

  lemma CharRoundTrip(c: char)
    ensures CharOf(EncodeChar(c)) == c && Announced(EncodeChar(c)[0]) == |EncodeChar(c)|
    ensures forall i :: 1 <= i < |EncodeChar(c)| ==> IsContinuation(EncodeChar(c)[i])
    ensures !IsContinuation(EncodeChar(c)[0])
  {
    SixBits(c as int);
    PointRoundTrip(c);
  }

  lemma TwoByteGroups(n: nat)
    requires n < 0x800
    ensures (0xC0 + n / 64) % 32 == n / 64 && (0x80 + n % 64) % 64 == n % 64
  {
  }

  lemma ThreeByteGroups(n: nat)
    requires n < 0x1_0000
    ensures (0xE0 + n / 4096) % 16 == n / 4096
    ensures (0x80 + n / 64 % 64) % 64 == n / 64 % 64 && (0x80 + n % 64) % 64 == n % 64
  {
  }

  lemma FourByteGroups(n: nat)
    requires n < 0x11_0000
    ensures (0xF0 + n / 262144) % 8 == n / 262144 && (0x80 + n / 4096 % 64) % 64 == n / 4096 % 64
    ensures (0x80 + n / 64 % 64) % 64 == n / 64 % 64 && (0x80 + n % 64) % 64 == n % 64
  {
  }

  lemma PointRoundTrip(c: char)
    ensures CodePoint(EncodeChar(c)) == c as int
  {
    var n := c as int;
    SixBits(n);
    if n < 0x80 {
    } else if n < 0x800 {
      TwoByteGroups(n);
    } else if n < 0x1_0000 {
      ThreeByteGroups(n);
    } else {
      FourByteGroups(n);
    }
  }

  lemma {:induction false} RunStopsAtLimit(bs: seq<Byte>, n: nat)
    requires n <= |bs| && forall i :: 0 <= i < n ==> IsContinuation(bs[i])
    ensures Run(bs, n) == n
  {
    if n > 0 {
      RunStopsAtLimit(bs[1..], n - 1);
    }
  }

  lemma TakeWhole(c: char, rest: seq<Byte>)
    ensures Take(EncodeChar(c) + rest) == Taken(c, |EncodeChar(c)|)
  {
    CharRoundTrip(c);
    var bs, n := EncodeChar(c) + rest, |EncodeChar(c)|;
    forall i | 0 <= i < n - 1
      ensures IsContinuation(bs[1..][i])
    {
      assert bs[1..][i] == EncodeChar(c)[i + 1];
    }
    RunStopsAtLimit(bs[1..], n - 1);
    assert bs[..n] == EncodeChar(c);
  }

  lemma {:induction false} DecodeInvertsEncode(t: string)
    ensures Decode(Encode(t)) == t
    decreases |t|
  {
    if t != "" {
      FlatMapHead(EncodeChar, t);
      var e, rest := EncodeChar(t[0]), Encode(t[1..]);
      assert Encode(t) == e + rest;
      TakeWhole(t[0], rest);
      assert (e + rest)[|e|..] == rest;
      DecodeInvertsEncode(t[1..]);
    }
  }

  // --- Pieces --------------------------------------------------------------------------------

  function LeadCount(bs: seq<Byte>): nat {
    if bs == [] then 0 else (if IsContinuation(bs[0]) then 0 else 1) + LeadCount(bs[1..])
  }

  lemma {:induction false} LeadsAppend(a: seq<Byte>, b: seq<Byte>)
    ensures LeadCount(a + b) == LeadCount(a) + LeadCount(b)
  {
    if a == [] {
      assert a + b == b;
    } else {
      LeadsAppend(a[1..], b);
      assert (a + b)[1..] == a[1..] + b;
    }
  }

  lemma {:induction false} NoLeads(bs: seq<Byte>)
    requires forall i :: 0 <= i < |bs| ==> IsContinuation(bs[i])
    ensures LeadCount(bs) == 0
  {
    if bs != [] {
      NoLeads(bs[1..]);
    }
  }

  lemma {:induction false} LeadsAreCharacters(t: string)
    ensures LeadCount(Encode(t)) == |t|
  {
    if t != "" {
      var n := |t| - 1;
      LeadsAreCharacters(t[..n]);
      CharRoundTrip(t[n]);
      LeadsAppend(Encode(t[..n]), EncodeChar(t[n]));
      NoLeads(EncodeChar(t[n])[1..]);
    }
  }

  predicate StartsMidCharacter(bs: seq<Byte>) { bs != [] && IsContinuation(bs[0]) }

  /** Every lead byte shows, and a piece that starts in the middle of a character shows more. */
  lemma {:induction false} DecodedLength(bs: seq<Byte>)
    ensures |Decode(bs)| >= LeadCount(bs) + if StartsMidCharacter(bs) then 1 else 0
    decreases |bs|
  {
    if bs != [] {
      var k := Take(bs).size;
      DecodedLength(bs[k..]);
      assert bs == [bs[0]] + bs[1..k] + bs[k..];
      LeadsAppend([bs[0]] + bs[1..k], bs[k..]);
      LeadsAppend([bs[0]], bs[1..k]);
      NoLeads(bs[1..k]);
      assert [bs[0]][1..] == [];
      assert LeadCount([bs[0]]) == if IsContinuation(bs[0]) then 0 else 1;
    }
  }

  /** A cut inside a character leaves a piece that starts with a continuation. */
  lemma CutInside(a: seq<Byte>, b: seq<Byte>, e: seq<Byte>, rest: seq<Byte>)
    requires a + b == e + rest && a != []
    requires forall i :: 1 <= i < |e| ==> IsContinuation(e[i])
    ensures |a| < |e| ==> StartsMidCharacter(b)
    ensures |a| >= |e| ==> a == e + a[|e|..] && rest == a[|e|..] + b
  {
    if |a| < |e| {
      assert |b| > 0 && b[0] == (a + b)[|a|] == (e + rest)[|a|] == e[|a|];
    } else {
      assert a == (a + b)[..|a|] == (e + rest)[..|a|];
      assert a[..|e|] == (e + rest)[..|e|] == e;
      assert rest == (e + rest)[|e|..] == (a + b)[|e|..];
    }
  }

  /** Encoded text cut where no character is split is encoded text on both sides. */
  lemma {:induction false} CutBetweenCharacters(t: string, a: seq<Byte>, b: seq<Byte>) returns (k: nat)
    requires Encode(t) == a + b && !StartsMidCharacter(b)
    ensures k <= |t| && a == Encode(t[..k]) && b == Encode(t[k..])
    decreases |t|
  {
    if a == [] {
      assert a + b == b && t[0..] == t && t[..0] == "";
      k := 0;
    } else {
      assert |a + b| > 0;
      FlatMapHead(EncodeChar, t);
      CharRoundTrip(t[0]);
      var e, rest := EncodeChar(t[0]), Encode(t[1..]);
      CutInside(a, b, e, rest);
      var k' := CutBetweenCharacters(t[1..], a[|e|..], b);
      k := k' + 1;
      assert t[k..] == t[1..][k'..] && t[..k][1..] == t[1..][..k'];
      FlatMapHead(EncodeChar, t[..k]);
    }
  }

  function DecodePieces(chunks: seq<seq<Byte>>): string { FlatMap(Decode, chunks) }

  lemma PiecesSnoc(chunks: seq<seq<Byte>>)
    requires chunks != []
    ensures var n := |chunks| - 1;
            |DecodePieces(chunks)| == |DecodePieces(chunks[..n])| + |Decode(chunks[n])| &&
            LeadCount(Flatten(chunks)) == LeadCount(Flatten(chunks[..n])) + LeadCount(chunks[n])
  {
    hide Decode, LeadCount;
    var n := |chunks| - 1;
    LeadsAppend(Flatten(chunks[..n]), chunks[n]);
  }

  ghost predicate SomeMidCharacter(chunks: seq<seq<Byte>>) {
    exists i :: 0 <= i < |chunks| && StartsMidCharacter(chunks[i])
  }

  lemma SomeMidSnoc(chunks: seq<seq<Byte>>)
    requires chunks != []
    ensures var n := |chunks| - 1;
            SomeMidCharacter(chunks) <==> SomeMidCharacter(chunks[..n]) || StartsMidCharacter(chunks[n])
  {
    hide StartsMidCharacter;
    var n := |chunks| - 1;
    assert forall i :: 0 <= i < n ==> chunks[..n][i] == chunks[i];
  }

  lemma {:induction false} PiecesLength(chunks: seq<seq<Byte>>)
    ensures |DecodePieces(chunks)| >= LeadCount(Flatten(chunks))
    ensures SomeMidCharacter(chunks) ==> |DecodePieces(chunks)| > LeadCount(Flatten(chunks))
  {
    if chunks == [] {
      NothingToDecode();
    } else {
      hide DecodePieces, Decode, LeadCount, Flatten, StartsMidCharacter, SomeMidCharacter;
      var n := |chunks| - 1;
      PiecesLength(chunks[..n]);
      PiecesSnoc(chunks);
      DecodedLength(chunks[n]);
      SomeMidSnoc(chunks);
    }
  }

  lemma NothingToDecode()
    ensures LeadCount(Flatten([])) == 0 && !SomeMidCharacter([])
  {
  }

  lemma {:induction false} WholePiecesDecode(t: string, chunks: seq<seq<Byte>>)
    requires Flatten(chunks) == Encode(t)
    requires forall i :: 0 <= i < |chunks| ==> !StartsMidCharacter(chunks[i])
    ensures DecodePieces(chunks) == t
    decreases |chunks|
  {
    if chunks == [] {
      LeadsAreCharacters(t);
    } else {
      var n := |chunks| - 1;
      var k := CutBetweenCharacters(t, Flatten(chunks[..n]), chunks[n]);
      WholePiecesDecode(t[..k], chunks[..n]);
      DecodeInvertsEncode(t[k..]);
      assert t == t[..k] + t[k..];
    }
  }

  /** Decoding a stream chunk by chunk gives back its text exactly when no chunk starts in the
      middle of a character -- something the receiver can see in the chunk's first byte. */
  lemma PiecesDecodeExactlyWhen(t: string, chunks: seq<seq<Byte>>)
    requires Flatten(chunks) == Encode(t)
    ensures DecodePieces(chunks) == t <==> forall i :: 0 <= i < |chunks| ==> !StartsMidCharacter(chunks[i])
  {
    hide DecodePieces, LeadCount, Encode, Flatten, StartsMidCharacter;
    LeadsAreCharacters(t);
    PiecesLength(chunks);
    if forall i :: 0 <= i < |chunks| ==> !StartsMidCharacter(chunks[i]) {
      WholePiecesDecode(t, chunks);
    }
  }

  function Above(b: Byte, base: int): int { b - base }

  /** The encoding is that of RFC 3629: so many bytes for a character as its number needs, the first in the
      range that announces them, the others continuations, and its number spread over their low bits. */
  lemma EncodingIsStandard(c: char)
    ensures var b, n := EncodeChar(c), c as int;
            |b| == (if n < 0x80 then 1 else if n < 0x800 then 2 else if n < 0x1_0000 then 3 else 4) &&
            (|b| == 1 ==> b[0] == n) &&
            (|b| == 2 ==> 0xC2 <= b[0] < 0xE0 && n == Above(b[0], 0xC0) * 64 + Above(b[1], 0x80)) &&
            (|b| == 3 ==>
               0xE0 <= b[0] < 0xF0 &&
               n == Above(b[0], 0xE0) * 4096 + Above(b[1], 0x80) * 64 + Above(b[2], 0x80)) &&
            (|b| == 4 ==>
               0xF0 <= b[0] < 0xF5 &&
               n == Above(b[0], 0xF0) * 262144 + Above(b[1], 0x80) * 4096 +
                    Above(b[2], 0x80) * 64 + Above(b[3], 0x80)) &&
            forall i :: 1 <= i < |b| ==> 0x80 <= b[i] < 0xC0
  {
    SixBits(c as int);
  }

  /** How many bytes the first of a character announces, by the ranges of RFC 3629; none for one that is
      first in no character. */
  function Announces(b: Byte): nat {
    if b <= 0x7F then 1
    else if 0xC2 <= b <= 0xDF then 2
    else if 0xE0 <= b <= 0xEF then 3
    else if 0xF0 <= b <= 0xF4 then 4
    else 0
  }

  /** Bytes that make no character: one that is first in none is replaced by itself; and so is a first
      byte together with the continuations after it when they are fewer than it announces, what
      follows being decoded as if nothing had come before. */
  lemma MalformedIsReplaced(b: Byte, more: seq<Byte>, rest: seq<Byte>)
    requires forall i :: 0 <= i < |more| ==> 0x80 <= more[i] < 0xC0
    requires rest != [] ==> !(0x80 <= rest[0] < 0xC0)
    ensures Announces(b) == 0 ==> Decode([b] + rest) == "\U{FFFD}" + Decode(rest)
    ensures Announces(b) > |more| + 1 ==> Decode([b] + more + rest) == "\U{FFFD}" + Decode(rest)
  {
    hide Run;
    if Announces(b) == 0 {
      assert ([b] + rest)[1..] == rest;
    } else if Announces(b) > |more| + 1 {
      var bs := [b] + more + rest;
      assert bs[1..] == more + rest && bs[|more| + 1..] == rest;
      RunOf(more, rest, Announces(b) - 1);
    }
  }

  lemma {:induction false} RunOf(more: seq<Byte>, rest: seq<Byte>, limit: nat)
    requires forall i :: 0 <= i < |more| ==> 0x80 <= more[i] < 0xC0
    requires rest != [] ==> !(0x80 <= rest[0] < 0xC0)
    requires |more| < limit
    ensures Run(more + rest, limit) == |more|
  {
    if more == [] {
      assert more + rest == rest;
    } else {
      assert (more + rest)[1..] == more[1..] + rest;
      RunOf(more[1..], rest, limit - 1);
    }
  }
}
