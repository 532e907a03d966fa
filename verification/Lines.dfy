/** Text cut at newlines, as split("\n") cuts it, and how the pieces of two texts join. */
module Lines {
  import opened Sequences

  /** data.split("\n"): always at least one piece; the last one is what no newline has ended. */
  function Split(data: string): (pieces: seq<string>)
    ensures pieces != []
  {
    if data == "" then [""]
    else
      var before, c := Split(data[..|data| - 1]), data[|data| - 1];
      if c == '\n' then before + [""] else before[..|before| - 1] + [before[|before| - 1] + [c]]
  }

  function Complete(data: string): seq<string> { Split(data)[..|Split(data)| - 1] }

  function Partial(data: string): string { Split(data)[|Split(data)| - 1] }

  /** data.rfind("\n"), or -1. */
  function LastNewline(data: string): (r: int)
    ensures -1 <= r < |data|
    ensures r >= 0 ==> data[r] == '\n'
    ensures forall j :: r < j < |data| ==> data[j] != '\n'
  {
    if data == "" then -1
    else if data[|data| - 1] == '\n' then |data| - 1
    else LastNewline(data[..|data| - 1])
  }

  lemma PartialSnoc(data: string, c: char)
    ensures Partial(data + [c]) == if c == '\n' then "" else Partial(data) + [c]
    ensures LastNewline(data + [c]) == if c == '\n' then |data| else LastNewline(data)
  {
    hide Split, LastNewline;
    SplitSnoc(data, c);
    LastNewlineSnoc(data, c);
  }

  lemma LastNewlineSnoc(data: string, c: char)
    ensures LastNewline(data + [c]) == if c == '\n' then |data| else LastNewline(data)
  {
    assert (data + [c])[..|data|] == data;
  }

  lemma PieceBehind(data: string, piece: string, c: char)
    requires |piece| <= |data| && data[|data| - |piece|..] == piece
    ensures (data + [c])[|data| - |piece|..] == piece + [c] && (data + [c])[|data| + 1..] == ""
  {
  }

  lemma {:induction false} SplitLengths(data: string)
    ensures |Partial(data)| <= |data| && data[|data| - |Partial(data)|..] == Partial(data)
    ensures LastNewline(data) + 1 == |data| - |Partial(data)|
  {
    if data != "" {
      hide Partial, LastNewline;
      var before, c := data[..|data| - 1], data[|data| - 1];
      SplitLengths(before);
      PartialSnoc(before, c);
      Unsnoc(data);
      PieceBehind(before, Partial(before), c);
    }
  }

  lemma {:induction false} NoNewlineOnePiece(s: string)
    requires forall j :: 0 <= j < |s| ==> s[j] != '\n'
    ensures Split(s) == [s]
  {
    if s != "" {
      NoNewlineOnePiece(s[..|s| - 1]);
      assert s == s[..|s| - 1] + [s[|s| - 1]];
    }
  }

  /** Two runs of pieces joined: the last of one and the first of the other become one. */
  function Glue(xs: seq<string>, ys: seq<string>): seq<string>
    requires xs != [] && ys != []
  {
    xs[..|xs| - 1] + [xs[|xs| - 1] + ys[0]] + ys[1..]
  }

  lemma GlueSnoc(xs: seq<string>, ys: seq<string>, piece: string, c: char)
    requires xs != [] && ys != []
    ensures Glue(xs, ys + [piece]) == Glue(xs, ys) + [piece]
    ensures var ext := ys[..|ys| - 1] + [ys[|ys| - 1] + [c]];
            var g := Glue(xs, ys);
            Glue(xs, ext) == g[..|g| - 1] + [g[|g| - 1] + [c]]
  {
    var ext := ys[..|ys| - 1] + [ys[|ys| - 1] + [c]];
    assert (ys + [piece])[1..] == ys[1..] + [piece];
    if |ys| == 1 {
      Associative(xs[|xs| - 1], ys[0], [c]);
      assert ext == [ys[0] + [c]];
    } else {
      assert ext[1..] == ys[1..][..|ys| - 2] + [ys[|ys| - 1] + [c]];
    }
  }

  lemma SplitSnoc(s: string, c: char)
    ensures Split(s + [c]) ==
            if c == '\n' then Split(s) + [""] else Split(s)[..|Split(s)| - 1] + [Split(s)[|Split(s)| - 1] + [c]]
  {
    assert (s + [c])[..|s|] == s;
  }

  lemma GlueNothing(xs: seq<string>)
    requires xs != []
    ensures Glue(xs, [""]) == xs
  {
    assert xs[|xs| - 1] + "" == xs[|xs| - 1];
  }

  lemma SplitAppendStep(xs: seq<string>, a: string, b: string, c: char)
    requires xs != [] && Split(a) == Glue(xs, Split(b))
    ensures Split(a + [c]) == Glue(xs, Split(b + [c]))
  {
    SplitSnoc(a, c);
    SplitSnoc(b, c);
    GlueSnoc(xs, Split(b), "", c);
  }

  lemma {:induction false} SplitAppend(a: string, b: string)
    ensures Split(a + b) == Glue(Split(a), Split(b))
  {
    if b == "" {
      assert a + b == a;
      GlueNothing(Split(a));
    } else {
      var init, last := b[..|b| - 1], [b[|b| - 1]];
      SplitAppend(a, init);
      SplitAppendStep(Split(a), a + init, init, b[|b| - 1]);
      Unsnoc(b);
      Associative(a, init, last);
    }
  }

  /** Past a newline, the lines of the rest follow the lines before. */
  lemma LinesCompose(a: string, b: string)
    requires Partial(a) == ""
    ensures Complete(a + b) == Complete(a) + Complete(b) && Partial(a + b) == Partial(b)
  {
    SplitAppend(a, b);
    GlueEmpty(Split(a), Split(b));
  }

  lemma GlueEmpty(xs: seq<string>, ys: seq<string>)
    requires xs != [] && ys != [] && xs[|xs| - 1] == ""
    ensures Glue(xs, ys) == xs[..|xs| - 1] + ys
  {
    assert "" + ys[0] == ys[0];
    assert ys == [ys[0]] + ys[1..];
  }

  /** A text with a newline at its end, and more after it. */
  lemma SplitEnded(line: string, rest: string)
    ensures Split(line + "\n") == Split(line) + [""]
    ensures Split(line + "\n" + rest) == Split(line) + Split(rest)
  {
    SplitSnoc(line, '\n');
    SplitAppend(line + "\n", rest);
    GlueEmpty(Split(line + "\n"), Split(rest));
    assert (Split(line) + [""])[..|Split(line)|] == Split(line);
  }

  /** One more line, after text that ends in a newline. */
  lemma EndedLine(before: string, text: string, pieces: seq<string>)
    requires Split(before) == pieces + [""] && '\n' !in text
    ensures Split(before + (text + "\n")) == pieces + [text] + [""]
  {
    NoNewlineOnePiece(text);
    SplitSnoc(text, '\n');
    SplitAppend(before, text + "\n");
    GlueEmpty(Split(before), [text, ""]);
    assert (pieces + [""])[..|pieces|] == pieces;
    assert [text] + [""] == [text, ""];
    Associative(pieces, [text], [""]);
  }

  /** The first piece, when a newline ends it. */
  lemma SplitFirst(s: string, nl: nat)
    requires nl < |s| && s[nl] == '\n' && forall j :: 0 <= j < nl ==> s[j] != '\n'
    ensures Split(s) == [s[..nl]] + Split(s[nl + 1..])
  {
    NoNewlineOnePiece(s[..nl]);
    SplitEnded(s[..nl], s[nl + 1..]);
    TakeSnoc(s, nl);
    Halves(s, nl + 1);
  }

  /** A text is its complete lines, each with its newline, and then its unfinished piece. */
  lemma CutAtPartial(s: string)
    ensures var n := |s| - |Partial(s)|;
            0 <= n <= |s| && s == s[..n] + Partial(s) && (n == 0 || s[n - 1] == '\n') &&
            Partial(s[..n]) == "" && Complete(s[..n]) == Complete(s)
    ensures Split(Partial(s)) == [Partial(s)] && '\n' !in Partial(s)
  {
    hide Split, LastNewline;
    SplitLengths(s);
    var n := |s| - |Partial(s)|;
    NoNewlineOnePiece(Partial(s));
    if n > 0 {
      SplitEnded(s[..n - 1], Partial(s));
      TakeSnoc(s, n - 1);
    } else {
      NoNewlineOnePiece("");
    }
    LinesCompose(s[..n], Partial(s));
    assert Complete(s[..n]) + [] == Complete(s[..n]);
  }
}
