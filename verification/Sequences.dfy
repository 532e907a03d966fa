/** Sequence combinators shared by the models: the folds all run left to right, so that
    a loop over a vector is matched by the value of the fold on the part already visited. */
module Sequences {

  datatype Option<+T> = None | Some(value: T) {
    function GetOr(default: T): T {
      match this
      case Some(v) => v
      case None => default
    }
  }

  lemma Associative<T>(xs: seq<T>, ys: seq<T>, zs: seq<T>)
    ensures xs + ys + zs == xs + (ys + zs)
  {
  }

  lemma Unsnoc<T>(xs: seq<T>)
    requires xs != []
    ensures xs == xs[..|xs| - 1] + [xs[|xs| - 1]]
  {
  }

  lemma TakeSnoc<T>(xs: seq<T>, n: nat)
    requires n < |xs|
    ensures xs[..n + 1] == xs[..n] + [xs[n]]
  {
  }

  lemma Halves<T>(xs: seq<T>, n: nat)
    requires n <= |xs|
    ensures xs == xs[..n] + xs[n..]
  {
  }

  function Map<T, U>(f: T -> U, xs: seq<T>): (ys: seq<U>)
    ensures |ys| == |xs|
    ensures forall i :: 0 <= i < |xs| ==> ys[i] == f(xs[i])
  {
    seq(|xs|, i requires 0 <= i < |xs| => f(xs[i]))
  }

  lemma MapAppend<T, U>(f: T -> U, xs: seq<T>, ys: seq<T>)
    ensures Map(f, xs + ys) == Map(f, xs) + Map(f, ys)
  {
  }

  /** One step of mapping a sequence in place. */
  lemma MapInPlace<T>(f: T -> T, xs: seq<T>, i: nat)
    requires i < |xs|
    ensures (Map(f, xs[..i]) + xs[i..])[i := f(xs[i])] == Map(f, xs[..i + 1]) + xs[i + 1..]
  {
  }

  function FlatMap<T, U>(f: T -> seq<U>, xs: seq<T>): seq<U> {
    if xs == [] then [] else FlatMap(f, xs[..|xs| - 1]) + f(xs[|xs| - 1])
  }

  lemma {:induction false} FlatMapAppend<T, U>(f: T -> seq<U>, xs: seq<T>, ys: seq<T>)
    ensures FlatMap(f, xs + ys) == FlatMap(f, xs) + FlatMap(f, ys)
  {
    if ys == [] {
      assert xs + ys == xs;
    } else {
      var init := ys[..|ys| - 1];
      assert (xs + ys)[..|xs + ys| - 1] == xs + init;
      FlatMapAppend(f, xs, init);
    }
  }

  lemma {:induction false} FlatMapTake<T, U>(f: T -> seq<U>, xs: seq<T>, n: nat)
    requires n < |xs|
    ensures FlatMap(f, xs[..n + 1]) == FlatMap(f, xs[..n]) + f(xs[n])
  {
    assert xs[..n + 1][..n] == xs[..n];
  }

  lemma FlatMapNothing<T, U>(f: T -> seq<U>)
    ensures FlatMap(f, []) == []
  {
  }

  lemma FlatMapSnoc<T, U>(f: T -> seq<U>, xs: seq<T>, x: T)
    ensures FlatMap(f, xs + [x]) == FlatMap(f, xs) + f(x)
  {
    assert (xs + [x])[..|xs|] == xs;
  }

  lemma FlatMapOne<T, U>(f: T -> seq<U>, x: T)
    ensures FlatMap(f, [x]) == f(x)
  {
    assert FlatMap(f, [x][..0]) == [];
  }

  /** FlatMap from the front, for proofs that consume a sequence from its head. */
  lemma {:induction false} FlatMapHead<T, U>(f: T -> seq<U>, xs: seq<T>)
    requires xs != []
    ensures FlatMap(f, xs) == f(xs[0]) + FlatMap(f, xs[1..])
  {
    assert xs == [xs[0]] + xs[1..];
    FlatMapAppend(f, [xs[0]], xs[1..]);
    FlatMapOne(f, xs[0]);
  }

  /** Where a stream of encoded elements is cut: after n of them and part of the next. */
  ghost predicate CutAt<T, U>(f: T -> seq<U>, xs: seq<T>, n: nat, s: seq<U>, rest: seq<U>) {
    && n <= |xs| && s == FlatMap(f, xs[..n]) + rest
    && if n < |xs| then |rest| < |f(xs[n])| && rest <= f(xs[n]) else rest == []
  }

  lemma {:induction false} CutExists<T(!new), U>(f: T -> seq<U>, xs: seq<T>, s: seq<U>) returns (n: nat, rest: seq<U>)
    requires s <= FlatMap(f, xs) && forall x :: x in xs ==> f(x) != []
    ensures CutAt(f, xs, n, s, rest)
  {
    if xs == [] {
      n, rest := 0, [];
    } else {
      var init, last := xs[..|xs| - 1], xs[|xs| - 1];
      var front := FlatMap(f, init);
      if |s| < |front| {
        assert s == (front + f(last))[..|s|] == front[..|s|];
        n, rest := CutExists(f, init, s);
        CutWithin(f, xs, n, s, rest);
      } else if |s| == |front + f(last)| {
        n, rest := |xs|, [];
        assert xs[..|xs|] == xs && s + [] == s;
      } else {
        n, rest := |xs| - 1, s[|front|..];
        assert s == front + rest && rest == f(last)[..|rest|];
      }
    }
  }

  lemma CutWithin<T, U>(f: T -> seq<U>, xs: seq<T>, n: nat, s: seq<U>, rest: seq<U>)
    requires xs != [] && CutAt(f, xs[..|xs| - 1], n, s, rest) && |s| < |FlatMap(f, xs[..|xs| - 1])|
    ensures CutAt(f, xs, n, s, rest)
  {
    var init := xs[..|xs| - 1];
    assert init[..|init|] == init;
    assert xs[..n] == init[..n];
  }

  function Flatten<T>(xss: seq<seq<T>>): seq<T> {
    if xss == [] then [] else Flatten(xss[..|xss| - 1]) + xss[|xss| - 1]
  }

  lemma {:induction false} FlattenAppend<T>(xss: seq<seq<T>>, yss: seq<seq<T>>)
    ensures Flatten(xss + yss) == Flatten(xss) + Flatten(yss)
  {
    if yss == [] {
      assert xss + yss == xss;
    } else {
      var init := yss[..|yss| - 1];
      assert (xss + yss)[..|xss + yss| - 1] == xss + init;
      FlattenAppend(xss, init);
    }
  }

  function Filter<T(!new)>(p: T -> bool, xs: seq<T>): (ys: seq<T>)
    ensures |ys| <= |xs|
    ensures forall x :: x in ys <==> x in xs && p(x)
  {
    if xs == [] then []
    else
      var rest := Filter(p, xs[..|xs| - 1]);
      if p(xs[|xs| - 1]) then rest + [xs[|xs| - 1]] else rest
  }

  lemma {:induction false} FilterAppend<T(!new)>(p: T -> bool, xs: seq<T>, ys: seq<T>)
    ensures Filter(p, xs + ys) == Filter(p, xs) + Filter(p, ys)
  {
    if ys == [] {
      assert xs + ys == xs;
    } else {
      var init := ys[..|ys| - 1];
      assert (xs + ys)[..|xs + ys| - 1] == xs + init;
      FilterAppend(p, xs, init);
    }
  }

  lemma FilterSnoc<T(!new)>(p: T -> bool, xs: seq<T>, x: T)
    ensures Filter(p, xs + [x]) == Filter(p, xs) + if p(x) then [x] else []
  {
    assert (xs + [x])[..|xs|] == xs;
  }

  lemma {:induction false} FilterTake<T(!new)>(p: T -> bool, xs: seq<T>, n: nat)
    requires n < |xs|
    ensures Filter(p, xs[..n + 1]) ==
            if p(xs[n]) then Filter(p, xs[..n]) + [xs[n]] else Filter(p, xs[..n])
  {
    assert xs[..n + 1][..n] == xs[..n];
  }

  lemma {:induction false} FilterAll<T(!new)>(p: T -> bool, xs: seq<T>)
    requires forall x :: x in xs ==> p(x)
    ensures Filter(p, xs) == xs
  {
    if xs != [] {
      FilterAll(p, xs[..|xs| - 1]);
    }
  }

  lemma {:induction false} FilterNone<T(!new)>(p: T -> bool, xs: seq<T>)
    requires forall x :: x in xs ==> !p(x)
    ensures Filter(p, xs) == []
  {
    if xs != [] {
      FilterNone(p, xs[..|xs| - 1]);
    }
  }

  function Count<T>(p: T -> bool, xs: seq<T>): (n: nat)
    ensures n <= |xs|
    ensures n == 0 <==> forall i :: 0 <= i < |xs| ==> !p(xs[i])
  {
    if xs == [] then 0
    else
      var rest := Count(p, xs[..|xs| - 1]);
      rest + if p(xs[|xs| - 1]) then 1 else 0
  }

  lemma CountSnoc<T>(p: T -> bool, xs: seq<T>, x: T)
    ensures Count(p, xs + [x]) == Count(p, xs) + if p(x) then 1 else 0
  {
    assert (xs + [x])[..|xs|] == xs;
  }

  lemma {:induction false} CountTake<T>(p: T -> bool, xs: seq<T>, n: nat)
    requires n < |xs|
    ensures Count(p, xs[..n + 1]) == Count(p, xs[..n]) + if p(xs[n]) then 1 else 0
  {
    assert xs[..n + 1][..n] == xs[..n];
  }

  lemma {:induction false} CountAppend<T>(p: T -> bool, xs: seq<T>, ys: seq<T>)
    ensures Count(p, xs + ys) == Count(p, xs) + Count(p, ys)
  {
    if ys == [] {
      assert xs + ys == xs;
    } else {
      var init := ys[..|ys| - 1];
      assert (xs + ys)[..|xs + ys| - 1] == xs + init;
      CountAppend(p, xs, init);
    }
  }

  lemma CountOne<T>(p: T -> bool, x: T)
    ensures Count(p, [x]) == if p(x) then 1 else 0
  {
    assert [x][..0] == [];
  }

  /** Keeps the first occurrence of every element, in order. */
  function Distinct<T(==,!new)>(xs: seq<T>): (ys: seq<T>)
    ensures forall x :: x in ys <==> x in xs
    ensures forall i, j :: 0 <= i < j < |ys| ==> ys[i] != ys[j]
  {
    if xs == [] then []
    else
      var rest := Distinct(xs[..|xs| - 1]);
      if xs[|xs| - 1] in xs[..|xs| - 1] then rest else rest + [xs[|xs| - 1]]
  }

  lemma DistinctSnoc<T(!new)>(xs: seq<T>, more: seq<T>)
    requires |more| <= 1
    ensures Distinct(xs + more) ==
            if more == [] || more[0] in Distinct(xs) then Distinct(xs) else Distinct(xs) + more
  {
    if more == [] {
      assert xs + more == xs;
    } else {
      assert (xs + more)[..|xs|] == xs;
    }
  }
}
