// Facts about sequences the ingestion modules share.
module Sequences {

  // ---- slices ----

  lemma TailGrows<T>(s: seq<T>, k: nat)
    requires k < |s|
    ensures s[k..] == [s[k]] + s[k + 1..]
  {
  }

  lemma SliceGrows<T>(s: seq<T>, a: nat, b: nat)
    requires a <= b < |s|
    ensures s[a..b + 1] == s[a..b] + [s[b]]
  {
  }

  lemma SliceAt<T>(s: seq<T>, a: nat, b: nat, i: nat)
    requires a <= a + i < b <= |s|
    ensures s[a..b][i] == s[a + i]
  {
  }

  lemma SliceOfSlice<T>(s: seq<T>, a: nat, b: nat, i: nat)
    requires a <= b <= |s| && i <= b - a
    ensures s[a..b][i..] == s[a + i..b]
  {
  }

  lemma LastApart<T>(a: seq<T>, b: seq<T>)
    requires b != []
    ensures a + b == (a + b[..|b| - 1]) + [b[|b| - 1]]
    ensures b == b[..|b| - 1] + [b[|b| - 1]]
  {
  }

  lemma InThree<T>(s: seq<T>, a: nat, b: nat, c: nat)
    requires a <= b <= c <= |s|
    ensures s[a..] == s[a..b] + s[b..c] + s[c..]
  {
  }

  // ---- flattening ----

  // The sequences `a` up to but not including `b`, one after the other.
  function Flat<T>(held: seq<seq<T>>, a: nat, b: nat): seq<T>
    requires a <= b <= |held|
  {
    if a == b then [] else Flat(held, a, b - 1) + held[b - 1]
  }

  lemma {:induction false} FlatAgrees<T>(x: seq<seq<T>>, a: nat, y: seq<seq<T>>, b: nat, n: nat)
    requires a + n <= |x| && b + n <= |y|
    requires forall i | a <= i < a + n :: x[i] == y[b + (i - a)]
    ensures Flat(x, a, a + n) == Flat(y, b, b + n)
  {
    if n > 0 {
      FlatAgrees(x, a, y, b, n - 1);
      assert x[a + n - 1] == y[b + n - 1];
    }
  }

  lemma Associates<T>(x: seq<T>, y: seq<T>, z: seq<T>)
    ensures x + (y + z) == (x + y) + z
  {
  }

  lemma {:induction false} FlatSplits<T>(held: seq<seq<T>>, a: nat, b: nat, c: nat)
    requires a <= b <= c <= |held|
    ensures Flat(held, a, c) == Flat(held, a, b) + Flat(held, b, c)
  {
    if b < c {
      FlatSplits(held, a, b, c - 1);
      Associates(Flat(held, a, b), Flat(held, b, c - 1), held[c - 1]);
    }
  }

  function Drop<T>(s: seq<T>, n: nat): seq<T> {
    if n <= |s| then s[n..] else []
  }

  lemma DropPrefix<T>(x: seq<T>, y: seq<T>)
    ensures Drop(x + y, |x|) == y
  {
  }

  // ---- mapping ----

  function Each<S, T>(f: S -> T, s: seq<S>): (r: seq<T>)
    ensures |r| == |s| && forall i | 0 <= i < |s| :: r[i] == f(s[i])
  {
    seq(|s|, i requires 0 <= i < |s| => f(s[i]))
  }

  lemma AllButLast<T>(s: seq<T>)
    requires s != []
    ensures s == s[..|s| - 1] + [s[|s| - 1]]
  {
  }

  // What `f` gives for each element, one after the other.
  function FlatMap<S, T>(f: S -> seq<T>, s: seq<S>): seq<T> {
    Flat(Each(f, s), 0, |s|)
  }

  lemma FlatMapStep<S, T>(f: S -> seq<T>, s: seq<S>, x: S)
    ensures FlatMap(f, s + [x]) == FlatMap(f, s) + f(x)
  {
    var each := Each(f, s + [x]);
    assert each[|s|] == f(x);
    FlatAgrees(Each(f, s), 0, each, 0, |s|);
  }

  lemma EachOfConcat<S, T>(f: S -> T, s: seq<S>, t: seq<S>)
    ensures Each(f, s + t) == Each(f, s) + Each(f, t)
  {
  }

  lemma FlatOfLeft<T>(x: seq<seq<T>>, y: seq<seq<T>>)
    ensures Flat(x + y, 0, |x|) == Flat(x, 0, |x|)
  {
    FlatAgrees(x, 0, x + y, 0, |x|);
  }

  lemma FlatOfRight<T>(x: seq<seq<T>>, y: seq<seq<T>>)
    ensures Flat(x + y, |x|, |x + y|) == Flat(y, 0, |y|)
  {
    FlatAgrees(y, 0, x + y, |x|, |y|);
  }

  lemma FlatOfConcat<T>(x: seq<seq<T>>, y: seq<seq<T>>)
    ensures Flat(x + y, 0, |x + y|) == Flat(x, 0, |x|) + Flat(y, 0, |y|)
  {
    FlatSplits(x + y, 0, |x|, |x + y|);
    FlatOfLeft(x, y);
    FlatOfRight(x, y);
  }

  lemma FlatMapOfConcat<S, T>(f: S -> seq<T>, s: seq<S>, t: seq<S>)
    ensures FlatMap(f, s + t) == FlatMap(f, s) + FlatMap(f, t)
  {
    EachOfConcat(f, s, t);
    FlatOfConcat(Each(f, s), Each(f, t));
  }

  lemma FlatMapOfSlice<S, T>(f: S -> seq<T>, s: seq<S>, a: nat, b: nat)
    requires a <= b <= |s|
    ensures FlatMap(f, s[a..b]) == Flat(Each(f, s), a, b)
  {
    var part, each := Each(f, s[a..b]), Each(f, s);
    forall i | 0 <= i < b - a ensures part[i] == each[a + (i - 0)] {
      SliceAt(s, a, b, i);
    }
    FlatAgrees(part, 0, each, a, b - a);
  }
}
