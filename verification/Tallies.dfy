/** Counting the elements of a sequence by class, and adding up their weights. */
module Tallies {
  // ---- Counting

  function Classes<X, K>(xs: seq<X>, f: X -> K): seq<K> {
    seq(|xs|, i requires 0 <= i < |xs| => f(xs[i]))
  }

  /** How many elements of xs are of class k. */
  function Count<X, K(==)>(xs: seq<X>, f: X -> K, k: K): nat {
    multiset(Classes(xs, f))[k]
  }

  lemma CountUpdate<X, K>(xs: seq<X>, f: X -> K, i: nat, x: X)
    requires i < |xs|
    ensures Count(xs, f, f(xs[i])) > 0
    ensures forall k :: Count(xs[i := x], f, k)
                        == Count(xs, f, k) - (if f(xs[i]) == k then 1 else 0) + (if f(x) == k then 1 else 0)
  {
    assert Classes(xs[i := x], f) == Classes(xs, f)[i := f(x)];
    assert Classes(xs, f)[i] in Classes(xs, f);
  }

  lemma CountAppend<X, K>(xs: seq<X>, f: X -> K, x: X)
    ensures forall k :: Count(xs + [x], f, k) == Count(xs, f, k) + (if f(x) == k then 1 else 0)
  {
    assert Classes(xs + [x], f) == Classes(xs, f) + [f(x)];
  }

  /** Whatever is counted is there. */
  lemma CountPositive<X, K>(xs: seq<X>, f: X -> K, k: K) returns (i: nat)
    requires Count(xs, f, k) > 0
    ensures i < |xs| && f(xs[i]) == k
  {
    assert k in Classes(xs, f);
    i :| i < |xs| && Classes(xs, f)[i] == k;
  }

  lemma CountZero<X, K>(xs: seq<X>, f: X -> K, k: K)
    requires forall i | 0 <= i < |xs| :: f(xs[i]) != k
    ensures Count(xs, f, k) == 0
  {
    assert k !in Classes(xs, f);
  }

  /** When everything of class `from` moves on to class `to`. */
  lemma {:induction false} CountMoved<X, K>(xs: seq<X>, ys: seq<X>, f: X -> K, from: K, to: K)
    requires |xs| == |ys| && from != to
    requires forall i | 0 <= i < |xs| :: f(ys[i]) == if f(xs[i]) == from then to else f(xs[i])
    ensures Count(ys, f, from) == 0
    ensures Count(ys, f, to) == Count(xs, f, to) + Count(xs, f, from)
    ensures forall k :: k != from && k != to ==> Count(ys, f, k) == Count(xs, f, k)
  {
    if xs == [] {
      assert xs == ys;
    } else {
      var n := |xs| - 1;
      CountMoved(xs[..n], ys[..n], f, from, to);
      assert xs == xs[..n] + [xs[n]] && ys == ys[..n] + [ys[n]];
      CountAppend(xs[..n], f, xs[n]);
      CountAppend(ys[..n], f, ys[n]);
    }
  }

  // ---- Weighing

  function Sum<X>(xs: seq<X>, w: X -> nat): nat {
    if xs == [] then 0 else Sum(xs[..|xs| - 1], w) + w(xs[|xs| - 1])
  }

  lemma {:induction false} SumUpdate<X>(xs: seq<X>, w: X -> nat, i: nat, x: X)
    requires i < |xs|
    ensures Sum(xs[i := x], w) == Sum(xs, w) - w(xs[i]) + w(x)
  {
    var n := |xs| - 1;
    if i == n {
      assert xs[i := x][..n] == xs[..n];
    } else {
      assert xs[i := x][..n] == xs[..n][i := x];
      SumUpdate(xs[..n], w, i, x);
    }
  }

  lemma SumAppend<X>(xs: seq<X>, w: X -> nat, x: X)
    ensures Sum(xs + [x], w) == Sum(xs, w) + w(x)
  {
    assert (xs + [x])[..|xs|] == xs;
  }

  lemma {:induction false} SumSame<X>(xs: seq<X>, ys: seq<X>, w: X -> nat)
    requires |xs| == |ys| && forall i | 0 <= i < |xs| :: w(xs[i]) == w(ys[i])
    ensures Sum(xs, w) == Sum(ys, w)
  {
    if xs == [] {
    } else {
      SumSame(xs[..|xs| - 1], ys[..|xs| - 1], w);
    }
  }

  lemma {:induction false} SumBound<X>(xs: seq<X>, w: X -> nat, m: nat)
    requires forall i | 0 <= i < |xs| :: w(xs[i]) <= m
    ensures Sum(xs, w) <= m * |xs|
  {
    if xs == [] {
    } else {
      var n := |xs| - 1;
      SumBound(xs[..n], w, m);
      assert m * |xs| == m * n + m;
    }
  }

  lemma {:induction false} SumUniform<X>(xs: seq<X>, w: X -> nat, m: nat)
    requires forall i | 0 <= i < |xs| :: w(xs[i]) == m
    ensures Sum(xs, w) == m * |xs|
  {
    if xs == [] {
    } else {
      var n := |xs| - 1;
      SumUniform(xs[..n], w, m);
      assert m * |xs| == m * n + m;
    }
  }
}
