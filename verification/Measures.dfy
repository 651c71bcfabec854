/** The two facts about products and remainders that the other modules share. */
module Arithmetic {
  lemma MulOrder(a: nat, b: int, c: int)
    requires b <= c
    ensures a * b <= a * c
  {
    assert a * (c - b) >= 0;
    assert a * (c - b) == a * c - a * b;
  }

  lemma ModIs(x: int, m: nat, q: int, r: nat)
    requires r < m && x == m * q + r
    ensures x % m == r
  {
    var d, e := x / m, x % m;
    assert x == m * d + e;
    if d > q {
      MulOrder(m, q + 1, d);
    } else if d < q {
      MulOrder(m, d + 1, q);
    }
  }
}

/** Arithmetic of the step bounds: how a lexicographic pair and a budget of calls become one number. */
module Measures {
  import opened Arithmetic

  /** With a' below n, a pair that falls lexicographically makes w * n + a fall. */
  lemma Lexicographic(w: nat, w': nat, a: nat, a': nat, n: nat)
    requires a' < n
    requires w' < w || (w' == w && a' < a)
    ensures w' * n + a' < w * n + a
  {
    if w' < w {
      MulOrder(n, w', w - 1);
      assert (w - 1) * n == w * n - n;
    }
  }

  /** A call adds at most k to w and is paid for by the budget b. */
  lemma BudgetPays(w: nat, w': nat, k: nat, b: nat, n: nat)
    requires w' <= w + k && b > 0
    ensures w' * n + (b - 1) * (k * n + 1) < w * n + b * (k * n + 1)
  {
    MulOrder(n, w', w + k);
    assert (w + k) * n == w * n + k * n;
    assert (b - 1) * (k * n + 1) == b * (k * n + 1) - (k * n + 1);
  }
}
