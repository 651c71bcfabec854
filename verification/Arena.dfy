/** The bump allocator of `clst/clst/arena.hpp`.  Addresses are the 64-bit integers that
    `reinterpret_cast<uintptr_t>` gives.  */
module Arenas {
  import opened Options
  import opened Arithmetic

  const WORD: nat := 0x1_0000_0000_0000_0000

  /** Bitwise and. */
  function BitAnd(x: nat, y: nat): nat {
    if x == 0 || y == 0 then 0 else (x % 2) * (y % 2) + 2 * BitAnd(x / 2, y / 2)
  }

  /** Unsigned negation of a 64-bit word. */
  function Negated(x: nat): nat
    requires x < WORD
  {
    (WORD - x) % WORD
  }

  function Pow2(n: nat): (p: nat)
    ensures p > 0
  {
    if n == 0 then 1 else 2 * Pow2(n - 1)
  }

  predicate Alignment(a: nat) {
    exists n :: 0 <= n <= 62 && a == Pow2(n)
  }

  lemma ModOfDouble(x: nat, p: nat)
    requires p > 0
    ensures x % (2 * p) == x % 2 + 2 * ((x / 2) % p)
  {
    var q, r := (x / 2) / p, (x / 2) % p;
    assert x / 2 == p * q + r;
    assert 2 * (p * q) == (2 * p) * q;
    ModIs(x, 2 * p, q, x % 2 + 2 * r);
  }

  lemma {:induction false} MaskIsMod(x: nat, n: nat)
    ensures BitAnd(x, Pow2(n) - 1) == x % Pow2(n)
  {
    if n == 0 {
    } else {
      var p := Pow2(n - 1);
      MaskIsMod(x / 2, n - 1);
      ModOfDouble(x, p);
      assert (2 * p - 1) / 2 == p - 1 && (2 * p - 1) % 2 == 1;
    }
  }

  lemma {:induction false} PowersMultiply(n: nat, k: nat)
    ensures Pow2(n) * Pow2(k) == Pow2(n + k)
  {
    if n == 0 {
    } else {
      PowersMultiply(n - 1, k);
      assert (2 * Pow2(n - 1)) * Pow2(k) == 2 * (Pow2(n - 1) * Pow2(k));
    }
  }

  lemma Pow2Of64()
    ensures Pow2(64) == WORD
  {
    assert Pow2(8) == 0x100;
    hide Pow2;
    PowersMultiply(8, 8);
    PowersMultiply(16, 16);
    PowersMultiply(32, 32);
  }

  lemma WordIsMultiple(n: nat)
    requires n <= 64
    ensures WORD == Pow2(n) * Pow2(64 - n)
  {
    hide Pow2;
    PowersMultiply(n, 64 - n);
    Pow2Of64();
  }

  function Gap(cur: nat, a: nat): nat
    requires a > 0
  {
    (a - cur % a) % a
  }

  /** The distance from `cur` up to the next multiple of a. */
  lemma GapReaches(cur: nat, a: nat) returns (k: nat)
    requires a > 0
    ensures Gap(cur, a) < a
    ensures cur + Gap(cur, a) == a * k && a * k < cur + a
  {
    var q, r := cur / a, cur % a;
    assert cur == a * q + r;
    if r == 0 {
      ModIs(a, a, 1, 0);
      k := q;
    } else {
      ModIs(a - r, a, 0, a - r);
      k := q + 1;
      assert a * (q + 1) == a * q + a;
    }
  }

  /** `cur + Gap` is the least multiple of a from `cur` on. */
  lemma GapIsLeast(cur: nat, a: nat, p: nat)
    requires a > 0 && cur <= p && p % a == 0
    ensures (cur + Gap(cur, a)) % a == 0
    ensures cur + Gap(cur, a) <= p
  {
    var k := GapReaches(cur, a);
    ModIs(a * k, a, k, 0);
    MultiplesApart(a, k, p / a, cur);
  }

  lemma MultiplesApart(a: nat, k: int, j: int, cur: int)
    requires a * k < cur + a && cur <= a * j
    ensures a * k <= a * j
  {
    if j < k {
      MulOrder(a, j + 1, k);
    } else {
      MulOrder(a, k, j);
    }
  }

  /** The masked negation is the padding, for every power of two. */
  lemma PadIsGap(cur: nat, n: nat)
    requires cur < WORD && n <= 64
    ensures BitAnd(Negated(cur), Pow2(n) - 1) == Gap(cur, Pow2(n))
  {
    hide Pow2, BitAnd;
    var a, m := Pow2(n), Pow2(64 - n);
    MaskIsMod(Negated(cur), n);
    if cur == 0 {
      ModIs(WORD, WORD, 1, 0);
      ModIs(0, a, 0, 0);
      ModIs(a, a, 1, 0);
    } else {
      NegatedGap(cur, a, m) by { WordIsMultiple(n); }
    }
  }

  lemma NegatedGap(cur: nat, a: nat, m: nat)
    requires 0 < cur < WORD && a > 0 && a * m == WORD
    ensures Negated(cur) % a == Gap(cur, a)
  {
    var k := GapReaches(cur, a);
    if k > m {
      MulOrder(a, m + 1, k);
    }
    assert a * (m - k) == a * m - a * k;
    ModIs(a * (m - k) + Gap(cur, a), a, m - k, Gap(cur, a));
    assert WORD - cur == a * (m - k) + Gap(cur, a);
  }

  // ---- The allocator

  /** A block that was handed out: `pad` bytes skipped, then `size` bytes from `addr` on. */
  datatype Block = Block(pad: nat, addr: nat, size: nat)

  /** The blocks lie end to end, pads included, between `from` and `to`. */
  predicate Chained(blocks: seq<Block>, from: nat, to: nat) {
    if blocks == [] then from == to
    else
      var last := blocks[|blocks| - 1];
      to == last.addr + last.size && last.addr >= last.pad
      && Chained(blocks[..|blocks| - 1], from, last.addr - last.pad)
  }

  function Spent(blocks: seq<Block>): nat {
    if blocks == [] then 0
    else Spent(blocks[..|blocks| - 1]) + blocks[|blocks| - 1].pad + blocks[|blocks| - 1].size
  }

  /** Blocks handed out over any sequence of allocations are in range, pairwise disjoint and in address order, and
      the bytes they and their pads cost are exactly the way the cursor has gone.  */
  lemma {:induction false} ChainedBlocks(blocks: seq<Block>, from: nat, to: nat)
    requires Chained(blocks, from, to)
    ensures from <= to && Spent(blocks) == to - from
    ensures forall i | 0 <= i < |blocks| :: from <= blocks[i].addr && blocks[i].addr + blocks[i].size <= to
    ensures forall i, j | 0 <= i < j < |blocks| :: blocks[i].addr + blocks[i].size <= blocks[j].addr
  {
    if blocks == [] {
    } else {
      var n := |blocks| - 1;
      ChainedBlocks(blocks[..n], from, blocks[n].addr - blocks[n].pad);
      assert forall i | 0 <= i < n :: blocks[i] == blocks[..n][i];
    }
  }

  class Arena {
    var cur: nat
    const end: nat
    ghost const start: nat
    ghost var blocks: seq<Block>

    ghost predicate Valid()
      reads this
    {
      start <= cur <= end < WORD && Chained(blocks, start, cur)
    }

    constructor (begin: nat, end: nat)
      requires begin <= end < WORD
      ensures Valid() && start == cur == begin && this.end == end && blocks == []
    {
      cur, this.end, start := begin, end, begin;
      blocks := [];
    }

    /** None stands for the null pointer. */
    method Allocate(size: nat, alignment: nat) returns (p: Option<nat>)
      requires Valid() && Alignment(alignment)
      modifies this
      ensures Valid()
      ensures p.Some? ==>
                && p.value % alignment == 0 && old(cur) <= p.value && p.value + size == cur
                && (forall q: nat :: old(cur) <= q && q % alignment == 0 ==> p.value <= q)
                && blocks == old(blocks) + [Block(p.value - old(cur), p.value, size)]
      ensures p == None ==> cur == old(cur) && blocks == old(blocks)
      ensures p == None <==> !exists q: nat :: old(cur) <= q && q % alignment == 0 && q + size <= end
    {
      hide Pow2, BitAnd;
      ghost var n :| 0 <= n <= 62 && alignment == Pow2(n);
      var pad := BitAnd(Negated(cur), alignment - 1);
      PadIsGap(cur, n);
      forall q: nat | cur <= q && q % alignment == 0 ensures cur + pad <= q {
        GapIsLeast(cur, alignment, q);
      }
      GapAligns(cur, alignment);
      if end - cur < pad + size {
        return None;
      }
      var addr := cur + pad;
      blocks := blocks + [Block(pad, addr, size)];
      assert blocks[..|blocks| - 1] == old(blocks);
      cur := addr + size;
      p := Some(addr);
    }

    method Capacity() returns (n: nat)
      requires Valid()
      ensures n + Spent(blocks) == end - start
    {
      ChainedBlocks(blocks, start, cur);
      n := end - cur;
    }
  }

  lemma GapAligns(cur: nat, a: nat)
    requires a > 0
    ensures (cur + Gap(cur, a)) % a == 0
  {
    var k := GapReaches(cur, a);
    ModIs(a * k, a, k, 0);
  }
}
