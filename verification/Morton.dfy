/** The 3 x 21 bit Morton codes of `clst/clst/morton.hpp`. */
module Morton {

  const LIMIT: bv64 := 0x200000              // 2^21

  function Pad2Bit(x0: bv64): bv64 {
    var x1 := (x0 | (x0 << 32)) & 0x001f00000000ffff;
    var x2 := (x1 | (x1 << 16)) & 0x001f0000ff0000ff;
    var x3 := (x2 | (x2 << 8)) & 0x100f00f00f00f00f;
    var x4 := (x3 | (x3 << 4)) & 0x10c30c30c30c30c3;
    (x4 | (x4 << 2)) & 0x1249249249249249
  }

  function Unpad2Bit(x0: bv64): bv64 {
    var x1 := (x0 | (x0 >> 2)) & 0x10c30c30c30c30c3;
    var x2 := (x1 | (x1 >> 4)) & 0x100f00f00f00f00f;
    var x3 := (x2 | (x2 >> 8)) & 0x001f0000ff0000ff;
    var x4 := (x3 | (x3 >> 16)) & 0x001f00000000ffff;
    (x4 | (x4 >> 32)) & 0x00000000001fffff
  }

  function Morton3d(x: bv64, y: bv64, z: bv64): bv64 {
    (Pad2Bit(x) << 2) | (Pad2Bit(y) << 1) | Pad2Bit(z)
  }

  function Demorton3d(code: bv64): (bv64, bv64, bv64) {
    (Unpad2Bit((code >> 2) & 0x1249249249249249),
     Unpad2Bit((code >> 1) & 0x1249249249249249),
     Unpad2Bit(code & 0x1249249249249249))
  }

  // ---- Shifts by a variable amount

  function ShiftedRight(c: bv64, k: bv64): bv64
    requires k <= 63
  {
    c >> k
  }

  lemma ShiftOnce(c: bv64, k: bv64)
    requires 0 < k <= 21
    ensures ShiftedRight(c, k) == ShiftedRight(c >> 1, k - 1)
  {}

  lemma NoShift(c: bv64)
    ensures ShiftedRight(c, 0) == c && ShiftedRight(c, 3 * 0) == c
  {}

  // ---- The code is the interleaving of the bits

  /** A code of higher bits followed by the lowest bits of x, y and z. */
  function Level(code: bv64, x: bv64, y: bv64, z: bv64): bv64 {
    (code << 3) | LowBits(x, y, z)
  }

  function LowBits(x: bv64, y: bv64, z: bv64): bv64 {
    ((x & 1) << 2) | ((y & 1) << 1) | (z & 1)
  }

  /** The definition: the lowest bits of x, y and z side by side, below the code of the remaining bits. */
  function Interleaved(x: bv64, y: bv64, z: bv64, bits: nat): bv64 {
    if bits == 0 then 0
    else Level(Interleaved(x >> 1, y >> 1, z >> 1, bits - 1), x, y, z)
  }

  /** x has at most `bits` bits. */
  predicate Fits(x: bv64, bits: nat)
    decreases bits
  {
    if bits == 0 then x == 0 else Fits(x >> 1, bits - 1)
  }

  /** The bit count as a number and as a shift amount. */
  predicate SameCount(bits: nat, k: bv64)
    decreases bits
  {
    if bits == 0 then k == 0 else k != 0 && SameCount(bits - 1, k - 1)
  }

  lemma {:induction false} ShiftedOutFits(x: bv64, bits: nat, k: bv64)
    requires k <= 21 && SameCount(bits, k) && ShiftedRight(x, k) == 0
    ensures Fits(x, bits)
  {
    hide ShiftedRight;
    if bits == 0 {
      NoShift(x);
    } else {
      ShiftOnce(x, k);
      ShiftedOutFits(x >> 1, bits - 1, k - 1);
    }
  }

  lemma BelowLimitFits(x: bv64)
    requires x < LIMIT
    ensures Fits(x, 21)
  {
    assert ShiftedRight(x, 21) == 0;
    hide Fits, ShiftedRight;
    assert SameCount(5, 5) by { assert SameCount(1, 1); assert SameCount(3, 3); }
    assert SameCount(9, 9) by { assert SameCount(7, 7); }
    assert SameCount(13, 13) by { assert SameCount(11, 11); }
    assert SameCount(17, 17) by { assert SameCount(15, 15); }
    assert SameCount(21, 21) by { assert SameCount(19, 19); }
    ShiftedOutFits(x, 21, 21);
  }

  lemma HalfBelow(x: bv64)
    requires x < LIMIT
    ensures x >> 1 < LIMIT
  {}

  lemma MortonOneLevel(x: bv64, y: bv64, z: bv64)
    requires x < LIMIT && y < LIMIT && z < LIMIT
    ensures Morton3d(x, y, z) == Level(Morton3d(x >> 1, y >> 1, z >> 1), x, y, z)
  {}

  lemma MortonOfZero()
    ensures Morton3d(0, 0, 0) == 0
  {}

  lemma {:induction false} MortonInterleavesBits(x: bv64, y: bv64, z: bv64, bits: nat)
    requires x < LIMIT && y < LIMIT && z < LIMIT
    requires Fits(x, bits) && Fits(y, bits) && Fits(z, bits)
    ensures Morton3d(x, y, z) == Interleaved(x, y, z, bits)
  {
    hide Morton3d, Level;
    if bits == 0 {
      MortonOfZero();
    } else {
      MortonOneLevel(x, y, z);
      HalfBelow(x); HalfBelow(y); HalfBelow(z);
      MortonInterleavesBits(x >> 1, y >> 1, z >> 1, bits - 1);
    }
  }

  /** For coordinates below 2^21 the magic masks compute the interleaving of the 3 x 21 bits. */
  lemma MortonInterleaves(x: bv64, y: bv64, z: bv64)
    requires x < LIMIT && y < LIMIT && z < LIMIT
    ensures Morton3d(x, y, z) == Interleaved(x, y, z, 21)
  {
    hide Morton3d, Interleaved, Fits;
    BelowLimitFits(x); BelowLimitFits(y); BelowLimitFits(z);
    MortonInterleavesBits(x, y, z, 21);
  }

  // ---- Round trips

  /** demorton_3d undoes morton_3d. */
  lemma MortonDemorton(x: bv64, y: bv64, z: bv64)
    requires x < LIMIT && y < LIMIT && z < LIMIT
    ensures Demorton3d(Morton3d(x, y, z)) == (x, y, z)
  {}

  /** morton_3d undoes demorton_3d on every code below 2^63. */
  lemma DemortonMorton(code: bv64)
    requires code < 0x8000000000000000
    ensures var (x, y, z) := Demorton3d(code); x < LIMIT && y < LIMIT && z < LIMIT && Morton3d(x, y, z) == code
  {}

  // ---- Order

  /** The code grows strictly with each coordinate. */
  lemma MonotoneInX(x: bv64, y: bv64, z: bv64, w: bv64)
    requires x < w && w < LIMIT && y < LIMIT && z < LIMIT
    ensures Morton3d(x, y, z) < Morton3d(w, y, z)
  {}

  lemma MonotoneInY(x: bv64, y: bv64, z: bv64, w: bv64)
    requires y < w && w < LIMIT && x < LIMIT && z < LIMIT
    ensures Morton3d(x, y, z) < Morton3d(x, w, z)
  {}

  lemma MonotoneInZ(x: bv64, y: bv64, z: bv64, w: bv64)
    requires z < w && w < LIMIT && x < LIMIT && y < LIMIT
    ensures Morton3d(x, y, z) < Morton3d(x, y, w)
  {}

  // ---- Prefixes

  lemma ShiftThrice(c: bv64, k: bv64)
    requires 0 < k <= 21
    ensures ShiftedRight(c, 3 * k) == ShiftedRight(c >> 3, 3 * (k - 1))
  {}

  lemma HalfIsShort(x: bv64)
    requires x < LIMIT
    ensures x >> 1 < 0x100000
  {}

  lemma ShortCode(x: bv64, y: bv64, z: bv64)
    requires x < 0x100000 && y < 0x100000 && z < 0x100000
    ensures Morton3d(x, y, z) < 0x1000000000000000
  {}

  lemma LevelDropped(code: bv64, x: bv64, y: bv64, z: bv64)
    requires code < 0x1000000000000000
    ensures Level(code, x, y, z) >> 3 == code
  {}

  lemma MortonParent(x: bv64, y: bv64, z: bv64)
    requires x < LIMIT && y < LIMIT && z < LIMIT
    ensures Morton3d(x, y, z) >> 3 == Morton3d(x >> 1, y >> 1, z >> 1)
  {
    hide Morton3d, Level;
    MortonOneLevel(x, y, z);
    HalfIsShort(x); HalfIsShort(y); HalfIsShort(z);
    ShortCode(x >> 1, y >> 1, z >> 1);
    LevelDropped(Morton3d(x >> 1, y >> 1, z >> 1), x, y, z);
  }

  /** Dropping the 3k lowest bits of a code is dropping the k lowest bits of each coordinate. */
  lemma {:induction false} MortonPrefix(x: bv64, y: bv64, z: bv64, k: bv64)
    requires x < LIMIT && y < LIMIT && z < LIMIT && k <= 21
    ensures ShiftedRight(Morton3d(x, y, z), 3 * k)
            == Morton3d(ShiftedRight(x, k), ShiftedRight(y, k), ShiftedRight(z, k))
    decreases k
  {
    hide Morton3d, ShiftedRight;
    if k == 0 {
      NoShift(x); NoShift(y); NoShift(z); NoShift(Morton3d(x, y, z));
    } else {
      MortonParent(x, y, z);
      HalfBelow(x); HalfBelow(y); HalfBelow(z);
      MortonPrefix(x >> 1, y >> 1, z >> 1, k - 1);
      ShiftThrice(Morton3d(x, y, z), k);
      ShiftOnce(x, k); ShiftOnce(y, k); ShiftOnce(z, k);
    }
  }
}
