/** Numbers as bytes: the digits of a number in base 256, in either order. */
module Digits {
  import opened Arithmetic

  type Byte = x: int | 0 <= x < 256

  datatype Endian = LE | BE

  function Pow256(n: nat): (p: nat)
    ensures p > 0
  {
    if n == 0 then 1 else 256 * Pow256(n - 1)
  }

  /** The n lowest digits of v, lowest first.  Division and remainder round down, so that a negative v has the digits
      of its two's complement.  */
  function LowDigits(v: int, n: nat): (ds: seq<Byte>)
    ensures |ds| == n
    decreases n
  {
    if n == 0 then [] else [v % 256] + LowDigits(v / 256, n - 1)
  }

  function Value(ds: seq<Byte>): nat {
    if ds == [] then 0 else ds[0] + 256 * Value(ds[1..])
  }

  function Reverse(s: seq<Byte>): (r: seq<Byte>)
    ensures |r| == |s|
    ensures forall i | 0 <= i < |s| :: r[i] == s[|s| - 1 - i]
  {
    seq(|s|, i requires 0 <= i < |s| => s[|s| - 1 - i])
  }

  function InOrder(ds: seq<Byte>, e: Endian): (bs: seq<Byte>)
    ensures |bs| == |ds|
  {
    if e == LE then ds else Reverse(ds)
  }

  /** The n lowest bytes of v in the order e. */
  function Encoded(v: int, n: nat, e: Endian): (bs: seq<Byte>)
    ensures |bs| == n
  {
    InOrder(LowDigits(v, n), e)
  }

  function Decoded(bs: seq<Byte>, e: Endian): nat {
    Value(InOrder(bs, e))
  }

  /** The two's complement reading of an n-byte number. */
  function AsSigned(u: nat, n: nat): int {
    if 2 * u >= Pow256(n) then u - Pow256(n) else u
  }

  lemma ModOfDigit(v: int, p: nat)
    requires p > 0
    ensures v % (256 * p) == v % 256 + 256 * ((v / 256) % p)
  {
    var q, r := (v / 256) / p, (v / 256) % p;
    assert v / 256 == p * q + r;
    assert 256 * (p * q) == (256 * p) * q;
    ModIs(v, 256 * p, q, v % 256 + 256 * r);
  }

  /** The digits are those of v mod 256^n. */
  lemma {:induction false} ValueOfDigits(v: int, n: nat)
    ensures Value(LowDigits(v, n)) == v % Pow256(n)
    decreases n
  {
    if n == 0 {
    } else {
      ValueOfDigits(v / 256, n - 1);
      ModOfDigit(v, Pow256(n - 1));
    }
  }

  lemma FirstDigit(d: Byte, rest: nat)
    ensures (d + 256 * rest) % 256 == d && (d + 256 * rest) / 256 == rest
  {}

  lemma {:induction false} DigitsOfValue(ds: seq<Byte>)
    ensures LowDigits(Value(ds), |ds|) == ds
    ensures Value(ds) < Pow256(|ds|)
  {
    if ds == [] {
    } else {
      DigitsOfValue(ds[1..]);
      FirstDigit(ds[0], Value(ds[1..]));
      assert Value(ds) == ds[0] + 256 * Value(ds[1..]);
      assert LowDigits(Value(ds), |ds|) == [Value(ds) % 256] + LowDigits(Value(ds) / 256, |ds| - 1);
      assert ds == [ds[0]] + ds[1..];
    }
  }

  lemma ReverseTwice(s: seq<Byte>)
    ensures Reverse(Reverse(s)) == s
  {}

  /** Decoding an encoded number gives it back modulo 256^n, for every order. */
  lemma DecodedEncoded(v: int, n: nat, e: Endian)
    ensures Decoded(Encoded(v, n, e), e) == v % Pow256(n)
  {
    ValueOfDigits(v, n);
    ReverseTwice(LowDigits(v, n));
  }

  lemma EncodedDecoded(bs: seq<Byte>, e: Endian)
    ensures Encoded(Decoded(bs, e), |bs|, e) == bs && Decoded(bs, e) < Pow256(|bs|)
  {
    DigitsOfValue(InOrder(bs, e));
    ReverseTwice(bs);
  }

  /** At full width a signed number comes back itself. */
  lemma SignedRoundTrip(v: int, n: nat, e: Endian)
    requires 0 <= 2 * v + Pow256(n) && 2 * v < Pow256(n)
    ensures AsSigned(Decoded(Encoded(v, n, e), e), n) == v
  {
    hide Encoded, Decoded, Pow256;
    DecodedEncoded(v, n, e);
    var p := Pow256(n);
    if v >= 0 {
      ModIs(v, p, 0, v);
    } else {
      ModIs(v, p, -1, v + p);
    }
  }

  lemma UnsignedRoundTrip(v: nat, n: nat)
    requires v < Pow256(n)
    ensures v % Pow256(n) == v
  {
    ModIs(v, Pow256(n), 0, v);
  }

  /** The order of the bytes: the lowest digit comes first in one order and last in the other. */
  lemma LowestByte(v: int, n: nat)
    requires n > 0
    ensures Encoded(v, n, LE)[0] == v % 256 && Encoded(v, n, BE)[n - 1] == v % 256
    ensures Encoded(v, n, LE)[1..] == Encoded(v / 256, n - 1, LE)
    ensures Encoded(v, n, BE)[..n - 1] == Encoded(v / 256, n - 1, BE)
  {
    var high := LowDigits(v / 256, n - 1);
    assert LowDigits(v, n) == [v % 256] + high;
    forall i | 0 <= i < n - 1 ensures Encoded(v, n, BE)[i] == Encoded(v / 256, n - 1, BE)[i] {
      assert LowDigits(v, n)[n - 1 - i] == high[n - 2 - i];
    }
  }

  // ---- The bytes of an object in memory

  /** Where the b lowest bytes of a w-byte object begin on the host. */
  function LowOffset(w: nat, b: nat, host: Endian): nat
    requires b <= w
  {
    if host == LE then 0 else w - b
  }

  lemma {:induction false} DigitsPrefix(v: int, w: nat, b: nat)
    requires b <= w
    ensures LowDigits(v, w)[..b] == LowDigits(v, b)
    decreases w
  {
    if b == 0 {
    } else {
      DigitsPrefix(v / 256, w - 1, b - 1);
      assert LowDigits(v, w)[..b] == [v % 256] + LowDigits(v / 256, w - 1)[..b - 1];
    }
  }

  /** The part of an object that write_num sends is its b lowest bytes, in the order of the host. */
  lemma LowBytes(v: int, w: nat, b: nat, host: Endian)
    requires b <= w
    ensures Encoded(v, w, host)[LowOffset(w, b, host)..LowOffset(w, b, host) + b] == Encoded(v, b, host)
  {
    DigitsPrefix(v, w, b);
    if host == BE {
      forall i | 0 <= i < b
        ensures Encoded(v, w, host)[w - b..][i] == Encoded(v, b, host)[i]
      {
        assert Encoded(v, w, host)[w - b + i] == LowDigits(v, w)[b - 1 - i] == LowDigits(v, w)[..b][b - 1 - i];
      }
      assert Encoded(v, w, host)[w - b..w] == Encoded(v, w, host)[w - b..];
    }
  }

  /** Turning bytes around when the orders differ. */
  lemma OtherOrder(v: int, b: nat, host: Endian, e: Endian)
    ensures Encoded(v, b, e) == if e == host then Encoded(v, b, host) else Reverse(Encoded(v, b, host))
  {
    ReverseTwice(LowDigits(v, b));
  }

  lemma {:induction false} HighDigitsZero(u: nat, b: nat, w: nat)
    requires b <= w && u < Pow256(b)
    ensures LowDigits(u, w) == LowDigits(u, b) + seq(w - b, _ => 0)
  {
    if b == 0 {
      ZeroDigits(w);
    } else {
      HighDigitsZero(u / 256, b - 1, w - 1);
    }
  }

  lemma {:induction false} ZeroDigits(w: nat)
    ensures LowDigits(0, w) == seq(w, _ => 0)
  {
    if w == 0 {
    } else {
      ZeroDigits(w - 1);
      assert seq(w, _ => 0) == [0] + seq(w - 1, _ => 0);
    }
  }

  /** A zeroed object with its low bytes filled in is the encoding of the number they spell. */
  lemma FilledObject(u: nat, b: nat, w: nat, host: Endian)
    requires b <= w && u < Pow256(b)
    ensures Encoded(u, w, host)
            == if host == LE then Encoded(u, b, host) + seq(w - b, _ => 0) else seq(w - b, _ => 0) + Encoded(u, b, host)
  {
    HighDigitsZero(u, b, w);
  }
}
