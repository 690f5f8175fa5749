/** Bits of numbers and of byte strings. A string has its bit 0 in front: the most
    significant bit of the first byte. Unsigned machine words are naturals. */
module Bits {
  type byte = b: nat | b < 256

  function Pow2(n: nat): (p: nat)
    ensures p > 0
  {
    if n == 0 then 1 else 2 * Pow2(n - 1)
  }

  lemma {:induction false} Pow2Add(a: nat, b: nat)
    ensures Pow2(a + b) == Pow2(a) * Pow2(b)
  {
    if a > 0 {
      Pow2Add(a - 1, b);
      assert Pow2(a + b) == 2 * (Pow2(a - 1) * Pow2(b)) == Pow2(a) * Pow2(b);
    }
  }

  lemma {:induction false} Pow2Less(a: nat, b: nat)
    requires a < b
    ensures 2 * Pow2(a) <= Pow2(b)
  {
    if b > a + 1 { Pow2Less(a, b - 1); }
  }

  lemma Pow2Values()
    ensures Pow2(8) == 256 && Pow2(16) == 0x1_0000 && Pow2(32) == 0x1_0000_0000
    ensures Pow2(64) == 0x1_0000_0000_0000_0000 && Pow2(63) == 0x8000_0000_0000_0000
  {
    assert Pow2(8) == 256 && Pow2(1) == 2;
    hide Pow2;
    Pow2Add(8, 8);
    Pow2Add(16, 16);
    Pow2Add(32, 32);
    Pow2Add(63, 1);
  }

  // ------------------------------------------------------------------ bits of numbers

  // Bit i of x, the least significant one being 0.
  function Bit(x: nat, i: nat): (b: nat)
    ensures b < 2
  {
    (x / Pow2(i)) % 2
  }

  lemma BitHalf(x: nat, i: nat)
    ensures Bit(x, i + 1) == Bit(x / 2, i) && Bit(x, 0) == x % 2
  {
    HalfDiv(x, Pow2(i));
  }

  lemma HalfDiv(x: nat, p: nat)
    requires p > 0
    ensures x / (2 * p) == (x / 2) / p
  {
    var s, t := (x / 2) / p, (x / 2) % p;
    DivMod(x / 2, p);
    Double(p, s);
    DivIs(x, 2 * p, s, 2 * t + x % 2);
  }

  lemma DivMod(x: nat, p: nat)
    requires p > 0
    ensures x == p * (x / p) + x % p && x % p < p
  {
  }

  lemma Double(p: int, f: int)
    ensures (2 * p) * f == 2 * (p * f)
  {
  }

  lemma DivIs(x: nat, d: nat, q: nat, r: nat)
    requires d > 0 && x == d * q + r && r < d
    ensures x / d == q && x % d == r
  {
    DivMod(x, d);
    var p := x / d;
    if p > q { MulLess(d, q, p - q); }
    if q > p { MulLess(d, p, q - p); }
  }

  lemma MulLess(d: nat, q: nat, e: nat)
    requires e > 0
    ensures d * (q + e) >= d * q + d
  {
    assert d * (e - 1) >= 0;
    assert d * (q + e) == d * q + d * (e - 1) + d;
  }

  // Twice a number and a bit more, halved.
  lemma Halve(h: nat, q: nat, d: nat)
    ensures ((2 * h) * q + d) / 2 == h * q + d / 2 && ((2 * h) * q + d) % 2 == d % 2
  {
    Double(h, q);
  }

  lemma {:induction false} SameBits(x: nat, y: nat, n: nat)
    requires x < Pow2(n) && y < Pow2(n)
    requires forall i: nat | i < n :: Bit(x, i) == Bit(y, i)
    ensures x == y
  {
    if n > 0 {
      BitHalf(x, 0);
      BitHalf(y, 0);
      forall i: nat | i < n - 1
        ensures Bit(x / 2, i) == Bit(y / 2, i)
      {
        BitHalf(x, i);
        BitHalf(y, i);
        assert Bit(x, i + 1) == Bit(y, i + 1);
      }
      SameBits(x / 2, y / 2, n - 1);
      assert Bit(x, 0) == Bit(y, 0);
    }
  }

  lemma {:induction false} AllOnes(n: nat, j: nat)
    requires j < n
    ensures Bit(Pow2(n) - 1, j) == 1
  {
    hide Bit;
    var x := Pow2(n) - 1;
    assert x / 2 == Pow2(n - 1) - 1 && x % 2 == 1;
    BitHalf(x, if j == 0 then 0 else j - 1);
    if j > 0 { AllOnes(n - 1, j - 1); }
  }

  // --------------------------------------------------------------- writing one bit

  // b &= ~(1 << k); b |= v << k.
  function PutBit(b: nat, k: nat, v: nat): int { b - Bit(b, k) * Pow2(k) + v * Pow2(k) }

  lemma {:induction false} PutBitFacts(b: nat, k: nat, v: nat)
    requires v < 2
    ensures PutBit(b, k, v) >= 0
    ensures forall j: nat :: Bit(PutBit(b, k, v), j) == if j == k then v else Bit(b, j)
  {
    hide Bit;
    if k == 0 {
      BitHalf(b, 0);
      var r := PutBit(b, 0, v);
      assert r == 2 * (b / 2) + v;
      forall j: nat
        ensures Bit(r, j) == if j == 0 then v else Bit(b, j)
      {
        if j > 0 { BitHalf(r, j - 1); BitHalf(b, j - 1); } else { BitHalf(r, 0); }
      }
    } else {
      PutBitFacts(b / 2, k - 1, v);
      PutBitHalf(b, k - 1, v);
      var r, h := PutBit(b, k, v), PutBit(b / 2, k - 1, v);
      forall j: nat
        ensures Bit(r, j) == if j == k then v else Bit(b, j)
      {
        if j > 0 { BitHalf(r, j - 1); BitHalf(b, j - 1); } else { BitHalf(r, 0); BitHalf(b, 0); }
      }
    }
  }

  lemma PutBitHalf(b: nat, k: nat, v: nat)
    ensures PutBit(b, k + 1, v) == 2 * PutBit(b / 2, k, v) + b % 2
  {
    hide Bit;
    BitHalf(b, k);
    var p, x := Pow2(k), Bit(b, k + 1);
    assert Pow2(k + 1) == 2 * p;
    Double(p, x);
    Double(p, v);
    assert x * (2 * p) == 2 * (x * p) && v * (2 * p) == 2 * (v * p);
  }

  // Bits from n on are zero exactly for numbers below 2 to the n.
  lemma {:induction false} HighBits(x: nat, n: nat)
    requires forall j: nat | j >= n :: Bit(x, j) == 0
    ensures x < Pow2(n)
  {
    hide Bit;
    if n == 0 {
      ZeroIfNoBits(x);
    } else {
      forall j: nat | j >= n - 1
        ensures Bit(x / 2, j) == 0
      {
        BitHalf(x, j);
        assert Bit(x, j + 1) == 0;
      }
      HighBits(x / 2, n - 1);
    }
  }

  lemma {:induction false} ZeroIfNoBits(x: nat)
    requires forall j: nat :: Bit(x, j) == 0
    ensures x == 0
  {
    hide Bit;
    if x > 0 {
      assert Bit(x, 0) == 0;
      BitHalf(x, 0);
      forall j: nat
        ensures Bit(x / 2, j) == 0
      {
        BitHalf(x, j);
        assert Bit(x, j + 1) == 0;
      }
      ZeroIfNoBits(x / 2);
    }
  }

  lemma {:induction false} NoHighBits(x: nat, n: nat, j: nat)
    requires x < Pow2(n) && j >= n
    ensures Bit(x, j) == 0
  {
    if n == 0 {
      ZeroBit(j);
    } else {
      BitHalf(x, j - 1);
      NoHighBits(x / 2, n - 1, j - 1);
    }
  }

  // --------------------------------------------------------- pointwise operations

  datatype BitOp = And | Or | Xor

  function Op1(op: BitOp, a: nat, b: nat): (r: nat)
    requires a < 2 && b < 2
    ensures r < 2
  {
    match op
    case And => if a == 1 && b == 1 then 1 else 0
    case Or => if a == 1 || b == 1 then 1 else 0
    case Xor => if a != b then 1 else 0
  }

  function Bitwise(op: BitOp, x: nat, y: nat): nat {
    if x == 0 && y == 0 then 0 else 2 * Bitwise(op, x / 2, y / 2) + Op1(op, x % 2, y % 2)
  }

  // The operation is done apart on high and low digits of any base that is a power of two.
  lemma {:induction false} BitwiseSplit(op: BitOp, n: nat, q: nat, d: nat, r: nat, m: nat)
    requires d < Pow2(n) && m < Pow2(n)
    ensures Bitwise(op, Pow2(n) * q + d, Pow2(n) * r + m) == Pow2(n) * Bitwise(op, q, r) + Bitwise(op, d, m)
    ensures Bitwise(op, d, m) < Pow2(n)
  {
    hide Bitwise, Op1;
    if n > 0 {
      var h := Pow2(n - 1);
      assert Pow2(n) == 2 * h;
      BitwiseSplit(op, n - 1, q, d / 2, r, m / 2);
      hide Pow2;
      BitwiseDigit(op, h, q, d, r, m);
    } else {
      BitwiseZero(op);
      assert Pow2(0) == 1;
    }
  }

  // From digits of base h to digits of base 2h.
  lemma BitwiseDigit(op: BitOp, h: nat, q: nat, d: nat, r: nat, m: nat)
    requires Bitwise(op, h * q + d / 2, h * r + m / 2) == h * Bitwise(op, q, r) + Bitwise(op, d / 2, m / 2)
    ensures Bitwise(op, (2 * h) * q + d, (2 * h) * r + m) == (2 * h) * Bitwise(op, q, r) + Bitwise(op, d, m)
    ensures Bitwise(op, d, m) <= 2 * Bitwise(op, d / 2, m / 2) + 1
  {
    hide Bitwise, Op1;
    Halve(h, q, d);
    Halve(h, r, m);
    Double(h, Bitwise(op, q, r));
    BitwiseCarry(op, (2 * h) * q + d, (2 * h) * r + m, d, m, h * Bitwise(op, q, r));
  }

  lemma BitwiseZero(op: BitOp)
    ensures Bitwise(op, 0, 0) == 0
  {
  }

  // One more bit below the digits; high is what the digits above contribute.
  lemma BitwiseCarry(op: BitOp, x: nat, y: nat, d: nat, m: nat, high: nat)
    requires x % 2 == d % 2 && y % 2 == m % 2
    requires Bitwise(op, x / 2, y / 2) == high + Bitwise(op, d / 2, m / 2)
    ensures Bitwise(op, x, y) == 2 * high + Bitwise(op, d, m)
    ensures Bitwise(op, d, m) <= 2 * Bitwise(op, d / 2, m / 2) + 1
  {
    hide Bitwise, Op1;
    BitwiseStep(op, x, y);
    BitwiseStep(op, d, m);
  }

  lemma BitwiseStep(op: BitOp, x: nat, y: nat)
    ensures Bitwise(op, x, y) == 2 * Bitwise(op, x / 2, y / 2) + Op1(op, x % 2, y % 2)
  {
    if x == 0 && y == 0 { assert Bitwise(op, 0, 0) == 0; }
  }

  // ------------------------------------------------------------- bits of byte strings

  /** Bit i of a string; beyond its end all bits are zero. */
  function BitAt(s: seq<byte>, i: nat): (b: nat)
    ensures b < 2
  {
    if i / 8 < |s| then Bit(s[i / 8], 7 - i % 8) else 0
  }

  /** The number written in n bits from a position on, most significant bit first. */
  function Field(s: seq<byte>, offset: nat, n: nat): nat {
    if n == 0 then 0 else 2 * Field(s, offset, n - 1) + BitAt(s, offset + n - 1)
  }

  lemma {:induction false} FieldLess(s: seq<byte>, offset: nat, n: nat)
    ensures Field(s, offset, n) < Pow2(n)
  {
    if n > 0 { FieldLess(s, offset, n - 1); }
  }

  ghost predicate SameFrom(s: seq<byte>, offset: nat, t: seq<byte>, start: nat, i: nat) {
    BitAt(s, offset + i) == BitAt(t, start + i)
  }

  lemma {:induction false} SameField(s: seq<byte>, offset: nat, t: seq<byte>, start: nat, n: nat)
    requires forall i: nat | i < n :: SameFrom(s, offset, t, start, i)
    ensures Field(s, offset, n) == Field(t, start, n)
  {
    if n > 0 {
      SameField(s, offset, t, start, n - 1);
      assert SameFrom(s, offset, t, start, n - 1);
    }
  }

  /** The bits of the number are the bits of the string. */
  lemma {:induction false} FieldBit(s: seq<byte>, offset: nat, n: nat, i: nat)
    requires i < n
    ensures Bit(Field(s, offset, n), n - 1 - i) == BitAt(s, offset + i)
  {
    hide Bit, Pow2, BitAt;
    var x := Field(s, offset, n);
    if i == n - 1 {
      BitHalf(x, 0);
    } else {
      BitHalf(x, n - 2 - i);
      assert x / 2 == Field(s, offset, n - 1);
      FieldBit(s, offset, n - 1, i);
    }
  }

  // Eight bits at a byte boundary are that byte.
  lemma ByteField(s: seq<byte>, k: nat)
    ensures Field(s, 8 * k, 8) == if k < |s| then s[k] else 0
  {
    hide Pow2, Bit, BitAt, Field;
    var f := Field(s, 8 * k, 8);
    FieldLess(s, 8 * k, 8);
    Pow2Values();
    var b: nat := if k < |s| then s[k] else 0;
    forall i: nat | i < 8
      ensures Bit(f, i) == Bit(b, i)
    {
      FieldBit(s, 8 * k, 8, 7 - i);
      BitOfByte(s, k, i);
    }
    SameBits(f, b, 8);
  }

  lemma BitOfByte(s: seq<byte>, k: nat, i: nat)
    requires i < 8
    ensures BitAt(s, 8 * k + (7 - i)) == Bit(if k < |s| then s[k] else 0, i)
  {
    hide Bit;
    var p := 8 * k + (7 - i);
    assert p / 8 == k && p % 8 == 7 - i;
    ZeroBit(i);
  }

  lemma ZeroBit(i: nat)
    ensures Bit(0, i) == 0
  {
    DivIs(0, Pow2(i), 0, 0);
  }

  lemma {:induction false} FieldConcat(s: seq<byte>, offset: nat, m: nat, n: nat)
    ensures Field(s, offset, m + n) == Pow2(n) * Field(s, offset, m) + Field(s, offset + m, n)
  {
    if n > 0 {
      FieldConcat(s, offset, m, n - 1);
      assert Pow2(n) == 2 * Pow2(n - 1);
      hide Pow2;
      Double(Pow2(n - 1), Field(s, offset, m));
    } else {
      assert Pow2(0) * Field(s, offset, m) == Field(s, offset, m);
    }
  }
}
