/** Integers of 1 to 64 bits at any bit position of a string: reading, writing, and what
    happens when a value does not fit. 64-bit machine integers are explicit. Signed fields
    of 64 bits shift a machine word by its width, which C does not define: what the shift
    gives is a parameter, beyond. */
module Bitfield {
  import opened Wrappers
  import opened Bits

  const U64: nat := 0x1_0000_0000_0000_0000
  const I63: nat := 0x8000_0000_0000_0000

  // The value of a 64-bit pattern, unsigned and signed.
  function Unsigned(x: int): nat { x % U64 }

  function Signed(x: int): int { if x % U64 >= I63 then x % U64 - U64 else x % U64 }

  predicate IsInt64(x: int) { 0 <= x + I63 < U64 }

  // The range of signed fields of n bits.
  function Lowest(n: nat): int
    requires n > 0
  {
    0 - Pow2(n - 1)
  }

  function Highest(n: nat): int
    requires n > 0
  {
    Pow2(n - 1) - 1
  }

  predicate Fits(v: int, n: nat)
    requires n > 0
  {
    Lowest(n) <= v <= Highest(n)
  }

  lemma SignedIs(x: int)
    requires 0 - U64 <= x < U64
    ensures Signed(x) == if x < 0 - I63 then x + U64 else if x < I63 then x else x - U64
  {
    if x < 0 { assert x % U64 == x + U64; } else { assert x % U64 == x; }
  }

  // --------------------------------------------------------------------- one bit

  lemma PutBitIsByte(b: byte, k: nat, v: nat)
    requires k < 8 && v < 2
    ensures 0 <= PutBit(b, k, v) < 256
  {
    hide Bit, Pow2, PutBit;
    PutBitFacts(b, k, v);
    Pow2Values();
    forall j: nat | j >= 8
      ensures Bit(PutBit(b, k, v), j) == 0
    {
      NoHighBits(b, 8, j);
    }
    HighBits(PutBit(b, k, v), 8);
  }

  // Writing bit i of a string changes that bit.
  lemma PutInString(s: seq<byte>, i: nat, v: nat)
    requires i / 8 < |s| && v < 2
    ensures
      var k := 7 - i % 8;
      && 0 <= PutBit(s[i / 8], k, v) < 256
      && forall j: nat :: BitAt(s[i / 8 := PutBit(s[i / 8], k, v)], j) == if j == i then v else BitAt(s, j)
  {
    hide Bit, PutBit;
    var k := 7 - i % 8;
    PutBitIsByte(s[i / 8], k, v);
    PutBitFacts(s[i / 8], k, v);
    var t := s[i / 8 := PutBit(s[i / 8], k, v)];
    forall j: nat
      ensures BitAt(t, j) == if j == i then v else BitAt(s, j)
    {
      if j / 8 == i / 8 { assert j == i <==> 7 - j % 8 == k; }
    }
  }

  // ---------------------------------------------------------- reading and writing

  // The bits of a field are those of a number: then it is that number, cut to its width.
  lemma FieldIs(s: seq<byte>, offset: nat, n: nat, value: nat)
    requires forall i: nat | offset <= i < offset + n :: BitAt(s, i) == Bit(value, offset + n - 1 - i)
    ensures Field(s, offset, n) == value % Pow2(n)
  {
    hide Bit, BitAt;
    var f, m := Field(s, offset, n), value % Pow2(n);
    FieldLess(s, offset, n);
    forall i: nat | i < n
      ensures Bit(f, i) == Bit(m, i)
    {
      FieldBit(s, offset, n, n - 1 - i);
      assert BitAt(s, offset + (n - 1 - i)) == Bit(value, i);
      ModBit(value, n, i);
    }
    SameBits(f, m, n);
  }

  lemma {:induction false} ModBit(x: nat, n: nat, i: nat)
    requires i < n
    ensures Bit(x % Pow2(n), i) == Bit(x, i)
  {
    hide Bit;
    var p := Pow2(n - 1);
    assert Pow2(n) == 2 * p;
    ModHalf(x, p);
    var m := x % Pow2(n);
    if i == 0 {
      BitHalf(x, 0);
      BitHalf(m, 0);
    } else {
      BitHalf(x, i - 1);
      BitHalf(m, i - 1);
      ModBit(x / 2, n - 1, i - 1);
    }
  }

  lemma ModHalf(x: nat, p: nat)
    requires p > 0
    ensures (x % (2 * p)) / 2 == (x / 2) % p && (x % (2 * p)) % 2 == x % 2
  {
    var s, t := (x / 2) / p, (x / 2) % p;
    DivMod(x / 2, p);
    Double(p, s);
    DivIs(x, 2 * p, s, 2 * t + x % 2);
  }

  // Bit i after the first j bits of a field were written.
  function NewBit(s: seq<byte>, offset: nat, bits: nat, j: nat, value: nat, i: nat): nat {
    if offset <= i < offset + j && i < offset + bits then Bit(value, offset + bits - 1 - i) else BitAt(s, i)
  }

  /** Writes the low bits of a value, most significant first, and no other bit. */
  method SetUnsignedBitfield(p: array<byte>, offset: nat, bits: nat, value: nat)
    requires bits <= 64 && offset + bits <= 8 * p.Length
    modifies p
    ensures forall i: nat :: BitAt(p[..], i) == NewBit(old(p[..]), offset, bits, bits, value, i)
    ensures Field(p[..], offset, bits) == value % Pow2(bits)
  {
    hide Bit, PutBit, BitAt, Pow2;
    for j := 0 to bits
      invariant forall i: nat :: BitAt(p[..], i) == NewBit(old(p[..]), offset, bits, j, value, i)
    {
      var bitval := Bit(value, bits - 1 - j);
      var at := offset + j;
      ghost var was := p[..];
      PutInString(was, at, bitval);
      ghost var t := was[at / 8 := PutBit(was[at / 8], 7 - at % 8, bitval)];
      assert forall i: nat :: BitAt(t, i) == if i == at then bitval else BitAt(was, i);
      p[at / 8] := PutBit(p[at / 8], 7 - at % 8, bitval);
      assert p[..] == t;
      forall i: nat
        ensures BitAt(p[..], i) == NewBit(old(p[..]), offset, bits, j + 1, value, i)
      {
        assert BitAt(t, i) == if i == at then bitval else BitAt(was, i);
      }
    }
    FieldIs(p[..], offset, bits, value);
  }

  method GetUnsignedBitfield(p: array<byte>, offset: nat, bits: nat) returns (value: nat)
    requires bits <= 64 && offset + bits <= 8 * p.Length
    ensures value == Field(p[..], offset, bits)
  {
    hide Bit;
    value := 0;
    for j := 0 to bits
      invariant value == Field(p[..], offset, j)
    {
      var at := offset + j;
      assert BitAt(p[..], at) == Bit(p[at / 8], 7 - at % 8);
      value := value * 2 + Bit(p[at / 8], 7 - at % 8);
    }
  }

  /** The signed value of n bits in two's complement. */
  function TwosComplement(u: nat, n: nat): int
    requires n > 0
  {
    if u >= Pow2(n - 1) then u - Pow2(n) else u
  }

  /** Two's complement keeps every value that fits, through the 64-bit pattern. */
  lemma SignedRoundTrip(v: int, n: nat)
    requires 0 < n <= 64 && Fits(v, n)
    ensures TwosComplement(Unsigned(v) % Pow2(n), n) == v
  {
    hide Pow2;
    Pow2Values();
    var p, q := Pow2(n), Pow2(64 - n);
    Pow2Add(n, 64 - n);
    HalfPow(n);
    Pow2AtMost(n, 64);
    if v >= 0 {
      DivIs(v, U64, 0, v);
      DivIs(v, p, 0, v);
    } else {
      DivIs(v + U64, U64, 0, v + U64);
      NegativeMod(v, p, q);
    }
  }

  // A negative number, plus a multiple of p.
  lemma NegativeMod(v: int, p: nat, q: nat)
    requires v < 0 && v + p >= 0 && q > 0 && p * q == U64 && v + U64 >= 0
    ensures Unsigned(v) == v + U64 && Unsigned(v) % p == v + p
  {
    assert p * q == p * (q - 1) + p;
    DivIs(v + U64, p, q - 1, v + p);
    assert Unsigned(v) == v + U64;
  }

  lemma HalfPow(n: nat)
    requires n > 0
    ensures Pow2(n) == 2 * Pow2(n - 1)
  {
  }

  method SetSignedBitfield(p: array<byte>, offset: nat, bits: nat, value: int)
    requires 0 < bits <= 64 && offset + bits <= 8 * p.Length && IsInt64(value)
    modifies p
    ensures forall i: nat | i < offset || i >= offset + bits :: BitAt(p[..], i) == BitAt(old(p[..]), i)
    ensures Field(p[..], offset, bits) == Unsigned(value) % Pow2(bits)
    ensures Fits(value, bits) ==> TwosComplement(Field(p[..], offset, bits), bits) == value
  {
    hide BitAt, Bit, Pow2;
    SetUnsignedBitfield(p, offset, bits, Unsigned(value));
    if Fits(value, bits) { SignedRoundTrip(value, bits); }
  }

  // ---------------------------------------------------------------------- masks

  // (uint64_t)-1 << n: the ones from bit n on.
  function OnesFrom(n: nat, beyond: nat): nat
    requires n <= 64
  {
    Pow2Values();
    Pow2AtMost(n, 64);
    if n < 64 then U64 - Pow2(n) else beyond
  }

  lemma {:induction false} OrOnes(u: nat, n: nat)
    requires u < Pow2(n)
    ensures Bitwise(Or, u, Pow2(n) - 1) == Pow2(n) - 1
  {
    if n > 0 {
      var ones := Pow2(n) - 1;
      assert ones / 2 == Pow2(n - 1) - 1 && ones % 2 == 1;
      OrOnes(u / 2, n - 1);
      BitwiseStep(Or, u, ones);
    }
  }

  lemma {:induction false} AndOnes(u: nat, n: nat)
    requires u < Pow2(n)
    ensures Bitwise(And, u, Pow2(n) - 1) == u
  {
    if n > 0 {
      var ones := Pow2(n) - 1;
      assert ones / 2 == Pow2(n - 1) - 1 && ones % 2 == 1;
      AndOnes(u / 2, n - 1);
      BitwiseStep(And, u, ones);
    }
  }

  lemma {:induction false} WithZero(u: nat)
    ensures Bitwise(Or, u, 0) == u && Bitwise(And, u, 0) == 0
  {
    if u > 0 {
      WithZero(u / 2);
      BitwiseStep(Or, u, 0);
      BitwiseStep(And, u, 0);
    }
  }

  /** A word with the ones of the mask added, or taken away: above bit n all bits are set, or
      none, and below it those of the word. */
  lemma MaskedIs(c: nat, n: nat)
    requires c < U64 && n < 64
    ensures 0 < U64 - Pow2(n) < U64
    ensures Bitwise(Or, c, U64 - Pow2(n)) == U64 - Pow2(n) + c % Pow2(n)
    ensures Bitwise(And, c, Pow2(n) - 1) == c % Pow2(n)
  {
    hide Bitwise, Pow2;
    var q, d := MaskedParts(c, n);
    OrMask(n, q, d);
    AndMask(n, q, d);
  }

  lemma MaskedParts(c: nat, n: nat) returns (q: nat, d: nat)
    requires c < U64 && n < 64
    ensures c == Pow2(n) * q + d && d == c % Pow2(n) && d < Pow2(n) && q < Pow2(64 - n)
    ensures Pow2(n) * (Pow2(64 - n) - 1) == U64 - Pow2(n) && 0 < U64 - Pow2(n) < U64
  {
    hide Pow2;
    Pow2Values();
    Pow2Add(n, 64 - n);
    Pow2AtMost(n, 63);
    var p, m := Pow2(n), Pow2(64 - n);
    q, d := c / p, c % p;
    DivMod(c, p);
    Quotient(c, p, m);
    MaskIs(p, m);
  }

  lemma MaskIs(p: nat, m: nat)
    ensures p * (m - 1) == p * m - p
  {
  }

  lemma OrMask(n: nat, q: nat, d: nat)
    requires n < 64 && d < Pow2(n) && q < Pow2(64 - n)
    ensures
      var h := Pow2(n) * (Pow2(64 - n) - 1);
      h >= 0 && Bitwise(Or, Pow2(n) * q + d, h) == h + d
  {
    hide Bitwise, Pow2;
    OrOnes(q, 64 - n);
    WithZero(d);
    BitwiseSplit(Or, n, q, d, Pow2(64 - n) - 1, 0);
  }

  lemma AndMask(n: nat, q: nat, d: nat)
    requires d < Pow2(n)
    ensures Bitwise(And, Pow2(n) * q + d, Pow2(n) - 1) == d
  {
    hide Bitwise, Pow2;
    AndOnes(d, n);
    WithZero(q);
    BitwiseSplit(And, n, q, d, 0, Pow2(n) - 1);
  }

  lemma Quotient(c: nat, p: nat, m: nat)
    requires p > 0 && c < p * m
    ensures c / p < m
  {
    DivMod(c, p);
    MulAtMost(p, m, c / p);
  }

  lemma MulAtMost(p: nat, a: nat, b: nat)
    ensures a <= b ==> p * a <= p * b
  {
  }

  // The value with these ones above a negative field.
  lemma NegativeIs(d: nat, n: nat)
    requires n < 64 && d < Pow2(n)
    ensures Signed(U64 - Pow2(n) + d) == d - Pow2(n) && Signed(d) == d
  {
    hide Pow2;
    Pow2Values();
    Pow2AtMost(n, 63);
    SignedIs(U64 - Pow2(n) + d);
    SignedIs(d);
  }

  lemma SignBitOf(c: nat, n: nat)
    requires n > 0
    ensures Bit(c, n - 1) == 1 <==> c % Pow2(n) >= Pow2(n - 1)
  {
    hide Bit, Pow2;
    ModBit(c, n, n - 1);
    ModCongruent(c, n);
    SignBit(c % Pow2(n), n);
  }

  /** What GetSignedBitfield makes of the n bits u: ones are added above the field if its
      sign bit is set, and for 64 bits whatever shifting by 64 gives. */
  function ReadSigned(u: nat, n: nat, beyond: nat): int
    requires n > 0
  {
    if n < 64 || u < I63 then TwosComplement(u, n) else Signed(Bitwise(Or, u, beyond))
  }

  /** The value is right exactly if the field has less than 64 bits, is not negative, or has
      a one wherever the shift leaves one. */
  method GetSignedBitfield(p: array<byte>, offset: nat, bits: nat, beyond: nat) returns (value: int)
    requires 0 < bits <= 64 && offset + bits <= 8 * p.Length && beyond < U64
    ensures value == ReadSigned(Field(p[..], offset, bits), bits, beyond)
    ensures
      var u := Field(p[..], offset, bits);
      value == TwosComplement(u, bits) <==> bits < 64 || u < I63 || Bitwise(Or, u, beyond) == u
  {
    hide BitAt, Pow2, Bitwise, Bit, Signed;
    var u := GetUnsignedBitfield(p, offset, bits);
    FieldLess(p[..], offset, bits);
    SignBit(u, bits);
    Pow2Values();
    if bits < 64 { ExtendedIs(u, bits); } else { WidenedIs(u, beyond); }
    value := Signed(u);
    if Bit(u, bits - 1) == 1 { value := Signed(Bitwise(Or, u, OnesFrom(bits, beyond))); }
  }

  // The ones above a field of less than 64 bits make a negative number of it.
  lemma ExtendedIs(u: nat, n: nat)
    requires n < 64 && u < Pow2(n)
    ensures 0 < U64 - Pow2(n)
    ensures Signed(Bitwise(Or, u, U64 - Pow2(n))) == u - Pow2(n) && Signed(u) == u
  {
    hide Pow2, Signed, Bitwise;
    Pow2Values();
    Pow2AtMost(n, 63);
    MaskedIs(u, n);
    NegativeIs(u, n);
    DivIs(u, Pow2(n), 0, u);
  }

  // As 64-bit patterns: what |= leaves, and when that is the same number.
  lemma WidenedIs(u: nat, beyond: nat)
    requires u < U64 && beyond < U64
    ensures TwosComplement(u, 64) == Signed(u)
    ensures var w := Bitwise(Or, u, beyond); w < U64 && (Signed(w) == Signed(u) <==> w == u)
  {
    hide Bitwise, Pow2;
    Pow2Values();
    BitwiseSplit(Or, 64, 0, u, 0, beyond);
    SignedIs(u);
    SignedIs(Bitwise(Or, u, beyond));
  }

  /** Where shifting by 64 shifts by nothing, every negative field of 64 bits reads as -1. */
  lemma NegativeReadsMinusOne(u: nat)
    requires I63 <= u < U64
    ensures ReadSigned(u, 64, U64 - 1) == -1
  {
    hide Bitwise, Pow2;
    Pow2Values();
    OrOnes(u, 64);
    SignedIs(U64 - 1);
  }

  lemma SignBit(u: nat, n: nat)
    requires n > 0 && u < Pow2(n)
    ensures Bit(u, n - 1) == 1 <==> u >= Pow2(n - 1)
  {
    var p := Pow2(n - 1);
    if u >= p { DivIs(u, p, 1, u - p); } else { DivIs(u, p, 0, u); }
  }

  // ------------------------------------------------------------------- overflow

  datatype Overflow = Wrap | Saturate | Fail

  // 0: fits. 1, -1: it does not, and limit is what to store (nothing for Fail).
  datatype Check = Check(r: int, limit: int)

  // Congruent modulo 2 to the n.
  ghost predicate Congruent(a: int, b: int, n: nat) { exists k: int :: a == b + k * Pow2(n) }

  lemma ModCongruent(x: int, n: nat)
    ensures Congruent(x % Pow2(n), x, n) && 0 <= x % Pow2(n) < Pow2(n)
  {
    var p := Pow2(n);
    assert x == p * (x / p) + x % p;
    assert x % p == x + (-(x / p)) * p;
  }

  lemma CongruentTrans(a: int, b: int, c: int, n: nat)
    requires Congruent(a, b, n) && Congruent(b, c, n)
    ensures Congruent(a, c, n)
  {
    var p := Pow2(n);
    var k: int :| a == b + k * Pow2(n);
    var l: int :| b == c + l * Pow2(n);
    assert a == c + (k + l) * p;
  }

  // A 64-bit sum, cut to fewer bits.
  lemma WrapIsCongruent(x: int, n: nat)
    requires n <= 64
    ensures Congruent(Unsigned(x) % Pow2(n), x, n)
  {
    hide Pow2, Congruent;
    Pow2Values();
    Pow2Add(n, 64 - n);
    ModCongruent(Unsigned(x), n);
    WholeWords(x, n);
    CongruentTrans(Unsigned(x) % Pow2(n), Unsigned(x), x, n);
  }

  lemma WholeWords(x: int, n: nat)
    requires n <= 64 && U64 == Pow2(n) * Pow2(64 - n)
    ensures Congruent(Unsigned(x), x, n)
  {
    hide Pow2;
    var p, q, e := Pow2(n), Pow2(64 - n), x / U64;
    assert x == U64 * e + Unsigned(x);
    assert (p * q) * e == (q * e) * p;
    assert Unsigned(x) == x + (-(q * e)) * p;
  }

  method CheckUnsignedBitfieldOverflow(value: nat, incr: int, bits: nat, owtype: Overflow) returns (c: Check)
    requires 0 < bits <= 63 && value < U64 && IsInt64(incr)
    ensures value < Pow2(bits) ==> (c.r == 0 <==> 0 <= value + incr < Pow2(bits))
    ensures value < Pow2(bits) && c.r != 0 ==>
      match owtype
      case Saturate => if value + incr < 0 then c == Check(-1, 0) else c == Check(1, Pow2(bits) - 1)
      case Wrap => c.r == 1 && 0 <= c.limit < Pow2(bits) && Congruent(c.limit, value + incr, bits)
      case Fail => c.r == if value + incr < 0 then -1 else 1
    ensures value >= Pow2(bits) ==> c.r == 1 && (owtype.Saturate? ==> c.limit == Pow2(bits) - 1)
    ensures value >= Pow2(bits) && owtype.Wrap? ==> 0 <= c.limit < Pow2(bits) && Congruent(c.limit, value + incr, bits)
  {
    hide Pow2, Congruent, Signed, Bitwise;
    Pow2Values();
    Pow2AtMost(bits, 63);
    var max := Pow2(bits) - 1;
    var maxincr := Signed(max - value);
    var minincr := Signed(0 - value);
    SignedIs(max - value);
    SignedIs(0 - value);
    WrapIsCongruent(value + incr, bits);
    ModCongruent(Unsigned(value + incr), bits);
    MaskedIs(Unsigned(value + incr), bits);
    var wrapped := Bitwise(And, Unsigned(value + incr), U64 - 1 - OnesFrom(bits, 0));
    if value > max || (incr > 0 && incr > maxincr) {
      c := Check(1, if owtype.Wrap? then wrapped else if owtype.Saturate? then max else 0);
    } else if incr < 0 && incr < minincr {
      c := if owtype.Wrap? then Check(1, wrapped) else Check(-1, 0);
    } else {
      c := Check(0, 0);
    }
  }

  lemma {:induction false} Pow2AtMost(a: nat, b: nat)
    requires a <= b
    ensures Pow2(a) <= Pow2(b)
  {
    if a < b { Pow2Less(a, b); }
  }

  // c |= mask or c &= ~mask, by the sign bit of the field.
  lemma WrapSigned(x: int, n: nat)
    requires 0 < n <= 64
    ensures
      var t := TwosComplement(Unsigned(x) % Pow2(n), n);
      Fits(t, n) && Congruent(t, x, n)
  {
    hide Pow2, Congruent;
    HalfPow(n);
    WrapIsCongruent(x, n);
    ModCongruent(Unsigned(x), n);
    var u := Unsigned(x) % Pow2(n);
    LessOnce(u, n);
    CongruentTrans(TwosComplement(u, n), u, x, n);
  }

  lemma LessOnce(u: int, n: nat)
    ensures Congruent(u, u, n) && Congruent(u - Pow2(n), u, n)
  {
    var p := Pow2(n);
    assert u == u + 0 * p;
    var m: int := -1;
    assert u - p == u + m * p;
  }

  lemma FieldRange(n: nat)
    requires 0 < n <= 64
    ensures 0 - I63 <= Lowest(n) < 0 <= Highest(n) < I63
    ensures n == 64 ==> Lowest(n) == 0 - I63 && Highest(n) == I63 - 1
  {
    hide Pow2;
    Pow2Values();
    Pow2AtMost(n - 1, 63);
  }

  // c & msb ? c | mask : c & ~mask, with what the shift by 64 gave for the mask.
  function Cut64(c: nat, beyond: nat): nat
    requires beyond < U64
  {
    if c >= I63 then Bitwise(Or, c, beyond) else Bitwise(And, c, U64 - 1 - beyond)
  }

  /** The sum x wrapped to n bits, as handle_wrap leaves it. */
  function Wrapped(x: int, n: nat, beyond: nat): int
    requires 0 < n <= 64 && beyond < U64
  {
    if n < 64 then TwosComplement(Unsigned(x) % Pow2(n), n) else Signed(Cut64(Unsigned(x), beyond))
  }

  /** A wrapped sum has the field's range; it is congruent to the sum for less than 64 bits,
      and for 64 exactly if the mask changes nothing. */
  lemma WrappedIs(x: int, n: nat, beyond: nat)
    requires 0 < n <= 64 && beyond < U64
    ensures
      var t := Wrapped(x, n, beyond);
      && Fits(t, n)
      && (Congruent(t, x, n) <==>
            n < 64 || Unsigned(x) == if Unsigned(x) >= I63 then Bitwise(Or, Unsigned(x), beyond)
                                     else Bitwise(And, Unsigned(x), U64 - 1 - beyond))
  {
    hide Pow2, Congruent, Bitwise, Signed;
    if n < 64 {
      WrapSigned(x, n);
    } else {
      CutIs(Unsigned(x), beyond);
      FieldRange(64);
      CongruentWords(x, Cut64(Unsigned(x), beyond));
    }
  }

  lemma CutIs(c: nat, beyond: nat)
    requires c < U64 && beyond < U64
    ensures
      var w := Cut64(c, beyond);
      w < U64 && Signed(w) == (if w < I63 then w else w - U64) && IsInt64(Signed(w))
  {
    hide Bitwise, Pow2;
    Pow2Values();
    BitwiseSplit(Or, 64, 0, c, 0, beyond);
    BitwiseSplit(And, 64, 0, c, 0, U64 - 1 - beyond);
    SignedIs(Cut64(c, beyond));
  }

  // Two words are congruent modulo 2 to the 64 only if they are equal.
  lemma CongruentWords(x: int, w: nat)
    requires w < U64
    ensures Congruent(Signed(w), x, 64) <==> w == Unsigned(x)
  {
    hide Pow2;
    Pow2Values();
    SignedIs(w);
    var e := x / U64;
    assert x == U64 * e + Unsigned(x);
    if w == Unsigned(x) {
      var k: int := if w < I63 then -e else -e - 1;
      assert Signed(w) == x + k * Pow2(64);
    }
    if Congruent(Signed(w), x, 64) {
      var k: int :| Signed(w) == x + k * Pow2(64);
      var l: int := if w < I63 then e + k else e + k + 1;
      assert w == U64 * l + Unsigned(x);
      assert l == 0;
    }
  }

  // The unsigned sum, with its bits above the field set as its sign bit is.
  method HandleWrap(value: int, incr: int, bits: nat, beyond: nat) returns (limit: int)
    requires 0 < bits <= 64 && beyond < U64
    ensures limit == Wrapped(value + incr, bits, beyond)
  {
    hide Pow2, Bit, Bitwise, Signed;
    var mask, c := OnesFrom(bits, beyond), Unsigned(Unsigned(value) + Unsigned(incr));
    SumWraps(value, incr);
    Pow2Values();
    SignBitOf(c, bits);
    if bits < 64 {
      MaskedIs(c, bits);
      ModCongruent(c, bits);
      NegativeIs(c % Pow2(bits), bits);
    } else {
      DivIs(c, U64, 0, c);
    }
    c := if Bit(c, bits - 1) == 1 then Bitwise(Or, c, mask) else Bitwise(And, c, U64 - 1 - mask);
    limit := Signed(c);
  }

  lemma SumWraps(a: int, b: int)
    ensures Unsigned(Unsigned(a) + Unsigned(b)) == Unsigned(a + b)
  {
    var k := (a + b) / U64 - a / U64 - b / U64;
    assert Unsigned(a) + Unsigned(b) == Unsigned(a + b) + k * U64;
    assert k == 0 || k == 1;
  }

  /** For a value of the field's range and any increment the check is exact. For a value
      outside, as SET gives it with increment 0, what is stored is right, except that
      saturation stores the maximum for values so low that max - value overflows. */
  method CheckSignedBitfieldOverflow(value: int, incr: int, bits: nat, owtype: Overflow, beyond: nat)
    returns (c: Check)
    requires 0 < bits <= 64 && IsInt64(value) && IsInt64(incr) && beyond < U64
    ensures Fits(value, bits) ==>
      && (c.r == 0 <==> Fits(value + incr, bits))
      && (c.r != 0 && !owtype.Wrap? ==> c.r == if value + incr < 0 then -1 else 1)
      && (c.r != 0 && owtype.Saturate? ==> c.limit == if value + incr < 0 then Lowest(bits) else Highest(bits))
    ensures c.r != 0 && owtype.Wrap? ==> c.r == 1 && c.limit == Wrapped(value + incr, bits, beyond)
    ensures !Fits(value, bits) && incr == 0 ==> c.r != 0
    ensures c.r != 0 && owtype.Saturate? ==> c.limit == Lowest(bits) || c.limit == Highest(bits)
    ensures !Fits(value, bits) && incr == 0 && owtype.Saturate? ==>
      (c.limit == (if value < 0 then Lowest(bits) else Highest(bits)) <==> Highest(bits) - value < I63)
  {
    hide Pow2, Signed, Wrapped;
    FieldRange(bits);
    if bits < 64 { FieldRange(bits + 1); }
    HalfPow(bits);
    var max: int := Highest(bits);
    var min: int := -max - 1;
    var maxincr := Signed(max - value);
    var minincr := Signed(min - value);
    SignedIs(max - value);
    SignedIs(min - value);
    var wrapped := HandleWrap(value, incr, bits, beyond);
    if value > max || (bits != 64 && incr > maxincr) || (value >= 0 && incr > 0 && incr > maxincr) {
      c := Check(1, if owtype.Wrap? then wrapped else if owtype.Saturate? then max else 0);
    } else if value < min || (bits != 64 && incr < minincr) || (value < 0 && incr < 0 && incr < minincr) {
      c := if owtype.Wrap? then Check(1, wrapped) else Check(-1, if owtype.Saturate? then min else 0);
    } else {
      c := Check(0, 0);
    }
  }

  // ------------------------------------------------------- SET and INCRBY of BITFIELD

  // The bits outside a field are as they were.
  ghost predicate OthersKept(s: seq<byte>, t: seq<byte>, offset: nat, bits: nat) {
    forall i: nat | i < offset || i >= offset + bits :: BitAt(t, i) == BitAt(s, i)
  }

  /** SET (increment false) and INCRBY of a signed field: the exact result if it fits, and
      otherwise what the overflow mode says. Nothing outside the field changes. The old value
      is the one read, and a field of 64 bits wraps as its mask lets it. */
  method WriteSigned(p: array<byte>, offset: nat, bits: nat, increment: bool, arg: int, owtype: Overflow, beyond: nat)
    returns (reply: Option<int>)
    requires 0 < bits <= 64 && offset + bits <= 8 * p.Length && IsInt64(arg) && beyond < U64
    modifies p
    ensures OthersKept(old(p[..]), p[..], offset, bits)
    ensures
      var was := ReadSigned(Field(old(p[..]), offset, bits), bits, beyond);
      var now := TwosComplement(Field(p[..], offset, bits), bits);
      var exact := if increment then was + arg else arg;
      && (reply.None? <==> !Fits(exact, bits) && owtype.Fail?)
      && (reply.None? ==> p[..] == old(p[..]))
      && (reply.Some? ==> reply.value == if increment then now else was)
      && (Fits(exact, bits) ==> now == exact)
      && (!Fits(exact, bits) && owtype.Wrap? ==>
            now == Wrapped(exact, bits, beyond) && Fits(now, bits)
            && (Congruent(now, exact, bits) <==>
                  bits < 64 || Unsigned(exact) == if Unsigned(exact) >= I63 then Bitwise(Or, Unsigned(exact), beyond)
                                                  else Bitwise(And, Unsigned(exact), U64 - 1 - beyond)))
      && (!Fits(exact, bits) && owtype.Saturate? ==>
            now == if exact < 0 && (increment || Highest(bits) - exact < I63) then Lowest(bits) else Highest(bits))
  {
    hide Pow2, Congruent, BitAt, Field, Signed, Unsigned, TwosComplement, ReadSigned, Wrapped, Cut64, Bitwise;
    FieldRange(bits);
    var oldval := GetSignedBitfield(p, offset, bits, beyond);
    ReadRange(p[..], offset, bits, beyond);
    var exact := if increment then oldval + arg else arg;
    var newval := if increment then Signed(oldval + arg) else arg;
    var c := CheckSignedBitfieldOverflow(if increment then oldval else newval, if increment then arg else 0,
                                         bits, owtype, beyond);
    WrappedIs(exact, bits, beyond);
    if c.r != 0 {
      if owtype.Fail? { return None; }
      newval := c.limit;
    } else {
      SignedIs(oldval + arg);
    }
    SetSignedBitfield(p, offset, bits, newval);
    return Some(if increment then newval else oldval);
  }

  lemma ReadRange(s: seq<byte>, offset: nat, n: nat, beyond: nat)
    requires 0 < n <= 64 && beyond < U64
    ensures Fits(ReadSigned(Field(s, offset, n), n, beyond), n)
  {
    hide Pow2, Field, Bitwise;
    Pow2Values();
    FieldLess(s, offset, n);
    TwosRange(s, offset, n);
    var w := Bitwise(Or, Field(s, offset, n), beyond);
    assert IsInt64(Signed(w));
    if n == 64 { FieldRange(64); }
  }

  /** Setting a field of 8 bits that is 0 to the least 64-bit number, with saturation, stores
      127. */
  method SaturatedToMaximum(arg: int, beyond: nat) returns (p: array<byte>, reply: Option<int>)
    requires arg == -0x8000_0000_0000_0000 && beyond < U64
    ensures p.Length == 1 && reply == Some(0) && p[0] == 127
  {
    hide Pow2, Field, OthersKept, BitAt;
    Pow2Of7();
    p := new byte[1](_ => 0);
    ByteField(p[..], 0);
    reply := WriteSigned(p, 0, 8, false, arg, Saturate, beyond);
    ByteField(p[..], 0);
  }

  lemma Pow2Of7()
    ensures Pow2(7) == 128 && Pow2(8) == 256
  {
  }

  lemma TwosRange(s: seq<byte>, offset: nat, n: nat)
    requires n > 0
    ensures Fits(TwosComplement(Field(s, offset, n), n), n)
  {
    hide Pow2, Field;
    FieldLess(s, offset, n);
    HalfPow(n);
  }

  /** The same for an unsigned field. A negative argument of SET is taken as the large
      number with the same 64 bits. */
  method WriteUnsigned(p: array<byte>, offset: nat, bits: nat, increment: bool, arg: int, owtype: Overflow)
    returns (reply: Option<int>)
    requires 0 < bits <= 63 && offset + bits <= 8 * p.Length && IsInt64(arg)
    modifies p
    ensures OthersKept(old(p[..]), p[..], offset, bits)
    ensures
      var was, now := Field(old(p[..]), offset, bits), Field(p[..], offset, bits);
      var exact := if increment then was + arg else Unsigned(arg);
      && (reply.None? <==> !(0 <= exact < Pow2(bits)) && owtype.Fail?)
      && (reply.None? ==> p[..] == old(p[..]))
      && (reply.Some? ==> reply.value == if increment then now else was)
      && (0 <= exact < Pow2(bits) ==> now == exact)
      && (!(0 <= exact < Pow2(bits)) && owtype.Wrap? ==> Congruent(now, exact, bits))
      && (!(0 <= exact < Pow2(bits)) && owtype.Saturate? ==> now == if exact < 0 then 0 else Pow2(bits) - 1)
  {
    hide Pow2, Congruent, BitAt, Field, Unsigned;
    Pow2Values();
    Pow2AtMost(bits, 63);
    var oldval := GetUnsignedBitfield(p, offset, bits);
    FieldLess(p[..], offset, bits);
    UnsignedIs(arg);
    UnsignedIs(oldval + arg);
    var newval := if increment then Unsigned(oldval + arg) else Unsigned(arg);
    var c := CheckUnsignedBitfieldOverflow(if increment then oldval else newval, if increment then arg else 0, bits, owtype);
    if c.r != 0 {
      if owtype.Fail? { return None; }
      newval := c.limit;
    }
    DivIs(newval, Pow2(bits), 0, newval);
    SetUnsignedBitfield(p, offset, bits, newval);
    return Some(if increment then newval else oldval);
  }

  lemma UnsignedIs(x: int)
    ensures Unsigned(x) < U64 && (0 <= x < U64 ==> Unsigned(x) == x)
  {
    if 0 <= x < U64 { DivIs(x, U64, 0, x); }
  }

  // ------------------------------------------------------------ reading past the end

  // At most nine bytes from start on, followed by zeros.
  method CopyWindow(src: seq<byte>, start: nat) returns (buf: array<byte>)
    ensures fresh(buf) && buf.Length == 9
    ensures forall j | 0 <= j < 9 :: buf[j] == if start + j < |src| then src[start + j] else 0
  {
    buf := new byte[9](_ => 0);
    var i := 0;
    while i < 9 && i + start < |src|
      invariant 0 <= i <= 9
      invariant forall j | 0 <= j < 9 :: buf[j] == if j < i && start + j < |src| then src[start + j] else 0
    {
      buf[i] := src[i + start];
      i := i + 1;
    }
  }

  /** GET copies at most nine bytes and reads the field from them: as good as reading it
      from the string with zeros after its end. */
  method GetWindow(src: seq<byte>, offset: nat, bits: nat, sign: bool, beyond: nat) returns (value: int)
    requires bits <= 64 && (sign ==> bits > 0) && beyond < U64
    ensures value == if sign then ReadSigned(Field(src, offset, bits), bits, beyond) else Field(src, offset, bits)
    ensures sign && bits < 64 ==> value == TwosComplement(Field(src, offset, bits), bits)
  {
    hide Field, TwosComplement;
    var start := offset / 8;
    var buf := CopyWindow(src, start);
    var inner := offset - start * 8;
    WindowField(buf[..], src, start, inner, bits);
    if sign {
      value := GetSignedBitfield(buf, inner, bits, beyond);
    } else {
      value := GetUnsignedBitfield(buf, inner, bits);
    }
  }

  ghost predicate IsWindow(buf: seq<byte>, src: seq<byte>, start: nat) {
    |buf| == 9 && forall j | 0 <= j < 9 :: buf[j] == if start + j < |src| then src[start + j] else 0
  }

  lemma WindowField(buf: seq<byte>, src: seq<byte>, start: nat, inner: nat, bits: nat)
    requires IsWindow(buf, src, start) && inner + bits <= 72
    ensures Field(buf, inner, bits) == Field(src, start * 8 + inner, bits)
  {
    hide BitAt, Field, IsWindow;
    var offset := start * 8 + inner;
    forall k: nat | k < bits
      ensures SameFrom(buf, inner, src, offset, k)
    {
      WindowBit(buf, src, start, inner + k);
      assert start * 8 + (inner + k) == offset + k;
    }
    SameField(buf, inner, src, offset, bits);
  }

  lemma WindowBit(buf: seq<byte>, src: seq<byte>, start: nat, k: nat)
    requires IsWindow(buf, src, start) && k < 72
    ensures BitAt(buf, k) == BitAt(src, start * 8 + k)
  {
    hide Bit;
    assert (start * 8 + k) / 8 == start + k / 8 && (start * 8 + k) % 8 == k % 8;
    ZeroBit(7 - k % 8);
  }
}
