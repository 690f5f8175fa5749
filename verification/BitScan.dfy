/** Counting and finding bits many at a time, with the same result as bit by bit. */
module BitScan {
  import opened Bits

  // ------------------------------------------------------------------- what is meant

  // The number of ones of a number.
  function Pop(x: nat): nat { if x == 0 then 0 else x % 2 + Pop(x / 2) }

  // The number of ones in the bytes of a string from position i on.
  function Total(s: seq<byte>, i: nat): nat
    requires i <= |s|
    decreases |s| - i
  {
    if i == |s| then 0 else Pop(s[i]) + Total(s, i + 1)
  }

  // The ones among the first n bits.
  function Ones(s: seq<byte>, n: nat): nat { if n == 0 then 0 else Ones(s, n - 1) + BitAt(s, n - 1) }

  // ----------------------------------------------------------------- one byte, a word

  // One row of bitsinbyte for each value of the high half byte.
  function BitsRow(h: nat): (r: seq<nat>)
    requires h < 16
    ensures |r| == 16
  {
    match h
    case 0 => [0, 1, 1, 2, 1, 2, 2, 3, 1, 2, 2, 3, 2, 3, 3, 4]
    case 1 => [1, 2, 2, 3, 2, 3, 3, 4, 2, 3, 3, 4, 3, 4, 4, 5]
    case 2 => [1, 2, 2, 3, 2, 3, 3, 4, 2, 3, 3, 4, 3, 4, 4, 5]
    case 3 => [2, 3, 3, 4, 3, 4, 4, 5, 3, 4, 4, 5, 4, 5, 5, 6]
    case 4 => [1, 2, 2, 3, 2, 3, 3, 4, 2, 3, 3, 4, 3, 4, 4, 5]
    case 5 => [2, 3, 3, 4, 3, 4, 4, 5, 3, 4, 4, 5, 4, 5, 5, 6]
    case 6 => [2, 3, 3, 4, 3, 4, 4, 5, 3, 4, 4, 5, 4, 5, 5, 6]
    case 7 => [3, 4, 4, 5, 4, 5, 5, 6, 4, 5, 5, 6, 5, 6, 6, 7]
    case 8 => [1, 2, 2, 3, 2, 3, 3, 4, 2, 3, 3, 4, 3, 4, 4, 5]
    case 9 => [2, 3, 3, 4, 3, 4, 4, 5, 3, 4, 4, 5, 4, 5, 5, 6]
    case 10 => [2, 3, 3, 4, 3, 4, 4, 5, 3, 4, 4, 5, 4, 5, 5, 6]
    case 11 => [3, 4, 4, 5, 4, 5, 5, 6, 4, 5, 5, 6, 5, 6, 6, 7]
    case 12 => [2, 3, 3, 4, 3, 4, 4, 5, 3, 4, 4, 5, 4, 5, 5, 6]
    case 13 => [3, 4, 4, 5, 4, 5, 5, 6, 4, 5, 5, 6, 5, 6, 6, 7]
    case 14 => [3, 4, 4, 5, 4, 5, 5, 6, 4, 5, 5, 6, 5, 6, 6, 7]
    case _ => [4, 5, 5, 6, 5, 6, 6, 7, 5, 6, 6, 7, 6, 7, 7, 8]
  }

  function BitsInByte(b: byte): nat { BitsRow(b / 16)[b % 16] }

  lemma TableIsPop(b: byte)
    ensures BitsInByte(b) == Pop(b)
  {
    hide BitsInByte;
    PopSplit(b);
    TableRow(b);
  }

  predicate RowIs(h: nat, l: nat)
    requires h < 16 && l < 16
  {
    BitsRow(h)[l] == Nibble(h) + Nibble(l)
  }

  lemma RowsBelow8(h: nat, l: nat)
    requires h < 8 && l < 16
    ensures RowIs(h, l)
  {
  }

  lemma RowsFrom8(h: nat, l: nat)
    requires 8 <= h < 12 && l < 16
    ensures RowIs(h, l)
  {
  }

  lemma RowsFrom12(h: nat, l: nat)
    requires 12 <= h < 16 && l < 16
    ensures RowIs(h, l)
  {
  }

  lemma TableRow(b: byte)
    ensures BitsInByte(b) == Nibble(b / 16) + Nibble(b % 16)
  {
    hide BitsRow, Nibble;
    var h, l := b / 16, b % 16;
    if h < 8 { RowsBelow8(h, l); } else if h < 12 { RowsFrom8(h, l); } else { RowsFrom12(h, l); }
  }

  // Ones of half a byte.
  function Nibble(n: nat): nat
    requires n < 16
  {
    [0, 1, 1, 2, 1, 2, 2, 3, 1, 2, 2, 3, 2, 3, 3, 4][n]
  }

  lemma NibbleIsPop(n: nat)
    requires n < 16
    ensures Nibble(n) == Pop(n)
  {
  }

  lemma PopSplit(b: byte)
    ensures Pop(b) == Nibble(b / 16) + Nibble(b % 16)
  {
    hide Nibble, Pop;
    NibbleIsPop(b / 16);
    NibbleIsPop(b % 16);
    PopSixteen(b / 16, b % 16);
  }

  lemma {:induction false} PopDigits(n: nat, q: nat, d: nat)
    requires d < Pow2(n)
    ensures Pop(Pow2(n) * q + d) == Pop(q) + Pop(d)
  {
    hide Pop;
    if n > 0 {
      Halve(Pow2(n - 1), q, d);
      PopDigits(n - 1, q, d / 2);
      PopHalf(Pow2(n) * q + d);
      PopHalf(d);
    } else {
      assert d == 0 && Pop(0) == 0 by { PopZero(); }
      assert Pow2(0) * q + d == q;
    }
  }

  lemma PopZero()
    ensures Pop(0) == 0
  {
  }

  lemma PopHalf(x: nat)
    ensures Pop(x) == x % 2 + Pop(x / 2)
  {
  }

  // ---------------------------------------------------- many bits of a word at a time

  function And2(x: nat, y: nat): nat { Bitwise(And, x, y) }

  // 4 to the n.
  function Quads(n: nat): nat { if n == 0 then 1 else 4 * Quads(n - 1) }

  lemma FourIs()
    ensures Pow2(2) == 4
  {
  }

  // A mask: n digits m, each k bits wide.
  function Mask(k: nat, m: nat, n: nat): nat { if n == 0 then 0 else Pow2(k) * Mask(k, m, n - 1) + m }

  lemma MaskValues()
    ensures Mask(2, 1, 16) == 0x5555_5555 && Mask(4, 3, 8) == 0x3333_3333 && Mask(8, 15, 4) == 0x0F0F_0F0F
  {
    assert Pow2(2) == 4 && Pow2(4) == 16 && Pow2(8) == 256;
    hide Pow2;
    assert Mask(2, 1, 4) == 0x55 && Mask(4, 3, 4) == 0x3333;
    assert Mask(2, 1, 8) == 0x5555;
    assert Mask(2, 1, 12) == 0x55_5555;
  }

  // In every digit of two, four and eight bits, the number of ones of that digit of x.
  function Pairs(x: nat, n: nat): nat { if n == 0 then 0 else 4 * Pairs(x / 4, n - 1) + Pop(x % 4) }

  function Nibbles(x: nat, n: nat): nat { if n == 0 then 0 else 16 * Nibbles(x / 16, n - 1) + Pop(x % 16) }

  function Bytes(x: nat, n: nat): nat { if n == 0 then 0 else 256 * Bytes(x / 256, n - 1) + Pop(x % 256) }

  lemma AndDigits(k: nat, q: nat, d: nat, r: nat, m: nat)
    requires d < Pow2(k) && m < Pow2(k)
    ensures And2(Pow2(k) * q + d, Pow2(k) * r + m) == Pow2(k) * And2(q, r) + And2(d, m)
  {
    hide Bitwise, Pow2;
    BitwiseSplit(And, k, q, d, r, m);
  }

  lemma AndSmall(d: nat)
    ensures d < 4 ==> And2(d, 1) == d % 2
    ensures d < 16 ==> And2(d, 3) == d % 4
  {
    AndSteps(d, 1);
    AndSteps(d / 2, 0);
    AndSteps(d, 3);
    AndSteps(d / 2, 1);
    AndZero(d / 2);
    AndZero(d / 4);
  }

  lemma AndSteps(x: nat, y: nat)
    ensures And2(x, y) == 2 * And2(x / 2, y / 2) + Op1(And, x % 2, y % 2)
  {
    hide Op1;
    BitwiseStep(And, x, y);
  }

  lemma {:induction false} AndZero(x: nat)
    ensures And2(x, 0) == 0
  {
    if x > 0 { AndZero(x / 2); }
  }

  lemma AndFifteen(d: nat)
    requires d < 256
    ensures And2(d, 15) == d % 16
  {
    hide And2;
    AndSteps(d, 15);
    AndSteps(d / 2, 7);
    AndSmall((d / 4) % 16);
    AndSteps(d / 4, 3);
    AndSteps(d / 8, 1);
    AndZero(d / 16);
    assert Op1(And, d % 2, 1) == d % 2;
    assert Op1(And, (d / 2) % 2, 1) == (d / 2) % 2;
    assert Op1(And, (d / 4) % 2, 1) == (d / 4) % 2;
    assert Op1(And, (d / 8) % 2, 1) == (d / 8) % 2;
    assert And2(d / 8, 1) == 2 * And2(d / 16, 0) + (d / 8) % 2;
  }

  lemma SmallPops()
    ensures Pop(0) == 0 && Pop(1) == 1 && Pop(2) == 1 && Pop(3) == 2
  {
  }

  /** x - ((x >> 1) & 0x55...) counts by pairs. */
  lemma {:induction false} CountPairs(x: nat, n: nat)
    requires x < Quads(n)
    ensures x == And2(x / 2, Mask(2, 1, n)) + Pairs(x, n)
  {
    hide And2, Pop, Pow2;
    if n > 0 {
      var q, r := x / 4, Mask(2, 1, n - 1);
      CountPairs(q, n - 1);
      HalfPairs(x);
      var e := 2 * (q % 2) + (x % 4) / 2;
      assert Pow2(2) == 4 by { FourIs(); }
      AndDigits(2, q / 2, e, r, 1);
      AndSmall(e);
      SmallPops();
    } else {
      AndZero(x / 2);
    }
  }

  // Halving moves a bit from one pair into the next.
  lemma HalfPairs(x: nat)
    ensures
      var e := 2 * ((x / 4) % 2) + (x % 4) / 2;
      e < 4 && x / 2 == 4 * ((x / 4) / 2) + e && e % 2 == (x % 4) / 2
  {
  }

  // x has the digits d1 and d0 below y.
  lemma PairsDigit(y: nat, d1: nat, d0: nat, n: nat)
    requires n > 0 && d1 < 4 && d0 < 4
    ensures Pop(d1) <= 2 && Pop(d0) <= 2 && Pop(4 * d1 + d0) == Pop(d1) + Pop(d0)
    ensures Pairs(16 * y + (4 * d1 + d0), 2 * n) == 16 * Pairs(y, 2 * (n - 1)) + 4 * Pop(d1) + Pop(d0)
  {
    hide Pairs, Pop;
    PairsStep(4 * y + d1, d0, 2 * n);
    PairsStep(y, d1, 2 * n - 1);
    PopFour(d1, d0);
    SmallPops();
  }

  lemma PopFour(q: nat, d: nat)
    requires d < 4
    ensures Pop(4 * q + d) == Pop(q) + Pop(d)
  {
    hide Pop;
    assert Pow2(2) == 4;
    PopDigits(2, q, d);
  }

  lemma PopSixteen(q: nat, d: nat)
    requires d < 16
    ensures Pop(16 * q + d) == Pop(q) + Pop(d)
  {
    hide Pop;
    assert Pow2(4) == 16;
    PopDigits(4, q, d);
  }

  lemma NibbleAtMost4(n: nat)
    requires n < 16
    ensures Pop(n) <= 4
  {
    hide Pop;
    NibbleIsPop(n);
  }

  lemma PairsStep(y: nat, d: nat, n: nat)
    requires n > 0 && d < 4
    ensures Pairs(4 * y + d, n) == 4 * Pairs(y, n - 1) + Pop(d)
  {
    hide Pop;
    assert (4 * y + d) / 4 == y && (4 * y + d) % 4 == d;
  }

  lemma Quarters(x: nat)
    ensures
      var d1, d0 := (x / 4) % 4, x % 4;
      x == 16 * (x / 16) + (4 * d1 + d0) && x % 16 == 4 * d1 + d0
  {
    DivIs(x, 16, x / 4 / 4, 4 * ((x / 4) % 4) + x % 4);
  }

  /** (a & 0x33...) + ((a >> 2) & 0x33...) counts by half bytes. */
  lemma {:induction false} CountNibbles(x: nat, n: nat)
    ensures
      var a, m := Pairs(x, 2 * n), Mask(4, 3, n);
      And2(a, m) + And2(a / 4, m) == Nibbles(x, n)
  {
    hide And2, Pop, Pairs;
    if n > 0 {
      var a, r := Pairs(x / 16, 2 * (n - 1)), Mask(4, 3, n - 1);
      var p1, p0 := Pop((x / 4) % 4), Pop(x % 4);
      Quarters(x);
      PairsDigit(x / 16, (x / 4) % 4, x % 4, n);
      assert Pow2(4) == 16;
      hide Pow2;
      CountNibbles(x / 16, n - 1);
      AndDigits(4, a, 4 * p1 + p0, r, 3);
      AndSmall(4 * p1 + p0);
      ShiftPairs(a, p1, p0);
      AndDigits(4, a / 4, 4 * (a % 4) + p1, r, 3);
      AndSmall(4 * (a % 4) + p1);
    } else {
      AndZero(Pairs(x, 0));
      AndZero(Pairs(x, 0) / 4);
    }
  }

  lemma ShiftPairs(a: nat, p1: nat, p0: nat)
    requires p1 <= 2 && p0 <= 2
    ensures
      (16 * a + 4 * p1 + p0) / 4 == 16 * (a / 4) + (4 * (a % 4) + p1)
      && (4 * (a % 4) + p1) % 4 == p1 && (4 * p1 + p0) % 4 == p0
  {
  }

  lemma NibblesDigit(y: nat, d1: nat, d0: nat, n: nat)
    requires n > 0 && d1 < 16 && d0 < 16
    ensures Pop(d1) <= 4 && Pop(d0) <= 4 && Pop(16 * d1 + d0) == Pop(d1) + Pop(d0)
    ensures Nibbles(256 * y + (16 * d1 + d0), 2 * n) == 256 * Nibbles(y, 2 * (n - 1)) + 16 * Pop(d1) + Pop(d0)
  {
    hide Nibbles, Pop;
    NibblesStep(16 * y + d1, d0, 2 * n);
    NibblesStep(y, d1, 2 * n - 1);
    PopSixteen(d1, d0);
    NibbleAtMost4(d1);
    NibbleAtMost4(d0);
  }

  lemma NibblesStep(y: nat, d: nat, n: nat)
    requires n > 0 && d < 16
    ensures Nibbles(16 * y + d, n) == 16 * Nibbles(y, n - 1) + Pop(d)
  {
    hide Pop;
    assert (16 * y + d) / 16 == y && (16 * y + d) % 16 == d;
  }

  lemma Sixteenths(x: nat)
    ensures
      var d1, d0 := (x / 16) % 16, x % 16;
      x == 256 * (x / 256) + (16 * d1 + d0) && x % 256 == 16 * d1 + d0
  {
    DivIs(x, 256, x / 16 / 16, 16 * ((x / 16) % 16) + x % 16);
  }

  // The lowest half byte is a count, too.
  lemma LowNibble(x: nat, n: nat)
    ensures Nibbles(x, 2 * n) % 16 <= 4
  {
    hide Pop;
    if n > 0 {
      Sixteenths(x);
      NibblesDigit(x / 256, (x / 16) % 16, x % 16, n);
    }
  }

  /** (b + (b >> 4)) & 0x0F... counts by bytes. */
  lemma {:induction false} CountBytes(x: nat, n: nat)
    ensures
      var b := Nibbles(x, 2 * n);
      And2(b + b / 16, Mask(8, 15, n)) == Bytes(x, n)
  {
    hide And2, Pop, Nibbles;
    if n > 0 {
      var b, r := Nibbles(x / 256, 2 * (n - 1)), Mask(8, 15, n - 1);
      var p1, p0 := Pop((x / 16) % 16), Pop(x % 16);
      Sixteenths(x);
      NibblesDigit(x / 256, (x / 16) % 16, x % 16, n);
      LowNibble(x / 256, n - 1);
      assert Pow2(8) == 256;
      hide Pow2;
      CountBytes(x / 256, n - 1);
      CountByte(b, p1, p0, r);
    } else {
      assert Nibbles(x, 0) == 0 by { NoNibbles(x); }
      AndZero(0);
    }
  }

  // The byte below the others.
  lemma CountByte(b: nat, p1: nat, p0: nat, r: nat)
    requires p1 <= 4 && p0 <= 4 && b % 16 <= 4
    ensures
      var whole := 256 * b + 16 * p1 + p0;
      And2(whole + whole / 16, 256 * r + 15) == 256 * And2(b + b / 16, r) + (p0 + p1)
  {
    hide And2;
    assert Pow2(8) == 256;
    hide Pow2;
    var e := 16 * (p1 + b % 16) + (p0 + p1);
    ShiftNibbles(b, p1, p0);
    AndDigits(8, b + b / 16, e, r, 15);
    AndFifteen(e);
  }

  lemma ShiftNibbles(b: nat, p1: nat, p0: nat)
    requires p1 <= 4 && p0 <= 4 && b % 16 <= 4
    ensures
      var whole := 256 * b + 16 * p1 + p0;
      var e := 16 * (p1 + b % 16) + (p0 + p1);
      whole + whole / 16 == 256 * (b + b / 16) + e && e < 256 && e % 16 == p0 + p1
  {
    assert (256 * b + 16 * p1 + p0) / 16 == 16 * b + p1;
  }

  lemma NoNibbles(x: nat)
    ensures Nibbles(x, 0) == 0
  {
  }

  // ------------------------------------------------------------------- seven words

  const U32: nat := 0x1_0000_0000

  function Word(a: nat, b: nat, c: nat, d: nat): nat { a + 256 * b + 0x1_0000 * c + 0x100_0000 * d }

  // Four bytes at position i, the first one lowest.
  function WordAt(s: seq<byte>, i: nat): (w: nat)
    requires i + 4 <= |s|
    ensures w < U32
  {
    Word(s[i], s[i + 1], s[i + 2], s[i + 3])
  }

  // What the three steps on a word leave: a count in every byte.
  function ByteCounts(x: nat): nat {
    var a := x - And2(x / 2, 0x5555_5555);
    var b := if a < 0 then 0 else And2(a, 0x3333_3333) + And2(a / 4, 0x3333_3333);
    And2(b + b / 16, 0x0F0F_0F0F)
  }

  lemma ByteCountsAre(s: seq<byte>, i: nat)
    requires i + 4 <= |s|
    ensures WordAt(s, i) >= And2(WordAt(s, i) / 2, 0x5555_5555)
    ensures ByteCounts(WordAt(s, i)) == Word(Pop(s[i]), Pop(s[i + 1]), Pop(s[i + 2]), Pop(s[i + 3]))
  {
    hide And2, Mask, Pop, Pairs, Nibbles, Bytes, Quads, Word;
    QuadsValue();
    MaskValues();
    var x := WordAt(s, i);
    CountPairs(x, 16);
    CountNibbles(x, 8);
    CountBytes(x, 4);
    BytesOf(s[i], s[i + 1], s[i + 2], s[i + 3]);
  }

  lemma QuadsValue()
    ensures Quads(16) == U32
  {
    assert Quads(4) == 256;
    assert Quads(8) == 0x1_0000;
    assert Quads(12) == 0x100_0000;
  }

  lemma BytesOf(a: byte, b: byte, c: byte, d: byte)
    ensures Bytes(Word(a, b, c, d), 4) == Word(Pop(a), Pop(b), Pop(c), Pop(d))
  {
    hide Pop, Bytes, Word;
    WordOf(a, b, c, d);
    WordOf(Pop(a), Pop(b), Pop(c), Pop(d));
    FourBytes(0, d, c, b, a, 0);
    NoBytes(0);
  }

  // Four digits below y.
  lemma FourBytes(y: nat, d: nat, c: nat, b: nat, a: nat, n: nat)
    requires d < 256 && c < 256 && b < 256 && a < 256
    ensures
      var x := 256 * (256 * (256 * (256 * y + d) + c) + b) + a;
      Bytes(x, n + 4) == 256 * (256 * (256 * (256 * Bytes(y, n) + Pop(d)) + Pop(c)) + Pop(b)) + Pop(a)
  {
    hide Pop, Bytes;
    TwoBytes(y, d, c, n);
    TwoBytes(256 * (256 * y + d) + c, b, a, n + 2);
  }

  lemma TwoBytes(y: nat, d1: nat, d0: nat, n: nat)
    requires d1 < 256 && d0 < 256
    ensures Bytes(256 * (256 * y + d1) + d0, n + 2) == 256 * (256 * Bytes(y, n) + Pop(d1)) + Pop(d0)
  {
    hide Pop, Bytes;
    BytesStep(y, d1, n + 1);
    BytesStep(256 * y + d1, d0, n + 2);
  }

  lemma WordOf(a: nat, b: nat, c: nat, d: nat)
    ensures Word(a, b, c, d) == 256 * (256 * (256 * d + c) + b) + a
  {
  }

  lemma NoBytes(x: nat)
    ensures Bytes(x, 0) == 0
  {
  }

  lemma BytesStep(y: nat, d: nat, n: nat)
    requires n > 0 && d < 256
    ensures Bytes(256 * y + d, n) == 256 * Bytes(y, n - 1) + Pop(d)
  {
    hide Pop;
    assert (256 * y + d) / 256 == y && (256 * y + d) % 256 == d;
  }

  lemma PopAtMost8(b: byte)
    ensures Pop(b) <= 8
  {
    hide Pop, Nibble;
    PopSplit(b);
    NibbleAtMost4(b / 16);
    NibbleAtMost4(b % 16);
    NibbleIsPop(b / 16);
    NibbleIsPop(b % 16);
  }

  /** The product and the shift add up the four bytes: each is at most 56 after seven
      words, and together they are at most 224, so nothing is lost. */
  lemma MultiplyAdds(a: nat, b: nat, c: nat, d: nat)
    requires a <= 56 && b <= 56 && c <= 56 && d <= 56
    ensures ((Word(a, b, c, d) * 0x0101_0101) % U32) / 0x100_0000 == a + b + c + d
  {
    var low := a + 256 * (a + b) + 0x1_0000 * (a + b + c);
    var high := (b + c + d) + 256 * (c + d) + 0x1_0000 * d;
    var w := Word(a, b, c, d);
    assert w * 0x0101_0101 == U32 * high + (0x100_0000 * (a + b + c + d) + low);
    DivIs(w * 0x0101_0101, U32, high, 0x100_0000 * (a + b + c + d) + low);
    DivIs(0x100_0000 * (a + b + c + d) + low, 0x100_0000, a + b + c + d, low);
  }

  // The ones in the bytes between two positions.
  function Between(s: seq<byte>, i: nat, j: nat): nat
    requires i <= j <= |s|
  {
    if i == j then 0 else Between(s, i, j - 1) + Pop(s[j - 1])
  }

  // The ones in the k-th bytes of the first n words from position i on.
  function Column(s: seq<byte>, i: nat, k: nat, n: nat): nat
    requires k < 4 && i + 4 * n <= |s|
  {
    if n == 0 then 0 else Column(s, i, k, n - 1) + Pop(s[i + 4 * (n - 1) + k])
  }

  lemma {:induction false} ColumnsAdd(s: seq<byte>, i: nat, n: nat)
    requires i + 4 * n <= |s|
    ensures Column(s, i, 0, n) + Column(s, i, 1, n) + Column(s, i, 2, n) + Column(s, i, 3, n) == Between(s, i, i + 4 * n)
  {
    hide Pop;
    if n > 0 {
      ColumnsAdd(s, i, n - 1);
      FourMore(s, i, i + 4 * (n - 1));
    }
  }

  lemma FourMore(s: seq<byte>, i: nat, p: nat)
    requires i <= p && p + 4 <= |s|
    ensures Between(s, i, p + 4) == Between(s, i, p) + Pop(s[p]) + Pop(s[p + 1]) + Pop(s[p + 2]) + Pop(s[p + 3])
  {
    hide Pop;
    assert Between(s, i, p + 3) == Between(s, i, p + 2) + Pop(s[p + 2]);
    assert Between(s, i, p + 2) == Between(s, i, p + 1) + Pop(s[p + 1]);
    assert Between(s, i, p + 1) == Between(s, i, p) + Pop(s[p]);
  }

  lemma {:induction false} ColumnAtMost(s: seq<byte>, i: nat, k: nat, n: nat)
    requires k < 4 && i + 4 * n <= |s|
    ensures Column(s, i, k, n) <= 8 * n
  {
    hide Pop;
    if n > 0 {
      ColumnAtMost(s, i, k, n - 1);
      PopAtMost8(s[i + 4 * (n - 1) + k]);
    }
  }

  lemma ColumnsAtMost(s: seq<byte>, i: nat, n: nat)
    requires n <= 7 && i + 4 * n <= |s|
    ensures forall k | 0 <= k < 4 :: Column(s, i, k, n) <= 56
  {
    hide Column;
    forall k | 0 <= k < 4
      ensures Column(s, i, k, n) <= 56
    {
      ColumnAtMost(s, i, k, n);
    }
  }

  lemma {:induction false} BetweenIsTotal(s: seq<byte>, i: nat, j: nat)
    requires i <= j <= |s|
    ensures Total(s, i) == Between(s, i, j) + Total(s, j)
  {
    hide Pop;
    if i < j {
      BetweenIsTotal(s, i, j - 1);
      assert Total(s, j - 1) == Pop(s[j - 1]) + Total(s, j);
    }
  }

  // Seven words at once.
  method CountSeven(s: seq<byte>, i: nat) returns (bits: nat)
    requires i + 28 <= |s|
    ensures bits == Between(s, i, i + 28)
  {
    hide Pop, ByteCounts, Word, Column, Between;
    var sum := 0;
    NoColumns(s, i);
    for n := 0 to 7
      invariant sum == Word(Column(s, i, 0, n), Column(s, i, 1, n), Column(s, i, 2, n), Column(s, i, 3, n))
    {
      ByteCountsAre(s, i + 4 * n);
      AddColumns(s, i, n);
      ColumnsAtMost(s, i, n + 1);
      WordLess(Column(s, i, 0, n + 1), Column(s, i, 1, n + 1), Column(s, i, 2, n + 1), Column(s, i, 3, n + 1));
      sum := (sum + ByteCounts(WordAt(s, i + 4 * n))) % U32;
    }
    ColumnsAdd(s, i, 7);
    ColumnsAtMost(s, i, 7);
    MultiplyAdds(Column(s, i, 0, 7), Column(s, i, 1, 7), Column(s, i, 2, 7), Column(s, i, 3, 7));
    bits := (sum * 0x0101_0101) % U32 / 0x100_0000;
  }

  lemma WordLess(a: nat, b: nat, c: nat, d: nat)
    requires a <= 56 && b <= 56 && c <= 56 && d <= 56
    ensures Word(a, b, c, d) < U32
  {
  }

  lemma NoColumns(s: seq<byte>, i: nat)
    requires i <= |s|
    ensures Word(Column(s, i, 0, 0), Column(s, i, 1, 0), Column(s, i, 2, 0), Column(s, i, 3, 0)) == 0
  {
  }

  lemma AddColumns(s: seq<byte>, i: nat, n: nat)
    requires i + 4 * (n + 1) <= |s|
    ensures
      var p := i + 4 * n;
      Word(Column(s, i, 0, n + 1), Column(s, i, 1, n + 1), Column(s, i, 2, n + 1), Column(s, i, 3, n + 1))
      == Word(Column(s, i, 0, n), Column(s, i, 1, n), Column(s, i, 2, n), Column(s, i, 3, n))
         + Word(Pop(s[p]), Pop(s[p + 1]), Pop(s[p + 2]), Pop(s[p + 3]))
  {
    hide Pop;
  }

  /** The ones of a string at any address: byte by byte up to a word boundary, then seven
      words at a time, then byte by byte. */
  method RedisPopcount(s: seq<byte>, address: nat) returns (bits: nat)
    ensures bits == Total(s, 0)
  {
    hide Pop, BitsInByte, Between;
    bits := 0;
    var i: nat, count: nat := 0, |s|;
    while (address + i) % 4 != 0 && count > 0
      invariant i + count == |s| && bits + Total(s, i) == Total(s, 0)
      decreases count
    {
      TableIsPop(s[i]);
      bits := bits + BitsInByte(s[i]);
      i, count := i + 1, count - 1;
    }
    while count >= 28
      invariant i + count == |s| && bits + Total(s, i) == Total(s, 0)
    {
      var seven := CountSeven(s, i);
      BetweenIsTotal(s, i, i + 28);
      bits := bits + seven;
      i, count := i + 28, count - 28;
    }
    while count > 0
      invariant i + count == |s| && bits + Total(s, i) == Total(s, 0)
    {
      TableIsPop(s[i]);
      bits := bits + BitsInByte(s[i]);
      i, count := i + 1, count - 1;
    }
  }

  /** That number is the number of bits that are one. */
  lemma {:induction false} TotalIsOnes(s: seq<byte>, k: nat)
    requires k <= |s|
    ensures Total(s, 0) == Ones(s, 8 * k) + Total(s, k)
  {
    hide Pop;
    if k > 0 {
      TotalIsOnes(s, k - 1);
      OnesOfByte(s, k - 1, 8);
      PopBits(s[k - 1]);
      assert Total(s, k - 1) == Pop(s[k - 1]) + Total(s, k);
    }
  }

  // The n highest bits of a byte.
  function HighOnes(b: nat, n: nat): nat
    requires n <= 8
  {
    if n == 0 then 0 else HighOnes(b, n - 1) + Bit(b, 8 - n)
  }

  lemma {:induction false} OnesOfByte(s: seq<byte>, k: nat, n: nat)
    requires k < |s| && n <= 8
    ensures Ones(s, 8 * k + n) == Ones(s, 8 * k) + HighOnes(s[k], n)
  {
    hide Bit;
    if n > 0 {
      OnesOfByte(s, k, n - 1);
      var p := 8 * k + (n - 1);
      assert p / 8 == k && p % 8 == n - 1;
    }
  }

  lemma PopBits(b: byte)
    ensures HighOnes(b, 8) == Pop(b)
  {
    hide Bit, Pop;
    LowOnes(b);
    SumBits(b, 8);
    Pow2Values();
  }

  // The same bits from the other end.
  function LowSum(b: nat, n: nat): nat { if n == 0 then 0 else LowSum(b, n - 1) + Bit(b, n - 1) }

  lemma LowOnes(b: nat)
    ensures HighOnes(b, 8) == LowSum(b, 8)
  {
    hide Bit;
    assert HighOnes(b, 1) == Bit(b, 7);
    assert HighOnes(b, 2) == Bit(b, 7) + Bit(b, 6);
    assert HighOnes(b, 4) == HighOnes(b, 2) + Bit(b, 5) + Bit(b, 4);
    assert HighOnes(b, 6) == HighOnes(b, 4) + Bit(b, 3) + Bit(b, 2);
    assert LowSum(b, 1) == Bit(b, 0);
    assert LowSum(b, 2) == Bit(b, 0) + Bit(b, 1);
    assert LowSum(b, 4) == LowSum(b, 2) + Bit(b, 2) + Bit(b, 3);
    assert LowSum(b, 6) == LowSum(b, 4) + Bit(b, 4) + Bit(b, 5);
  }

  lemma {:induction false} SumBits(b: nat, n: nat)
    requires b < Pow2(n)
    ensures LowSum(b, n) == Pop(b)
  {
    hide Bit;
    if n > 0 {
      SumBits(b / 2, n - 1);
      SumHalf(b, n - 1);
      PopHalf(b);
      BitHalf(b, 0);
    }
  }

  lemma {:induction false} SumHalf(b: nat, n: nat)
    ensures LowSum(b, n + 1) == Bit(b, 0) + LowSum(b / 2, n)
  {
    hide Bit;
    if n > 0 {
      SumHalf(b, n - 1);
      BitHalf(b, n - 1);
    }
  }

  // --------------------------------------------------------------- finding a bit

  /** pos is the first position of a bit with this value; zeros follow the string. */
  ghost predicate IsFirst(s: seq<byte>, bit: nat, pos: nat) {
    BitAt(s, pos) == bit && forall i: nat | i < pos :: BitAt(s, i) != bit
  }

  // Nothing to find in the first k bytes.
  ghost predicate Skipped(s: seq<byte>, bit: nat, k: nat) { forall i: nat | i < 8 * k :: BitAt(s, i) != bit }

  // The bit occurs between two positions.
  ghost predicate Occurs(s: seq<byte>, bit: nat, a: nat, b: nat) { exists i: nat :: a <= i < b && BitAt(s, i) == bit }

  // A byte of zeros when ones are looked for, or of ones.
  function SkipByte(bit: nat): nat { if bit == 1 then 0 else 255 }

  lemma SkipOne(s: seq<byte>, bit: nat, k: nat)
    requires bit < 2 && k < |s| && Skipped(s, bit, k)
    ensures s[k] == SkipByte(bit) ==> Skipped(s, bit, k + 1)
    ensures s[k] != SkipByte(bit) ==> Occurs(s, bit, 8 * k, 8 * k + 8)
  {
    hide Bit;
    if s[k] == SkipByte(bit) {
      forall i: nat | i < 8 * (k + 1)
        ensures BitAt(s, i) != bit
      {
        if i >= 8 * k {
          assert i / 8 == k;
          UniformByte(bit, 7 - i % 8);
        }
      }
    } else if !Occurs(s, bit, 8 * k, 8 * k + 8) {
      forall j: nat | j < 8
        ensures Bit(s[k], j) == Bit(SkipByte(bit), j)
      {
        assert BitAt(s, 8 * k + (7 - j)) != bit;
        BitOfByte(s, k, j);
        UniformByte(bit, j);
      }
      Pow2Values();
      SameBits(s[k], SkipByte(bit), 8);
    }
  }

  lemma UniformByte(bit: nat, j: nat)
    requires bit < 2 && j < 8
    ensures Bit(SkipByte(bit), j) == 1 - bit
  {
    if bit == 1 {
      ZeroBit(j);
    } else {
      AllOnes(8, j);
      Pow2Values();
    }
  }

  // Eight bytes at position i are all the same.
  predicate SkipsWord(s: seq<byte>, i: nat, bit: nat)
    requires i + 8 <= |s|
  {
    forall j | i <= j < i + 8 :: s[j] == SkipByte(bit)
  }

  lemma {:induction false} SkipMany(s: seq<byte>, bit: nat, k: nat, n: nat)
    requires bit < 2 && k + n <= |s| && Skipped(s, bit, k) && forall j | k <= j < k + n :: s[j] == SkipByte(bit)
    ensures Skipped(s, bit, k + n)
  {
    if n > 0 {
      SkipMany(s, bit, k, n - 1);
      SkipOne(s, bit, k + n - 1);
    }
  }

  // A word that is not skipped has the bit.
  lemma WordHasBit(s: seq<byte>, bit: nat, k: nat)
    requires bit < 2 && Skipped(s, bit, k) && k + 8 <= |s| && !SkipsWord(s, k, bit)
    ensures Occurs(s, bit, 8 * k, 8 * k + 64)
  {
    hide Bit, BitAt;
    var n: nat := 0;
    while n < 8 && s[k + n] == SkipByte(bit)
      invariant n <= 8 && forall j | k <= j < k + n :: s[j] == SkipByte(bit)
    {
      n := n + 1;
    }
    SkipMany(s, bit, k, n);
    SkipOne(s, bit, k + n);
    assert Occurs(s, bit, 8 * (k + n), 8 * (k + n) + 8);
  }

  // Eight bytes, the first one highest, with zeros after the end.
  method LoadWord(s: seq<byte>, c: nat) returns (word: nat)
    requires c <= |s|
    ensures word == Field(s, 8 * c, 64)
  {
    hide Field, Pow2;
    word := 0;
    var p, count := c, |s| - c;
    NoField(s, 8 * c);
    for j := 0 to 8
      invariant p == (if c + j <= |s| then c + j else |s|) && count == |s| - p
      invariant word == Field(s, 8 * c, 8 * j)
    {
      FieldConcat(s, 8 * c, 8 * j, 8);
      assert 8 * c + 8 * j == 8 * (c + j);
      ByteField(s, c + j);
      Pow2Values();
      word := word * 256;
      if count > 0 {
        word := word + s[p];
        p, count := p + 1, count - 1;
      }
    }
  }

  lemma NoField(s: seq<byte>, offset: nat)
    ensures Field(s, offset, 0) == 0
  {
  }

  lemma NoOnes(s: seq<byte>, c: nat)
    requires c <= |s| <= c + 8 && Field(s, 8 * c, 64) == 0
    ensures forall i: nat | i >= 8 * c :: BitAt(s, i) == 0
  {
    hide Bit;
    forall i: nat | i >= 8 * c
      ensures BitAt(s, i) == 0
    {
      if i < 8 * c + 64 {
        FieldBit(s, 8 * c, 64, i - 8 * c);
        ZeroBit(63 - (i - 8 * c));
      }
    }
  }

  // A word without ones is zero.
  lemma ZeroField(s: seq<byte>, c: nat)
    requires forall i: nat | 8 * c <= i < 8 * c + 64 :: BitAt(s, i) == 0
    ensures Field(s, 8 * c, 64) == 0
  {
    hide Bit, BitAt, Field, Pow2;
    var w := Field(s, 8 * c, 64);
    FieldLess(s, 8 * c, 64);
    forall j: nat | j < 64
      ensures Bit(w, j) == Bit(0, j)
    {
      FieldBit(s, 8 * c, 64, 63 - j);
      assert BitAt(s, 8 * c + (63 - j)) == 0;
      ZeroBit(j);
    }
    SameBits(w, 0, 64);
  }

  /** The first bit of the given value: byte by byte up to a word boundary, word by word,
      then bit by bit in the word where it must be. -1 if a one is looked for and there is
      none. That the last loop ends without finding it is impossible. */
  method RedisBitpos(s: seq<byte>, address: nat, bit: nat) returns (pos: int)
    requires bit < 2
    ensures pos >= 0 ==> IsFirst(s, bit, pos) && pos <= 8 * |s|
    ensures pos < 0 <==> bit == 1 && forall i: nat :: BitAt(s, i) == 0
    ensures pos >= -1
  {
    hide BitAt, Bit, Field, Pow2;
    var c, found := SkipAhead(s, address, bit);
    var word := LoadWord(s, c);
    if bit == 1 && word == 0 {
      assert !found && |s| < c + 8 by {
        if found || c + 8 <= |s| {
          var i: nat :| 8 * c <= i < 8 * c + 64 && BitAt(s, i) == bit;
          WordBit(s, c, i - 8 * c, word);
          ZeroBit(63 - (i - 8 * c));
        }
      }
      NoOnes(s, c);
      forall i: nat ensures BitAt(s, i) == 0 { if i < 8 * c { assert BitAt(s, i) != bit; } }
      return -1;
    }
    pos := 8 * c;
    var one := 0;
    while one < 64
      invariant 0 <= one <= 64 && pos == 8 * c + one
      invariant forall i: nat | i < pos :: BitAt(s, i) != bit
      decreases 64 - one
    {
      WordBit(s, c, one, word);
      if Bit(word, 63 - one) == bit {
        PastTheEnd(s, bit, pos);
        return pos;
      }
      pos := pos + 1;
      one := one + 1;
    }
    Somewhere(s, bit, c, found, word);
    assert false;
  }

  // (one & word) != 0, for the one-th bit from the left.
  lemma WordBit(s: seq<byte>, c: nat, one: nat, word: nat)
    requires one < 64 && word == Field(s, 8 * c, 64)
    ensures Bit(word, 63 - one) == BitAt(s, 8 * c + one)
  {
    FieldBit(s, 8 * c, 64, one);
  }

  lemma PastTheEnd(s: seq<byte>, bit: nat, pos: nat)
    requires IsFirst(s, bit, pos)
    ensures pos <= 8 * |s| || bit == 1
    ensures bit == 1 ==> pos < 8 * |s|
  {
    hide Bit;
    assert BitAt(s, 8 * |s|) == 0;
  }

  // The bit is in the word after what was skipped.
  lemma Somewhere(s: seq<byte>, bit: nat, c: nat, found: bool, word: nat)
    requires bit < 2 && c <= |s| && word == Field(s, 8 * c, 64) && !(bit == 1 && word == 0)
    requires found || c + 8 <= |s| ==> Occurs(s, bit, 8 * c, 8 * c + 64)
    ensures exists i: nat :: i < 8 * c + 64 && BitAt(s, i) == bit
  {
    hide Bit;
    if found || c + 8 <= |s| {
      assert Occurs(s, bit, 8 * c, 8 * c + 64);
    } else if bit == 0 {
      assert BitAt(s, 8 * |s|) == 0;
    } else if forall i: nat | i < 8 * c + 64 :: BitAt(s, i) != bit {
      forall i: nat | 8 * c <= i < 8 * c + 64 ensures BitAt(s, i) == 0 { assert BitAt(s, i) != bit; }
      ZeroField(s, c);
    }
  }

  // Skips bytes up to a word boundary, then words.
  method SkipAhead(s: seq<byte>, address: nat, bit: nat) returns (c: nat, found: bool)
    requires bit < 2
    ensures c <= |s| && Skipped(s, bit, c)
    ensures found || c + 8 <= |s| ==> Occurs(s, bit, 8 * c, 8 * c + 64)
  {
    hide BitAt;
    c, found := 0, false;
    while (address + c) % 8 != 0 && c < |s|
      invariant c <= |s| && Skipped(s, bit, c)
      decreases |s| - c
    {
      SkipOne(s, bit, c);
      if s[c] != SkipByte(bit) {
        found := true;
        return;
      }
      c := c + 1;
    }
    while c + 8 <= |s|
      invariant c <= |s| && Skipped(s, bit, c)
    {
      if !SkipsWord(s, c, bit) {
        WordHasBit(s, bit, c);
        return;
      }
      SkipMany(s, bit, c, 8);
      c := c + 8;
    }
  }
}
