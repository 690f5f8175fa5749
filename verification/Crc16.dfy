/** CRC16 (XMODEM: polynomial x^16 + x^12 + x^5 + 1, no reflection, starting from zero) as
    a table look-up for each byte (Redis Cluster specification, section "Appendix A: CRC16
    reference implementation in ANSI C"), and the hash slot of a key (section "Hash tags"). */
module Crc16 {
  import opened Bits

  const POLY: nat := 0x1021
  const TOP: nat := 0x8000
  const U16: nat := 0x1_0000

  // ------------------------------------------------------------- exclusive or

  function X(a: nat, b: nat): nat { Bitwise(Xor, a, b) }

  lemma XStep(a: nat, b: nat)
    ensures X(a, b) == 2 * X(a / 2, b / 2) + Op1(Xor, a % 2, b % 2)
  {
    hide Op1;
    BitwiseStep(Xor, a, b);
  }

  lemma {:induction false} XSwap(a: nat, b: nat)
    ensures X(a, b) == X(b, a)
  {
    hide X;
    XStep(a, b);
    XStep(b, a);
    if a > 0 || b > 0 { XSwap(a / 2, b / 2); }
  }

  lemma {:induction false} XNothing(a: nat)
    ensures X(a, 0) == a && X(0, a) == a && X(a, a) == 0
  {
    hide X;
    XStep(a, 0);
    XStep(0, a);
    XStep(a, a);
    if a > 0 { XNothing(a / 2); } else { assert X(0, 0) == 0 by { XZero(); } }
  }

  lemma XZero()
    ensures X(0, 0) == 0
  {
  }

  lemma {:induction false} XAssoc(a: nat, b: nat, c: nat)
    ensures X(X(a, b), c) == X(a, X(b, c))
  {
    hide X;
    XStep(a, b);
    XStep(b, c);
    XStep(X(a, b), c);
    XStep(a, X(b, c));
    if a > 0 || b > 0 || c > 0 { XAssoc(a / 2, b / 2, c / 2); }
    else { XZero(); }
  }

  lemma XDouble(a: nat, b: nat)
    ensures X(2 * a, 2 * b) == 2 * X(a, b)
  {
    hide X;
    XStep(2 * a, 2 * b);
  }

  // On a top part and 15, or 8, bits below it.
  lemma XSplit(q: nat, d: nat, r: nat, m: nat)
    ensures d < TOP && m < TOP ==> X(TOP * q + d, TOP * r + m) == TOP * X(q, r) + X(d, m) && X(d, m) < TOP
    ensures d < 256 && m < 256 ==> X(256 * q + d, 256 * r + m) == 256 * X(q, r) + X(d, m) && X(d, m) < 256
  {
    hide Bitwise;
    Pow2Values();
    assert Pow2(16) == 2 * Pow2(15);
    hide Pow2;
    if d < TOP && m < TOP { BitwiseSplit(Xor, 15, q, d, r, m); }
    if d < 256 && m < 256 { BitwiseSplit(Xor, 8, q, d, r, m); }
  }

  // ------------------------------------------------------------------ the meaning

  /** Long division, one bit of the message at a time: the remainder moves up, the bit
      comes in at the top, and the divisor is subtracted if the top is one. */
  function DivideBit(r: nat, bit: nat): nat {
    var up := (2 * r) % U16;
    if r / TOP != bit then X(up, POLY) else up
  }

  function DivideBits(r: nat, bits: seq<nat>): nat
    decreases |bits|
  {
    if bits == [] then r else DivideBits(DivideBit(r, bits[0]), bits[1..])
  }

  // The n highest bits of a byte, the most significant one first.
  function TopBits(c: nat, n: nat): seq<nat>
    decreases n
  {
    if n == 0 then [] else [c / 128] + TopBits((2 * c) % 256, n - 1)
  }

  function Message(s: seq<byte>): seq<nat> { if s == [] then [] else TopBits(s[0], 8) + Message(s[1..]) }

  // ----------------------------------------------------------------- byte by byte

  // Eight entries of the table.
  function Row(h: nat): (r: seq<nat>)
    requires h < 32
    ensures |r| == 8
  {
    match h
    case 0 => [0x0000, 0x1021, 0x2042, 0x3063, 0x4084, 0x50a5, 0x60c6, 0x70e7]
    case 1 => [0x8108, 0x9129, 0xa14a, 0xb16b, 0xc18c, 0xd1ad, 0xe1ce, 0xf1ef]
    case 2 => [0x1231, 0x0210, 0x3273, 0x2252, 0x52b5, 0x4294, 0x72f7, 0x62d6]
    case 3 => [0x9339, 0x8318, 0xb37b, 0xa35a, 0xd3bd, 0xc39c, 0xf3ff, 0xe3de]
    case 4 => [0x2462, 0x3443, 0x0420, 0x1401, 0x64e6, 0x74c7, 0x44a4, 0x5485]
    case 5 => [0xa56a, 0xb54b, 0x8528, 0x9509, 0xe5ee, 0xf5cf, 0xc5ac, 0xd58d]
    case 6 => [0x3653, 0x2672, 0x1611, 0x0630, 0x76d7, 0x66f6, 0x5695, 0x46b4]
    case 7 => [0xb75b, 0xa77a, 0x9719, 0x8738, 0xf7df, 0xe7fe, 0xd79d, 0xc7bc]
    case 8 => [0x48c4, 0x58e5, 0x6886, 0x78a7, 0x0840, 0x1861, 0x2802, 0x3823]
    case 9 => [0xc9cc, 0xd9ed, 0xe98e, 0xf9af, 0x8948, 0x9969, 0xa90a, 0xb92b]
    case 10 => [0x5af5, 0x4ad4, 0x7ab7, 0x6a96, 0x1a71, 0x0a50, 0x3a33, 0x2a12]
    case 11 => [0xdbfd, 0xcbdc, 0xfbbf, 0xeb9e, 0x9b79, 0x8b58, 0xbb3b, 0xab1a]
    case 12 => [0x6ca6, 0x7c87, 0x4ce4, 0x5cc5, 0x2c22, 0x3c03, 0x0c60, 0x1c41]
    case 13 => [0xedae, 0xfd8f, 0xcdec, 0xddcd, 0xad2a, 0xbd0b, 0x8d68, 0x9d49]
    case 14 => [0x7e97, 0x6eb6, 0x5ed5, 0x4ef4, 0x3e13, 0x2e32, 0x1e51, 0x0e70]
    case 15 => [0xff9f, 0xefbe, 0xdfdd, 0xcffc, 0xbf1b, 0xaf3a, 0x9f59, 0x8f78]
    case 16 => [0x9188, 0x81a9, 0xb1ca, 0xa1eb, 0xd10c, 0xc12d, 0xf14e, 0xe16f]
    case 17 => [0x1080, 0x00a1, 0x30c2, 0x20e3, 0x5004, 0x4025, 0x7046, 0x6067]
    case 18 => [0x83b9, 0x9398, 0xa3fb, 0xb3da, 0xc33d, 0xd31c, 0xe37f, 0xf35e]
    case 19 => [0x02b1, 0x1290, 0x22f3, 0x32d2, 0x4235, 0x5214, 0x6277, 0x7256]
    case 20 => [0xb5ea, 0xa5cb, 0x95a8, 0x8589, 0xf56e, 0xe54f, 0xd52c, 0xc50d]
    case 21 => [0x34e2, 0x24c3, 0x14a0, 0x0481, 0x7466, 0x6447, 0x5424, 0x4405]
    case 22 => [0xa7db, 0xb7fa, 0x8799, 0x97b8, 0xe75f, 0xf77e, 0xc71d, 0xd73c]
    case 23 => [0x26d3, 0x36f2, 0x0691, 0x16b0, 0x6657, 0x7676, 0x4615, 0x5634]
    case 24 => [0xd94c, 0xc96d, 0xf90e, 0xe92f, 0x99c8, 0x89e9, 0xb98a, 0xa9ab]
    case 25 => [0x5844, 0x4865, 0x7806, 0x6827, 0x18c0, 0x08e1, 0x3882, 0x28a3]
    case 26 => [0xcb7d, 0xdb5c, 0xeb3f, 0xfb1e, 0x8bf9, 0x9bd8, 0xabbb, 0xbb9a]
    case 27 => [0x4a75, 0x5a54, 0x6a37, 0x7a16, 0x0af1, 0x1ad0, 0x2ab3, 0x3a92]
    case 28 => [0xfd2e, 0xed0f, 0xdd6c, 0xcd4d, 0xbdaa, 0xad8b, 0x9de8, 0x8dc9]
    case 29 => [0x7c26, 0x6c07, 0x5c64, 0x4c45, 0x3ca2, 0x2c83, 0x1ce0, 0x0cc1]
    case 30 => [0xef1f, 0xff3e, 0xcf5d, 0xdf7c, 0xaf9b, 0xbfba, 0x8fd9, 0x9ff8]
    case _ => [0x6e17, 0x7e36, 0x4e55, 0x5e74, 0x2e93, 0x3eb2, 0x0ed1, 0x1ef0]
  }

  function Table(b: nat): nat
    requires b < 256
  {
    Row(b / 8)[b % 8]
  }

  // What one byte makes of the remainder.
  function NextByte(r: nat, b: byte): nat
    requires r < U16
  {
    IndexIsByte(r, b);
    X((256 * r) % U16, Table(X(r / 256, b)))
  }

  lemma IndexIsByte(r: nat, b: byte)
    requires r < U16
    ensures X(r / 256, b) < 256
  {
    hide X;
    XSplit(0, r / 256, 0, b);
  }

  function Shift(x: nat): nat { if x >= TOP then X(2 * (x - TOP), POLY) else 2 * x }

  function Shifts(x: nat, n: nat): nat
    decreases n
  {
    if n == 0 then x else Shifts(Shift(x), n - 1)
  }

  lemma SmallX(a: nat, b: nat)
    requires a < U16 && b < U16
    ensures X(a, b) < U16
  {
    hide X;
    XSplit(a / TOP, a % TOP, b / TOP, b % TOP);
    Ones(a / TOP, b / TOP);
  }

  lemma Ones(s: nat, t: nat)
    requires s < 2 && t < 2
    ensures X(s, t) == if s == t then 0 else 1
  {
    hide X;
    XNothing(s);
    XNothing(t);
  }

  lemma ShiftLess(x: nat)
    requires x < U16
    ensures Shift(x) < U16
  {
    hide X;
    if x >= TOP { SmallX(2 * (x - TOP), POLY); }
  }

  // Both in terms of the top bits s and t and what is below them.
  lemma StepAndShift(x: nat, y: nat)
    requires x < U16 && y < U16
    ensures X(DivideBit(x, y / TOP), (2 * y) % U16) == Shift(X(x, y))
    ensures Shift(X(x, y)) == X(Shift(x), Shift(y))
  {
    hide X;
    var s, t, d, m := x / TOP, y / TOP, x % TOP, y % TOP;
    XSplit(s, d, t, m);
    Ones(s, t);
    XDouble(d, m);
    var a, b := 2 * d, 2 * m;
    assert (2 * x) % U16 == a && (2 * y) % U16 == b;
    XAssoc(a, POLY, b);
    XSwap(POLY, b);
    XAssoc(a, b, POLY);
    XAssoc(a, POLY, X(b, POLY));
    XSwap(POLY, X(b, POLY));
    XAssoc(b, POLY, POLY);
    XNothing(POLY);
    XNothing(b);
    assert Shift(X(x, y)) == if s != t then X(X(a, b), POLY) else X(a, b);
  }

  lemma {:induction false} ShiftsSplit(x: nat, y: nat, n: nat)
    requires x < U16 && y < U16
    ensures Shifts(X(x, y), n) == X(Shifts(x, n), Shifts(y, n))
    decreases n
  {
    hide X, Shift;
    if n > 0 {
      StepAndShift(x, y);
      ShiftLess(x);
      ShiftLess(y);
      ShiftsSplit(Shift(x), Shift(y), n - 1);
    }
  }

  lemma {:induction false} ShiftsMore(x: nat, n: nat)
    ensures Shifts(Shift(x), n) == Shift(Shifts(x, n))
    decreases n
  {
    hide Shift;
    if n > 0 { ShiftsMore(Shift(x), n - 1); }
  }

  // Low bits move up without meeting the divisor.
  lemma LowBitsMoveUp(x: nat)
    requires x < 256
    ensures Shifts(x, 8) == 256 * x
  {
    hide Shifts;
    MoveUp(x, 8);
    MoveUp(2 * x, 7);
    MoveUp(4 * x, 6);
    MoveUp(8 * x, 5);
    MoveUp(16 * x, 4);
    MoveUp(32 * x, 3);
    MoveUp(64 * x, 2);
    MoveUp(128 * x, 1);
    NoShift(256 * x);
  }

  lemma MoveUp(x: nat, n: nat)
    requires x < TOP && n > 0
    ensures Shifts(x, n) == Shifts(2 * x, n - 1)
  {
  }

  lemma NoShift(x: nat)
    ensures Shifts(x, 0) == x
  {
  }

  // -------------------------------------------------------------------- the table

  // e with the bit of weight p inverted.
  function Flip(e: nat, p: nat): int
    requires p > 0
  {
    if (e / p) % 2 == 1 then e - p else e + p
  }

  lemma {:induction false} XOneBit(e: nat, k: nat)
    ensures X(e, Pow2(k)) == Flip(e, Pow2(k))
  {
    hide X;
    XStep(e, Pow2(k));
    if k == 0 {
      XNothing(e / 2);
      assert Pow2(0) == 1;
    } else {
      XOneBit(e / 2, k - 1);
      HalfDiv(e, Pow2(k - 1));
      assert Pow2(k) == 2 * Pow2(k - 1);
    }
  }

  // e with the divisor subtracted: bits 0, 5 and 12 inverted.
  function Toggle(e: nat): int {
    e + 1 - 2 * (e % 2) + 32 - 64 * ((e / 32) % 2) + 4096 - 8192 * ((e / 4096) % 2)
  }

  lemma TogglesThree(e: nat, a: nat, b: nat)
    requires a == Flip(e, 4096) && b == Flip(a, 32)
    ensures Flip(b, 1) == Toggle(e)
  {
    assert (a / 32) % 2 == (e / 32) % 2;
    assert b % 2 == e % 2;
  }

  lemma XPoly(e: nat)
    ensures X(e, POLY) == Toggle(e)
  {
    hide X, Flip, Toggle;
    assert Pow2(0) == 1 && Pow2(5) == 32 && Pow2(12) == 4096 by { Pow2Values(); assert Pow2(12) == 16 * Pow2(8); }
    XOneBit(4096, 5);
    XOneBit(4128, 0);
    FlipsUp();
    XOneBit(e, 12);
    XOneBit(X(e, 4096), 5);
    XOneBit(X(X(e, 4096), 32), 0);
    XAssoc(e, 4096, 32);
    XAssoc(e, 4128, 1);
    TogglesThree(e, X(e, 4096), X(X(e, 4096), 32));
  }

  lemma FlipsUp()
    ensures Flip(4096, 32) == 4128 && Flip(4128, 1) == POLY
  {
  }

  predicate RowFollows(h: nat, j: nat)
    requires h < 32 && j < 4
  {
    var e, o, half := Row(h)[2 * j], Row(h)[2 * j + 1], Row(h / 2)[4 * (h % 2) + j];
    o == Toggle(e) && if half >= TOP then o == 2 * (half - TOP) else e == 2 * half
  }

  lemma RowsFrom0(h: nat, j: nat)
    requires 0 <= h < 2 && j < 4
    ensures RowFollows(h, j)
  {
  }

  lemma RowsFrom2(h: nat, j: nat)
    requires 2 <= h < 4 && j < 4
    ensures RowFollows(h, j)
  {
  }

  lemma RowsFrom4(h: nat, j: nat)
    requires 4 <= h < 6 && j < 4
    ensures RowFollows(h, j)
  {
  }

  lemma RowsFrom6(h: nat, j: nat)
    requires 6 <= h < 8 && j < 4
    ensures RowFollows(h, j)
  {
  }

  lemma RowsFrom8(h: nat, j: nat)
    requires 8 <= h < 10 && j < 4
    ensures RowFollows(h, j)
  {
  }

  lemma RowsFrom10(h: nat, j: nat)
    requires 10 <= h < 12 && j < 4
    ensures RowFollows(h, j)
  {
  }

  lemma RowsFrom12(h: nat, j: nat)
    requires 12 <= h < 14 && j < 4
    ensures RowFollows(h, j)
  {
  }

  lemma RowsFrom14(h: nat, j: nat)
    requires 14 <= h < 16 && j < 4
    ensures RowFollows(h, j)
  {
  }

  lemma RowsFrom16(h: nat, j: nat)
    requires 16 <= h < 18 && j < 4
    ensures RowFollows(h, j)
  {
  }

  lemma RowsFrom18(h: nat, j: nat)
    requires 18 <= h < 20 && j < 4
    ensures RowFollows(h, j)
  {
  }

  lemma RowsFrom20(h: nat, j: nat)
    requires 20 <= h < 22 && j < 4
    ensures RowFollows(h, j)
  {
  }

  lemma RowsFrom22(h: nat, j: nat)
    requires 22 <= h < 24 && j < 4
    ensures RowFollows(h, j)
  {
  }

  lemma RowsFrom24(h: nat, j: nat)
    requires 24 <= h < 26 && j < 4
    ensures RowFollows(h, j)
  {
  }

  lemma RowsFrom26(h: nat, j: nat)
    requires 26 <= h < 28 && j < 4
    ensures RowFollows(h, j)
  {
  }

  lemma RowsFrom28(h: nat, j: nat)
    requires 28 <= h < 30 && j < 4
    ensures RowFollows(h, j)
  {
  }

  lemma RowsFrom30(h: nat, j: nat)
    requires 30 <= h < 32 && j < 4
    ensures RowFollows(h, j)
  {
  }

  lemma AllRowsFollow(h: nat, j: nat)
    requires h < 32 && j < 4
    ensures RowFollows(h, j)
  {
    hide RowFollows;
    match h / 2
    case 0 => RowsFrom0(h, j);
    case 1 => RowsFrom2(h, j);
    case 2 => RowsFrom4(h, j);
    case 3 => RowsFrom6(h, j);
    case 4 => RowsFrom8(h, j);
    case 5 => RowsFrom10(h, j);
    case 6 => RowsFrom12(h, j);
    case 7 => RowsFrom14(h, j);
    case 8 => RowsFrom16(h, j);
    case 9 => RowsFrom18(h, j);
    case 10 => RowsFrom20(h, j);
    case 11 => RowsFrom22(h, j);
    case 12 => RowsFrom24(h, j);
    case 13 => RowsFrom26(h, j);
    case 14 => RowsFrom28(h, j);
    case _ => RowsFrom30(h, j);
  }

  /** Entry 2b is entry b moved up, and entry 2b + 1 has the divisor in it once more. */
  lemma TableStep(b: nat)
    requires b < 128
    ensures Table(2 * b) == Shift(Table(b)) && Table(2 * b + 1) == X(Table(2 * b), POLY)
  {
    hide Row, X;
    var h, j := b / 4, b % 4;
    AllRowsFollow(h, j);
    assert (2 * b) / 8 == h && (2 * b) % 8 == 2 * j;
    assert (2 * b + 1) / 8 == h && (2 * b + 1) % 8 == 2 * j + 1;
    assert b / 8 == h / 2 && b % 8 == 4 * (h % 2) + j;
    XPoly(Table(2 * b));
    if Table(b) >= TOP {
      XAssoc(Table(2 * b), POLY, POLY);
      XNothing(POLY);
      XNothing(Table(2 * b));
    }
  }

  lemma TableStart()
    ensures Table(0) == 0
  {
  }

  /** The entry of a byte is what eight steps make of it. */
  lemma {:induction false} TableIsEightShifts(b: nat)
    requires b < 256
    ensures Table(b) == Shifts(256 * b, 8)
    decreases b
  {
    hide Table, Shift, Shifts, X;
    if b == 0 {
      TableStart();
      LowBitsMoveUp(0);
    } else {
      var c := b / 2;
      TableIsEightShifts(c);
      TableStep(c);
      MoveUpFirst(256 * c, 8);
      ShiftsMore(256 * c, 8);
      if b % 2 == 1 {
        PolyIsEightShifts();
        XSplit(2 * c, 0, 1, 0);
        XNothing(0);
        XOdd(c);
        ShiftsSplit(512 * c, 256, 8);
      }
    }
  }

  lemma MoveUpFirst(x: nat, n: nat)
    requires x < TOP
    ensures Shifts(Shift(x), n) == Shifts(2 * x, n)
  {
    hide Shifts;
  }

  lemma PolyIsEightShifts()
    ensures Shifts(256, 8) == POLY
  {
    hide Shifts, X;
    MoveUp(256, 8);
    MoveUp(512, 7);
    MoveUp(1024, 6);
    MoveUp(2048, 5);
    MoveUp(4096, 4);
    MoveUp(8192, 3);
    MoveUp(16384, 2);
    NoShift(POLY);
    assert Shift(TOP) == POLY by { XNothing(POLY); }
    ShiftsOnce(TOP);
  }

  lemma ShiftsOnce(x: nat)
    ensures Shifts(x, 1) == Shift(x)
  {
    hide Shift;
    NoShift(Shift(x));
  }

  lemma XOdd(c: nat)
    ensures X(2 * c, 1) == 2 * c + 1
  {
    hide X;
    XStep(2 * c, 1);
    XNothing(c);
  }

  // ---------------------------------------------- one byte is eight steps of division

  // What is left of a byte when its n highest bits are gone.
  function Left(c: nat, n: nat): nat
    decreases n
  {
    if n == 0 then c else Left((2 * c) % 256, n - 1)
  }

  lemma TopOfByte(c: nat)
    requires c < 256
    ensures (256 * c) / TOP == c / 128 && (2 * (256 * c)) % U16 == 256 * ((2 * c) % 256)
  {
  }

  lemma {:induction false} StepsAreShifts(r: nat, c: nat, n: nat)
    requires r < U16 && c < 256
    ensures X(DivideBits(r, TopBits(c, n)), 256 * Left(c, n)) == Shifts(X(r, 256 * c), n)
    decreases n
  {
    hide X, Shift, DivideBit;
    if n > 0 {
      var bits := TopBits(c, n);
      var r1, c1 := DivideBit(r, c / 128), (2 * c) % 256;
      StepAndShift(r, 256 * c);
      TopOfByte(c);
      DivideLess(r, c / 128);
      assert bits[0] == c / 128 && bits[1..] == TopBits(c1, n - 1);
      StepsAreShifts(r1, c1, n - 1);
    }
  }

  lemma DivideLess(r: nat, bit: nat)
    requires r < U16
    ensures DivideBit(r, bit) < U16
  {
    hide X;
    SmallX((2 * r) % U16, POLY);
  }

  lemma DropTop(c: nat, n: nat)
    requires n > 0
    ensures Left(c, n) == Left((2 * c) % 256, n - 1)
  {
  }

  // k, with n bits, at the upper end of a byte.
  function Raised(k: nat, n: nat): nat
    requires n <= 8
  {
    Pow2(8 - n) * k
  }

  lemma DoubledMod(k: nat, n: nat)
    requires 0 < n <= 8
    ensures Pow2(n - 1) > 0 && (2 * Raised(k, n)) % 256 == Raised(k % Pow2(n - 1), n - 1)
  {
    hide Pow2;
    var a, m := Pow2(8 - (n - 1)), Pow2(n - 1);
    Pow2More(8 - n);
    assert a * m == 256 by { Pow2Add(8 - (n - 1), n - 1); Pow2Values(); }
    ScaledMod(a, k, m);
    Twice(Pow2(8 - n), k);
  }

  lemma Twice(a: nat, k: nat)
    ensures 2 * (a * k) == (2 * a) * k
  {
  }

  lemma RaisedEnds(k: nat)
    ensures Raised(k, 8) == k && (k < Pow2(0) ==> Raised(k, 0) == 0)
  {
    assert Pow2(0) == 1;
  }

  /** Of n bits at the upper end nothing is left after n doublings. */
  lemma {:induction false} NothingLeft(k: nat, n: nat)
    requires n <= 8 && k < Pow2(n)
    ensures Left(Raised(k, n), n) == 0
  {
    hide Left, Pow2, Raised;
    if n == 0 {
      RaisedEnds(k);
      NoneLeft();
    } else {
      DoubledMod(k, n);
      DropTop(Raised(k, n), n);
      NothingLeft(k % Pow2(n - 1), n - 1);
    }
  }

  lemma NoneLeft()
    ensures Left(0, 0) == 0
  {
  }

  lemma Pow2More(n: nat)
    ensures Pow2(n + 1) == 2 * Pow2(n)
  {
  }

  lemma ScaledMod(a: nat, k: nat, m: nat)
    requires a > 0 && m > 0
    ensures a * m > 0 && (a * k) % (a * m) == a * (k % m)
  {
    var q, r := k / m, k % m;
    DivMod(k, m);
    ScaledSum(a, m, q, r);
    MulLess(a, r, m - r);
    MulLess(a, 0, m);
    DivIs(a * k, a * m, q, a * r);
  }

  lemma ScaledSum(a: nat, m: nat, q: nat, r: nat)
    ensures a * (m * q + r) == (a * m) * q + a * r
  {
    assert a * (m * q + r) == a * (m * q) + a * r;
  }

  /** Looking up one byte is dividing by its eight bits. */
  lemma ByteIsEightBits(r: nat, b: byte)
    requires r < U16
    ensures NextByte(r, b) == DivideBits(r, TopBits(b, 8)) && NextByte(r, b) < U16
  {
    hide X, Table, DivideBits, TopBits, Shifts, Left;
    StepsAreShifts(r, b, 8);
    assert Pow2(8) == 256 by { Pow2Values(); }
    RaisedEnds(b);
    NothingLeft(b, 8);
    XNothing(DivideBits(r, TopBits(b, 8)));
    var high, low := r / 256, r % 256;
    IndexIsByte(r, b);
    var i := X(high, b);
    XSplit(high, low, b, 0);
    XNothing(low);
    XSplit(i, 0, 0, low);
    XNothing(i);
    ShiftsSplit(256 * i, low, 8);
    LowBitsMoveUp(low);
    TableIsEightShifts(i);
    XSwap(Table(i), 256 * low);
    assert (256 * r) % U16 == 256 * low;
    EightShiftsLess(256 * i);
    SmallX(256 * low, Table(i));
  }

  lemma EightShiftsLess(x: nat)
    requires x < U16
    ensures Shifts(x, 8) < U16
  {
    ShiftsLess(x, 8);
  }

  lemma {:induction false} ShiftsLess(x: nat, n: nat)
    requires x < U16
    ensures Shifts(x, n) < U16
    decreases n
  {
    hide Shift;
    if n > 0 {
      ShiftLess(x);
      ShiftsLess(Shift(x), n - 1);
    }
  }

  // ------------------------------------------------------------------ whole messages

  function CrcFrom(r: nat, s: seq<byte>): (e: nat)
    requires r < U16
    ensures e < U16
    decreases |s|
  {
    if s == [] then r
    else
      ByteIsEightBits(r, s[0]);
      CrcFrom(NextByte(r, s[0]), s[1..])
  }

  lemma {:induction false} DivideConcat(r: nat, a: seq<nat>, b: seq<nat>)
    ensures DivideBits(r, a + b) == DivideBits(DivideBits(r, a), b)
    decreases |a|
  {
    hide DivideBit;
    if a == [] {
      assert a + b == b;
    } else {
      assert (a + b)[1..] == a[1..] + b;
      DivideConcat(DivideBit(r, a[0]), a[1..], b);
    }
  }

  /** The table form is long division of the whole message, bit by bit. */
  lemma {:induction false} CrcIsDivision(r: nat, s: seq<byte>)
    requires r < U16
    ensures CrcFrom(r, s) == DivideBits(r, Message(s))
    decreases |s|
  {
    hide NextByte, TopBits, DivideBit;
    if s != [] {
      ByteIsEightBits(r, s[0]);
      CrcIsDivision(NextByte(r, s[0]), s[1..]);
      DivideConcat(r, TopBits(s[0], 8), Message(s[1..]));
    }
  }

  lemma {:induction false} CrcSnoc(r: nat, s: seq<byte>, b: byte)
    requires r < U16
    ensures CrcFrom(r, s + [b]) == NextByte(CrcFrom(r, s), b)
    decreases |s|
  {
    hide NextByte, DivideBits;
    if s == [] {
      ByteIsEightBits(r, b);
      assert (s + [b])[1..] == [];
      assert (s + [b])[0] == b;
    } else {
      ByteIsEightBits(r, s[0]);
      assert (s + [b])[1..] == s[1..] + [b];
      CrcSnoc(NextByte(r, s[0]), s[1..], b);
    }
  }

  method Crc(buf: seq<byte>) returns (crc: nat)
    ensures crc == CrcFrom(0, buf) == DivideBits(0, Message(buf))
    ensures crc < U16
  {
    hide NextByte, DivideBits;
    crc := 0;
    for counter := 0 to |buf|
      invariant crc == CrcFrom(0, buf[..counter])
    {
      assert buf[..counter + 1] == buf[..counter] + [buf[counter]];
      CrcSnoc(0, buf[..counter], buf[counter]);
      crc := NextByte(crc, buf[counter]);
    }
    assert buf[..|buf|] == buf;
    CrcIsDivision(0, buf);
  }

  // --------------------------------------------------------------------- hash slots

  const SLOTS: nat := 16384
  const OPEN: byte := 0x7B
  const CLOSE: byte := 0x7D

  ghost predicate FirstAt(key: seq<byte>, b: byte, i: nat, from: nat) {
    from <= i < |key| && key[i] == b && forall j | from <= j < i :: key[j] != b
  }

  ghost predicate TagAt(key: seq<byte>, s: nat, e: nat, tag: seq<byte>) {
    FirstAt(key, OPEN, s, 0) && FirstAt(key, CLOSE, e, s + 1) && tag == key[s + 1..e]
  }

  /** The tag is what stands between the first '{' and the first '}' after it. */
  ghost predicate HasTag(key: seq<byte>, tag: seq<byte>) {
    tag != [] && exists s: nat, e: nat :: TagAt(key, s, e, tag)
  }

  // The low 14 bits.
  function SlotOf(s: seq<byte>): (slot: nat)
    ensures slot < SLOTS
  {
    CrcFrom(0, s) % SLOTS
  }

  /** Keys with a tag are hashed by it alone, other keys as a whole. */
  method KeyHashSlot(key: seq<byte>) returns (slot: nat)
    ensures slot < SLOTS
    ensures forall tag | HasTag(key, tag) :: slot == SlotOf(tag)
    ensures (forall tag :: !HasTag(key, tag)) ==> slot == SlotOf(key)
  {
    hide CrcFrom, DivideBits;
    var s: nat := 0;
    while s < |key| && key[s] != OPEN
      invariant s <= |key| && forall j | 0 <= j < s :: key[j] != OPEN
    {
      s := s + 1;
    }
    if s == |key| {
      var whole := Crc(key);
      return whole % SLOTS;
    }
    var e := s + 1;
    while e < |key| && key[e] != CLOSE
      invariant s < e <= |key| && forall j | s + 1 <= j < e :: key[j] != CLOSE
    {
      e := e + 1;
    }
    assert FirstAt(key, OPEN, s, 0);
    if e == |key| || e == s + 1 {
      forall tag ensures !HasTag(key, tag) { NoTag(key, s, e, tag); }
      var whole := Crc(key);
      return whole % SLOTS;
    }
    var tag := key[s + 1..e];
    assert TagAt(key, s, e, tag);
    assert HasTag(key, tag);
    forall other | HasTag(key, other) ensures other == tag { TagIsUnique(key, other, tag); }
    var inner := Crc(tag);
    return inner % SLOTS;
  }

  lemma NoTag(key: seq<byte>, s: nat, e: nat, tag: seq<byte>)
    requires FirstAt(key, OPEN, s, 0) && s < e <= |key| && forall j | s + 1 <= j < e :: key[j] != CLOSE
    requires e == |key| || (e == s + 1 && key[e] == CLOSE)
    ensures !HasTag(key, tag)
  {
    forall t: nat, f: nat
      ensures !(TagAt(key, t, f, tag) && tag != [])
    {
      if FirstAt(key, OPEN, t, 0) {
        FirstIsUnique(key, OPEN, s, t, 0);
        if FirstAt(key, CLOSE, f, s + 1) && e < |key| { assert FirstAt(key, CLOSE, e, s + 1); FirstIsUnique(key, CLOSE, e, f, s + 1); }
      }
    }
  }

  lemma FirstIsUnique(key: seq<byte>, b: byte, i: nat, j: nat, from: nat)
    requires FirstAt(key, b, i, from) && FirstAt(key, b, j, from)
    ensures i == j
  {
  }

  /** A key has at most one tag, so keys with the same tag go to the same slot. */
  lemma TagIsUnique(key: seq<byte>, a: seq<byte>, b: seq<byte>)
    requires HasTag(key, a) && HasTag(key, b)
    ensures a == b
  {
    var s: nat, e: nat :| TagAt(key, s, e, a);
    var t: nat, f: nat :| TagAt(key, t, f, b);
    FirstIsUnique(key, OPEN, s, t, 0);
    FirstIsUnique(key, CLOSE, e, f, s + 1);
  }
}
