/** BITOP: AND, OR, XOR and NOT of byte strings, as long as possible four machine words
    at a time, which gives the operation bit by bit on strings padded with zeros. */
module Bitop {
  import opened Bits

  // Not takes one string, the others any number of them.
  datatype Kind = Pointwise(op: BitOp) | Not

  // -------------------------------------------------------------------- the meaning

  function Padded(s: seq<byte>, j: nat): byte { if j < |s| then s[j] else 0 }

  lemma BitwiseIsByte(op: BitOp, a: byte, b: byte)
    ensures Bitwise(op, a, b) < 256
  {
    hide Bitwise, Pow2;
    Pow2Values();
    BitwiseSplit(op, 8, 0, a, 0, b);
  }

  // Byte j of the result of the first k strings.
  function ByteOf(kind: Kind, srcs: seq<seq<byte>>, j: nat, k: nat): (r: nat)
    requires 0 < k <= |srcs|
    ensures r < 256
  {
    if k == 1 then if kind.Not? then 255 - Padded(srcs[0], j) else Padded(srcs[0], j)
    else
      var before := ByteOf(kind, srcs, j, k - 1);
      if kind.Not? then before
      else
        BitwiseIsByte(kind.op, before, Padded(srcs[k - 1], j));
        Bitwise(kind.op, before, Padded(srcs[k - 1], j))
  }

  // Bit i of the result of the first k strings.
  function BitOfAll(kind: Kind, srcs: seq<seq<byte>>, i: nat, k: nat): (b: nat)
    requires 0 < k <= |srcs|
    ensures b < 2
  {
    if k == 1 then if kind.Not? then 1 - BitAt(srcs[0], i) else BitAt(srcs[0], i)
    else
      var before := BitOfAll(kind, srcs, i, k - 1);
      if kind.Not? then before else Op1(kind.op, before, BitAt(srcs[k - 1], i))
  }

  lemma {:induction false} BitwiseBit(op: BitOp, x: nat, y: nat, i: nat)
    ensures Bit(Bitwise(op, x, y), i) == Op1(op, Bit(x, i), Bit(y, i))
  {
    hide Bit, Bitwise;
    BitwiseStep(op, x, y);
    var r := Bitwise(op, x, y);
    BitHalf(r, if i == 0 then 0 else i - 1);
    BitHalf(x, if i == 0 then 0 else i - 1);
    BitHalf(y, if i == 0 then 0 else i - 1);
    if i > 0 { BitwiseBit(op, x / 2, y / 2, i - 1); }
  }

  lemma {:induction false} ComplementBit(n: nat, x: nat, i: nat)
    requires x < Pow2(n) && i < n
    ensures Bit(Pow2(n) - 1 - x, i) == 1 - Bit(x, i)
  {
    hide Bit;
    var r := Pow2(n) - 1 - x;
    assert r / 2 == Pow2(n - 1) - 1 - x / 2 && r % 2 == 1 - x % 2;
    BitHalf(r, if i == 0 then 0 else i - 1);
    BitHalf(x, if i == 0 then 0 else i - 1);
    if i > 0 { ComplementBit(n - 1, x / 2, i - 1); }
  }

  lemma {:induction false} BytesAreBits(kind: Kind, srcs: seq<seq<byte>>, i: nat, k: nat)
    requires 0 < k <= |srcs|
    ensures Bit(ByteOf(kind, srcs, i / 8, k), 7 - i % 8) == BitOfAll(kind, srcs, i, k)
  {
    hide Bit, Bitwise;
    PaddedBit(srcs[k - 1], i);
    if k == 1 {
      Pow2Values();
      hide Pow2;
      if kind.Not? { ComplementBit(8, Padded(srcs[0], i / 8), 7 - i % 8); }
    } else {
      BytesAreBits(kind, srcs, i, k - 1);
      if !kind.Not? { BitwiseBit(kind.op, ByteOf(kind, srcs, i / 8, k - 1), Padded(srcs[k - 1], i / 8), 7 - i % 8); }
    }
  }

  lemma PaddedBit(s: seq<byte>, i: nat)
    ensures Bit(Padded(s, i / 8), 7 - i % 8) == BitAt(s, i)
  {
    hide Bit;
    ZeroBit(7 - i % 8);
  }

  // --------------------------------------------------------------------- whole words

  // Bytes as one number, the first byte lowest, and back.
  function Word(b: seq<byte>): nat { if b == [] then 0 else b[0] + 256 * Word(b[1..]) }

  function Unword(w: nat, n: nat): (b: seq<byte>)
    ensures |b| == n
  {
    if n == 0 then [] else [w % 256] + Unword(w / 256, n - 1)
  }

  lemma {:induction false} WordRoundTrip(b: seq<byte>)
    ensures Unword(Word(b), |b|) == b
  {
    if b != [] {
      assert Word(b) % 256 == b[0] && Word(b) / 256 == Word(b[1..]);
      WordRoundTrip(b[1..]);
    }
  }

  function Zip(op: BitOp, a: seq<byte>, b: seq<byte>): (r: seq<byte>)
    requires |a| == |b|
    ensures |r| == |a| && forall i | 0 <= i < |a| :: r[i] == Bitwise(op, a[i], b[i])
  {
    if a == [] then []
    else
      BitwiseIsByte(op, a[0], b[0]);
      [Bitwise(op, a[0], b[0])] + Zip(op, a[1..], b[1..])
  }

  /** The operation on words is the operation on their bytes. */
  lemma {:induction false} WordsAreBytes(op: BitOp, a: seq<byte>, b: seq<byte>)
    requires |a| == |b|
    ensures Bitwise(op, Word(a), Word(b)) == Word(Zip(op, a, b))
  {
    hide Bitwise, Pow2;
    if a == [] {
      BitwiseZero(op);
    } else {
      WordsAreBytes(op, a[1..], b[1..]);
      Pow2Values();
      BitwiseSplit(op, 8, Word(a[1..]), a[0], Word(b[1..]), b[0]);
      assert Zip(op, a, b)[1..] == Zip(op, a[1..], b[1..]);
    }
  }

  function Flip(a: seq<byte>): (r: seq<byte>)
    ensures |r| == |a| && forall i | 0 <= i < |a| :: r[i] == 255 - a[i]
  {
    seq(|a|, i requires 0 <= i < |a| => 255 - a[i])
  }

  function Full(n: nat): nat { if n == 0 then 0 else 255 + 256 * Full(n - 1) }

  /** The complement of a word is that of its bytes. */
  lemma {:induction false} WordComplement(a: seq<byte>)
    ensures Word(a) <= Full(|a|) && Full(|a|) - Word(a) == Word(Flip(a))
  {
    if a != [] {
      WordComplement(a[1..]);
      assert Flip(a)[1..] == Flip(a[1..]);
    }
  }

  const WORD: nat := 8

  // One machine word combined with another, or complemented.
  method OneWord(kind: Kind, mine: seq<byte>, other: seq<byte>) returns (bytes: seq<byte>)
    requires |mine| == WORD && (kind.Pointwise? ==> |other| == WORD)
    ensures bytes == if kind.Not? then Flip(mine) else Zip(kind.op, mine, other)
  {
    hide Bitwise, Word, Unword, Full;
    if kind.Not? {
      WordComplement(mine);
      WordRoundTrip(Flip(mine));
      bytes := Unword(Full(WORD) - Word(mine), WORD);
    } else {
      WordsAreBytes(kind.op, mine, other);
      WordRoundTrip(Zip(kind.op, mine, other));
      bytes := Unword(Bitwise(kind.op, Word(mine), Word(other)), WORD);
    }
  }

  // One word of the result is combined with one of a string, or complemented.
  lemma WordCombined(kind: Kind, mine: seq<byte>, src: seq<byte>, at: nat, bytes: seq<byte>)
    requires |mine| == WORD && (kind.Not? || at + WORD <= |src|)
    requires bytes == if kind.Not? then Flip(mine) else Zip(kind.op, mine, src[at..at + WORD])
    ensures |bytes| == WORD && forall i | 0 <= i < WORD :: bytes[i] == Combined(kind, mine[i], Padded(src, at + i))
  {
    hide Bitwise;
  }

  method CombineWord(res: array<byte>, at: nat, kind: Kind, src: seq<byte>)
    requires at + WORD <= res.Length && (kind.Not? || at + WORD <= |src|)
    modifies res
    ensures forall j | 0 <= j < res.Length ::
      res[j] == if at <= j < at + WORD then Combined(kind, old(res[j]), Padded(src, j)) else old(res[j])
  {
    hide Bitwise, Combined, Padded, Flip, Zip;
    ghost var mine := res[at..at + WORD];
    var bytes := OneWord(kind, res[at..at + WORD], if kind.Not? then [] else src[at..at + WORD]);
    WordCombined(kind, mine, src, at, bytes);
    for j := 0 to WORD
      invariant forall i | 0 <= i < res.Length :: res[i] == if at <= i < at + j then bytes[i - at] else old(res[i])
    {
      res[at + j] := bytes[j];
    }
  }

  function Combined(kind: Kind, a: byte, b: byte): nat {
    if kind.Not? then 255 - a else Bitwise(kind.op, a, b)
  }

  // ------------------------------------------------------------------- the command

  // What the fast path has left: the first done bytes are final, the rest up to min is
  // the first string.
  ghost predicate Fast(res: seq<byte>, kind: Kind, srcs: seq<seq<byte>>, done: nat, min: nat)
    requires srcs != [] && done <= min <= |res|
  {
    forall j | 0 <= j < min :: res[j] == if j < done then ByteOf(kind, srcs, j, |srcs|) else Padded(srcs[0], j)
  }

  // Within a block, k strings have been combined; the first w words with one more.
  ghost predicate InBlock(res: seq<byte>, kind: Kind, srcs: seq<seq<byte>>, done: nat, min: nat, k: nat, w: nat)
    requires 0 < k <= |srcs| && done + 4 * WORD <= min <= |res|
  {
    forall j | 0 <= j < min ::
      res[j] ==
        if j < done then ByteOf(kind, srcs, j, |srcs|)
        else if j < done + WORD * w && k < |srcs| then ByteOf(kind, srcs, j, k + 1)
        else if j < done + 4 * WORD then ByteOf(kind, srcs, j, k)
        else Padded(srcs[0], j)
  }

  method CombineBlock(res: array<byte>, op: BitOp, srcs: seq<seq<byte>>, done: nat, min: nat)
    requires srcs != [] && done + 4 * WORD <= min <= res.Length && forall s | s in srcs :: min <= |s|
    requires Fast(res[..], Pointwise(op), srcs, done, min)
    modifies res
    ensures Fast(res[..], Pointwise(op), srcs, done + 4 * WORD, min)
  {
    hide Bitwise;
    var kind := Pointwise(op);
    for i := 1 to |srcs|
      invariant InBlock(res[..], kind, srcs, done, min, i, 0)
    {
      for w := 0 to 4
        invariant InBlock(res[..], kind, srcs, done, min, i, w)
      {
        assert srcs[i] in srcs;
        CombineWord(res, done + WORD * w, kind, srcs[i]);
      }
    }
  }

  method ComplementBlock(res: array<byte>, src: seq<byte>, done: nat, min: nat)
    requires done + 4 * WORD <= min <= res.Length && min <= |src|
    requires Fast(res[..], Not, [src], done, min)
    modifies res
    ensures Fast(res[..], Not, [src], done + 4 * WORD, min)
  {
    for w := 0 to 4
      invariant Fast(res[..], Not, [src], done + WORD * w, min)
    {
      CombineWord(res, done + WORD * w, Not, []);
    }
  }

  // Four words at a time, as far as all strings reach.
  method FastPath(res: array<byte>, kind: Kind, srcs: seq<seq<byte>>, min: nat) returns (j: nat)
    requires srcs != [] && min <= res.Length && forall s | s in srcs :: min <= |s|
    requires kind.Not? ==> |srcs| == 1
    modifies res
    ensures j <= min && forall i | 0 <= i < j :: res[i] == ByteOf(kind, srcs, i, |srcs|)
  {
    hide ByteOf;
    assert srcs[0] in srcs;
    for i := 0 to min
      invariant forall k | 0 <= k < i :: res[k] == srcs[0][k]
    {
      res[i] := srcs[0][i];
    }
    j := 0;
    var left := min;
    while left >= 4 * WORD
      invariant left == min - j && j <= min && Fast(res[..], kind, srcs, j, min)
    {
      if kind.Not? {
        assert srcs == [srcs[0]];
        ComplementBlock(res, srcs[0], j, min);
      } else {
        CombineBlock(res, kind.op, srcs, j, min);
      }
      j, left := j + 4 * WORD, left - 4 * WORD;
    }
  }

  method Lengths(srcs: seq<seq<byte>>) returns (max: nat, min: nat)
    requires srcs != []
    ensures forall i | 0 <= i < |srcs| :: min <= |srcs[i]| <= max
    ensures exists i :: 0 <= i < |srcs| && |srcs[i]| == max
  {
    max, min := 0, 0;
    ghost var longest := 0;
    for j := 0 to |srcs|
      invariant forall i | 0 <= i < j :: min <= |srcs[i]| <= max
      invariant 0 <= longest < |srcs| && if j == 0 then max == 0 else |srcs[longest]| == max
    {
      if |srcs[j]| > max || j == 0 { longest := j; }
      if |srcs[j]| > max { max := |srcs[j]|; }
      if j == 0 || |srcs[j]| < min { min := |srcs[j]|; }
    }
  }

  /** The operation on any strings: as long as the longest of them, and every bit of the
      result is the operation on the bits at that position, zeros following each string. */
  method BitopCommand(kind: Kind, srcs: seq<seq<byte>>) returns (res: array<byte>)
    requires srcs != [] && (kind.Not? ==> |srcs| == 1)
    ensures forall i | 0 <= i < |srcs| :: |srcs[i]| <= res.Length
    ensures exists i :: 0 <= i < |srcs| && |srcs[i]| == res.Length
    ensures forall j | 0 <= j < res.Length :: res[j] == ByteOf(kind, srcs, j, |srcs|)
    ensures forall i: nat | i < 8 * res.Length :: BitAt(res[..], i) == BitOfAll(kind, srcs, i, |srcs|)
  {
    hide Bit, Bitwise, BitOfAll;
    var max, min := Lengths(srcs);
    res := new byte[max](_ => 0);
    var j := 0;
    if min >= 4 * WORD && |srcs| <= 16 {
      assert |srcs[0]| <= max;
      j := FastPath(res, kind, srcs, min);
    }
    while j < max
      invariant 0 <= j <= max && forall i | 0 <= i < j :: res[i] == ByteOf(kind, srcs, i, |srcs|)
    {
      var output := Padded(srcs[0], j);
      if kind.Not? { output := 255 - output; }
      for i := 1 to |srcs|
        invariant output == ByteOf(kind, srcs, j, i)
        invariant forall i | 0 <= i < j :: res[i] == ByteOf(kind, srcs, i, |srcs|)
      {
        BitwiseIsByte(kind.op, output, Padded(srcs[i], j));
        output := Bitwise(kind.op, output, Padded(srcs[i], j));
      }
      res[j] := output;
      j := j + 1;
    }
    forall i: nat | i < 8 * res.Length
      ensures BitAt(res[..], i) == BitOfAll(kind, srcs, i, |srcs|)
    {
      BytesAreBits(kind, srcs, i, |srcs|);
    }
  }
}
