/** Decimal numbers as the server prints them (ll2string) and reads them back
    (strtoll and its relatives). */
module Decimal {
  predicate IsDigit(c: char) { '0' <= c <= '9' }

  function DigitChar(d: nat): (c: char)
    requires d < 10
    ensures IsDigit(c) && DigitValue(c) == d
  {
    '0' + d as char
  }

  function DigitValue(c: char): (d: nat)
    requires IsDigit(c)
    ensures d < 10
  {
    c as int - '0' as int
  }

  function NatToString(n: nat): (s: string)
    ensures |s| > 0 && AllDigits(s)
  {
    if n < 10 then [DigitChar(n)] else NatToString(n / 10) + [DigitChar(n % 10)]
  }

  function IntToString(n: int): (s: string)
    ensures |s| > 0
  {
    if n < 0 then "-" + NatToString(-n) else NatToString(n)
  }

  ghost predicate AllDigits(s: string) {
    forall i | 0 <= i < |s| :: IsDigit(s[i])
  }

  // The digits of s from position i up to the first other character, after prefix acc.
  function ScanDigits(s: string, i: nat, acc: nat): nat
    requires i <= |s|
    decreases |s| - i
  {
    if i < |s| && IsDigit(s[i]) then ScanDigits(s, i + 1, 10 * acc + DigitValue(s[i])) else acc
  }

  predicate IsSpace(c: char) { c == ' ' || '\t' <= c <= '\r' }

  function SkipSpaces(s: string, i: nat): (k: nat)
    requires i <= |s|
    ensures i <= k <= |s|
    decreases |s| - i
  {
    if i < |s| && IsSpace(s[i]) then SkipSpaces(s, i + 1) else i
  }

  /** The value strtoll reads at position i: spaces, an optional sign, digits. */
  function ReadInt(s: string, i: nat): int
    requires i <= |s|
  {
    var k := SkipSpaces(s, i);
    if k < |s| && s[k] == '-' then -(ScanDigits(s, k + 1, 0) as int)
    else if k < |s| && s[k] == '+' then ScanDigits(s, k + 1, 0)
    else ScanDigits(s, k, 0)
  }

  /** The whole string is a number in the form IntToString prints. */
  predicate IsInt(s: string) { s == IntToString(ReadInt(s, 0)) }

  lemma {:induction false} ScanConcat(s: string, t: string, u: string, acc: nat)
    requires AllDigits(t) && (u == "" || !IsDigit(u[0]))
    ensures ScanDigits(s + t + u, |s|, acc) == ScanDigits(t, 0, acc)
    decreases |t|
  {
    var w := s + t + u;
    if t == "" {
      assert w[|s|..] == u;
    } else {
      assert w == (s + [t[0]]) + t[1..] + u;
      ScanConcat(s + [t[0]], t[1..], u, 10 * acc + DigitValue(t[0]));
      ScanShift(t, 1, 10 * acc + DigitValue(t[0]));
    }
  }

  lemma {:induction false} ScanShift(t: string, i: nat, acc: nat)
    requires i <= |t|
    ensures ScanDigits(t, i, acc) == ScanDigits(t[i..], 0, acc)
    decreases |t| - i
  {
    if i < |t| && IsDigit(t[i]) {
      ScanShift(t, i + 1, 10 * acc + DigitValue(t[i]));
      ScanShift(t[i..], 1, 10 * acc + DigitValue(t[i]));
      assert t[i..][1..] == t[i + 1..];
    }
  }

  lemma {:induction false} ScanAppend(t: string, c: char, acc: nat)
    requires AllDigits(t) && IsDigit(c)
    ensures ScanDigits(t + [c], 0, acc) == 10 * ScanDigits(t, 0, acc) + DigitValue(c)
    decreases |t|
  {
    if t == "" {
      assert t + [c] == [c];
    } else {
      var a := 10 * acc + DigitValue(t[0]);
      ScanShift(t + [c], 1, a);
      ScanShift(t, 1, a);
      assert (t + [c])[1..] == t[1..] + [c];
      ScanAppend(t[1..], c, a);
    }
  }

  lemma {:induction false} ScanNat(n: nat)
    ensures ScanDigits(NatToString(n), 0, 0) == n
  {
    if n >= 10 {
      ScanNat(n / 10);
      ScanAppend(NatToString(n / 10), DigitChar(n % 10), 0);
    }
  }

  /** Reading a printed number gives it back, whatever non-digit follows. */
  lemma ReadPrinted(before: string, n: int, after: string)
    requires after == "" || !IsDigit(after[0])
    ensures ReadInt(before + IntToString(n) + after, |before|) == n
  {
    var d := NatToString(if n < 0 then -n else n);
    ScanNat(if n < 0 then -n else n);
    hide NatToString, ReadInt, ScanDigits;
    if n < 0 {
      ReadNegative(before, d, after);
      assert before + ("-" + d) + after == before + "-" + d + after;
    } else {
      ReadDigits(before, d, after);
    }
  }

  lemma ReadDigits(before: string, d: string, after: string)
    requires d != "" && AllDigits(d) && (after == "" || !IsDigit(after[0]))
    ensures ReadInt(before + d + after, |before|) == ScanDigits(d, 0, 0)
  {
    var s := before + d + after;
    assert s[|before|] == d[0];
    assert SkipSpaces(s, |before|) == |before|;
    ScanConcat(before, d, after, 0);
  }

  lemma ReadNegative(before: string, d: string, after: string)
    requires AllDigits(d) && (after == "" || !IsDigit(after[0]))
    ensures ReadInt(before + "-" + d + after, |before|) == -(ScanDigits(d, 0, 0) as int)
  {
    var s := before + "-" + d + after;
    assert s[|before|] == '-';
    assert SkipSpaces(s, |before|) == |before|;
    ScanConcat(before + "-", d, after, 0);
  }

  lemma ReadBack(n: int)
    ensures ReadInt(IntToString(n), 0) == n && IsInt(IntToString(n))
  {
    ReadPrinted("", n, "");
    assert "" + IntToString(n) + "" == IntToString(n);
  }

  function Pow10(k: nat): nat { if k == 0 then 1 else 10 * Pow10(k - 1) }

  lemma {:induction false} LengthBound(n: nat, k: nat)
    requires k > 0 && n < Pow10(k)
    ensures |NatToString(n)| <= k
    decreases k
  {
    if n >= 10 {
      LengthBound(n / 10, k - 1);
    }
  }

  // ------------------------------------------------------------- blanks and signs

  const SPACES := " \t\n\U{0B}\U{0C}\r"

  lemma SpaceIs(c: char)
    ensures IsSpace(c) <==> c in SPACES
  {
    if IsSpace(c) && c != ' ' { assert SPACES[if c == '\t' then 1 else if c == '\n' then 2 else c as int - 8] == c; }
  }

  lemma {:induction false} SkipsSpaces(s: string, i: nat, k: nat)
    requires i <= k <= |s| && (forall j | i <= j < k :: s[j] in SPACES) && (k < |s| ==> s[k] !in SPACES)
    ensures SkipSpaces(s, i) == k
    decreases k - i
  {
    hide IsSpace;
    if i < |s| { SpaceIs(s[i]); }
    if i < k { SkipsSpaces(s, i + 1, k); }
  }

  lemma ReadSigned(blanks: string, sign: string, d: string, after: string)
    requires (forall c | c in blanks :: c in SPACES) && (after == "" || !IsDigit(after[0]))
    requires (sign == "" || sign == "-" || sign == "+") && d != "" && AllDigits(d)
    ensures
      var v := ScanDigits(d, 0, 0) as int;
      ReadInt(blanks + sign + d + after, 0) == if sign == "-" then -v else v
  {
    hide SkipSpaces, ScanDigits, IsSpace;
    var s, k := blanks + sign + d + after, |blanks|;
    forall j | 0 <= j < k ensures s[j] in SPACES { assert s[j] == blanks[j]; }
    assert s[k] == if sign == "" then d[0] else sign[0];
    NoSpace(s[k]);
    SkipsSpaces(s, 0, k);
    ScanConcat(blanks + sign, d, after, 0);
  }

  /** Blanks in front of a number, and a plus sign, are passed over. */
  lemma ReadSpaced(blanks: string, n: int, after: string)
    requires (forall c | c in blanks :: c in SPACES) && (after == "" || !IsDigit(after[0]))
    ensures ReadInt(blanks + IntToString(n) + after, 0) == n
    ensures n >= 0 ==> ReadInt(blanks + "+" + IntToString(n) + after, 0) == n
  {
    hide ReadInt, ScanDigits, NatToString;
    var d := NatToString(if n < 0 then -n else n);
    ScanNat(if n < 0 then -n else n);
    if n < 0 {
      ReadSigned(blanks, "-", d, after);
      assert blanks + ("-" + d) + after == blanks + "-" + d + after;
    } else {
      ReadSigned(blanks, "", d, after);
      ReadSigned(blanks, "+", d, after);
      assert blanks + "" + d + after == blanks + d + after;
    }
  }

  lemma NoSpace(c: char)
    requires IsDigit(c) || c == '-' || c == '+'
    ensures c !in SPACES
  {
  }
}
