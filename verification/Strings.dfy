/** C strings and comparisons that ignore the case of letters. */
module Strings {
  function Lower(c: char): char { if 'A' <= c <= 'Z' then c + 32 as char else c }

  function LowerAll(s: string): string {
    seq(|s|, i requires 0 <= i < |s| => Lower(s[i]))
  }

  // C strings end at their first NUL.
  function CString(s: string): string {
    if s == "" || s[0] == '\0' then "" else [s[0]] + CString(s[1..])
  }

  // strcasecmp(s, word) == 0, for a lower case word.
  predicate Reads(s: string, word: string) { LowerAll(CString(s)) == word }

  lemma {:induction false} CStringPlain(s: string)
    requires forall i | 0 <= i < |s| :: s[i] != '\0'
    ensures CString(s) == s
  {
    if s != "" { CStringPlain(s[1..]); }
  }

  const SMALL := "abcdefghijklmnopqrstuvwxyz"
  const CAPITALS := "ABCDEFGHIJKLMNOPQRSTUVWXYZ"

  /** Each capital has its small letter, and everything else stays. */
  lemma LowerIs(c: char)
    ensures forall k | 0 <= k < 26 && c == CAPITALS[k] :: Lower(c) == SMALL[k]
    ensures c !in CAPITALS ==> Lower(c) == c
  {
    forall k | 0 <= k < 26 ensures CAPITALS[k] == 'A' + k as char && SMALL[k] == 'a' + k as char { Letter(k); }
    if 'A' <= c <= 'Z' { assert CAPITALS[c as int - 'A' as int] == c; }
  }

  lemma Letter(k: nat)
    requires k < 26
    ensures CAPITALS[k] == 'A' + k as char && SMALL[k] == 'a' + k as char
  {
  }
}
