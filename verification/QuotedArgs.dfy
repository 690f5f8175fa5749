/** Words in quotes: what sdscatrepr writes is what sdssplitargs reads, for any bytes. */
module QuotedArgs {
  import opened Wrappers
  import opened Strings
  import opened SplitArgs

  // ------------------------------------------------------------------ escapes

  const HEX := "0123456789abcdef"
  const HEX_CAPITALS := "0123456789ABCDEF"

  /** Sixteen digits, in small letters or capitals, and no other. */
  lemma HexDigitIs(d: nat)
    requires d < 16
    ensures HexDigit(HEX[d]) == Some(d) && HexDigit(HEX_CAPITALS[d]) == Some(d)
  {
  }

  lemma NoOtherDigit(c: char)
    requires HexDigit(c).Some?
    ensures c in HEX || c in HEX_CAPITALS
  {
    if '0' <= c <= '9' { assert HEX[c as int - '0' as int] == c; }
    else if 'a' <= c <= 'f' { assert HEX[10 + c as int - 'a' as int] == c; }
    else { assert HEX_CAPITALS[10 + c as int - 'A' as int] == c; }
  }

  predicate Printable(c: char) { ' ' <= c <= '~' }

  // One byte as it is written between double quotes.
  function Repr(c: char): string
    requires c < 256 as char
  {
    if c == '\\' || c == '"' then ['\\', c]
    else if c == '\n' then "\\n"
    else if c == '\r' then "\\r"
    else if c == '\t' then "\\t"
    else if c == 7 as char then "\\a"
    else if c == 8 as char then "\\b"
    else if Printable(c) then [c]
    else "\\x" + [HEX[c as int / 16], HEX[c as int % 16]]
  }

  predicate IsBytes(word: string) { forall i | 0 <= i < |word| :: word[i] < 256 as char }

  function ReprAll(word: string): string
    requires IsBytes(word)
  {
    if word == "" then "" else Repr(word[0]) + ReprAll(word[1..])
  }

  function Quoted(word: string): string
    requires IsBytes(word)
  {
    "\"" + ReprAll(word) + "\""
  }

  // At position p the string r is written.
  ghost predicate Stands(s: string, p: nat, r: string) { p + |r| <= |s| && s[p..p + |r|] == r }

  lemma StandsParts(s: string, p: nat, a: string, b: string)
    requires Stands(s, p, a + b)
    ensures Stands(s, p, a) && Stands(s, p + |a|, b)
  {
    assert s[p..p + |a|] == s[p..p + |a + b|][..|a|];
    assert s[p + |a|..p + |a| + |b|] == s[p..p + |a + b|][|a|..];
  }

  lemma StandsAt(s: string, p: nat, r: string, i: nat)
    requires Stands(s, p, r) && i < |r|
    ensures s[p + i] == r[i]
  {
    assert s[p + i] == s[p..p + |r|][i];
  }

  /** One byte is read as it was written. */
  lemma ReprReads(s: string, p: nat, cur: string, c: char)
    requires c < 256 as char && Stands(s, p, Repr(c)) && p + |Repr(c)| < |s|
    ensures ReadToken(s, p, cur, Double) == ReadToken(s, p + |Repr(c)|, cur + [c], Double)
  {
    hide ReadToken, Stands, Repr;
    var r := Repr(c);
    forall i: nat | i < |r| ensures p + i < |s| && s[p + i] == r[i] { StandsIn(s, p, r, i); }
    ReprShape(c);
    if |r| == 4 { HexReads(s, p, cur, c); }
    else if |r| == 2 { EscapeReads(s, p, cur, c); }
    else { PlainReads(s, p, cur, c); }
  }

  lemma StandsIn(s: string, p: nat, r: string, i: nat)
    requires Stands(s, p, r) && i < |r|
    ensures p + i < |s| && s[p + i] == r[i]
  {
    StandsAt(s, p, r, i);
  }

  // A byte by itself, with a backslash, or in hexadecimal digits.
  lemma ReprShape(c: char)
    requires c < 256 as char
    ensures
      var r := Repr(c);
      || (|r| == 1 && r[0] == c && c != '\\' && c != '"')
      || (|r| == 2 && r[0] == '\\' && r[1] != 'x' && Escaped(r[1]) == c)
      || (|r| == 4 && r[0] == '\\' && r[1] == 'x' && r[2] == HEX[c as int / 16] && r[3] == HEX[c as int % 16])
  {
  }

  lemma PlainReads(s: string, p: nat, cur: string, c: char)
    requires p < |s| && s[p] == c && c != '\\' && c != '"'
    ensures ReadToken(s, p, cur, Double) == ReadToken(s, p + 1, cur + [c], Double)
  {
  }

  lemma EscapeReads(s: string, p: nat, cur: string, c: char)
    requires p + 1 < |s| && s[p] == '\\' && s[p + 1] != 'x' && Escaped(s[p + 1]) == c
    ensures ReadToken(s, p, cur, Double) == ReadToken(s, p + 2, cur + [c], Double)
  {
    hide Escaped;
  }

  lemma HexReads(s: string, p: nat, cur: string, c: char)
    requires c < 256 as char && p + 3 < |s| && s[p] == '\\' && s[p + 1] == 'x'
    requires s[p + 2] == HEX[c as int / 16] && s[p + 3] == HEX[c as int % 16]
    ensures ReadToken(s, p, cur, Double) == ReadToken(s, p + 4, cur + [c], Double)
  {
    hide HexDigit;
    var n := c as int;
    HexDigitIs(n / 16);
    HexDigitIs(n % 16);
    assert (n / 16 * 16 + n % 16) as char == c;
  }

  lemma {:induction false} ReprAllReads(s: string, p: nat, cur: string, word: string)
    requires IsBytes(word) && Stands(s, p, ReprAll(word) + "\"")
    ensures ReadToken(s, p, cur, Double) == Closed(s, p + |ReprAll(word)|, cur + word)
    decreases |word|
  {
    hide Stands, ReadToken, Repr;
    if word == "" {
      assert ReprAll(word) + "\"" == "\"";
      StandsIn(s, p, "\"", 0);
      assert ReadToken(s, p, cur, Double) == Closed(s, p, cur) by { QuoteEnds(s, p, cur); }
      assert cur + word == cur;
    } else {
      var c, rest := word[0], word[1..];
      assert ReprAll(word) + "\"" == Repr(c) + (ReprAll(rest) + "\"");
      StandsParts(s, p, Repr(c), ReprAll(rest) + "\"");
      StandsIn(s, p + |Repr(c)|, ReprAll(rest) + "\"", 0);
      ReprReads(s, p, cur, c);
      ReprAllReads(s, p + |Repr(c)|, cur + [c], rest);
      assert cur + [c] + rest == cur + word;
    }
  }

  lemma QuoteEnds(s: string, p: nat, cur: string)
    requires p < |s| && s[p] == '"'
    ensures ReadToken(s, p, cur, Double) == Closed(s, p, cur)
  {
  }

  // ---------------------------------------------------------------------- words

  // The token ends behind a closing quote if the line ends there or a blank follows.
  lemma ClosedIs(s: string, p: nat, cur: string)
    requires p < |s|
    ensures Closed(s, p, cur) ==
            if p + 1 == |s| || s[p + 1] in " \t\n\r" || s[p + 1] == 11 as char || s[p + 1] == 12 as char
            then Some(Token(cur, p + 1)) else None
  {
  }

  lemma QuotedReads(s: string, p: nat, word: string)
    requires IsBytes(word) && Stands(s, p, Quoted(word))
    requires p + |Quoted(word)| == |s| || s[p + |Quoted(word)|] == ' '
    ensures p < |s| && s[p] == '"' && ReadToken(s, p, "", Bare) == Some(Token(word, p + |Quoted(word)|))
  {
    hide ReprAll;
    var r := ReprAll(word);
    assert Quoted(word) == "\"" + (r + "\"");
    StandsParts(s, p, "\"", r + "\"");
    StandsAt(s, p, "\"", 0);
    ReprAllReads(s, p + 1, "", word);
    assert "" + word == word;
  }

  predicate AllBytes(words: seq<string>) { forall w | w in words :: IsBytes(w) }

  function AllQuoted(words: seq<string>): (r: seq<string>)
    requires AllBytes(words)
    ensures |r| == |words|
  {
    if words == [] then [] else [Quoted(words[0])] + AllQuoted(words[1..])
  }

  lemma {:induction false} SplitQuoted(s: string, p: nat, words: seq<string>)
    requires p <= |s| && AllBytes(words) && words != [] && s[p..] == Join(AllQuoted(words))
    ensures SplitFrom(s, p) == Some(words)
    decreases |words|
  {
    hide ReadToken, ReprAll, SplitFrom, SkipBlanks;
    var q, rest := Quoted(words[0]), words[1..];
    assert words[0] in words;
    assert AllQuoted(words) == [q] + AllQuoted(rest);
    if rest == [] {
      assert Join([q]) == q && s[p..p + |q|] == s[p..];
      QuotedReads(s, p, words[0]);
      LastWord(s, p, Token(words[0], p + |q|));
      assert words == [words[0]];
    } else {
      assert Join(AllQuoted(words)) == q + " " + Join(AllQuoted(rest));
      var all := s[p..];
      assert all[..|q|] == q && all[|q|] == ' ' && all[|q| + 1..] == Join(AllQuoted(rest));
      assert s[p..p + |q|] == all[..|q|] && s[p + |q|] == all[|q|];
      QuotedReads(s, p, words[0]);
      assert s[p + |q| + 1..] == all[|q| + 1..];
      SplitQuoted(s, p + |q| + 1, rest);
      Beside(s, p + |q|, rest);
      OneWord(s, p, Token(words[0], p + |q|), rest);
      assert [words[0]] + rest == words;
    }
  }

  // A word in quotes, and what comes behind it.
  lemma OneWord(s: string, p: nat, t: Token, rest: seq<string>)
    requires p < |s| && s[p] == '"' && ReadToken(s, p, "", Bare) == Some(t) && t.next <= |s| + 1
    requires SplitFrom(s, t.next) == Some(rest)
    ensures SplitFrom(s, p) == Some([t.text] + rest)
  {
    hide ReadToken;
    assert SkipBlanks(s, p) == p;
  }

  lemma LastWord(s: string, p: nat, t: Token)
    requires p < |s| && s[p] == '"' && ReadToken(s, p, "", Bare) == Some(t) && t.next == |s|
    ensures SplitFrom(s, p) == Some([t.text])
  {
    hide ReadToken;
    assert SplitFrom(s, |s|) == Some([]);
    OneWord(s, p, t, []);
    assert [t.text] + [] == [t.text];
  }

  // The blank between two words is skipped.
  lemma Beside(s: string, p: nat, rest: seq<string>)
    requires p < |s| && s[p] == ' ' && SplitFrom(s, p + 1) == Some(rest)
    ensures SplitFrom(s, p) == Some(rest)
  {
    assert SkipBlanks(s, p) == SkipBlanks(s, p + 1);
  }

  /** Any words, of any bytes, NULs and quotes included, are read back when they are written in
      quotes, with blanks between them. */
  lemma QuotedReadsBack(words: seq<string>)
    requires AllBytes(words)
    ensures Split(Join(AllQuoted(words))) == Some(words)
  {
    var s := Join(AllQuoted(words));
    NoNul(words);
    CStringPlain(s);
    if words != [] {
      assert s[0..] == s;
      SplitQuoted(s, 0, words);
    }
  }

  lemma {:induction false} NoNul(words: seq<string>)
    requires AllBytes(words)
    ensures forall i | 0 <= i < |Join(AllQuoted(words))| :: Join(AllQuoted(words))[i] != '\0'
    decreases |words|
  {
    if words != [] {
      ReprHasNoNul(words[0]);
      NoNul(words[1..]);
      assert AllQuoted(words)[1..] == AllQuoted(words[1..]);
    }
  }

  lemma {:induction false} ReprHasNoNul(word: string)
    requires IsBytes(word)
    ensures forall i | 0 <= i < |ReprAll(word)| :: ReprAll(word)[i] != '\0'
    decreases |word|
  {
    if word != "" {
      ReprHasNoNul(word[1..]);
      var r := Repr(word[0]);
      forall i | 0 <= i < |r| ensures r[i] != '\0' {}
    }
  }

  // --------------------------------------------------------------- single quotes

  // Between single quotes only these are escaped.
  function SingleAll(word: string): string {
    if word == "" then "" else (if word[0] == '\'' then "\\'" else [word[0]]) + SingleAll(word[1..])
  }

  lemma SingleSteps(s: string, p: nat, cur: string)
    requires p < |s|
    ensures
      var c, escaped := s[p], s[p] == '\\' && p + 1 < |s| && s[p + 1] == '\'';
      ReadToken(s, p, cur, Single)
      == if escaped then ReadToken(s, p + 2, cur + ['\''], Single)
         else if c == '\'' then Closed(s, p, cur)
         else ReadToken(s, p + 1, cur + [c], Single)
  {
    hide Closed;
  }

  /** Between single quotes every character stands for itself, and \' for a quote; a word must
      not end with a backslash there. */
  lemma {:induction false} SingleReads(s: string, p: nat, cur: string, word: string)
    requires Stands(s, p, SingleAll(word) + "'") && (word == "" || word[|word| - 1] != '\\')
    ensures ReadToken(s, p, cur, Single) == Closed(s, p + |SingleAll(word)|, cur + word)
    decreases |word|
  {
    hide ReadToken, Stands, Closed;
    StandsIn(s, p, SingleAll(word) + "'", 0);
    SingleSteps(s, p, cur);
    if word == "" {
      assert SingleAll(word) + "'" == "'";
      assert cur + word == cur;
    } else {
      var c, rest := word[0], word[1..];
      var r, more := if c == '\'' then "\\'" else [c], SingleAll(rest) + "'";
      assert SingleAll(word) + "'" == r + more;
      StandsParts(s, p, r, more);
      StandsIn(s, p, r, 0);
      StandsIn(s, p, r, |r| - 1);
      StandsIn(s, p + |r|, more, 0);
      if c == '\\' { NoQuoteNext(rest); }
      SingleReads(s, p + |r|, cur + [c], rest);
      assert cur + [c] + rest == cur + word;
    }
  }

  // What follows a backslash is not a quote: one in the word is escaped itself.
  lemma NoQuoteNext(rest: string)
    requires rest != ""
    ensures (SingleAll(rest) + "'")[0] != '\''
  {
  }
}
