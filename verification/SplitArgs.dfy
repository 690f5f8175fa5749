/** Dividing a line into arguments, with quotes, as configuration and ACL files are read. */
module SplitArgs {
  import opened Wrappers
  import opened Strings

  datatype Quoting = Bare | Double | Single

  // A token and the position after what ended it; a bare token may end after the line.
  datatype Token = Token(text: string, next: nat)

  predicate IsBlank(c: char) {
    c == ' ' || c == '\t' || c == '\n' || c == '\r' || c == 11 as char || c == 12 as char
  }

  predicate EndsBare(c: char) { c == ' ' || c == '\n' || c == '\r' || c == '\t' }

  function HexDigit(c: char): Option<nat> {
    if '0' <= c <= '9' then Some(c as int - '0' as int)
    else if 'a' <= c <= 'f' then Some(c as int - 'a' as int + 10)
    else if 'A' <= c <= 'F' then Some(c as int - 'A' as int + 10)
    else None
  }

  function Escaped(c: char): char {
    match c
    case 'n' => '\n'
    case 'r' => '\r'
    case 't' => '\t'
    case 'b' => 8 as char
    case 'a' => 7 as char
    case _ => c
  }

  predicate IsByteEscape(s: string, p: nat) {
    && p + 3 < |s| && s[p] == '\\' && s[p + 1] == 'x'
    && HexDigit(s[p + 2]).Some? && HexDigit(s[p + 3]).Some?
  }

  // None: quotes are unbalanced, or something follows a closing quote.
  function ReadToken(s: string, p: nat, cur: string, q: Quoting): (r: Option<Token>)
    requires p <= |s|
    ensures r.Some? ==> p < r.value.next <= |s| + 1
    decreases |s| - p
  {
    if p == |s| then if q.Bare? then Some(Token(cur, p + 1)) else None
    else
      var c := s[p];
      match q
      case Bare =>
        if EndsBare(c) then Some(Token(cur, p + 1))
        else if c == '"' then ReadToken(s, p + 1, cur, Double)
        else if c == '\'' then ReadToken(s, p + 1, cur, Single)
        else ReadToken(s, p + 1, cur + [c], Bare)
      case Double =>
        if IsByteEscape(s, p) then
          var byte := (HexDigit(s[p + 2]).value * 16 + HexDigit(s[p + 3]).value) as char;
          ReadToken(s, p + 4, cur + [byte], Double)
        else if c == '\\' && p + 1 < |s| then ReadToken(s, p + 2, cur + [Escaped(s[p + 1])], Double)
        else if c == '"' then Closed(s, p, cur)
        else ReadToken(s, p + 1, cur + [c], Double)
      case Single =>
        if c == '\\' && p + 1 < |s| && s[p + 1] == '\'' then ReadToken(s, p + 2, cur + ['\''], Single)
        else if c == '\'' then Closed(s, p, cur)
        else ReadToken(s, p + 1, cur + [c], Single)
  }

  function Closed(s: string, p: nat, cur: string): (r: Option<Token>)
    requires p < |s|
  {
    if p + 1 < |s| && !IsBlank(s[p + 1]) then None else Some(Token(cur, p + 1))
  }

  function SkipBlanks(s: string, p: nat): (r: nat)
    requires p <= |s|
    ensures p <= r <= |s| && (r < |s| ==> !IsBlank(s[r]))
    decreases |s| - p
  {
    if p < |s| && IsBlank(s[p]) then SkipBlanks(s, p + 1) else p
  }

  function SplitFrom(s: string, p: nat): Option<seq<string>>
    requires p <= |s| + 1
    decreases |s| + 1 - p
  {
    if p > |s| || SkipBlanks(s, p) == |s| then Some([])
    else
      var token := ReadToken(s, SkipBlanks(s, p), "", Bare);
      if token.None? then None
      else
        var rest := SplitFrom(s, token.value.next);
        if rest.None? then None else Some([token.value.text] + rest.value)
  }

  /** The arguments of a line; None if it cannot be divided. */
  function Split(line: string): Option<seq<string>> { SplitFrom(CString(line), 0) }

  function Join(words: seq<string>): string {
    if words == [] then ""
    else if |words| == 1 then words[0]
    else words[0] + " " + Join(words[1..])
  }

  // Words that are read as they are written.
  predicate Bareable(word: string) {
    && word != "" && !IsBlank(word[0])
    && forall i | 0 <= i < |word| ::
         !EndsBare(word[i]) && word[i] != '"' && word[i] != '\'' && word[i] != '\0'
  }

  // ------------------------------------------------------------------- statements

  // Room the words take when each is followed by one separator.
  function Room(words: seq<string>): nat {
    if words == [] then 0 else |words[0]| + 1 + Room(words[1..])
  }

  lemma {:induction false} JoinRoom(words: seq<string>)
    requires words != []
    ensures |Join(words)| + 1 == Room(words)
  {
    if |words| > 1 { JoinRoom(words[1..]); } else { assert words[1..] == []; }
  }

  // A quote or an escape takes more room than what it stands for.
  lemma {:induction false} TokenRoom(s: string, p: nat, cur: string, q: Quoting)
    requires p <= |s| && ReadToken(s, p, cur, q).Some?
    ensures
      var t := ReadToken(s, p, cur, q).value;
      && |cur| <= |t.text| && |t.text| - |cur| + 1 <= t.next - p
      && (q.Bare? && |t.text| - |cur| + 1 == t.next - p ==>
            && t.text == cur + s[p..t.next - 1]
            && forall i | p <= i < t.next - 1 :: !EndsBare(s[i]) && s[i] != '"' && s[i] != '\'')
    decreases |s| - p
  {
    hide IsByteEscape, HexDigit, Escaped, EndsBare;
    if p < |s| {
      var c := s[p];
      match q
      case Bare => BareRoom(s, p, cur);
      case Double =>
        if IsByteEscape(s, p) { ByteEscapeRoom(s, p, cur); }
        else if c == '\\' && p + 1 < |s| { TokenRoom(s, p + 2, cur + [Escaped(s[p + 1])], Double); }
        else if c != '"' { TokenRoom(s, p + 1, cur + [c], Double); }
      case Single =>
        if c == '\\' && p + 1 < |s| && s[p + 1] == '\'' { TokenRoom(s, p + 2, cur + ['\''], Single); }
        else if c != '\'' { TokenRoom(s, p + 1, cur + [c], Single); }
    }
  }

  lemma {:induction false} BareRoom(s: string, p: nat, cur: string)
    requires p < |s| && ReadToken(s, p, cur, Bare).Some?
    ensures
      var t := ReadToken(s, p, cur, Bare).value;
      && |cur| <= |t.text| && |t.text| - |cur| + 1 <= t.next - p
      && (|t.text| - |cur| + 1 == t.next - p ==>
            && t.text == cur + s[p..t.next - 1]
            && forall i | p <= i < t.next - 1 :: !EndsBare(s[i]) && s[i] != '"' && s[i] != '\'')
    decreases |s| - p, 0
  {
    hide IsByteEscape, HexDigit, Escaped, EndsBare;
    var c := s[p];
    if EndsBare(c) {
    } else if c == '"' {
      TokenRoom(s, p + 1, cur, Double);
    } else if c == '\'' {
      TokenRoom(s, p + 1, cur, Single);
    } else {
      TokenRoom(s, p + 1, cur + [c], Bare);
      var t := ReadToken(s, p, cur, Bare).value;
      assert s[p..] == [c] + s[p + 1..];
      if |t.text| - |cur| + 1 == t.next - p { assert cur + [c] + s[p + 1..t.next - 1] == cur + s[p..t.next - 1]; }
    }
  }

  lemma {:induction false} ByteEscapeRoom(s: string, p: nat, cur: string)
    requires p < |s| && IsByteEscape(s, p) && ReadToken(s, p, cur, Double).Some?
    ensures
      var t := ReadToken(s, p, cur, Double).value;
      |cur| <= |t.text| && |t.text| - |cur| + 1 <= t.next - p
    decreases |s| - p, 0
  {
    var byte := (HexDigit(s[p + 2]).value * 16 + HexDigit(s[p + 3]).value) as char;
    TokenRoom(s, p + 4, cur + [byte], Double);
  }

  lemma {:induction false} SplitRoom(s: string, p: nat)
    requires p <= |s| + 1 && SplitFrom(s, p).Some? && '\0' !in s
    ensures
      var words := SplitFrom(s, p).value;
      && Room(words) <= |s| + 1 - p
      && (Room(words) == |s| + 1 - p ==> forall i | 0 <= i < |words| :: Bareable(words[i]))
    decreases |s| + 1 - p
  {
    hide ReadToken;
    if p <= |s| && SkipBlanks(s, p) < |s| {
      var b := SkipBlanks(s, p);
      TokenRoom(s, b, "", Bare);
      var t := ReadToken(s, b, "", Bare).value;
      SplitRoom(s, t.next);
      var words := SplitFrom(s, p).value;
      assert words[0] == t.text && words[1..] == SplitFrom(s, t.next).value;
      if Room(words) == |s| + 1 - p {
        assert b == p;
        assert t.text == "" + s[p..t.next - 1];
        StartsToken(s, p);
        assert Bareable(t.text);
      }
    }
  }

  // Reading a token where there is no blank does not give nothing.
  lemma StartsToken(s: string, p: nat)
    requires p < |s| && !IsBlank(s[p]) && ReadToken(s, p, "", Bare).Some?
    ensures ReadToken(s, p, "", Bare).value.next > p + 1
  {
  }

  lemma {:induction false} BareToken(s: string, p: nat, cur: string, e: nat)
    requires p <= e <= |s| && (e < |s| ==> s[e] == ' ')
    requires forall i | p <= i < e :: !EndsBare(s[i]) && s[i] != '"' && s[i] != '\''
    ensures ReadToken(s, p, cur, Bare) == Some(Token(cur + s[p..e], e + 1))
    decreases e - p
  {
    if p < e {
      BareToken(s, p + 1, cur + [s[p]], e);
      assert s[p..e] == [s[p]] + s[p + 1..e];
      assert cur + [s[p]] + s[p + 1..e] == cur + s[p..e];
    } else {
      assert cur + s[e..e] == cur;
    }
  }

  lemma {:induction false} SplitBare(s: string, p: nat, words: seq<string>)
    requires p <= |s| && words != [] && s[p..] == Join(words)
    requires forall i | 0 <= i < |words| :: Bareable(words[i])
    ensures SplitFrom(s, p) == Some(words)
    decreases |words|
  {
    hide ReadToken, Bareable, IsBlank, EndsBare, Join;
    var w := words[0];
    var e := p + |w|;
    FirstWord(s, p, words);
    BareToken(s, p, "", e);
    assert "" + s[p..e] == w;
    if |words| > 1 { SplitBare(s, e + 1, words[1..]); } else { assert words[1..] == []; }
    assert SplitFrom(s, e + 1) == Some(words[1..]);
    assert words == [w] + words[1..];
  }

  lemma FirstWord(s: string, p: nat, words: seq<string>)
    requires p <= |s| && words != [] && s[p..] == Join(words) && Bareable(words[0])
    ensures
      var e := p + |words[0]|;
      && p < e <= |s| && s[p..e] == words[0] && SkipBlanks(s, p) == p
      && (forall i | p <= i < e :: !EndsBare(s[i]) && s[i] != '"' && s[i] != '\'')
      && (if |words| == 1 then e == |s| else e < |s| && s[e] == ' ' && s[e + 1..] == Join(words[1..]))
  {
    hide EndsBare;
    var w, t := words[0], s[p..];
    var e := p + |w|;
    assert t[..|w|] == w;
    forall i | p <= i < e
      ensures s[i] == w[i - p]
    {
      assert s[i] == t[..|w|][i - p];
    }
    if |words| > 1 {
      assert t == w + " " + Join(words[1..]);
      assert t[|w|] == ' ' && t[|w| + 1..] == Join(words[1..]);
      assert s[e] == t[|w|] && s[e + 1..] == t[|w| + 1..];
    }
  }

  /** Words joined by spaces are read back if and only if none is empty, starts with a
      blank or contains a separator, a quote or a NUL. */
  lemma ReadsBackIff(words: seq<string>)
    ensures Split(Join(words)) == Some(words) <==> forall i | 0 <= i < |words| :: Bareable(words[i])
  {
    hide SplitFrom, Room, Bareable;
    var line := Join(words);
    CStringPrefix(line);
    if words == [] {
      NothingSplits();
    } else {
      JoinRoom(words);
      if Split(line) == Some(words) {
        SplitRoom(CString(line), 0);
      }
      if forall i | 0 <= i < |words| :: Bareable(words[i]) {
        JoinHasNoNul(words);
        CStringPlain(line);
        assert line[0..] == line;
        SplitBare(line, 0, words);
      }
    }
  }

  lemma NothingSplits()
    ensures Split(Join([])) == Some([])
  {
  }

  lemma {:induction false} CStringPrefix(s: string)
    ensures '\0' !in CString(s) && |CString(s)| <= |s|
  {
    if s != "" && s[0] != '\0' { CStringPrefix(s[1..]); }
  }

  lemma {:induction false} JoinHasNoNul(words: seq<string>)
    requires forall i | 0 <= i < |words| :: Bareable(words[i])
    ensures '\0' !in Join(words)
  {
    if |words| > 1 {
      JoinHasNoNul(words[1..]);
      assert Bareable(words[0]);
    } else if words != [] {
      assert Bareable(words[0]);
    }
  }
}
