/** The append only file as bytes: commands are written in the RESP array format
    (Redis serialization protocol specification, sections "Arrays" and "Bulk strings")
    and read back by the loader, which tolerates a file cut anywhere. */
module AofCodec {
  import opened Decimal
  import opened Strings

  type Bytes = string
  type Argv = seq<Bytes>

  const CRLF := "\r\n"
  const LINE_MAX: nat := 127     // fgets with a 128 byte buffer

  // -------------------------------------------------------------------- encoding

  function Bulk(a: Bytes): Bytes { "$" + NatToString(|a|) + CRLF + a + CRLF }

  function Bulks(argv: Argv): Bytes {
    if argv == [] then "" else Bulk(argv[0]) + Bulks(argv[1..])
  }

  function Encode(argv: Argv): Bytes { "*" + NatToString(|argv|) + CRLF + Bulks(argv) }

  function EncodeAll(cmds: seq<Argv>): Bytes {
    if cmds == [] then "" else Encode(cmds[0]) + EncodeAll(cmds[1..])
  }

  method CatAppendOnlyGenericCommand(dst: Bytes, argv: Argv) returns (r: Bytes)
    ensures r == dst + Encode(argv)
  {
    hide NatToString, Bulk;
    r := dst + "*" + NatToString(|argv|) + CRLF;
    ghost var head := "*" + NatToString(|argv|) + CRLF;
    for j := 0 to |argv|
      invariant r == dst + (head + Bulks(argv[..j]))
    {
      var o := argv[j];
      BulkAppended(dst, head, Bulks(argv[..j]), o);
      r := r + "$" + NatToString(|o|) + CRLF;
      r := r + o;
      r := r + CRLF;
      BulksSnoc(argv[..j], o);
      assert argv[..j + 1] == argv[..j] + [o];
    }
    assert argv[..|argv|] == argv;
  }

  lemma BulkAppended(dst: Bytes, head: Bytes, bulks: Bytes, a: Bytes)
    ensures
      var r := dst + (head + bulks) + "$" + NatToString(|a|) + CRLF + a + CRLF;
      r == dst + (head + (bulks + Bulk(a)))
  {
    hide NatToString;
    Grouped(dst, head, bulks, "$", NatToString(|a|), CRLF, a, CRLF);
  }

  lemma Grouped(x: Bytes, y: Bytes, z: Bytes, p: Bytes, q: Bytes, r: Bytes, s: Bytes, t: Bytes)
    ensures x + (y + z) + p + q + r + s + t == x + (y + (z + (p + q + r + s + t)))
  {
    var w := p + q + r + s + t;
    assert x + (y + (z + w)) == x + (y + z) + w;
    var v := x + (y + z);
    assert v + p + q == v + (p + q);
    assert v + (p + q) + r == v + (p + q + r);
    assert v + (p + q + r) + s == v + (p + q + r + s);
    assert v + (p + q + r + s) + t == v + w;
  }

  lemma {:induction false} BulksSnoc(argv: Argv, a: Bytes)
    ensures Bulks(argv + [a]) == Bulks(argv) + Bulk(a)
  {
    if argv == [] {
      assert [] + [a] == [a];
      assert Bulks([a][1..]) == "";
    } else {
      assert (argv + [a])[1..] == argv[1..] + [a];
      BulksSnoc(argv[1..], a);
    }
  }

  const ARGC_LIMIT: nat := 0x8000_0000               // int argc
  const LEN_LIMIT: nat := 0x8000_0000_0000_0000      // long, as strtol returns

  // The sizes an int argc and an object length can take.
  ghost predicate Storable(argv: Argv) {
    0 < |argv| < ARGC_LIMIT && forall a | a in argv :: |a| < LEN_LIMIT
  }

  // ------------------------------------------------------------------- reading

  /** fgets: the bytes from p up to and including the next newline, at most LINE_MAX. */
  function LineEnd(f: Bytes, p: nat, room: nat): (q: nat)
    requires p <= |f|
    ensures p <= q <= |f| && q <= p + room
    decreases room
  {
    if room == 0 || p == |f| then p
    else if f[p] == '\n' then p + 1
    else LineEnd(f, p + 1, room - 1)
  }

  function Line(f: Bytes, p: nat): Bytes
    requires p <= |f|
  {
    f[p..LineEnd(f, p, LINE_MAX)]
  }

  datatype Read<T> = Got(value: T, next: nat) | ShortRead | BadFormat | Fatal

  // fgets reached the end of the file, so feof holds afterwards.
  predicate HitEof(f: Bytes, p: nat)
    requires p <= |f|
  {
    var l := Line(f, p);
    |l| < LINE_MAX && (l == "" || l[|l| - 1] != '\n')
  }

  function ReadCount(f: Bytes, p: nat): (r: Read<int>)
    requires p < |f|
    ensures r.Got? ==> p < r.next <= |f| && r.value >= 1
  {
    var l := Line(f, p);
    if l[0] != '*' then BadFormat
    else if |l| == 1 then if HitEof(f, p) then ShortRead else Fatal
    else
      var argc := ReadInt(l, 1);
      if argc < 1 then BadFormat else Got(argc, p + |l|)
  }

  function ReadBulk(f: Bytes, p: nat): (r: Read<Bytes>)
    requires p <= |f|
    ensures r.Got? ==> p < r.next <= |f|
  {
    if p == |f| then ShortRead
    else
      var l := Line(f, p);
      if l[0] != '$' then BadFormat
      else
        var len := ReadInt(l, 1);
        var q := p + |l|;
        if len < 0 then Fatal
        else if q + len > |f| then ShortRead
        else if q + len + 2 > |f| then ShortRead
        else Got(f[q..q + len], q + len + 2)
  }

  function ReadBulks(f: Bytes, p: nat, n: nat): (r: Read<Argv>)
    requires p <= |f|
    ensures r.Got? ==> p <= r.next <= |f| && |r.value| == n
    decreases n
  {
    if n == 0 then Got([], p)
    else
      match ReadBulk(f, p)
      case Got(a, q) => (
        match ReadBulks(f, q, n - 1)
        case Got(rest, e) => Got([a] + rest, e)
        case ShortRead => ShortRead
        case BadFormat => BadFormat
        case Fatal => Fatal)
      case ShortRead => ShortRead
      case BadFormat => BadFormat
      case Fatal => Fatal
  }

  function ReadCommand(f: Bytes, p: nat): (r: Read<Argv>)
    requires p < |f|
    ensures r.Got? ==> p < r.next <= |f| && |r.value| > 0
  {
    match ReadCount(f, p)
    case Got(argc, q) => ReadBulks(f, q, argc)
    case ShortRead => ShortRead
    case BadFormat => BadFormat
    case Fatal => Fatal
  }

  // ------------------------------------------------------------------- loading

  // The fake client: commands executed so far, and the transaction being queued.
  datatype Client = Client(executed: seq<Argv>, queued: seq<Argv>, multi: bool)

  predicate IsMulti(argv: Argv) { argv != [] && LowerAll(argv[0]) == "multi" }

  predicate IsExec(argv: Argv) { argv != [] && LowerAll(argv[0]) == "exec" }

  function Execute(c: Client, argv: Argv): Client {
    if c.multi && !IsExec(argv) then c.(queued := c.queued + [argv])
    else if IsMulti(argv) then c.(multi := true)
    else if IsExec(argv) then Client(c.executed + c.queued, [], false)
    else c.(executed := c.executed + [argv])
  }

  const FRESH_CLIENT := Client([], [], false)

  datatype Load =
    | Loaded(client: Client)
    | Truncated(client: Client, validUpTo: nat)
    | FormatError
    | ReadError

  function LoadFrom(f: Bytes, p: nat, c: Client, beforeMulti: nat): Load
    requires p <= |f|
    decreases |f| - p
  {
    if p == |f| then if c.multi then Truncated(c, beforeMulti) else Loaded(c)
    else
      match ReadCommand(f, p)
      case ShortRead => Truncated(c, p)
      case BadFormat => FormatError
      case Fatal => ReadError
      case Got(argv, q) => LoadFrom(f, q, Execute(c, argv), if IsMulti(argv) then p else beforeMulti)
  }

  // The next command, argument by argument.
  method ReadArgv(f: Bytes, pos: nat) returns (r: Read<Argv>)
    requires pos < |f|
    ensures r == ReadCommand(f, pos)
  {
    hide ReadCount, ReadBulk;
    var count := ReadCount(f, pos);
    match count {
      case BadFormat => return BadFormat;
      case Fatal => return Fatal;
      case ShortRead => return ShortRead;
      case Got(_, _) =>
    }
    var argc, at := count.value, count.next;
    var argv: Argv := [];
    assert ReadCommand(f, pos) == ReadBulks(f, at, argc);
    PrependNothing(ReadBulks(f, at, argc));
    for j := 0 to argc
      invariant at <= |f| && |argv| == j && pos < at
      invariant Prepend(argv, ReadBulks(f, at, argc - j)) == ReadCommand(f, pos)
    {
      var bulk := ReadBulk(f, at);
      match bulk {
        case BadFormat => return BadFormat;
        case Fatal => return Fatal;
        case ShortRead => return ShortRead;
        case Got(_, _) =>
      }
      PrependAssoc(argv, bulk.value, ReadBulks(f, bulk.next, argc - j - 1));
      argv, at := argv + [bulk.value], bulk.next;
    }
    assert argv + [] == argv;
    return Got(argv, at);
  }

  /** The loader, for a file without RDB preamble and aof-load-truncated enabled. */
  method LoadAppendOnlyFile(f: Bytes) returns (r: Load)
    ensures r == LoadFrom(f, 0, FRESH_CLIENT, 0)
  {
    hide ReadCommand, Execute;
    var client := FRESH_CLIENT;
    var validUpTo: nat, validBeforeMulti: nat, pos: nat := 0, 0, 0;
    while pos < |f|
      invariant pos == validUpTo <= |f|
      invariant LoadFrom(f, pos, client, validBeforeMulti) == LoadFrom(f, 0, FRESH_CLIENT, 0)
    {
      var command := ReadArgv(f, pos);
      match command {
        case BadFormat => return FormatError;
        case Fatal => return ReadError;
        case ShortRead => return Truncated(client, validUpTo);
        case Got(_, _) =>
      }
      if IsMulti(command.value) { validBeforeMulti := validUpTo; }
      client := Execute(client, command.value);
      pos := command.next;
      validUpTo := pos;
    }
    if client.multi { return Truncated(client, validBeforeMulti); }
    return Loaded(client);
  }

  lemma PrependNothing(r: Read<Argv>)
    ensures Prepend([], r) == r
  {
    if r.Got? { assert [] + r.value == r.value; }
  }

  function Prepend(argv: Argv, r: Read<Argv>): Read<Argv> {
    if r.Got? then r.(value := argv + r.value) else r
  }

  lemma PrependAssoc(argv: Argv, a: Bytes, r: Read<Argv>)
    ensures r.Got? ==> argv + ([a] + r.value) == (argv + [a]) + r.value
  {
  }

  // ------------------------------------------------- reading back what was written

  // The bytes of f at p begin with s.
  ghost predicate At(f: Bytes, p: nat, s: Bytes) {
    p + |s| <= |f| && f[p..p + |s|] == s
  }

  // The file ends, at or after p, within s.
  ghost predicate CutAt(f: Bytes, p: nat, s: Bytes) {
    p <= |f| < p + |s| && f[p..] == s[..|f| - p]
  }

  lemma AtSplit(f: Bytes, p: nat, s: Bytes, t: Bytes)
    requires At(f, p, s + t)
    ensures At(f, p, s) && At(f, p + |s|, t)
  {
    var w := f[p..p + |s + t|];
    assert f[p..p + |s|] == w[..|s|] == s;
    assert f[p + |s|..p + |s| + |t|] == w[|s|..] == t;
  }

  lemma CutSplit(f: Bytes, p: nat, s: Bytes, t: Bytes)
    requires CutAt(f, p, s + t)
    ensures |f| < p + |s| ==> CutAt(f, p, s)
    ensures p + |s| <= |f| ==> At(f, p, s) && CutAt(f, p + |s|, t)
  {
    var w := f[p..];
    if |f| < p + |s| {
      assert w == s[..|f| - p];
    } else {
      assert f[p..p + |s|] == w[..|s|] == s;
      assert f[p + |s|..] == w[|s|..] == t[..|f| - p - |s|];
    }
  }

  lemma {:induction false} LineIs(f: Bytes, p: nat, s: Bytes, room: nat)
    requires At(f, p, s) && 0 < |s| <= room && s[|s| - 1] == '\n'
    requires forall i | 0 <= i < |s| - 1 :: s[i] != '\n'
    ensures LineEnd(f, p, room) == p + |s|
    decreases room
  {
    assert f[p] == f[p..p + |s|][0];
    if |s| > 1 {
      assert f[p + 1..p + 1 + |s[1..]|] == f[p..p + |s|][1..] == s[1..];
      LineIs(f, p + 1, s[1..], room - 1);
    }
  }

  lemma {:induction false} LineIsRest(f: Bytes, p: nat, room: nat)
    requires p <= |f| <= p + room
    requires forall i | p <= i < |f| :: f[i] != '\n'
    ensures LineEnd(f, p, room) == |f|
    decreases room
  {
    if p < |f| { LineIsRest(f, p + 1, room - 1); }
  }

  function Header(mark: char, n: nat): Bytes { [mark] + NatToString(n) + CRLF }

  lemma HeaderShape(mark: char, n: nat)
    requires n < LEN_LIMIT && mark != '\n'
    ensures 4 <= |Header(mark, n)| <= 22 && |Header(mark, n)| == |NatToString(n)| + 3
    ensures forall i | 0 <= i < |Header(mark, n)| - 1 :: Header(mark, n)[i] != '\n'
    ensures Header(mark, n)[|Header(mark, n)| - 1] == '\n'
  {
    assert Pow10(5) == 100000;
    assert Pow10(10) == 10000000000;
    assert Pow10(15) == 1000000000000000;
    assert Pow10(19) == 10000000000000000000;
    LengthBound(n, 19);
    assert Header(mark, n) == [mark] + NatToString(n) + ['\r', '\n'];
  }

  lemma HeaderLine(f: Bytes, p: nat, mark: char, n: nat)
    requires At(f, p, Header(mark, n)) && n < LEN_LIMIT && mark != '\n'
    ensures Line(f, p) == Header(mark, n) && ReadInt(Line(f, p), 1) == n && |Line(f, p)| > 1
  {
    HeaderShape(mark, n);
    LineIs(f, p, Header(mark, n), LINE_MAX);
    ReadPrinted([mark], n, CRLF);
    assert [mark] + IntToString(n) + CRLF == Header(mark, n);
  }

  // A header cut short is one line that ends with the file.
  lemma CutHeaderLine(f: Bytes, p: nat, mark: char, n: nat)
    requires CutAt(f, p, Header(mark, n)) && p < |f| && n < LEN_LIMIT && mark != '\n'
    ensures Line(f, p) == f[p..] && HitEof(f, p) && f[p] == mark
    ensures ReadInt(f[p..], 1) >= 0
    ensures |f[p..]| > 1 && n > 0 ==> ReadInt(f[p..], 1) >= 1
  {
    hide ReadInt, NatToString;
    var h, l := Header(mark, n), f[p..];
    HeaderShape(mark, n);
    assert l == h[..|l|];
    forall i | p <= i < |f|
      ensures f[i] != '\n'
    {
      assert f[i] == l[i - p] == h[i - p];
    }
    LineIsRest(f, p, LINE_MAX);
    assert f[p] == l[0] == h[0];
    CutCount(mark, n, |l|);
  }

  lemma CutCount(mark: char, n: nat, m: nat)
    requires 0 < m < |Header(mark, n)|
    ensures ReadInt(Header(mark, n)[..m], 1) >= 0
    ensures m > 1 && n > 0 ==> ReadInt(Header(mark, n)[..m], 1) >= 1
  {
    var h, d := Header(mark, n), NatToString(n);
    var l := h[..m];
    var k := if m - 1 <= |d| then m - 1 else |d|;
    PrefixValue(n, k);
    if k > 0 {
      var after := l[1 + k..];
      assert l == [mark] + d[..k] + after;
      assert IsDigit(l[1]) by { assert l[1] == d[..k][0]; }
      assert after != "" ==> after[0] == h[1 + k] == '\r';
      ScanConcat([mark], d[..k], after, 0);
    }
  }

  lemma {:induction false} PrefixValue(n: nat, k: nat)
    requires k <= |NatToString(n)|
    ensures AllDigits(NatToString(n)[..k])
    ensures n > 0 && k > 0 ==> ScanDigits(NatToString(n)[..k], 0, 0) >= 1
    decreases n
  {
    var d := NatToString(n);
    if n >= 10 {
      if k < |d| {
        assert d[..k] == NatToString(n / 10)[..k];
        PrefixValue(n / 10, k);
      } else {
        assert d[..k] == d;
        ScanNat(n);
      }
    } else {
      assert k > 0 ==> d[..k] == d;
      ScanNat(n);
    }
  }

  lemma BulkShape(a: Bytes)
    ensures Bulk(a) == Header('$', |a|) + (a + CRLF)
  {
  }

  lemma ReadBulkIs(f: Bytes, p: nat, a: Bytes)
    requires At(f, p, Bulk(a)) && |a| < LEN_LIMIT
    ensures ReadBulk(f, p) == Got(a, p + |Bulk(a)|)
  {
    hide Line, ReadInt, Header, Bulk;
    var h := Header('$', |a|);
    BulkShape(a);
    AtSplit(f, p, h, a + CRLF);
    AtSplit(f, p + |h|, a, CRLF);
    HeaderLine(f, p, '$', |a|);
    assert Line(f, p)[0] == '$' by { HeaderMark('$', |a|); }
  }

  lemma HeaderMark(mark: char, n: nat)
    ensures |Header(mark, n)| > 0 && Header(mark, n)[0] == mark
  {
  }

  lemma ReadBulkCut(f: Bytes, p: nat, a: Bytes)
    requires CutAt(f, p, Bulk(a)) && |a| < LEN_LIMIT
    ensures ReadBulk(f, p) == ShortRead
  {
    hide Line, ReadInt, Header, Bulk;
    var h := Header('$', |a|);
    BulkShape(a);
    HeaderMark('$', |a|);
    CutSplit(f, p, h, a + CRLF);
    if p < |f| < p + |h| {
      CutHeaderLine(f, p, '$', |a|);
    } else if p + |h| <= |f| {
      HeaderLine(f, p, '$', |a|);
    }
  }

  lemma {:induction false} ReadBulksIs(f: Bytes, p: nat, argv: Argv)
    requires At(f, p, Bulks(argv)) && forall a | a in argv :: |a| < LEN_LIMIT
    ensures ReadBulks(f, p, |argv|) == Got(argv, p + |Bulks(argv)|)
    decreases |argv|
  {
    hide ReadBulk, Bulk, At;
    if argv == [] {
      assert p <= |f| by { AtWithin(f, p, Bulks(argv)); }
    } else {
      AtWithin(f, p, Bulks(argv));
      AtSplit(f, p, Bulk(argv[0]), Bulks(argv[1..]));
      ReadBulkIs(f, p, argv[0]);
      ReadBulksIs(f, p + |Bulk(argv[0])|, argv[1..]);
      assert [argv[0]] + argv[1..] == argv;
    }
  }

  lemma AtWithin(f: Bytes, p: nat, s: Bytes)
    requires At(f, p, s)
    ensures p + |s| <= |f|
  {
  }

  lemma {:induction false} ReadBulksCut(f: Bytes, p: nat, argv: Argv)
    requires CutAt(f, p, Bulks(argv)) && forall a | a in argv :: |a| < LEN_LIMIT
    ensures ReadBulks(f, p, |argv|) == ShortRead
    decreases |argv|
  {
    hide ReadBulk, Bulk;
    assert argv != [];
    CutSplit(f, p, Bulk(argv[0]), Bulks(argv[1..]));
    if |f| < p + |Bulk(argv[0])| {
      ReadBulkCut(f, p, argv[0]);
    } else {
      ReadBulkIs(f, p, argv[0]);
      ReadBulksCut(f, p + |Bulk(argv[0])|, argv[1..]);
    }
  }

  lemma EncodeShape(argv: Argv)
    ensures Encode(argv) == Header('*', |argv|) + Bulks(argv)
  {
  }

  lemma ReadCommandIs(f: Bytes, p: nat, argv: Argv)
    requires At(f, p, Encode(argv)) && Storable(argv)
    ensures p < |f| && ReadCommand(f, p) == Got(argv, p + |Encode(argv)|)
  {
    hide Line, ReadInt, Header, Encode, Bulks, ReadBulks, At;
    EncodeShape(argv);
    HeaderMark('*', |argv|);
    AtWithin(f, p, Encode(argv));
    AtSplit(f, p, Header('*', |argv|), Bulks(argv));
    HeaderLine(f, p, '*', |argv|);
    ReadBulksIs(f, p + |Header('*', |argv|)|, argv);
  }

  /** A command cut anywhere reads as a short read, never as a format error. */
  lemma ReadCommandCut(f: Bytes, p: nat, argv: Argv)
    requires CutAt(f, p, Encode(argv)) && p < |f| && Storable(argv)
    ensures ReadCommand(f, p) == ShortRead
  {
    hide Line, ReadInt, Header, Encode, Bulks;
    var h := Header('*', |argv|);
    EncodeShape(argv);
    HeaderMark('*', |argv|);
    CutSplit(f, p, h, Bulks(argv));
    if |f| < p + |h| {
      CutHeaderLine(f, p, '*', |argv|);
      if |f[p..]| > 1 {
        assert ReadCount(f, p) == Got(ReadInt(f[p..], 1), |f|);
      }
    } else {
      HeaderLine(f, p, '*', |argv|);
      ReadBulksCut(f, p + |h|, argv);
    }
  }

  // ---------------------------------------------------------------- cut files

  // The commands that lie wholly within the first m bytes.
  ghost function WholeCommands(cmds: seq<Argv>, m: nat): (k: nat)
    ensures k <= |cmds|
  {
    if cmds == [] || |Encode(cmds[0])| > m then 0
    else 1 + WholeCommands(cmds[1..], m - |Encode(cmds[0])|)
  }

  // Offset of the last MULTI among the commands, which start at offset p.
  ghost function BeforeMulti(cmds: seq<Argv>, p: nat, before: nat): nat {
    if cmds == [] then before
    else BeforeMulti(cmds[1..], p + |Encode(cmds[0])|, if IsMulti(cmds[0]) then p else before)
  }

  ghost function RunFrom(c: Client, cmds: seq<Argv>): Client
    decreases |cmds|
  {
    if cmds == [] then c else RunFrom(Execute(c, cmds[0]), cmds[1..])
  }

  // What loading the first m bytes of the encoded commands must give.
  ghost function Expected(cmds: seq<Argv>, m: nat, p: nat, c: Client, before: nat): Load {
    var k := WholeCommands(cmds, m);
    var whole := |EncodeAll(cmds[..k])|;
    var r := RunFrom(c, cmds[..k]);
    if m != whole then Truncated(r, p + whole)
    else if r.multi then Truncated(r, BeforeMulti(cmds[..k], p, before))
    else Loaded(r)
  }

  ghost predicate AllStorable(cmds: seq<Argv>) {
    forall i | 0 <= i < |cmds| :: Storable(cmds[i])
  }

  lemma {:induction false} LoadPrefix(f: Bytes, p: nat, c: Client, before: nat, cmds: seq<Argv>, m: nat)
    requires AllStorable(cmds) && m <= |EncodeAll(cmds)|
    requires |f| == p + m && f[p..] == EncodeAll(cmds)[..m]
    ensures LoadFrom(f, p, c, before) == Expected(cmds, m, p, c, before)
    decreases |cmds|
  {
    hide ReadCommand, Encode, Execute, Storable;
    if m == 0 {
      assert EncodeAll([]) == "";
      EncodePositive(cmds);
    } else {
      var e := Encode(cmds[0]);
      assert EncodeAll(cmds) == e + EncodeAll(cmds[1..]);
      assert Storable(cmds[0]);
      if m < |e| {
        assert f[p..] == e[..m];
        ReadCommandCut(f, p, cmds[0]);
        assert EncodeAll(cmds[..0]) == "";
      } else {
        assert f[p..p + |e|] == f[p..][..|e|] == e;
        ReadCommandIs(f, p, cmds[0]);
        assert f[p + |e|..] == f[p..][|e|..] == EncodeAll(cmds[1..])[..m - |e|];
        LoadPrefix(f, p + |e|, Execute(c, cmds[0]), if IsMulti(cmds[0]) then p else before, cmds[1..], m - |e|);
        ExpectedStep(cmds, m, p, c, before);
      }
    }
  }

  lemma EncodePositive(cmds: seq<Argv>)
    ensures cmds != [] ==> |Encode(cmds[0])| > 0
  {
  }

  lemma ExpectedStep(cmds: seq<Argv>, m: nat, p: nat, c: Client, before: nat)
    requires cmds != [] && m >= |Encode(cmds[0])|
    ensures Expected(cmds, m, p, c, before)
         == Expected(cmds[1..], m - |Encode(cmds[0])|, p + |Encode(cmds[0])|, Execute(c, cmds[0]),
                     if IsMulti(cmds[0]) then p else before)
  {
    hide Encode, Execute;
    var k := WholeCommands(cmds, m);
    assert cmds[..k][1..] == cmds[1..][..k - 1];
    assert EncodeAll(cmds[..k]) == Encode(cmds[0]) + EncodeAll(cmds[1..][..k - 1]);
  }

  /** Loading a file cut at any byte: the commands wholly inside the cut are run, in
      order, and nothing else. In the middle of a command the file is truncated where
      the last whole command ends; on a command boundary it is truncated only if a
      transaction is open, to where its MULTI began. */
  lemma LoadOfCutFile(cmds: seq<Argv>, m: nat)
    requires AllStorable(cmds) && m <= |EncodeAll(cmds)|
    ensures LoadFrom(EncodeAll(cmds)[..m], 0, FRESH_CLIENT, 0) == Expected(cmds, m, 0, FRESH_CLIENT, 0)
  {
    var f := EncodeAll(cmds)[..m];
    assert f[0..] == f;
    LoadPrefix(f, 0, FRESH_CLIENT, 0, cmds, m);
  }

  ghost predicate NoTransactions(cmds: seq<Argv>) {
    forall i | 0 <= i < |cmds| :: !IsMulti(cmds[i]) && !IsExec(cmds[i])
  }

  lemma {:induction false} RunPlain(c: Client, cmds: seq<Argv>)
    requires NoTransactions(cmds) && !c.multi
    ensures RunFrom(c, cmds) == c.(executed := c.executed + cmds)
    decreases |cmds|
  {
    if cmds == [] {
      assert c.executed + cmds == c.executed;
    } else {
      RunPlain(Execute(c, cmds[0]), cmds[1..]);
      assert c.executed + [cmds[0]] + cmds[1..] == c.executed + cmds;
    }
  }

  /** Without transactions: exactly the commands wholly inside the cut are executed and
      the retained part of the file is exactly their encoding. */
  lemma LoadOfCutPlainFile(cmds: seq<Argv>, m: nat)
    requires AllStorable(cmds) && NoTransactions(cmds) && m <= |EncodeAll(cmds)|
    ensures
      var k := WholeCommands(cmds, m);
      var client := Client(cmds[..k], [], false);
      LoadFrom(EncodeAll(cmds)[..m], 0, FRESH_CLIENT, 0)
        == if m == |EncodeAll(cmds[..k])| then Loaded(client)
           else Truncated(client, |EncodeAll(cmds[..k])|)
  {
    LoadOfCutFile(cmds, m);
    var k := WholeCommands(cmds, m);
    RunPlain(FRESH_CLIENT, cmds[..k]);
    assert [] + cmds[..k] == cmds[..k];
  }

  lemma {:induction false} AllAreWhole(cmds: seq<Argv>)
    ensures WholeCommands(cmds, |EncodeAll(cmds)|) == |cmds|
  {
    if cmds != [] {
      AllAreWhole(cmds[1..]);
    }
  }

  /** Round trip: the whole file loads back to the very argument vectors written, those of
      transactions when their EXEC comes; an open transaction is reverted. */
  lemma LoadOfWholeFile(cmds: seq<Argv>)
    requires AllStorable(cmds)
    ensures
      var c := RunFrom(FRESH_CLIENT, cmds);
      LoadFrom(EncodeAll(cmds), 0, FRESH_CLIENT, 0)
        == if c.multi then Truncated(c, BeforeMulti(cmds, 0, 0)) else Loaded(c)
    ensures NoTransactions(cmds) ==> RunFrom(FRESH_CLIENT, cmds) == Client(cmds, [], false)
  {
    AllAreWhole(cmds);
    LoadOfCutFile(cmds, |EncodeAll(cmds)|);
    assert EncodeAll(cmds)[..|EncodeAll(cmds)|] == EncodeAll(cmds);
    assert cmds[..|cmds|] == cmds;
    if NoTransactions(cmds) {
      RunPlain(FRESH_CLIENT, cmds);
      assert [] + cmds == cmds;
    }
  }

  // ------------------------------------------------------------------ transactions

  // What was read so far, as if the open transaction were executed.
  ghost function Effective(c: Client): seq<Argv> { c.executed + c.queued }

  ghost predicate WellQueued(c: Client) { c.multi || c.queued == [] }

  lemma {:induction false} RunConcat(c: Client, a: seq<Argv>, b: seq<Argv>)
    ensures RunFrom(c, a + b) == RunFrom(RunFrom(c, a), b)
    decreases |a|
  {
    hide Execute;
    if a == [] {
      assert a + b == b;
    } else {
      assert (a + b)[1..] == a[1..] + b;
      RunConcat(Execute(c, a[0]), a[1..], b);
    }
  }

  lemma {:induction false} RunWellQueued(c: Client, cmds: seq<Argv>)
    requires WellQueued(c)
    ensures WellQueued(RunFrom(c, cmds))
    decreases |cmds|
  {
    if cmds != [] { RunWellQueued(Execute(c, cmds[0]), cmds[1..]); }
  }

  // Plain commands are executed, or queued if a transaction is open.
  lemma {:induction false} RunPlainMore(c: Client, cmds: seq<Argv>)
    requires NoTransactions(cmds) && WellQueued(c)
    ensures
      var r := RunFrom(c, cmds);
      r.multi == c.multi && Effective(r) == Effective(c) + cmds
    decreases |cmds|
  {
    if cmds == [] {
      assert Effective(c) + cmds == Effective(c);
    } else {
      var d := Execute(c, cmds[0]);
      assert Effective(d) == Effective(c) + [cmds[0]];
      RunPlainMore(d, cmds[1..]);
      assert Effective(c) + [cmds[0]] + cmds[1..] == Effective(c) + cmds;
    }
  }

  /** A transaction read as a whole adds exactly its commands. */
  lemma RunTransaction(c: Client, body: seq<Argv>, exec: Argv)
    requires !c.multi && c.queued == [] && NoTransactions(body) && IsExec(exec)
    ensures RunFrom(c, [["MULTI"]] + body + [exec]) == Client(c.executed + body, [], false)
  {
    MultiIs();
    assert !IsMulti(exec) by { assert "multi"[0] != "exec"[0]; }
    hide IsMulti, IsExec;
    var d, e := c.(multi := true), RunFrom(c.(multi := true), body);
    RunOne(c, ["MULTI"]);
    RunConcat(c, [["MULTI"]], body);
    RunConcat(c, [["MULTI"]] + body, [exec]);
    RunPlainMore(d, body);
    assert Effective(d) == c.executed;
    RunOne(e, exec);
  }

  lemma MultiIs()
    ensures IsMulti(["MULTI"]) && !IsExec(["MULTI"])
  {
    assert LowerAll("MULTI") == "multi";
  }

  lemma RunOne(c: Client, argv: Argv)
    ensures RunFrom(c, [argv]) == Execute(c, argv)
  {
    hide Execute;
    assert [argv][1..] == [];
  }

  // A transaction is never opened inside another.
  ghost predicate NoNesting(c: Client, cmds: seq<Argv>)
    decreases |cmds|
  {
    cmds != [] ==> (c.multi ==> !IsMulti(cmds[0])) && NoNesting(Execute(c, cmds[0]), cmds[1..])
  }

  function Retained(r: Load, m: nat): nat { if r.Truncated? then r.validUpTo else m }

  lemma {:induction false} WholeAtBoundary(cmds: seq<Argv>, j: nat)
    requires j <= |cmds|
    ensures |EncodeAll(cmds[..j])| <= |EncodeAll(cmds)|
    ensures WholeCommands(cmds, |EncodeAll(cmds[..j])|) == j
    decreases |cmds|
  {
    hide Encode;
    EncodePositive(cmds);
    if j > 0 {
      assert cmds[..j][1..] == cmds[1..][..j - 1];
      WholeAtBoundary(cmds[1..], j - 1);
    }
  }

  // Where an open transaction began: just before its MULTI, outside any transaction.
  lemma {:induction false} OpenTransaction(c: Client, cmds: seq<Argv>, p: nat, before: nat) returns (j: nat)
    requires NoNesting(c, cmds) && RunFrom(c, cmds).multi
    ensures j <= |cmds|
    ensures (c.multi && BeforeMulti(cmds, p, before) == before)
      || (BeforeMulti(cmds, p, before) == p + |EncodeAll(cmds[..j])| && !RunFrom(c, cmds[..j]).multi)
    decreases |cmds|
  {
    hide Encode;
    j := 0;
    if cmds != [] {
      var d, q := Execute(c, cmds[0]), p + |Encode(cmds[0])|;
      var i := OpenTransaction(d, cmds[1..], q, if IsMulti(cmds[0]) then p else before);
      if BeforeMulti(cmds, p, before) == q + |EncodeAll(cmds[1..][..i])| && !RunFrom(d, cmds[1..][..i]).multi {
        j := i + 1;
        assert cmds[..j][1..] == cmds[1..][..i];
      } else if IsMulti(cmds[0]) {
        assert EncodeAll(cmds[..0]) == "";
      }
    }
  }

  /** Truncation never leaves half a transaction, exactly unless the file is cut in the
      middle of a command while a transaction is open: only then does the retained part
      end between a MULTI and its EXEC. */
  lemma TransactionsStayWholeIff(cmds: seq<Argv>, m: nat)
    requires AllStorable(cmds) && m <= |EncodeAll(cmds)| && NoNesting(FRESH_CLIENT, cmds)
    ensures
      var k := WholeCommands(cmds, m);
      var kept := Retained(LoadFrom(EncodeAll(cmds)[..m], 0, FRESH_CLIENT, 0), m);
      (!RunFrom(FRESH_CLIENT, cmds[..WholeCommands(cmds, kept)]).multi
       <==> (m == |EncodeAll(cmds[..k])| || !RunFrom(FRESH_CLIENT, cmds[..k]).multi))
  {
    LoadOfCutFile(cmds, m);
    var k := WholeCommands(cmds, m);
    WholeAtBoundary(cmds, k);
    if m == |EncodeAll(cmds[..k])| && RunFrom(FRESH_CLIENT, cmds[..k]).multi {
      NestingPrefix(FRESH_CLIENT, cmds, k);
      var j := OpenTransaction(FRESH_CLIENT, cmds[..k], 0, 0);
      WholeAtBoundary(cmds, j);
      assert cmds[..k][..j] == cmds[..j];
    }
  }

  lemma {:induction false} NestingPrefix(c: Client, cmds: seq<Argv>, k: nat)
    requires NoNesting(c, cmds) && k <= |cmds|
    ensures NoNesting(c, cmds[..k])
    decreases |cmds|
  {
    if k > 0 {
      NestingPrefix(Execute(c, cmds[0]), cmds[1..], k - 1);
      assert cmds[..k][1..] == cmds[1..][..k - 1];
    }
  }

  // Offset of the last MULTI, with plain commands around it.
  lemma {:induction false} BeforeMultiPlain(cmds: seq<Argv>, p: nat, before: nat)
    requires NoTransactions(cmds)
    ensures BeforeMulti(cmds, p, before) == before
  {
    hide Encode;
    if cmds != [] { BeforeMultiPlain(cmds[1..], p + |Encode(cmds[0])|, before); }
  }

  lemma {:induction false} BeforeMultiAt(cmds: seq<Argv>, body: seq<Argv>, p: nat, before: nat)
    requires NoTransactions(cmds) && NoTransactions(body)
    ensures BeforeMulti(cmds + [["MULTI"]] + body, p, before) == p + |EncodeAll(cmds)|
  {
    hide Encode;
    var all := cmds + [["MULTI"]] + body;
    MultiIs();
    if cmds == [] {
      assert all[1..] == body && all[0] == ["MULTI"];
      BeforeMultiPlain(body, p + |Encode(["MULTI"])|, p);
    } else {
      assert all[1..] == cmds[1..] + [["MULTI"]] + body;
      BeforeMultiAt(cmds[1..], body, p + |Encode(cmds[0])|, before);
    }
  }

  // Loading a file cut at the end of its j-th command.
  lemma LoadOfCommands(cmds: seq<Argv>, j: nat)
    requires AllStorable(cmds) && j <= |cmds|
    ensures |EncodeAll(cmds[..j])| <= |EncodeAll(cmds)|
    ensures
      var c := RunFrom(FRESH_CLIENT, cmds[..j]);
      LoadFrom(EncodeAll(cmds)[..|EncodeAll(cmds[..j])|], 0, FRESH_CLIENT, 0)
        == if c.multi then Truncated(c, BeforeMulti(cmds[..j], 0, 0)) else Loaded(c)
  {
    WholeAtBoundary(cmds, j);
    LoadOfCutFile(cmds, |EncodeAll(cmds[..j])|);
  }

  /** A transaction is loaded as a whole or, if the file ends in it, not at all. When a rewrite
      began after its MULTI, the new file has the rest of it without: of that rest a file that
      ends in it keeps what it has. */
  lemma SplitTransaction(base: seq<Argv>, body: seq<Argv>, exec: Argv, k: nat)
    requires AllStorable(base) && NoTransactions(base) && AllStorable(body) && NoTransactions(body)
    requires Storable(exec) && IsExec(exec) && k <= |body|
    ensures
      var whole, cut := base + [["MULTI"]] + body + [exec], |EncodeAll(base + [["MULTI"]] + body[..k])|;
      && cut <= |EncodeAll(whole)|
      && LoadFrom(EncodeAll(whole)[..cut], 0, FRESH_CLIENT, 0)
         == Truncated(Client(base, body[..k], true), |EncodeAll(base)|)
    ensures
      var rest, cut := base + body + [exec], |EncodeAll(base + body[..k])|;
      && cut <= |EncodeAll(rest)|
      && LoadFrom(EncodeAll(rest)[..cut], 0, FRESH_CLIENT, 0) == Loaded(Client(base + body[..k], [], false))
  {
    hide Encode, EncodeAll, LoadFrom, Storable, IsExec, IsMulti, RunFrom;
    var front := body[..k];
    var whole, rest := base + [["MULTI"]] + body + [exec], base + body + [exec];
    MultiStorable();
    assert AllStorable(whole) && AllStorable(rest);
    var i, j := |base| + 1 + k, |base| + k;
    assert whole[..i] == base + [["MULTI"]] + front;
    assert rest[..j] == base + front;
    LoadOfCommands(whole, i);
    LoadOfCommands(rest, j);
    BeforeMultiAt(base, front, 0, 0);
    RunPlain(FRESH_CLIENT, base + front);
    assert [] + (base + front) == base + front;
    RunOpen(base, front);
  }

  lemma MultiStorable()
    ensures Storable(["MULTI"])
  {
  }

  lemma RunOpen(base: seq<Argv>, front: seq<Argv>)
    requires NoTransactions(base) && NoTransactions(front)
    ensures RunFrom(FRESH_CLIENT, base + [["MULTI"]] + front) == Client(base, front, true)
  {
    MultiIs();
    hide IsMulti, IsExec;
    RunConcat(FRESH_CLIENT, base, [["MULTI"]]);
    RunConcat(FRESH_CLIENT, base + [["MULTI"]], front);
    RunPlain(FRESH_CLIENT, base);
    assert [] + base == base;
    RunOne(Client(base, [], false), ["MULTI"]);
    RunQueued(Client(base, [], true), front);
    assert [] + front == front;
  }

  lemma {:induction false} RunQueued(c: Client, cmds: seq<Argv>)
    requires c.multi && NoTransactions(cmds)
    ensures RunFrom(c, cmds) == c.(queued := c.queued + cmds)
    decreases |cmds|
  {
    if cmds == [] {
      assert c.queued + cmds == c.queued;
    } else {
      RunQueued(Execute(c, cmds[0]), cmds[1..]);
      assert c.queued + [cmds[0]] + cmds[1..] == c.queued + cmds;
    }
  }

  const MULTI_ALONE := "*1\r\n$5\r\nMULTI\r\n"

  lemma EncodedMulti()
    ensures Encode(["MULTI"]) == MULTI_ALONE && |MULTI_ALONE| == 15
  {
    assert NatToString(1) == "1" && NatToString(5) == "5";
    assert Bulks(["MULTI"]) == Bulk("MULTI") + Bulks([]);
  }

  lemma EncodedSet()
    ensures Encode(["SET", "k", "v"])[..5] == "*3\r\n$" && |Encode(["SET", "k", "v"])| > 5
  {
    assert NatToString(3) == "3";
    var argv := ["SET", "k", "v"];
    assert Bulks(argv) == Bulk(argv[0]) + Bulks(argv[1..]);
  }

  /** MULTI, SET k v and EXEC, cut inside SET: the loader keeps MULTI alone, the beginning of
      a transaction without its end. */
  lemma HalfTransactionExample()
    ensures
      var cmds := [["MULTI"], ["SET", "k", "v"], ["EXEC"]];
      EncodeAll(cmds)[..20] == MULTI_ALONE + "*3\r\n$"
    ensures LoadFrom(MULTI_ALONE + "*3\r\n$", 0, FRESH_CLIENT, 0) == Truncated(Client([], [], true), |MULTI_ALONE|)
    ensures LoadFrom(MULTI_ALONE, 0, FRESH_CLIENT, 0) == Truncated(Client([], [], true), 0)
  {
    hide Encode, ReadCommand, LoadFrom, Bulks;
    var cmds := [["MULTI"], ["SET", "k", "v"], ["EXEC"]];
    EncodedMulti();
    EncodedSet();
    var e, f := Encode(cmds[0]), Encode(cmds[1]);
    assert EncodeAll(cmds) == e + EncodeAll(cmds[1..]);
    assert EncodeAll(cmds[1..]) == f + EncodeAll(cmds[2..]);
    assert EncodeAll(cmds)[..20] == e + f[..5];
    assert AllStorable(cmds);
    LoadOfCutFile(cmds, 20);
    LoadOfCutFile(cmds, 15);
    assert EncodeAll(cmds)[..15] == e;
  }

  // -------------------------------------------------------------------- bad files

  // The i-th argument of those from p on, if the ones before it can be read, is bad.
  lemma {:induction false} BadArgument(f: Bytes, p: nat, n: nat, i: nat)
    requires p <= |f| && i < n && ReadBulks(f, p, i).Got? && ReadBulks(f, p, i).next < |f|
    ensures
      var e := ReadBulks(f, p, i).next;
      && (f[e] != '$' ==> ReadBulks(f, p, n) == BadFormat)
      && (f[e] == '$' && ReadInt(Line(f, e), 1) < 0 ==> ReadBulks(f, p, n) == Fatal)
    decreases i
  {
    hide Line, ReadInt;
    if i == 0 {
      assert ReadBulks(f, p, 0) == Got([], p);
      LineStarts(f, p);
    } else {
      var q := ReadBulk(f, p).next;
      BadArgument(f, q, n - 1, i - 1);
    }
  }

  lemma LineStarts(f: Bytes, p: nat)
    requires p < |f|
    ensures Line(f, p) != "" && Line(f, p)[0] == f[p]
  {
  }

  /** What makes loading fail: a command that does not begin with a star, or has no positive
      number of arguments behind it, or an argument that does not begin with a dollar sign, is an
      error of format; a negative length is one of reading. */
  lemma BadFileIs(f: Bytes, p: nat, c: Client, before: nat)
    requires p < |f|
    ensures f[p] != '*' ==> LoadFrom(f, p, c, before) == FormatError
    ensures f[p] == '*' && |Line(f, p)| > 1 && ReadInt(Line(f, p), 1) < 1 ==> LoadFrom(f, p, c, before) == FormatError
    ensures forall i | 0 <= i && ReadCount(f, p).Got? && i < ReadCount(f, p).value ::
      var args := ReadBulks(f, ReadCount(f, p).next, i);
      args.Got? && args.next < |f| ==>
        && (f[args.next] != '$' ==> LoadFrom(f, p, c, before) == FormatError)
        && (f[args.next] == '$' && ReadInt(Line(f, args.next), 1) < 0 ==> LoadFrom(f, p, c, before) == ReadError)
  {
    hide Line, ReadInt, ReadBulks;
    LineStarts(f, p);
    if ReadCount(f, p).Got? {
      forall i | 0 <= i < ReadCount(f, p).value && ReadBulks(f, ReadCount(f, p).next, i).Got?
        && ReadBulks(f, ReadCount(f, p).next, i).next < |f|
      {
        BadArgument(f, ReadCount(f, p).next, ReadCount(f, p).value, i);
      }
    }
  }
}
