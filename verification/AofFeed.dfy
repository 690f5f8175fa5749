/** What the append only file says instead of what the client said: relative expire
    times become absolute, SET with options is split, and SELECT is issued when the
    target database changes. Replaying the emitted commands gives the same data. */
module AofFeed {
  import opened Wrappers
  import opened Decimal
  import opened Strings
  import opened AofCodec

  // ------------------------------------------------------------------ the data

  // expire is an absolute time in milliseconds.
  datatype Entry = Entry(value: Bytes, expire: Option<int>)

  type Keyspace = map<Bytes, Entry>

  datatype Kind = KExpire | KPExpire | KExpireAt | KPExpireAt | KSetEx | KPSetEx | KSet | KDel | KSelect | KOther

  function KindOf(argv: Argv): Kind {
    if argv == [] then KOther
    else
      var name := LowerAll(argv[0]);
      if name == "expire" then KExpire
      else if name == "pexpire" then KPExpire
      else if name == "expireat" then KExpireAt
      else if name == "pexpireat" then KPExpireAt
      else if name == "setex" then KSetEx
      else if name == "psetex" then KPSetEx
      else if name == "set" then KSet
      else if name == "del" then KDel
      else if name == "select" then KSelect
      else KOther
  }

  // -------------------------------------------------------------- SET's options

  datatype SetFlags = SetFlags(nx: bool, xx: bool, ex: bool, px: bool, keepttl: bool, expire: Option<Bytes>)

  const NO_FLAGS := SetFlags(false, false, false, false, false, None)

  /** The option loop of SET: None is a syntax error. */
  function ParseOptions(t: seq<Bytes>, j: nat, f: SetFlags): Option<SetFlags>
    requires j <= |t|
    decreases |t| - j
  {
    if j == |t| then Some(f)
    else if Reads(t[j], "nx") && !f.xx then ParseOptions(t, j + 1, f.(nx := true))
    else if Reads(t[j], "xx") && !f.nx then ParseOptions(t, j + 1, f.(xx := true))
    else if Reads(t[j], "keepttl") && !f.ex && !f.px then ParseOptions(t, j + 1, f.(keepttl := true))
    else if Reads(t[j], "ex") && !f.keepttl && !f.px && j + 1 < |t| then
      ParseOptions(t, j + 2, f.(ex := true, expire := Some(t[j + 1])))
    else if Reads(t[j], "px") && !f.keepttl && !f.ex && j + 1 < |t| then
      ParseOptions(t, j + 2, f.(px := true, expire := Some(t[j + 1])))
    else None
  }

  // --------------------------------------------------------------- executing

  // Unknown commands change one keyspace in a way that depends on nothing else.
  type Effects = (Argv, Keyspace) -> Option<Keyspace>

  datatype Ran = Ran(data: Keyspace, fed: Argv)

  function RunExpire(ks: Keyspace, argv: Argv, base: int, unit: int, now: int, loading: bool): Option<Ran> {
    if |argv| != 3 || !IsInt(argv[2]) then None
    else
      var key, at := argv[1], ReadInt(argv[2], 0) * unit + base;
      if key !in ks then None
      else if at <= now && !loading then Some(Ran(ks - {key}, ["DEL", key]))
      else Some(Ran(ks[key := ks[key].(expire := Some(at))], argv))
  }

  function RunSetExpiring(ks: Keyspace, argv: Argv, unit: int, now: int): Option<Ran> {
    if |argv| != 4 || !IsInt(argv[2]) || ReadInt(argv[2], 0) <= 0 then None
    else Some(Ran(ks[argv[1] := Entry(argv[3], Some(now + ReadInt(argv[2], 0) * unit))], argv))
  }

  function RunSet(ks: Keyspace, argv: Argv, now: int): Option<Ran> {
    if |argv| < 3 then None
    else
      var key, parsed := argv[1], ParseOptions(argv[3..], 0, NO_FLAGS);
      if parsed.None? then None
      else
        var f := parsed.value;
        if f.expire.Some? && (!IsInt(f.expire.value) || ReadInt(f.expire.value, 0) <= 0) then None
        else if (f.nx && key in ks) || (f.xx && key !in ks) then None
        else
          var expire :=
            if f.expire.Some? then Some(now + ReadInt(f.expire.value, 0) * (if f.px then 1 else 1000))
            else if f.keepttl && key in ks then ks[key].expire
            else None;
          Some(Ran(ks[key := Entry(argv[2], expire)], argv))
  }

  /** Executes one command on a keyspace. None: nothing changed, so nothing is fed. */
  function Run(ks: Keyspace, argv: Argv, now: int, loading: bool, other: Effects): Option<Ran> {
    match KindOf(argv)
    case KExpire => RunExpire(ks, argv, now, 1000, now, loading)
    case KPExpire => RunExpire(ks, argv, now, 1, now, loading)
    case KExpireAt => RunExpire(ks, argv, 0, 1000, now, loading)
    case KPExpireAt => RunExpire(ks, argv, 0, 1, now, loading)
    case KSetEx => RunSetExpiring(ks, argv, 1000, now)
    case KPSetEx => RunSetExpiring(ks, argv, 1, now)
    case KSet => RunSet(ks, argv, now)
    case KDel =>
      var keys := set i | 0 <= i < |argv[1..]| :: argv[1..][i];
      if keys * ks.Keys == {} then None else Some(Ran(ks - keys, argv))
    case KSelect => None
    case KOther =>
      var r := other(argv, ks);
      if r.None? then None else Some(Ran(r.value, argv))
  }

  // ------------------------------------------------------------- translating

  function ExpireAt(kind: Kind, key: Bytes, param: Bytes, now: int): Argv {
    var n := ReadInt(param, 0);
    var ms := if kind.KExpire? || kind.KSetEx? || kind.KExpireAt? then n * 1000 else n;
    var at := if kind.KExpire? || kind.KPExpire? || kind.KSetEx? || kind.KPSetEx? then ms + now else ms;
    ["PEXPIREAT", key, IntToString(at)]
  }

  // The arguments following the last "ex" and the last "px" from position i on.
  datatype Scanned = Scanned(ex: Option<Bytes>, px: Option<Bytes>)

  function Scan(t: seq<Bytes>, i: nat, s: Scanned): Scanned
    requires i <= |t|
    decreases |t| - i
  {
    if i == |t| then s
    else
      var next := if i + 1 < |t| then Some(t[i + 1]) else None;
      var s1 := if Reads(t[i], "ex") then s.(ex := next) else s;
      Scan(t, i + 1, if Reads(t[i], "px") then s1.(px := next) else s1)
  }

  /** The commands written for one command; None when the assertion that SET has not
      both EX and PX fails. */
  function Translate(argv: Argv, now: int): Option<seq<Argv>> {
    var kind := KindOf(argv);
    if (kind.KExpire? || kind.KPExpire? || kind.KExpireAt?) && |argv| == 3 then
      Some([ExpireAt(kind, argv[1], argv[2], now)])
    else if (kind.KSetEx? || kind.KPSetEx?) && |argv| == 4 then
      Some([["SET", argv[1], argv[3]], ExpireAt(kind, argv[1], argv[2], now)])
    else if kind.KSet? && |argv| > 3 then
      var s := Scan(argv[3..], 0, Scanned(None, None));
      if s.ex.Some? && s.px.Some? then None
      else
        Some([argv[..3]]
          + (if s.ex.Some? then [ExpireAt(KExpire, argv[1], s.ex.value, now)] else [])
          + (if s.px.Some? then [ExpireAt(KPExpire, argv[1], s.px.value, now)] else []))
    else Some([argv])
  }

  /** Loading runs every command with no effect on expired times. */
  function Replay(ks: Keyspace, cmds: seq<Argv>, clock: int, other: Effects): Keyspace
    decreases |cmds|
  {
    if cmds == [] then ks
    else
      var r := Run(ks, cmds[0], clock, true, other);
      Replay(if r.Some? then r.value.data else ks, cmds[1..], clock, other)
  }

  // ------------------------------------------------- options and their scan agree

  // From position j on, the argument of some EX or PX reads as the other unit.
  predicate Confusing(t: seq<Bytes>, j: nat)
    requires j <= |t|
    decreases |t| - j
  {
    if j + 1 >= |t| then false
    else if Reads(t[j], "ex") then Reads(t[j + 1], "px") || Confusing(t, j + 2)
    else if Reads(t[j], "px") then Reads(t[j + 1], "ex") || Confusing(t, j + 2)
    else Confusing(t, j + 1)
  }

  lemma NumbersAreNotUnits(s: Bytes)
    requires IsInt(s)
    ensures !Reads(s, "ex") && !Reads(s, "px")
  {
    var n := ReadInt(s, 0);
    var c := s[0];
    assert IsDigit(c) || c == '-';
    assert c != '\0';
    assert CString(s)[0] == c;
    assert LowerAll(CString(s))[0] == c;
  }

  // From option position j on, some EX or PX is given.
  predicate HasUnit(t: seq<Bytes>, j: nat)
    requires j <= |t|
    decreases |t| - j
  {
    j < |t| && (Reads(t[j], "ex") || Reads(t[j], "px") || HasUnit(t, j + 1))
  }

  lemma WordsDiffer(s: Bytes)
    ensures Reads(s, "nx") || Reads(s, "xx") || Reads(s, "keepttl") ==> !Reads(s, "ex") && !Reads(s, "px")
    ensures !(Reads(s, "ex") && Reads(s, "px"))
  {
    assert "nx"[0] == 'n' && "xx"[0] == 'x' && "ex"[0] == 'e' && "px"[0] == 'p' && |"keepttl"| == 7;
  }

  // Options without EX and PX leave the expire argument as it was.
  lemma {:induction false} NoUnitNoExpire(t: seq<Bytes>, j: nat, f: SetFlags)
    requires j <= |t| && ParseOptions(t, j, f).Some? && !HasUnit(t, j)
    ensures
      var r := ParseOptions(t, j, f).value;
      r.expire == f.expire && r.ex == f.ex && r.px == f.px
    decreases |t| - j
  {
    hide Reads;
    if j < |t| {
      WordsDiffer(t[j]);
      if Reads(t[j], "nx") && !f.xx { NoUnitNoExpire(t, j + 1, f.(nx := true)); }
      else if Reads(t[j], "xx") && !f.nx { NoUnitNoExpire(t, j + 1, f.(xx := true)); }
      else { NoUnitNoExpire(t, j + 1, f.(keepttl := true)); }
    }
  }

  ghost predicate Agree(f: SetFlags) { !(f.ex && f.px) && (f.expire.Some? <==> f.ex || f.px) }

  // What the scan has found so far, at an option position.
  ghost predicate Tracked(t: seq<Bytes>, j: nat, f: SetFlags, s: Scanned)
    requires j <= |t|
  {
    && Agree(f)
    && (f.ex && !HasUnit(t, j) ==> s.ex == f.expire)
    && (f.px && !HasUnit(t, j) ==> s.px == f.expire)
    && (!f.ex && !f.px ==> s == Scanned(None, None))
  }

  ghost predicate Found(t: seq<Bytes>, j: nat, s: Scanned, r: SetFlags, final: Scanned)
    requires j <= |t|
  {
    && Agree(r)
    && (r.ex ==> final.ex == r.expire && (final.px.Some? <==> s.px.Some? || Confusing(t, j)))
    && (r.px ==> final.px == r.expire && (final.ex.Some? <==> s.ex.Some? || Confusing(t, j)))
    && (!r.ex && !r.px ==> final == Scanned(None, None) && !Confusing(t, j))
  }

  /** The scan of all arguments finds the expire the parser found, although it also
      looks at the numbers; it finds both units exactly when an argument is confusing. */
  lemma {:induction false} ScanFindsExpire(t: seq<Bytes>, j: nat, f: SetFlags, s: Scanned)
    requires j <= |t| && ParseOptions(t, j, f).Some? && Tracked(t, j, f, s)
    requires
      var r := ParseOptions(t, j, f).value;
      r.expire.Some? ==> IsInt(r.expire.value)
    ensures Found(t, j, s, ParseOptions(t, j, f).value, Scan(t, j, s))
    ensures
      var r := ParseOptions(t, j, f).value;
      (f.ex ==> r.ex) && (f.px ==> r.px)
    decreases |t| - j, 1
  {
    hide Reads, IsInt;
    if j < |t| {
      WordsDiffer(t[j]);
      if Reads(t[j], "nx") && !f.xx { ScanFindsExpire(t, j + 1, f.(nx := true), s); }
      else if Reads(t[j], "xx") && !f.nx { ScanFindsExpire(t, j + 1, f.(xx := true), s); }
      else if Reads(t[j], "keepttl") && !f.ex && !f.px { ScanFindsExpire(t, j + 1, f.(keepttl := true), s); }
      else { ScanUnit(t, j, f, s); }
    }
  }

  // One EX or PX and its argument.
  lemma {:induction false} ScanUnit(t: seq<Bytes>, j: nat, f: SetFlags, s: Scanned)
    requires j + 1 < |t| && ParseOptions(t, j, f).Some? && Tracked(t, j, f, s)
    requires (Reads(t[j], "ex") && !f.keepttl && !f.px) || (Reads(t[j], "px") && !f.keepttl && !f.ex)
    requires
      var r := ParseOptions(t, j, f).value;
      r.expire.Some? ==> IsInt(r.expire.value)
    ensures Found(t, j, s, ParseOptions(t, j, f).value, Scan(t, j, s))
    ensures
      var r := ParseOptions(t, j, f).value;
      (f.ex ==> r.ex) && (f.px ==> r.px)
    decreases |t| - j, 0
  {
    hide Reads, IsInt;
    WordsDiffer(t[j]);
    WordsDiffer(t[j + 1]);
    var f' := if Reads(t[j], "ex") then f.(ex := true, expire := Some(t[j + 1]))
              else f.(px := true, expire := Some(t[j + 1]));
    assert ParseOptions(t, j, f) == ParseOptions(t, j + 2, f');
    if !HasUnit(t, j + 2) {
      NoUnitNoExpire(t, j + 2, f');
      NumbersAreNotUnits(t[j + 1]);
    }
    var next := if j + 2 < |t| then Some(t[j + 2]) else None;
    var s1 := if Reads(t[j], "ex") then s.(ex := Some(t[j + 1])) else s.(px := Some(t[j + 1]));
    var s2 := if Reads(t[j + 1], "ex") then s1.(ex := next) else if Reads(t[j + 1], "px") then s1.(px := next) else s1;
    assert Scan(t, j, s) == Scan(t, j + 1, s1) == Scan(t, j + 2, s2);
    ScanFindsExpire(t, j + 2, f', s2);
  }

  // --------------------------------------------------- one command, one translation

  // The arguments of SET that make the translation fail its assertion.
  predicate ConfusingSet(argv: Argv) {
    KindOf(argv).KSet? && |argv| > 3 && Confusing(argv[3..], 0)
  }

  // SET with KEEPTTL on a key that has an expire: the translation drops KEEPTTL.
  predicate LosesTtl(ks: Keyspace, argv: Argv) {
    && KindOf(argv).KSet? && |argv| > 3
    && ParseOptions(argv[3..], 0, NO_FLAGS).Some?
    && ParseOptions(argv[3..], 0, NO_FLAGS).value.keepttl
    && argv[1] in ks && ks[argv[1]].expire.Some?
  }

  lemma Names(key: Bytes, value: Bytes)
    ensures KindOf(["PEXPIREAT", key, value]) == KPExpireAt
    ensures KindOf(["SET", key, value]) == KSet
    ensures KindOf(["DEL", key]) == KDel
    ensures KindOf(["SELECT", key]) == KSelect
  {
    assert LowerAll("PEXPIREAT") == "pexpireat";
    assert LowerAll("SET") == "set";
    assert LowerAll("DEL") == "del";
    assert LowerAll("SELECT") == "select";
  }

  lemma SameName(a: Argv, b: Argv)
    requires a != [] && b != [] && a[0] == b[0]
    ensures KindOf(a) == KindOf(b)
  {
  }

  lemma ReplayOne(ks: Keyspace, c: Argv, clock: int, other: Effects)
    ensures Replay(ks, [c], clock, other)
      == (if Run(ks, c, clock, true, other).Some? then Run(ks, c, clock, true, other).value.data else ks)
  {
    assert [c][1..] == [];
  }

  lemma ReplayTwo(ks: Keyspace, c: Argv, d: Argv, clock: int, other: Effects)
    ensures Replay(ks, [c, d], clock, other) == Replay(Replay(ks, [c], clock, other), [d], clock, other)
  {
    assert [c, d][1..] == [d];
    ReplayOne(ks, c, clock, other);
  }

  lemma ReplayExpireAt(ks: Keyspace, key: Bytes, at: int, clock: int, other: Effects)
    requires key in ks
    ensures Replay(ks, [["PEXPIREAT", key, IntToString(at)]], clock, other)
         == ks[key := ks[key].(expire := Some(at))]
  {
    hide Run, IntToString;
    var c := ["PEXPIREAT", key, IntToString(at)];
    Names(key, IntToString(at));
    ReadBack(at);
    RunPExpireAt(ks, c, clock, other);
    ReplayOne(ks, c, clock, other);
  }

  lemma RunPExpireAt(ks: Keyspace, c: Argv, clock: int, other: Effects)
    requires KindOf(c) == KPExpireAt
    ensures Run(ks, c, clock, true, other) == RunExpire(ks, c, 0, 1, clock, true)
  {
  }

  lemma ReplaySet(ks: Keyspace, c: Argv, clock: int, other: Effects)
    requires KindOf(c) == KSet && |c| == 3
    ensures Replay(ks, [c], clock, other) == ks[c[1] := Entry(c[2], None)]
  {
    hide KindOf;
    assert c[3..] == [];
    ReplayOne(ks, c, clock, other);
  }

  /** SETEX and PSETEX, and SET with EX or PX, as two commands. */
  lemma ReplaySetThenExpire(ks: Keyspace, c: Argv, at: int, clock: int, other: Effects)
    requires KindOf(c) == KSet && |c| == 3
    ensures Replay(ks, [c, ["PEXPIREAT", c[1], IntToString(at)]], clock, other)
         == ks[c[1] := Entry(c[2], Some(at))]
  {
    hide KindOf, IntToString, Run;
    var mid := ks[c[1] := Entry(c[2], None)];
    ReplayTwo(ks, c, ["PEXPIREAT", c[1], IntToString(at)], clock, other);
    ReplaySet(ks, c, clock, other);
    ReplayExpireAt(mid, c[1], at, clock, other);
    assert mid[c[1] := Entry(c[2], Some(at))] == ks[c[1] := Entry(c[2], Some(at))];
  }

  lemma TranslateSet(ks: Keyspace, argv: Argv, now: int, clock: int, other: Effects)
    requires KindOf(argv).KSet? && |argv| > 3 && RunSet(ks, argv, now).Some?
    ensures Translate(argv, now).None? <==> ConfusingSet(argv)
    ensures Translate(argv, now).Some? ==>
      (Replay(ks, Translate(argv, now).value, clock, other) == RunSet(ks, argv, now).value.data
       <==> !LosesTtl(ks, argv))
  {
    hide Run, IntToString, Scan, Confusing, Reads, ParseOptions, Replay;
    var t, f := argv[3..], ParseOptions(argv[3..], 0, NO_FLAGS).value;
    assert f.expire.Some? ==> IsInt(f.expire.value);
    ScanFindsExpire(t, 0, NO_FLAGS, Scanned(None, None));
    KeepTtlAlone(t, 0, NO_FLAGS);
    var c := argv[..3];
    assert KindOf(c) == KindOf(argv);
    if Translate(argv, now).Some? {
      if f.ex {
        var at := ReadInt(f.expire.value, 0) * 1000 + now;
        assert Translate(argv, now).value == [c, ["PEXPIREAT", c[1], IntToString(at)]];
        ReplaySetThenExpire(ks, c, at, clock, other);
      } else if f.px {
        var at := ReadInt(f.expire.value, 0) + now;
        assert Translate(argv, now).value == [c, ["PEXPIREAT", c[1], IntToString(at)]];
        ReplaySetThenExpire(ks, c, at, clock, other);
      } else {
        assert Translate(argv, now).value == [c];
        ReplaySet(ks, c, clock, other);
        var with := RunSet(ks, argv, now).value.data;
        var plain := ks[argv[1] := Entry(argv[2], None)];
        assert with[argv[1]] == plain[argv[1]] <==> !LosesTtl(ks, argv);
      }
    }
  }

  // The parser accepts KEEPTTL only without EX and PX.
  lemma {:induction false} KeepTtlAlone(t: seq<Bytes>, j: nat, f: SetFlags)
    requires j <= |t| && ParseOptions(t, j, f).Some? && (f.keepttl ==> !f.ex && !f.px)
    ensures
      var r := ParseOptions(t, j, f).value;
      r.keepttl ==> !r.ex && !r.px
    decreases |t| - j
  {
    hide Reads;
    if j < |t| {
      if Reads(t[j], "nx") && !f.xx { KeepTtlAlone(t, j + 1, f.(nx := true)); }
      else if Reads(t[j], "xx") && !f.nx { KeepTtlAlone(t, j + 1, f.(xx := true)); }
      else if Reads(t[j], "keepttl") && !f.ex && !f.px { KeepTtlAlone(t, j + 1, f.(keepttl := true)); }
      else if Reads(t[j], "ex") && !f.keepttl && !f.px {
        KeepTtlAlone(t, j + 2, f.(ex := true, expire := Some(t[j + 1])));
      }
      else { KeepTtlAlone(t, j + 2, f.(px := true, expire := Some(t[j + 1]))); }
    }
  }

  /** Every command that changed the data is written so that replaying it, at any later
      clock, makes the same change. The assertion about SET fails exactly when an option
      argument reads as the other unit, and the expire is lost exactly when KEEPTTL was
      given for a key that had one. */
  lemma TranslationPreservesMeaning(ks: Keyspace, argv: Argv, now: int, clock: int, other: Effects)
    requires Run(ks, argv, now, false, other).Some?
    ensures
      var r := Run(ks, argv, now, false, other).value;
      && (Translate(r.fed, now).None? <==> ConfusingSet(argv))
      && (Translate(r.fed, now).Some? ==>
            (Replay(ks, Translate(r.fed, now).value, clock, other) == r.data <==> !LosesTtl(ks, argv)))
  {
    hide Replay, IntToString, ParseOptions, Confusing, Run, Translate;
    var kind := KindOf(argv);
    if kind.KSet? && |argv| > 3 {
      RunIsSet(ks, argv, now, other);
      TranslateSet(ks, argv, now, clock, other);
    } else if kind.KSetEx? || kind.KPSetEx? {
      TranslateSetEx(ks, argv, now, clock, other);
    } else if kind.KExpire? || kind.KPExpire? || kind.KExpireAt? {
      TranslateExpire(ks, argv, now, clock, other);
    } else {
      SelectIsNotFed(ks, argv, now, other);
      TranslateVerbatim(ks, argv, now, clock, other);
    }
  }

  lemma SelectIsNotFed(ks: Keyspace, argv: Argv, now: int, other: Effects)
    requires Run(ks, argv, now, false, other).Some?
    ensures !KindOf(argv).KSelect?
  {
  }

  lemma RunIsSet(ks: Keyspace, argv: Argv, now: int, other: Effects)
    requires KindOf(argv).KSet?
    ensures Run(ks, argv, now, false, other) == RunSet(ks, argv, now)
    ensures RunSet(ks, argv, now).Some? ==> RunSet(ks, argv, now).value.fed == argv
  {
  }

  lemma TranslateSetEx(ks: Keyspace, argv: Argv, now: int, clock: int, other: Effects)
    requires (KindOf(argv).KSetEx? || KindOf(argv).KPSetEx?) && Run(ks, argv, now, false, other).Some?
    ensures
      var r := Run(ks, argv, now, false, other).value;
      Translate(r.fed, now).Some? && Replay(ks, Translate(r.fed, now).value, clock, other) == r.data
  {
    hide Replay, IntToString, KindOf, IsInt;
    var c := ["SET", argv[1], argv[3]];
    Names(argv[1], argv[3]);
    var at := now + ReadInt(argv[2], 0) * (if KindOf(argv).KSetEx? then 1000 else 1);
    ReplaySetThenExpire(ks, c, at, clock, other);
  }

  lemma ReplayDel(ks: Keyspace, key: Bytes, clock: int, other: Effects)
    requires key in ks
    ensures Replay(ks, [["DEL", key]], clock, other) == ks - {key}
  {
    Names(key, key);
    var c := ["DEL", key];
    ReplayOne(ks, c, clock, other);
    assert c[1..] == [key];
    var keys := set i | 0 <= i < |c[1..]| :: c[1..][i];
    assert key == c[1..][0] && key in keys;
    assert keys == {key};
    assert key in keys * ks.Keys;
  }

  lemma TranslateExpire(ks: Keyspace, argv: Argv, now: int, clock: int, other: Effects)
    requires KindOf(argv).KExpire? || KindOf(argv).KPExpire? || KindOf(argv).KExpireAt?
    requires Run(ks, argv, now, false, other).Some?
    ensures
      var r := Run(ks, argv, now, false, other).value;
      Translate(r.fed, now).Some? && Replay(ks, Translate(r.fed, now).value, clock, other) == r.data
  {
    hide Replay, IntToString, KindOf, IsInt;
    var unit := if KindOf(argv).KPExpire? then 1 else 1000;
    var at := ReadInt(argv[2], 0) * unit + (if KindOf(argv).KExpireAt? then 0 else now);
    var key := argv[1];
    Names(key, key);
    if at <= now {
      ReplayDel(ks, key, clock, other);
      assert Translate(["DEL", key], now) == Some([["DEL", key]]);
    } else {
      ReplayExpireAt(ks, key, at, clock, other);
      assert Translate(argv, now) == Some([["PEXPIREAT", key, IntToString(at)]]);
    }
  }

  lemma TranslateVerbatim(ks: Keyspace, argv: Argv, now: int, clock: int, other: Effects)
    requires Run(ks, argv, now, false, other).Some?
    requires KindOf(argv).KOther? || KindOf(argv).KDel? || KindOf(argv).KPExpireAt?
      || (KindOf(argv).KSet? && |argv| <= 3)
    ensures
      var r := Run(ks, argv, now, false, other).value;
      Translate(r.fed, now).Some? && Replay(ks, Translate(r.fed, now).value, clock, other) == r.data
  {
    hide Replay;
    var r := Run(ks, argv, now, false, other).value;
    if r.fed == argv {
      assert Translate(r.fed, now) == Some([argv]);
      ReplayOne(ks, argv, clock, other);
      if KindOf(argv).KSet? { assert argv[3..] == []; }
    } else {
      Names(argv[1], argv[1]);
      ReplayDel(ks, argv[1], clock, other);
      assert Translate(["DEL", argv[1]], now) == Some([["DEL", argv[1]]]);
    }
  }

  /** SET k v EX px EX 10 is accepted by the parser, and trips the assertion. */
  lemma ConfusingExample(now: int, other: Effects)
    ensures
      var argv := ["SET", "k", "v", "EX", "px", "EX", "10"];
      Run(map[], argv, now, false, other).Some? && Translate(argv, now).None?
  {
    hide Reads, Run, KindOf, ParseOptions, IsInt, Translate;
    var argv := ["SET", "k", "v", "EX", "px", "EX", "10"];
    Names("k", "v");
    SameName(argv, ["SET", "k", "v"]);
    assert argv[3..] == ["EX", "px", "EX", "10"];
    ConfusingOptions();
    TenIsTen();
    RunIsSet(map[], argv, now, other);
    TranslateSet(map[], argv, now, 0, other);
  }

  lemma ConfusingOptions()
    ensures
      var t := ["EX", "px", "EX", "10"];
      && ParseOptions(t, 0, NO_FLAGS) == Some(NO_FLAGS.(ex := true, expire := Some("10")))
      && Confusing(t, 0)
  {
    hide Reads;
    var t := ["EX", "px", "EX", "10"];
    UnitsRead();
    var f1 := NO_FLAGS.(ex := true, expire := Some("px"));
    var f2 := f1.(expire := Some("10"));
    assert ParseOptions(t, 4, f2) == Some(f2);
    assert ParseOptions(t, 2, f1) == ParseOptions(t, 4, f2);
    assert ParseOptions(t, 0, NO_FLAGS) == ParseOptions(t, 2, f1);
  }

  lemma UnitsRead()
    ensures Reads("EX", "ex") && Reads("px", "px")
    ensures !Reads("EX", "nx") && !Reads("EX", "xx") && !Reads("EX", "keepttl")
  {
    assert CString("EX") == "EX" && CString("px") == "px";
    assert LowerAll("EX") == "ex" && LowerAll("px") == "px";
  }

  lemma TenIsTen()
    ensures IsInt("10") && ReadInt("10", 0) == 10
  {
    hide ReadInt, IsInt;
    assert NatToString(1) == "1";
    assert NatToString(10) == NatToString(1) + [DigitChar(0)];
    assert IntToString(10) == "10";
    ReadBack(10);
  }

  /** SET k w KEEPTTL keeps the expire of k; what is written for it does not. */
  lemma KeepTtlExample(now: int, at: int, clock: int, other: Effects)
    ensures
      var argv := ["SET", "k", "w", "KEEPTTL"];
      var ks: Keyspace := map["k" := Entry("v", Some(at))];
      && Run(ks, argv, now, false, other) == Some(Ran(map["k" := Entry("w", Some(at))], argv))
      && Translate(argv, now).Some?
      && Replay(ks, Translate(argv, now).value, clock, other) != Run(ks, argv, now, false, other).value.data
  {
    hide Reads, Run, KindOf, ParseOptions, Translate, Replay, Confusing;
    var argv := ["SET", "k", "w", "KEEPTTL"];
    var ks: Keyspace := map["k" := Entry("v", Some(at))];
    Names("k", "w");
    SameName(argv, ["SET", "k", "w"]);
    assert argv[3..] == ["KEEPTTL"];
    KeepTtlOption();
    RunIsSet(ks, argv, now, other);
    assert ks["k" := Entry("w", Some(at))] == map["k" := Entry("w", Some(at))];
    assert RunSet(ks, argv, now) == Some(Ran(map["k" := Entry("w", Some(at))], argv));
    TranslateSet(ks, argv, now, clock, other);
    assert LosesTtl(ks, argv);
  }

  lemma KeepTtlReads()
    ensures Reads("KEEPTTL", "keepttl")
    ensures !Reads("KEEPTTL", "nx") && !Reads("KEEPTTL", "xx") && !Reads("KEEPTTL", "ex") && !Reads("KEEPTTL", "px")
  {
    hide CString, LowerAll;
    CStringPlain("KEEPTTL");
    KeepTtlLower();
  }

  lemma KeepTtlLower()
    ensures LowerAll("KEEPTTL") == "keepttl" && |LowerAll("KEEPTTL")| == 7
  {
  }

  lemma KeepTtlOption()
    ensures ParseOptions(["KEEPTTL"], 0, NO_FLAGS) == Some(NO_FLAGS.(keepttl := true)) && !Confusing(["KEEPTTL"], 0)
  {
    hide Reads;
    KeepTtlReads();
    assert ParseOptions(["KEEPTTL"], 1, NO_FLAGS.(keepttl := true)) == Some(NO_FLAGS.(keepttl := true));
  }

  // ------------------------------------------------------------ several databases

  datatype Server = Server(dbs: map<nat, Keyspace>, selected: nat)

  function Db(dbs: map<nat, Keyspace>, n: nat): Keyspace { if n in dbs then dbs[n] else map[] }

  /** Loading one command: SELECT switches database, everything else runs in it. */
  function Load(s: Server, c: Argv, clock: int, other: Effects): Server {
    if KindOf(c).KSelect? && |c| == 2 && IsInt(c[1]) && ReadInt(c[1], 0) >= 0 then
      s.(selected := ReadInt(c[1], 0))
    else
      var r := Run(Db(s.dbs, s.selected), c, clock, true, other);
      if r.Some? then s.(dbs := s.dbs[s.selected := r.value.data]) else s
  }

  function LoadAll(s: Server, cmds: seq<Argv>, clock: int, other: Effects): Server
    decreases |cmds|
  {
    if cmds == [] then s else LoadAll(Load(s, cmds[0], clock, other), cmds[1..], clock, other)
  }

  // What happens to the live server: a command in some database at some time, or
  // aof_selected_db being forced back to -1.
  datatype Happening = Command(db: nat, argv: Argv, now: int) | ForgetSelected

  // The live data, the database the file has selected, and what was written so far.
  datatype Live = Live(dbs: map<nat, Keyspace>, selected: Option<nat>, written: seq<Argv>)

  function Select(db: nat): Argv { ["SELECT", IntToString(db)] }

  function Feed(l: Live, db: nat, argv: Argv, now: int, other: Effects): Option<Live> {
    var r := Run(Db(l.dbs, db), argv, now, false, other);
    if r.None? then Some(l)
    else
      var t := Translate(r.value.fed, now);
      if t.None? then None
      else
        var select := if l.selected == Some(db) then [] else [Select(db)];
        Some(Live(l.dbs[db := r.value.data], Some(db), l.written + select + t.value))
  }

  function Happen(l: Live, h: Happening, other: Effects): Option<Live> {
    match h
    case ForgetSelected => Some(l.(selected := None))
    case Command(db, argv, now) => Feed(l, db, argv, now, other)
  }

  function HappenAll(l: Live, hs: seq<Happening>, other: Effects): Option<Live>
    decreases |hs|
  {
    if hs == [] then Some(l)
    else
      var m := Happen(l, hs[0], other);
      if m.None? then None else HappenAll(m.value, hs[1..], other)
  }

  // No command of the history loses an expire or trips the assertion.
  ghost predicate Ordinary(l: Live, hs: seq<Happening>, other: Effects)
    decreases |hs|
  {
    hs != [] ==>
      && (hs[0].Command? ==> !LosesTtl(Db(l.dbs, hs[0].db), hs[0].argv) && !ConfusingSet(hs[0].argv))
      && (Happen(l, hs[0], other).Some? ==> Ordinary(Happen(l, hs[0], other).value, hs[1..], other))
  }

  lemma {:induction false} LoadConcat(s: Server, a: seq<Argv>, b: seq<Argv>, clock: int, other: Effects)
    ensures LoadAll(s, a + b, clock, other) == LoadAll(LoadAll(s, a, clock, other), b, clock, other)
    decreases |a|
  {
    hide Load;
    if a == [] {
      assert a + b == b;
    } else {
      assert (a + b)[1..] == a[1..] + b;
      LoadConcat(Load(s, a[0], clock, other), a[1..], b, clock, other);
    }
  }

  ghost predicate SameData(a: map<nat, Keyspace>, b: map<nat, Keyspace>) {
    forall n: nat :: Db(a, n) == Db(b, n)
  }

  // Commands other than SELECT, loaded one after the other in the selected database.
  lemma {:induction false} LoadIsReplay(s: Server, cmds: seq<Argv>, clock: int, other: Effects)
    requires forall i | 0 <= i < |cmds| :: !KindOf(cmds[i]).KSelect?
    ensures
      var r := LoadAll(s, cmds, clock, other);
      && r.selected == s.selected
      && Db(r.dbs, s.selected) == Replay(Db(s.dbs, s.selected), cmds, clock, other)
      && forall n | n != s.selected :: Db(r.dbs, n) == Db(s.dbs, n)
    decreases |cmds|
  {
    hide Run, KindOf;
    if cmds != [] {
      LoadIsReplay(Load(s, cmds[0], clock, other), cmds[1..], clock, other);
    }
  }

  lemma WrittenIsNotSelect(ks: Keyspace, argv: Argv, now: int, other: Effects)
    requires Run(ks, argv, now, false, other).Some?
    ensures
      var t := Translate(Run(ks, argv, now, false, other).value.fed, now);
      t.Some? ==> forall i | 0 <= i < |t.value| :: !KindOf(t.value[i]).KSelect?
  {
    hide KindOf, Run, Translate;
    FedIsNotSelect(ks, argv, now, other);
    TranslatedIsNotSelect(Run(ks, argv, now, false, other).value.fed, now);
  }

  lemma FedIsNotSelect(ks: Keyspace, argv: Argv, now: int, other: Effects)
    requires Run(ks, argv, now, false, other).Some?
    ensures !KindOf(Run(ks, argv, now, false, other).value.fed).KSelect?
  {
    hide KindOf, IsInt, ReadInt, ParseOptions;
    if Run(ks, argv, now, false, other).value.fed != argv { Names(argv[1], argv[1]); }
  }

  lemma TranslatedIsNotSelect(argv: Argv, now: int)
    requires !KindOf(argv).KSelect?
    ensures
      var t := Translate(argv, now);
      t.Some? ==> forall i | 0 <= i < |t.value| :: !KindOf(t.value[i]).KSelect?
  {
    hide KindOf, IntToString, Scan;
    forall key: Bytes, value: Bytes
      ensures KindOf(["PEXPIREAT", key, value]) == KPExpireAt && KindOf(["SET", key, value]) == KSet
    {
      Names(key, value);
    }
    if KindOf(argv).KSet? && |argv| > 3 { SameName(argv[..3], argv); }
  }

  lemma LoadSelect(s: Server, db: nat, clock: int, other: Effects)
    ensures LoadAll(s, [Select(db)], clock, other) == s.(selected := db)
  {
    Names(IntToString(db), IntToString(db));
    ReadBack(db);
    assert [Select(db)][1..] == [];
  }

  // The replaying server has the live data and, unless SELECT is due, the same database.
  ghost predicate InStep(s: Server, l: Live) {
    SameData(s.dbs, l.dbs) && (l.selected.None? || l.selected == Some(s.selected))
  }

  lemma FeedInStep(s: Server, l: Live, db: nat, argv: Argv, now: int, clock: int, other: Effects)
    requires InStep(s, l) && Feed(l, db, argv, now, other).Some?
    requires !LosesTtl(Db(l.dbs, db), argv)
    ensures
      var m := Feed(l, db, argv, now, other).value;
      l.written <= m.written && InStep(LoadAll(s, m.written[|l.written|..], clock, other), m)
  {
    hide Run, Translate, LosesTtl, LoadAll, InStep, Select;
    var m := Feed(l, db, argv, now, other).value;
    var ran := Run(Db(l.dbs, db), argv, now, false, other);
    if ran.None? {
      assert m.written[|l.written|..] == [];
      LoadNothing(s, clock, other);
    } else {
      var t := Translate(ran.value.fed, now).value;
      var select := if l.selected == Some(db) then [] else [Select(db)];
      assert m.written[|l.written|..] == select + t;
      LoadConcat(s, select, t, clock, other);
      SelectInStep(s, l, db, clock, other);
      LoadFed(s, l, db, argv, now, clock, other);
      SameInStep(LoadAll(s.(selected := db), t, clock, other), m.(written := []), m);
    }
  }

  lemma LoadNothing(s: Server, clock: int, other: Effects)
    ensures LoadAll(s, [], clock, other) == s
  {
  }

  lemma SameInStep(s: Server, l: Live, m: Live)
    requires InStep(s, l) && m == l.(written := m.written)
    ensures InStep(s, m)
  {
  }

  lemma SelectInStep(s: Server, l: Live, db: nat, clock: int, other: Effects)
    requires InStep(s, l)
    ensures LoadAll(s, if l.selected == Some(db) then [] else [Select(db)], clock, other) == s.(selected := db)
  {
    LoadSelect(s, db, clock, other);
  }

  lemma LoadFed(s: Server, l: Live, db: nat, argv: Argv, now: int, clock: int, other: Effects)
    requires InStep(s, l) && Run(Db(l.dbs, db), argv, now, false, other).Some?
    requires !LosesTtl(Db(l.dbs, db), argv)
    ensures
      var ran := Run(Db(l.dbs, db), argv, now, false, other).value;
      var t := Translate(ran.fed, now);
      t.Some? ==>
        InStep(LoadAll(s.(selected := db), t.value, clock, other), Live(l.dbs[db := ran.data], Some(db), []))
  {
    hide Run, Translate, LosesTtl, ConfusingSet, LoadAll, KindOf, Replay;
    var ran := Run(Db(l.dbs, db), argv, now, false, other).value;
    if Translate(ran.fed, now).Some? {
      WrittenIsNotSelect(Db(l.dbs, db), argv, now, other);
      TranslationPreservesMeaning(Db(l.dbs, db), argv, now, clock, other);
      LoadIsReplay(s.(selected := db), Translate(ran.fed, now).value, clock, other);
    }
  }

  /** Whatever happened, in whichever databases and with aof_selected_db forced back at
      any moments, loading what was written reproduces keys, values and expires. */
  lemma {:induction false} HistoryReplays(s: Server, l: Live, hs: seq<Happening>, clock: int, other: Effects)
    requires InStep(s, l) && Ordinary(l, hs, other)
    ensures HappenAll(l, hs, other).Some?
    ensures
      var m := HappenAll(l, hs, other).value;
      l.written <= m.written && InStep(LoadAll(s, m.written[|l.written|..], clock, other), m)
    decreases |hs|
  {
    hide Happen, LosesTtl, ConfusingSet, LoadAll, InStep;
    if hs == [] {
      assert l.written[|l.written|..] == [];
      LoadNothing(s, clock, other);
    } else {
      HappenInStep(s, l, hs[0], clock, other);
      var m := Happen(l, hs[0], other).value;
      var s1 := LoadAll(s, m.written[|l.written|..], clock, other);
      HistoryReplays(s1, m, hs[1..], clock, other);
      var e := HappenAll(m, hs[1..], other).value;
      assert e.written[|l.written|..] == m.written[|l.written|..] + e.written[|m.written|..];
      LoadConcat(s, m.written[|l.written|..], e.written[|m.written|..], clock, other);
    }
  }

  lemma HappenInStep(s: Server, l: Live, h: Happening, clock: int, other: Effects)
    requires InStep(s, l) && (h.Command? ==> !LosesTtl(Db(l.dbs, h.db), h.argv) && !ConfusingSet(h.argv))
    ensures Happen(l, h, other).Some?
    ensures
      var m := Happen(l, h, other).value;
      l.written <= m.written && InStep(LoadAll(s, m.written[|l.written|..], clock, other), m)
  {
    hide Feed, LosesTtl, ConfusingSet, LoadAll;
    match h
    case Command(db, argv, now) =>
      OrdinaryIsFed(l, db, argv, now, clock, other);
      FeedInStep(s, l, db, argv, now, clock, other);
    case ForgetSelected =>
      assert l.written[|l.written|..] == [];
      LoadNothing(s, clock, other);
  }

  lemma OrdinaryIsFed(l: Live, db: nat, argv: Argv, now: int, clock: int, other: Effects)
    requires !ConfusingSet(argv)
    ensures Feed(l, db, argv, now, other).Some?
  {
    hide Run, Translate, LosesTtl, ConfusingSet;
    if Run(Db(l.dbs, db), argv, now, false, other).Some? {
      TranslationPreservesMeaning(Db(l.dbs, db), argv, now, clock, other);
    }
  }
}
