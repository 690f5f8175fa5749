/** What commands with expires do, and what is written for them, in milliseconds: by the names
    and options of the commands. */
module AofMeaning {
  import opened Wrappers
  import opened Decimal
  import opened Strings
  import opened AofCodec
  import opened AofFeed

  // PEXPIREAT with an absolute time.
  function At(key: Bytes, ms: int): Argv { ["PEXPIREAT", key, IntToString(ms)] }

  // The time that a command with the lower case name low and the number n means.
  function Meant(low: string, n: int, now: int): int {
    if low == "expire" || low == "setex" then now + 1000 * n
    else if low == "pexpire" || low == "psetex" then now + n
    else if low == "expireat" then 1000 * n
    else n
  }

  /** EXPIRE, PEXPIRE, EXPIREAT and PEXPIREAT: a key that is there gets the expire, or is deleted
      if that is not later than now; what is written has the absolute time. */
  lemma ExpireIs(ks: Keyspace, argv: Argv, now: int, other: Effects)
    requires |argv| == 3
    requires LowerAll(argv[0]) in ["expire", "pexpire", "expireat", "pexpireat"]
    ensures
      var key, at := argv[1], Meant(LowerAll(argv[0]), ReadInt(argv[2], 0), now);
      && Run(ks, argv, now, false, other)
         == (if !IsInt(argv[2]) || key !in ks then None
             else if at <= now then Some(Ran(ks - {key}, ["DEL", key]))
             else Some(Ran(ks[key := Entry(ks[key].value, Some(at))], argv)))
      && Translate(argv, now) == Some([if LowerAll(argv[0]) == "pexpireat" then argv else At(key, at)])
  {
    hide LowerAll, IntToString;
  }

  /** SETEX and PSETEX. */
  lemma SetExpiringIs(ks: Keyspace, argv: Argv, now: int, other: Effects)
    requires |argv| == 4 && (LowerAll(argv[0]) == "setex" || LowerAll(argv[0]) == "psetex")
    ensures
      var key, n := argv[1], ReadInt(argv[2], 0);
      var at := Meant(LowerAll(argv[0]), n, now);
      && Run(ks, argv, now, false, other)
         == (if !IsInt(argv[2]) || n <= 0 then None else Some(Ran(ks[key := Entry(argv[3], Some(at))], argv)))
      && Translate(argv, now) == Some([["SET", key, argv[3]], At(key, at)])
  {
    hide LowerAll, IntToString;
  }

  /** SET with one option, or none: EX in seconds, PX in milliseconds, NX only for a new key, XX
      only for an old one, KEEPTTL with the expire it had. */
  lemma SetIs(ks: Keyspace, argv: Argv, now: int, other: Effects)
    requires |argv| >= 3 && LowerAll(argv[0]) == "set"
    ensures |argv| == 3 ==>
      && Run(ks, argv, now, false, other) == Some(Ran(ks[argv[1] := Entry(argv[2], None)], argv))
      && Translate(argv, now) == Some([argv])
    ensures |argv| == 4 ==>
      var r, key := Run(ks, argv, now, false, other), argv[1];
      && (Reads(argv[3], "nx") ==> r == if key in ks then None else Some(Ran(ks[key := Entry(argv[2], None)], argv)))
      && (Reads(argv[3], "xx") ==> r == if key in ks then Some(Ran(ks[key := Entry(argv[2], None)], argv)) else None)
      && (Reads(argv[3], "keepttl") ==>
            r == Some(Ran(ks[key := Entry(argv[2], if key in ks then ks[key].expire else None)], argv)))
    ensures |argv| == 5 && (Reads(argv[3], "ex") || Reads(argv[3], "px")) ==>
      var at := now + (if Reads(argv[3], "ex") then 1000 else 1) * ReadInt(argv[4], 0);
      if IsInt(argv[4]) && ReadInt(argv[4], 0) > 0 then
        && Run(ks, argv, now, false, other) == Some(Ran(ks[argv[1] := Entry(argv[2], Some(at))], argv))
        && Translate(argv, now) == Some([argv[..3], At(argv[1], at)])
      else Run(ks, argv, now, false, other).None?
  {
    hide LowerAll, IntToString, Reads, ParseOptions, Scan;
    OptionsAre(argv[3..]);
    RunIsSet(ks, argv, now, other);
    ScansAre(argv[3..]);
    if |argv| > 3 { OneWord(argv[3]); }
    assert forall a: Argv, b: Argv :: [a] + [] + [b] == [a, b] && [a] + [b] + [] == [a, b];
  }

  lemma OptionsAre(t: seq<Bytes>)
    ensures |t| == 0 ==> ParseOptions(t, 0, NO_FLAGS) == Some(NO_FLAGS)
    ensures |t| == 1 && Reads(t[0], "nx") ==> ParseOptions(t, 0, NO_FLAGS) == Some(NO_FLAGS.(nx := true))
    ensures |t| == 1 && Reads(t[0], "xx") ==> ParseOptions(t, 0, NO_FLAGS) == Some(NO_FLAGS.(xx := true))
    ensures |t| == 1 && Reads(t[0], "keepttl") ==> ParseOptions(t, 0, NO_FLAGS) == Some(NO_FLAGS.(keepttl := true))
    ensures |t| == 2 && Reads(t[0], "ex") ==> ParseOptions(t, 0, NO_FLAGS) == Some(NO_FLAGS.(ex := true, expire := Some(t[1])))
    ensures |t| == 2 && Reads(t[0], "px") ==> ParseOptions(t, 0, NO_FLAGS) == Some(NO_FLAGS.(px := true, expire := Some(t[1])))
  {
    hide Reads;
    if |t| > 0 { OneWord(t[0]); }
  }

  // A word reads as one option at most.
  lemma OneWord(s: Bytes)
    ensures Reads(s, "nx") ==> !Reads(s, "xx") && !Reads(s, "keepttl") && !Reads(s, "ex") && !Reads(s, "px")
    ensures Reads(s, "xx") ==> !Reads(s, "keepttl") && !Reads(s, "ex") && !Reads(s, "px")
    ensures Reads(s, "keepttl") ==> !Reads(s, "ex") && !Reads(s, "px")
    ensures Reads(s, "ex") ==> !Reads(s, "px")
  {
  }

  lemma ScansAre(t: seq<Bytes>)
    ensures |t| == 2 && Reads(t[0], "ex") && IsInt(t[1]) ==> Scan(t, 0, Scanned(None, None)) == Scanned(Some(t[1]), None)
    ensures |t| == 2 && Reads(t[0], "px") && IsInt(t[1]) ==> Scan(t, 0, Scanned(None, None)) == Scanned(None, Some(t[1]))
  {
    if |t| == 2 && IsInt(t[1]) {
      NumbersAreNotUnits(t[1]);
      OneWord(t[0]);
      hide Reads, IsInt;
      var s := Scan(t, 0, Scanned(None, None));
      var one :=
        if Reads(t[0], "ex") then Scanned(Some(t[1]), None)
        else Scanned(None, if Reads(t[0], "px") then Some(t[1]) else None);
      assert s == Scan(t, 1, one);
      assert Scan(t, 1, one) == Scan(t, 2, one) == one;
    }
  }

  /** DEL takes out the keys named, and is written only if one of them was there. */
  lemma DelIs(ks: Keyspace, argv: Argv, now: int, other: Effects)
    requires |argv| > 0 && LowerAll(argv[0]) == "del"
    ensures
      var r := Run(ks, argv, now, false, other);
      if forall key | key in argv[1..] :: key !in ks then r.None?
      else r.Some? && r.value.fed == argv && r.value.data == map key | key in ks && key !in argv[1..] :: ks[key]
    ensures Translate(argv, now) == Some([argv])
  {
    hide LowerAll;
    var keys := set i | 0 <= i < |argv[1..]| :: argv[1..][i];
    forall key ensures key in keys <==> key in argv[1..] {}
    if keys * ks.Keys != {} { var key :| key in keys * ks.Keys; assert key in argv[1..] && key in ks; }
    else { forall key | key in argv[1..] ensures key !in ks { assert key in keys && key !in keys * ks.Keys; } }
  }

  /** What is written for one command that changed something: SELECT if the file is in another
      database, or in none that is known any more, and then its translation. */
  lemma SelectIsWritten(l: Live, db: nat, argv: Argv, now: int, other: Effects)
    ensures
      var r, f := Run(Db(l.dbs, db), argv, now, false, other), Feed(l, db, argv, now, other);
      if r.None? then f == Some(l)
      else if Translate(r.value.fed, now).None? then f.None?
      else
        f == Some(Live(l.dbs[db := r.value.data], Some(db),
                       l.written + (if l.selected == Some(db) then [] else [["SELECT", IntToString(db)]])
                       + Translate(r.value.fed, now).value))
    ensures Happen(l, ForgetSelected, other) == Some(Live(l.dbs, None, l.written))
  {
    hide Run, Translate, IntToString;
  }
}
