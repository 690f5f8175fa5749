/** The append only file as the server handles it: command translation, the buffer and
    its flush, the blocks of the rewrite buffer, and the hand-over to a rewritten file.
    What system calls answer is given to each method; every method takes the step of the
    machine in AofRewrite that is named in its contract. */
module AofProcess {
  import opened Wrappers
  import opened Decimal
  import opened Strings
  import opened AofCodec
  import opened AofFeed
  import opened AofRewrite

  const BLOCK_SIZE: nat := 10485760
  const PIPE_READ: nat := 65536

  // One answer of write(2). Wrote(n): n bytes, or all if fewer were offered.
  datatype Wrote = Wrote(n: nat) | Interrupted | Error

  datatype Policy = Always | EverySecond | Never

  function Min(a: nat, b: nat): nat { if a < b then a else b }

  // -------------------------------------------------------------------- aofWrite

  // Bytes that reach the file when len are offered and total have been written.
  function Accepted(answers: seq<Wrote>, len: nat): (n: nat)
    ensures n <= len
  {
    if len == 0 || answers == [] then 0
    else match answers[0]
      case Error => 0
      case Interrupted => Accepted(answers[1..], len)
      case Wrote(k) => Min(k, len) + Accepted(answers[1..], len - Min(k, len))
  }

  // Everything is written if the answers before the first error offer enough room.
  function Room(answers: seq<Wrote>): nat {
    if answers == [] || answers[0].Error? then 0
    else (if answers[0].Wrote? then answers[0].n else 0) + Room(answers[1..])
  }

  lemma {:induction false} AcceptedIsRoom(answers: seq<Wrote>, len: nat)
    ensures Accepted(answers, len) == Min(Room(answers), len)
  {
    if len > 0 && answers != [] && !answers[0].Error? {
      AcceptedIsRoom(answers[1..], if answers[0].Wrote? then len - Min(answers[0].n, len) else len);
    }
  }

  // The answers end where the device stops answering with anything but an error.
  method AofWrite(file: Bytes, buf: Bytes, answers: seq<Wrote>) returns (after: Bytes, r: int)
    ensures
      var n := Min(Room(answers), |buf|);
      after == file + buf[..n] && r == if n == 0 && buf != "" then -1 else n
  {
    var i, total := 0, 0;
    after := file;
    while total < |buf|
      invariant 0 <= i <= |answers| && 0 <= total <= |buf|
      invariant after == file + buf[..total]
      invariant total + Accepted(answers[i..], |buf| - total) == Accepted(answers, |buf|)
      decreases |answers| - i
    {
      if i == |answers| || answers[i].Error? {
        AcceptedIsRoom(answers, |buf|);
        r := if total > 0 then total else -1;
        return;
      }
      assert answers[i..][1..] == answers[i + 1..];
      if answers[i].Wrote? {
        var n := Min(answers[i].n, |buf| - total);
        assert buf[..total] + buf[total..total + n] == buf[..total + n];
        after := after + buf[total..total + n];
        total := total + n;
      }
      i := i + 1;
    }
    AcceptedIsRoom(answers, |buf|);
    r := total;
  }

  // ftruncate(2): shorter files are extended with NULs.
  function Truncate(file: Bytes, size: nat): (r: Bytes)
    ensures |r| == size
  {
    if size <= |file| then file[..size] else file + seq(size - |file|, _ => '\0')
  }

  // -------------------------------------------------------------- rewrite blocks

  // used bytes of a block are at the front of its buffer.
  datatype Block = Block(buf: Bytes) {
    function Used(): nat { |buf| }
    function Free(): int { BLOCK_SIZE - |buf| }
  }

  predicate TakesBlocks(answers: seq<Wrote>, n: nat) {
    |answers| >= n && forall i | 0 <= i < |answers| :: answers[i].Wrote? && answers[i].n >= BLOCK_SIZE
  }

  function Joined(blocks: seq<Block>): Bytes {
    if blocks == [] then "" else blocks[0].buf + Joined(blocks[1..])
  }

  lemma {:induction false} JoinedConcat(a: seq<Block>, b: seq<Block>)
    ensures Joined(a + b) == Joined(a) + Joined(b)
  {
    if a == [] {
      assert a + b == b;
    } else {
      assert (a + b)[1..] == a[1..] + b;
      JoinedConcat(a[1..], b);
    }
  }

  lemma JoinedFirst(blocks: seq<Block>)
    requires blocks != []
    ensures Joined(blocks) == blocks[0].buf + Joined(blocks[1..])
    ensures blocks[0].buf == "" ==> Joined(blocks) == Joined(blocks[1..])
  {
    assert blocks[0].buf == "" ==> blocks[0].buf + Joined(blocks[1..]) == Joined(blocks[1..]);
  }

  lemma JoinedLast(blocks: seq<Block>)
    requires blocks != []
    ensures Joined(blocks) == Joined(blocks[..|blocks| - 1]) + blocks[|blocks| - 1].buf
  {
    var front, last := blocks[..|blocks| - 1], blocks[|blocks| - 1];
    assert blocks == front + [last];
    JoinedConcat(front, [last]);
    assert [last][1..] == [];
  }

  lemma JoinedGrown(blocks: seq<Block>, piece: Bytes)
    requires blocks != []
    ensures
      var last := |blocks| - 1;
      Joined(blocks[last := Block(blocks[last].buf + piece)]) == Joined(blocks) + piece
  {
    hide Joined;
    var last := |blocks| - 1;
    var grown := blocks[last := Block(blocks[last].buf + piece)];
    JoinedLast(blocks);
    JoinedLast(grown);
    assert grown[..last] == blocks[..last];
  }

  lemma JoinedFresh(blocks: seq<Block>)
    ensures Joined(blocks + [Block("")]) == Joined(blocks)
  {
    JoinedConcat(blocks, [Block("")]);
    assert [Block("")][1..] == [];
  }

  // ------------------------------------------------------------- what is written

  function Written(selected: Option<nat>, db: nat, argv: Argv, now: int): Option<seq<Argv>> {
    var t := Translate(argv, now);
    if t.None? then None
    else Some((if selected == Some(db) then [] else [Select(db)]) + t.value)
  }

  /** What a command executed by the live server has written is what the machine of the
      rewrite records for it. */
  lemma WrittenIsFed(s: Sys, db: nat, argv: Argv, now: int, other: Effects)
    requires Run(Db(s.live, db), argv, now, false, other).Some? && !s.state.Off?
    ensures
      var ran := Run(Db(s.live, db), argv, now, false, other).value;
      var w := Written(s.selected, db, ran.fed, now);
      && (Fed(s, db, argv, now, other).Some? <==> w.Some?)
      && (w.Some? ==>
            Fed(s, db, argv, now, other) == Some(Live(s.live[db := ran.data], Some(db), w.value)))
  {
    hide Run, Translate, Select;
    var ran := Run(Db(s.live, db), argv, now, false, other).value;
    if Translate(ran.fed, now).Some? {
      var select := if s.selected == Some(db) then [] else [Select(db)];
      assert [] + select + Translate(ran.fed, now).value == select + Translate(ran.fed, now).value;
    }
  }

  /** What is written for MULTI and EXEC is what the machine records, too. */
  lemma WrittenIsControl(s: Sys, db: nat, argv: Argv, now: int)
    requires argv == ["MULTI"] || IsExec(argv)
    requires !s.state.Off?
    ensures Written(s.selected, db, argv, now) == Some(Control(s, db, argv).written)
    ensures Control(s, db, argv).dbs == s.live && Control(s, db, argv).selected == Some(db)
  {
    hide Select;
    assert KindOf(argv).KOther? by { assert LowerAll("MULTI") == "multi"; }
  }

  lemma EncodeOne(c: Argv)
    ensures EncodeAll([c]) == Encode(c)
  {
    hide Encode;
    assert [c][1..] == [];
  }

  lemma EncodeSelect(db: nat)
    ensures "*2\r\n$6\r\nSELECT\r\n" + "$" + NatToString(|IntToString(db)|) + CRLF + IntToString(db) + CRLF
         == EncodeAll([Select(db)])
  {
    var d := IntToString(db);
    EncodeOne(Select(db));
    assert NatToString(2) == "2" && NatToString(6) == "6";
    hide NatToString, EncodeAll, IntToString;
    SelectBulks(d);
    assert "*" + "2" + CRLF == "*2\r\n";
    assert Encode(Select(db)) == "*2\r\n" + (Bulk("SELECT") + Bulk(d));
    assert "*2\r\n" + Bulk("SELECT") == "*2\r\n$6\r\nSELECT\r\n";
    assert "*2\r\n" + (Bulk("SELECT") + Bulk(d)) == "*2\r\n" + Bulk("SELECT") + Bulk(d);
  }

  // The SELECT written before a command for another database.
  function EncodeOfSelect(selected: Option<nat>, db: nat): Bytes {
    if selected == Some(db) then ""
    else
      var seldb := IntToString(db);
      "*2\r\n$6\r\nSELECT\r\n" + "$" + NatToString(|seldb|) + CRLF + seldb + CRLF
  }

  lemma SelectEncoded(selected: Option<nat>, db: nat)
    ensures EncodeOfSelect(selected, db) == EncodeAll(if selected == Some(db) then [] else [Select(db)])
  {
    hide NatToString, IntToString, Select, Encode;
    EncodeSelect(db);
  }

  lemma SelectBulks(d: Bytes)
    ensures Bulks(["SELECT", d]) == Bulk("SELECT") + Bulk(d)
  {
    hide Bulk;
    assert ["SELECT", d][1..] == [d] && [d][1..] == [];
    assert Bulks([d]) == Bulk(d) + Bulks([]);
    assert Bulk(d) + "" == Bulk(d);
  }

  method CatAppendOnlyExpireAtCommand(buf: Bytes, kind: Kind, key: Bytes, param: Bytes, now: int)
    returns (r: Bytes)
    ensures r == buf + Encode(ExpireAt(kind, key, param, now))
  {
    var when := ReadInt(param, 0);
    if kind.KExpire? || kind.KSetEx? || kind.KExpireAt? { when := when * 1000; }
    if kind.KExpire? || kind.KPExpire? || kind.KSetEx? || kind.KPSetEx? { when := when + now; }
    r := CatAppendOnlyGenericCommand(buf, ["PEXPIREAT", key, IntToString(when)]);
  }

  // SET with options: its first three arguments, and the expire found among the others.
  method CatSet(dst: Bytes, argv: Argv, now: int) returns (buf: Bytes, crashed: bool)
    requires KindOf(argv).KSet? && |argv| > 3
    ensures crashed <==> Translate(argv, now).None?
    ensures !crashed ==> buf == dst + EncodeAll(Translate(argv, now).value)
  {
    hide Encode, EncodeAll, ExpireAt, Reads, KindOf;
    buf := CatAppendOnlyGenericCommand(dst, argv[..3]);
    var ex: Option<Bytes>, px: Option<Bytes> := None, None;
    ghost var t := argv[3..];
    for i := 3 to |argv|
      invariant Scan(t, i - 3, Scanned(ex, px)) == Scan(t, 0, Scanned(None, None))
    {
      var next := if i + 1 < |argv| then Some(argv[i + 1]) else None;
      assert t[i - 3] == argv[i] && (i + 1 < |argv| ==> t[i - 2] == argv[i + 1]);
      if Reads(argv[i], "ex") { ex := next; }
      if Reads(argv[i], "px") { px := next; }
    }
    crashed := ex.Some? && px.Some?;
    if crashed { return; }
    EncodeOne(argv[..3]);
    if ex.Some? {
      buf := CatAppendOnlyExpireAtCommand(buf, KExpire, argv[1], ex.value, now);
      EncodePair(dst, argv[..3], ExpireAt(KExpire, argv[1], ex.value, now));
      assert Translate(argv, now).value == [argv[..3]] + [ExpireAt(KExpire, argv[1], ex.value, now)];
    } else if px.Some? {
      EncodePair(dst, argv[..3], ExpireAt(KPExpire, argv[1], px.value, now));
      assert Translate(argv, now).value == [argv[..3]] + [ExpireAt(KPExpire, argv[1], px.value, now)];
    } else {
      assert Translate(argv, now).value == [argv[..3]];
    }
    if px.Some? { buf := CatAppendOnlyExpireAtCommand(buf, KPExpire, argv[1], px.value, now); }
  }

  /** The commands written for argv; crashed if the assertion about SET fails. */
  method CatTranslation(dst: Bytes, argv: Argv, now: int) returns (buf: Bytes, crashed: bool)
    ensures crashed <==> Translate(argv, now).None?
    ensures !crashed ==> buf == dst + EncodeAll(Translate(argv, now).value)
  {
    hide Encode, EncodeAll, ExpireAt, Reads, KindOf, Scan;
    var kind := KindOf(argv);
    buf, crashed := dst, false;
    if (kind.KExpire? || kind.KPExpire? || kind.KExpireAt?) && |argv| == 3 {
      buf := CatAppendOnlyExpireAtCommand(buf, kind, argv[1], argv[2], now);
      EncodeOne(ExpireAt(kind, argv[1], argv[2], now));
    } else if (kind.KSetEx? || kind.KPSetEx?) && |argv| == 4 {
      var set3 := ["SET", argv[1], argv[3]];
      buf := CatAppendOnlyGenericCommand(buf, set3);
      buf := CatAppendOnlyExpireAtCommand(buf, kind, argv[1], argv[2], now);
      EncodePair(dst, set3, ExpireAt(kind, argv[1], argv[2], now));
    } else if kind.KSet? && |argv| > 3 {
      buf, crashed := CatSet(buf, argv, now);
    } else {
      buf := CatAppendOnlyGenericCommand(buf, argv);
      EncodeOne(argv);
    }
  }

  lemma EncodePair(dst: Bytes, a: Argv, b: Argv)
    ensures dst + Encode(a) + Encode(b) == dst + EncodeAll([a] + [b])
    ensures [a] + [b] == [a, b]
  {
    hide Encode, EncodeAll;
    EncodeOne(a);
    EncodeOne(b);
    EncodeConcat([a], [b]);
  }

  // ------------------------------------------------------------------ the server

  class Aof {
    var state: AofState
    var policy: Policy
    var noFsyncOnRewrite: bool
    var selected: Option<nat>
    var file: Bytes                // contents of the append only file
    var buf: Bytes                 // aof_buf
    var currentSize: nat
    var fsyncOffset: nat
    var lastFsync: nat
    var postponedStart: nat
    var writeOk: bool
    var blocks: seq<Block>         // the rewrite buffer
    var childRunning: bool         // aof_child_pid != -1
    var stopSending: bool
    var pipe: Bytes                // written to the child and not read by it yet
    var rewriteScheduled: bool
    var rewriteOk: bool

    ghost predicate Valid()
      reads this
    {
      && (forall i | 0 <= i < |blocks| :: |blocks[i].buf| <= BLOCK_SIZE)
      && (!childRunning ==> blocks == [] && pipe == "")
    }

    // aof_current_size is the length of the file.
    ghost predicate InSync()
      reads this
    {
      state.On? ==> currentSize == |file|
    }

    // The fields are those of a state of the machine in AofRewrite.
    ghost predicate Implements(s: Sys)
      reads this
    {
      && s.state == state && s.selected == selected && s.file == file && s.buf == buf
      && s.rewrite == Joined(blocks) && s.stop == stopSending && s.pipe == pipe
      && s.child.Some? == childRunning
    }

    constructor (on: bool, policy: Policy, noFsyncOnRewrite: bool)
      ensures Valid() && InSync()
      ensures state == (if on then On else Off) && this.policy == policy
      ensures buf == "" && file == "" && currentSize == 0 && selected.None?
      ensures !childRunning && blocks == [] && pipe == "" && !stopSending
    {
      state := if on then On else Off;
      this.policy := policy;
      this.noFsyncOnRewrite := noFsyncOnRewrite;
      selected, file, buf, currentSize, fsyncOffset := None, "", "", 0, 0;
      lastFsync, postponedStart, writeOk := 0, 0, true;
      blocks, childRunning, stopSending, pipe := [], false, false, "";
      rewriteScheduled, rewriteOk := false, true;
    }

    // ---------------------------------------------------------- the rewrite buffer

    method AofRewriteBufferAppend(s: Bytes)
      requires Valid() && childRunning
      modifies this`blocks
      ensures Valid() && Joined(blocks) == old(Joined(blocks)) + s
    {
      hide Joined;
      var rest := s;
      ghost var was := Joined(blocks);
      while rest != ""
        invariant Valid() && |rest| <= |s|
        invariant Joined(blocks) + rest == was + s
        decreases |rest|, if blocks == [] || blocks[|blocks| - 1].Free() == 0 then 1 else 0
      {
        if blocks != [] {
          var last := |blocks| - 1;
          var n := Min(blocks[last].Free(), |rest|);
          JoinedGrown(blocks, rest[..n]);
          ghost var joined := Joined(blocks);
          assert joined + rest == joined + rest[..n] + rest[n..];
          blocks := blocks[last := Block(blocks[last].buf + rest[..n])];
          rest := rest[n..];
        }
        if rest != "" {
          JoinedFresh(blocks);
          blocks := blocks + [Block("")];
        }
      }
      assert Joined(blocks) + rest == Joined(blocks);
    }

    /** Sends as much of the rewrite buffer as the pipe takes; everything, if the pipe
        takes every block. */
    method AofChildWriteDiffData(answers: seq<Wrote>, ghost s: Sys)
      requires Valid() && childRunning && Implements(s)
      modifies this`blocks, this`pipe
      ensures Valid()
      ensures exists n: nat :: n <= |s.rewrite| && Implements(Sent(s, n))
      ensures old(stopSending) ==> blocks == old(blocks) && pipe == old(pipe)
      ensures !old(stopSending) && TakesBlocks(answers, |old(blocks)|) ==> blocks == []
    {
      hide Joined;
      var i := 0;
      ghost var n := 0;
      assert s.rewrite[0..] == s.rewrite && s.pipe + s.rewrite[..0] == s.pipe;
      while !stopSending && blocks != []
        invariant Valid() && n <= |s.rewrite| && i <= |answers|
        invariant Joined(blocks) == s.rewrite[n..] && pipe == s.pipe + s.rewrite[..n]
        invariant old(stopSending) ==> blocks == old(blocks) && pipe == old(pipe)
        invariant TakesBlocks(answers, |old(blocks)|) ==> |blocks| + i <= |old(blocks)|
        decreases |answers| - i, |blocks|
      {
        if blocks[0].Used() > 0 {
          if i == |answers| || !answers[i].Wrote? || answers[i].n == 0 { break; }
          var block := blocks[0].buf;
          var sent := Min(answers[i].n, |block|);
          SentMore(s, n, blocks, sent);
          pipe := pipe + block[..sent];
          blocks := blocks[0 := Block(block[sent..])];
          n, i := n + sent, i + 1;
        }
        if blocks[0].Used() == 0 {
          JoinedFirst(blocks);
          blocks := blocks[1..];
        }
      }
      assert Implements(Sent(s, n));
    }

    lemma SentMore(s: Sys, n: nat, bs: seq<Block>, sent: nat)
      requires bs != [] && sent <= |bs[0].buf| && n <= |s.rewrite| && s.rewrite[n..] == Joined(bs)
      ensures n + sent <= |s.rewrite|
      ensures s.rewrite[n + sent..] == Joined(bs[0 := Block(bs[0].buf[sent..])])
      ensures s.pipe + s.rewrite[..n] + bs[0].buf[..sent] == s.pipe + s.rewrite[..n + sent]
    {
      hide Joined;
      var block, rest := bs[0].buf, Joined(bs[1..]);
      var left := bs[0 := Block(block[sent..])];
      JoinedFirst(bs);
      JoinedFirst(left);
      assert left[1..] == bs[1..];
      assert s.rewrite[n..][sent..] == s.rewrite[n + sent..];
      assert s.rewrite[..n] + s.rewrite[n..][..sent] == s.rewrite[..n + sent];
      assert (block + rest)[..sent] == block[..sent];
      assert (block + rest)[sent..] == block[sent..] + rest;
    }

    /** Writes the rewrite buffer after the rewritten dataset; -1 at any short write. */
    method AofRewriteBufferWrite(temp: Bytes, answers: seq<Wrote>) returns (after: Bytes, r: int)
      requires Valid()
      ensures r == |Joined(blocks)| || r == -1
      ensures r >= 0 ==> after == temp + Joined(blocks)
      ensures blocks == [] ==> r == 0
    {
      var count := 0;
      after := temp;
      for i := 0 to |blocks|
        invariant count == |Joined(blocks[..i])| && after == temp + Joined(blocks[..i])
      {
        JoinedLast(blocks[..i + 1]);
        assert blocks[..i + 1][..i] == blocks[..i];
        if blocks[i].Used() > 0 {
          var n := if i < |answers| && answers[i].Wrote? then Min(answers[i].n, blocks[i].Used()) else 0;
          after := after + blocks[i].buf[..n];
          if n != blocks[i].Used() {
            r := -1;
            return;
          }
          count := count + n;
        }
      }
      assert blocks[..|blocks|] == blocks;
      r := count;
    }

    // ---------------------------------------------------------------- feeding it

    /** Feeding a command is the Executed step of the machine, or the assertion fails. Its
        callers feed nothing while the file is off. */
    method FeedAppendOnlyFile(db: nat, argv: Argv, now: int, ghost s: Sys, ghost live: map<nat, Keyspace>)
      returns (crashed: bool)
      requires Valid() && Implements(s) && !state.Off?
      modifies this`selected, this`buf, this`blocks
      ensures Valid()
      ensures crashed <==> Written(s.selected, db, argv, now).None?
      ensures !crashed ==>
        Implements(Executed(s, Live(live, Some(db), Written(s.selected, db, argv, now).value)))
    {
      hide Translate, EncodeAll, Joined, EncodeOfSelect, Written, Executed;
      var bytes := EncodeOfSelect(selected, db);
      selected := Some(db);
      bytes, crashed := CatTranslation(bytes, argv, now);
      WrittenBytes(s, db, argv, now, live);
      if crashed { return; }
      Append(bytes);
    }

    lemma WrittenBytes(s: Sys, db: nat, argv: Argv, now: int, live: map<nat, Keyspace>)
      ensures Written(s.selected, db, argv, now).Some? <==> Translate(argv, now).Some?
      ensures Written(s.selected, db, argv, now).Some? ==>
        var bytes := EncodeOfSelect(s.selected, db) + EncodeAll(Translate(argv, now).value);
        var r := Executed(s, Live(live, Some(db), Written(s.selected, db, argv, now).value));
        && r.state == s.state && r.selected == Some(db) && r.file == s.file && r.child == s.child
        && r.stop == s.stop && r.pipe == s.pipe
        && r.buf == (if s.state.On? then s.buf + bytes else s.buf)
        && r.rewrite == (if s.child.Some? then s.rewrite + bytes else s.rewrite)
    {
      hide Translate, Select, EncodeAll, EncodeOfSelect;
      if Translate(argv, now).Some? {
        SelectEncoded(s.selected, db);
        EncodeConcat(if s.selected == Some(db) then [] else [Select(db)], Translate(argv, now).value);
      }
    }

    // The bytes of one command go to aof_buf, and for the child at work to its blocks.
    method Append(bytes: Bytes)
      requires Valid()
      modifies this`buf, this`blocks
      ensures Valid()
      ensures buf == if state.On? then old(buf) + bytes else old(buf)
      ensures Joined(blocks) == if childRunning then Joined(old(blocks)) + bytes else Joined(old(blocks))
    {
      hide Joined;
      if state == On { buf := buf + bytes; }
      if childRunning { AofRewriteBufferAppend(bytes); }
    }

    // ------------------------------------------------------------------ flushing it

    predicate Postpones(force: bool, now: nat, syncing: bool)
      reads this
    {
      policy.EverySecond? && !force && syncing && (postponedStart == 0 || now - postponedStart < 2)
    }

    // A short write is undone with ftruncate, although the size may be out of date.
    predicate Undoes(answers: seq<Wrote>, truncates: bool)
      reads this
    {
      buf != "" && Min(Room(answers), |buf|) < |buf| && 0 < Min(Room(answers), |buf|) && truncates
    }

    method Postpone(now: nat) returns (postponed: bool)
      requires now > 0
      modifies this`postponedStart
      ensures postponed <==> old(postponedStart) == 0 || now - old(postponedStart) < 2
      ensures postponed ==> postponedStart > 0 && now - postponedStart < 2
    {
      if postponedStart == 0 { postponedStart := now; }
      postponed := now - postponedStart < 2;
    }

    // The write of a flush, by the number of bytes the device accepts.
    method WriteBuffer(answers: seq<Wrote>, truncates: bool) returns (exited: bool)
      requires Valid() && buf != ""
      modifies this`file, this`buf, this`currentSize, this`postponedStart, this`writeOk
      ensures Valid() && postponedStart == 0
      ensures exited <==> policy.Always? && Room(answers) < |old(buf)|
      ensures
        var n := Min(Room(answers), |old(buf)|);
        !exited ==>
          writeOk == (n == |old(buf)|) &&
          if n == |old(buf)| || (n > 0 && !truncates) then
            file == old(file) + old(buf)[..n] && buf == old(buf)[n..] && currentSize == old(currentSize) + n
          else
            && buf == old(buf) && currentSize == old(currentSize)
            && file == (if n > 0 then Truncate(old(file) + old(buf)[..n], old(currentSize)) else old(file))
    {
      hide Room, Truncate;
      exited := false;
      assert buf[|buf|..] == "";
      assert file + buf[..0] == file;
      var after, n := AofWrite(file, buf, answers);
      file := after;
      postponedStart := 0;
      if n != |buf| {
        if n != -1 && truncates {
          file := Truncate(file, currentSize);
          n := -1;
        }
        if policy == Always {
          exited := true;
          return;
        }
        writeOk := false;
        if n > 0 {
          currentSize := currentSize + n;
          buf := buf[n..];
        }
      } else {
        writeOk := true;
        currentSize := currentSize + n;
        buf := "";
      }
    }

    lemma FlushOutcome(s: Sys, n: nat, size: nat)
      requires n <= |s.buf|
      ensures s.file + s.buf[..n] + s.buf[n..] == s.file + s.buf
      ensures
        var cut := Truncate(s.file + s.buf[..n], size);
        && (cut + s.buf == s.file + s.buf <==> size == |s.file|)
        && (size == |s.file| ==> cut == s.file)
      ensures s.file + s.buf[..0] == s.file && s.buf[0..] == s.buf
      ensures s.file + s.buf[..|s.buf|] == s.file + s.buf
    {
      var cut := Truncate(s.file + s.buf[..n], size);
      if size != |s.file| { assert |cut + s.buf| != |s.file + s.buf|; }
    }

    method WriteAndSync(now: nat, inProgress: bool, children: bool, answers: seq<Wrote>, truncates: bool, ghost s: Sys)
      returns (exited: bool)
      requires Valid() && Implements(s) && buf != ""
      modifies this`file, this`buf, this`currentSize, this`fsyncOffset, this`lastFsync, this`postponedStart,
               this`writeOk
      ensures Valid()
      ensures exited <==> policy.Always? && Room(answers) < |s.buf|
      ensures !exited ==>
        (file + buf == s.file + s.buf <==> !old(Undoes(answers, truncates)) || old(currentSize == |file|))
      ensures !exited && old(currentSize == |file|) ==>
        currentSize == |file| && |buf| <= |s.buf| && Implements(Flushed(s, |s.buf| - |buf|))
      ensures !exited ==>
        if Room(answers) >= |s.buf| then buf == "" && file == s.file + s.buf && writeOk
        else buf != "" && !writeOk
      ensures !exited && old(Undoes(answers, truncates)) ==>
        file == Truncate(s.file + s.buf[..Room(answers)], old(currentSize)) && buf == s.buf
      ensures !exited && policy.Always? && !(noFsyncOnRewrite && children) ==> buf == "" && fsyncOffset == currentSize
      ensures !exited && Room(answers) == 0 ==> file == s.file && buf == s.buf && currentSize == old(currentSize)
    {
      hide Joined, Room, Truncate;
      exited := WriteBuffer(answers, truncates);
      FlushOutcome(s, Min(Room(answers), |s.buf|), old(currentSize));
      if !exited && buf == "" { TryFsync(now, inProgress, children); }
    }

    /** Flushes aof_buf for every pattern of short, interrupted and failed writes and
        every answer of ftruncate. When the policy is "always" the server exits unless
        everything was written. Nothing is lost and nothing written twice if and only if
        a short write was not cut off at an outdated size. */
    method FlushAppendOnlyFile(force: bool, now: nat, syncing: bool, children: bool,
                               answers: seq<Wrote>, truncates: bool, ghost s: Sys) returns (exited: bool)
      requires Valid() && now > 0 && Implements(s)
      modifies this`file, this`buf, this`currentSize, this`fsyncOffset, this`lastFsync, this`postponedStart,
               this`writeOk
      ensures Valid()
      ensures exited <==> policy.Always? && s.buf != "" && Room(answers) < |s.buf|
      ensures !exited ==>
        (file + buf == s.file + s.buf <==>
         old(Postpones(force, now, syncing)) || !old(Undoes(answers, truncates)) || old(currentSize == |file|))
      ensures !exited && old(currentSize == |file|) ==>
        currentSize == |file| && |buf| <= |s.buf| && Implements(Flushed(s, |s.buf| - |buf|))
      ensures !exited && !old(Postpones(force, now, syncing)) ==>
        if Room(answers) >= |s.buf| then buf == "" && file == s.file + s.buf && (s.buf != "" ==> writeOk)
        else buf != "" && !writeOk
      ensures !exited && !old(Postpones(force, now, syncing)) && old(Undoes(answers, truncates)) ==>
        file == Truncate(s.file + s.buf[..Room(answers)], old(currentSize)) && buf == s.buf
      ensures s.buf != "" && old(Postpones(force, now, syncing)) ==>
        postponedStart > 0 && now - postponedStart < 2 && file == s.file && buf == s.buf
      ensures !exited && policy.Always? && s.buf != "" && !(noFsyncOnRewrite && children) ==>
        buf == "" && fsyncOffset == currentSize
      ensures !exited && Room(answers) == 0 ==> file == s.file && buf == s.buf && currentSize == old(currentSize)
    {
      hide Joined, Room, Truncate;
      exited := false;
      var inProgress := false;
      FlushOutcome(s, 0, |s.file|);
      if buf == "" {
        assert s.file + s.buf == s.file;
        if policy == EverySecond && fsyncOffset != currentSize && now > lastFsync && !syncing {
          TryFsync(now, inProgress, children);
        }
        return;
      }
      if policy == EverySecond { inProgress := syncing; }
      if policy == EverySecond && !force && inProgress {
        var postponed := Postpone(now);
        if postponed { return; }
      }
      exited := WriteAndSync(now, inProgress, children, answers, truncates, s);
    }

    /** With "always" what was written is on disk afterwards; with "everysec" a sync starts at
        most once a second, and not while another is under way. */
    method TryFsync(now: nat, inProgress: bool, children: bool)
      modifies this`fsyncOffset, this`lastFsync
      ensures
        var mayWait := noFsyncOnRewrite && children;
        var turn := !mayWait && (policy.Always? || (policy.EverySecond? && now > old(lastFsync)));
        && lastFsync == (if turn then now else old(lastFsync))
        && fsyncOffset == (if turn && (policy.Always? || !inProgress) then currentSize else old(fsyncOffset))
    {
      if noFsyncOnRewrite && children { return; }
      if policy == Always {
        fsyncOffset := currentSize;
        lastFsync := now;
      } else if policy == EverySecond && now > lastFsync {
        if !inProgress { fsyncOffset := currentSize; }
        lastFsync := now;
      }
    }

    // ------------------------------------------------------------------- rewriting

    /** Starts a rewrite unless a child is active or a system call fails. */
    method RewriteAppendOnlyFileBackground(otherChild: bool, pipes: bool, forks: bool, ghost s: Sys, ghost base: Bytes)
      returns (ok: bool)
      requires Valid() && Implements(s)
      modifies this`selected, this`childRunning, this`stopSending, this`rewriteScheduled
      ensures Valid()
      ensures ok <==> !old(childRunning) && !otherChild && pipes && forks
      ensures ok ==> Implements(Forked(s, base)) && !rewriteScheduled
      ensures !ok ==> selected == old(selected) && childRunning == old(childRunning)
    {
      if childRunning || otherChild { return false; }
      if !pipes { return false; }
      stopSending := false;
      if !forks { return false; }
      rewriteScheduled := false;
      childRunning := true;
      selected := None;
      return true;
    }

    method AofChildPipeReadable(byte: Option<char>, sent: bool, ghost s: Sys)
      requires Valid() && Implements(s)
      modifies this`stopSending
      ensures Valid()
      ensures Implements(if byte == Some('!') then Answered(s, sent) else s)
    {
      if byte == Some('!') { stopSending := true; }
    }

    method KillAppendOnlyChild(ghost s: Sys)
      requires Valid() && Implements(s) && (s.child.None? ==> Conserved(s))
      modifies this`blocks, this`childRunning, this`pipe
      ensures Valid() && !childRunning && Implements(Cleanup(s))
    {
      if !childRunning { return; }
      blocks := [];
      childRunning := false;
      pipe := "";
    }

    // The new file takes the place of the old one.
    method SwitchFile(newFile: Bytes, stats: bool)
      modifies this`file, this`fsyncOffset, this`selected, this`currentSize, this`buf, this`rewriteOk, this`state
      ensures file == newFile
      ensures old(state).Off? ==> state.Off? && selected == old(selected) && buf == old(buf)
      ensures !old(state).Off? ==> state.On? && selected == None && buf == ""
      ensures !old(state).Off? && stats ==> currentSize == |file|
      ensures old(state).Off? ==> currentSize == old(currentSize)
    {
      file := newFile;
      if state != Off {
        selected := None;
        if stats { currentSize := |file|; }
        fsyncOffset := currentSize;
        buf := "";
      }
      rewriteOk := true;
      if state == WaitRewrite { state := On; }
    }

    // The rest of the rewrite buffer is added to the temporary file, which is then renamed.
    method Install(temp: Bytes, answers: seq<Wrote>, renames: bool, stats: bool) returns (done: bool)
      requires Valid()
      modifies this`file, this`fsyncOffset, this`selected, this`currentSize, this`buf, this`rewriteOk, this`state
      ensures done ==> renames && file == temp + Joined(blocks)
      ensures renames && blocks == [] ==> done
      ensures done && old(state).Off? ==>
        state.Off? && selected == old(selected) && buf == old(buf) && currentSize == old(currentSize)
      ensures done && !old(state).Off? ==>
        state.On? && selected == None && buf == "" && (stats ==> currentSize == |file|)
      ensures !done ==> file == old(file) && selected == old(selected) && currentSize == old(currentSize)
      ensures !done ==> buf == old(buf) && state == old(state)
    {
      hide Joined;
      var newFile, n := AofRewriteBufferWrite(temp, answers);
      done := n != -1 && renames;
      if done { SwitchFile(newFile, stats); }
    }

    /** A finished rewrite. Only when all steps succeed is the file replaced, by what the
        child wrote followed by the rest of the rewrite buffer; aof_buf, which holds the
        same commands for the old file, is dropped. */
    method BackgroundRewriteDoneHandler(exitOk: bool, bySignal: bool, userSignal: bool, temp: Bytes, opens: bool,
                                        answers: seq<Wrote>, renames: bool, stats: bool, ghost s: Sys)
      returns (done: bool)
      requires Valid() && childRunning && Implements(s)
      requires exitOk && !bySignal ==> temp == s.child.value.base + s.child.value.diff
      modifies this
      ensures Valid() && policy == old(policy) && !childRunning
      ensures done ==> exitOk && !bySignal && opens && renames
      ensures exitOk && !bySignal && opens && renames && old(blocks) == [] ==> done
      ensures old(state).Off? ==> currentSize == old(currentSize)
      ensures Implements(if done then Switched(s) else Cleanup(s))
      ensures done && stats ==> InSync()
      ensures !done ==> currentSize == old(currentSize) && (old(InSync()) ==> InSync())
      ensures state.WaitRewrite? ==> rewriteScheduled && !done
    {
      hide Joined;
      NoBlocks();
      done := false;
      if !bySignal && exitOk {
        if opens { done := Install(temp, answers, renames, stats); }
      } else if !bySignal || !userSignal {
        rewriteOk := false;
      }
      pipe := "";
      blocks := [];
      childRunning := false;
      if state == WaitRewrite { rewriteScheduled := true; }
    }

    lemma NoBlocks()
      ensures Joined([]) == ""
    {
    }

    // A flush that nothing postpones.
    method LastFlush(now: nat, syncing: bool, children: bool, answers: seq<Wrote>, truncates: bool, ghost s: Sys)
      returns (exited: bool)
      requires Valid() && now > 0 && Implements(s)
      modifies this`file, this`buf, this`currentSize, this`fsyncOffset, this`lastFsync, this`postponedStart,
               this`writeOk
      ensures Valid() && Implements(s.(file := file, buf := buf))
      ensures exited <==> policy.Always? && s.buf != "" && Room(answers) < |s.buf|
      ensures !exited && old(currentSize == |file|) ==>
        |buf| <= |s.buf| && s.(file := file, buf := buf) == Flushed(s, |s.buf| - |buf|)
      ensures !exited && Room(answers) == 0 ==> file == s.file && buf == s.buf && currentSize == old(currentSize)
    {
      hide Room, Joined, Truncate, Aof.Postpones, Aof.Undoes, Min;
      exited := FlushAppendOnlyFile(true, now, syncing, children, answers, truncates, s);
    }

    /** Switching it off: a last flush, then the state of the machine's Disable. What the flush
        could not write stays in aof_buf. */
    method StopAppendOnly(now: nat, syncing: bool, children: bool, answers: seq<Wrote>, truncates: bool, ghost s: Sys)
      returns (exited: bool)
      requires Valid() && !state.Off? && now > 0 && Implements(s) && Conserved(s)
      modifies this`file, this`buf, this`currentSize, this`fsyncOffset, this`lastFsync, this`postponedStart,
               this`writeOk, this`selected, this`state, this`rewriteScheduled, this`blocks, this`childRunning, this`pipe
      ensures Valid()
      ensures !exited && old(currentSize == |file|) ==>
        |buf| <= |s.buf| && Implements(Disabled(Flushed(s, |s.buf| - |buf|)))
      ensures !exited ==> state.Off? && selected.None? && !childRunning && blocks == []
      ensures exited <==> policy.Always? && s.buf != "" && Room(answers) < |s.buf|
      ensures !exited && Room(answers) == 0 ==> file == s.file && buf == s.buf && currentSize == old(currentSize)
    {
      hide Room, Joined;
      exited := LastFlush(now, syncing, children, answers, truncates, s);
      if exited { return; }
      SwitchOff(s.(file := file, buf := buf));
    }

    method SwitchOff(ghost s: Sys)
      requires Valid() && Implements(s) && (s.child.None? ==> Conserved(s))
      modifies this`selected, this`state, this`rewriteScheduled, this`blocks, this`childRunning, this`pipe
      ensures Valid() && state.Off? && selected.None? && !childRunning && Implements(Disabled(s))
    {
      selected := None;
      state := Off;
      rewriteScheduled := false;
      KillAppendOnlyChild(s.(selected := None, state := Off));
    }

    /** Switching it on: a rewrite is started or scheduled, and the file is relied on
        only after it. */
    method StartAppendOnly(opens: bool, otherChild: bool, pipes: bool, forks: bool, now: nat, ghost s: Sys, ghost base: Bytes)
      returns (ok: bool)
      requires Valid() && state.Off? && Implements(s) && Conserved(s)
      modifies this
      ensures Valid()
      ensures !ok ==> state.Off?
      ensures ok ==> state.WaitRewrite? && (childRunning || rewriteScheduled) && (childRunning <==> !otherChild)
      ensures ok && childRunning ==> Implements(Forked(Cleanup(s), base).(state := WaitRewrite))
      ensures ok && !childRunning ==> Implements(s.(state := WaitRewrite))
      ensures ok <==> opens && ((otherChild && !old(childRunning)) || (!otherChild && pipes && forks))
      ensures currentSize == old(currentSize) && policy == old(policy)
    {
      if !opens { return false; }
      if otherChild && !childRunning {
        rewriteScheduled := true;
      } else {
        ghost var mid := s;
        if childRunning {
          KillAppendOnlyChild(s);
          mid := Cleanup(s);
        }
        ok := RewriteAppendOnlyFileBackground(otherChild, pipes, forks, mid, base);
        if !ok { return; }
      }
      state := WaitRewrite;
      lastFsync := now;
      ok := true;
    }
  }

  // --------------------------------------------------- a size that is out of date

  const IDLE := Sys(map[], None, On, "", "", "", false, "", false, false, None, "", false)
  const FLUSHALL := "*1\r\n$8\r\nFLUSHALL\r\n"
  const FLUSHALL_IN_0 := "*2\r\n$6\r\nSELECT\r\n$1\r\n0\r\n" + FLUSHALL

  // One command is fed, and the last flush of the switch to off fails: the command stays
  // in aof_buf.
  method FailedStop() returns (aof: Aof, ghost s: Sys)
    ensures fresh(aof) && aof.Valid() && aof.Implements(s) && Conserved(s)
    ensures aof.state.Off? && aof.policy.EverySecond? && !aof.childRunning && aof.blocks == []
    ensures aof.file == "" && aof.buf == FLUSHALL_IN_0 && aof.currentSize == 0
  {
    hide Translate, EncodeAll, Select, Room;
    aof := new Aof(true, EverySecond, false);
    s := IDLE;
    OneWord();
    var crashed := aof.FeedAppendOnlyFile(0, ["FLUSHALL"], 0, s, map[]);
    s := Executed(s, Live(map[], Some(0), Written(None, 0, ["FLUSHALL"], 0).value));
    NoRoom();
    var exited := aof.StopAppendOnly(1, false, false, [Error], true, s);
    s := s.(file := aof.file, buf := aof.buf, selected := None, state := Off);
  }

  lemma OneWord()
    ensures Written(None, 0, ["FLUSHALL"], 0) == Some([Select(0), ["FLUSHALL"]])
    ensures EncodeAll([Select(0), ["FLUSHALL"]]) == FLUSHALL_IN_0
  {
    hide Encode, EncodeAll, Select;
    assert [Select(0)] + [["FLUSHALL"]] == [Select(0), ["FLUSHALL"]];
    EncodeConcat([Select(0)], [["FLUSHALL"]]);
    EncodeSelectZero();
    EncodeOne(["FLUSHALL"]);
    EncodeFlushAll();
  }

  lemma EncodeSelectZero()
    ensures EncodeAll([Select(0)]) == "*2\r\n$6\r\nSELECT\r\n$1\r\n0\r\n"
  {
    assert IntToString(0) == "0" && NatToString(1) == "1";
    hide EncodeAll, Select, IntToString, NatToString;
    EncodeSelect(0);
  }

  lemma EncodeFlushAll()
    ensures Encode(["FLUSHALL"]) == FLUSHALL
  {
    assert NatToString(1) == "1" && NatToString(8) == "8";
    hide NatToString;
    assert Bulks(["FLUSHALL"]) == Bulk("FLUSHALL");
    assert "*" + "1" + CRLF == "*1\r\n";
    assert Bulk("FLUSHALL") == "$8\r\nFLUSHALL\r\n";
  }

  lemma NoRoom()
    ensures Room([Error]) == 0
  {
  }

  // A rewrite finishes while the file is off: the file is another one, the size recorded
  // for it is not changed.
  method RewrittenWhileOff() returns (aof: Aof, ghost s: Sys)
    ensures fresh(aof) && aof.Valid() && aof.Implements(s) && Conserved(s)
    ensures aof.state.Off? && aof.policy.EverySecond? && !aof.childRunning
    ensures aof.file == FLUSHALL && aof.buf == FLUSHALL_IN_0 && aof.currentSize == 0
  {
    aof, s := FailedStop();
    var ok := aof.RewriteAppendOnlyFileBackground(false, true, true, s, FLUSHALL);
    s := Forked(s, FLUSHALL);
    var done := aof.BackgroundRewriteDoneHandler(true, false, false, FLUSHALL, true, [], true, true, s);
    s := Switched(s);
  }

  /** The file is switched on again, and before the new rewrite is finished a flush writes one
      byte only: cutting the file at the recorded size, 0, takes all of it away. The state
      before the flush is returned, and file and aof_buf after it. */
  method StaleSizeExample(answers: seq<Wrote>) returns (state: AofState, size: nat, file: Bytes, buf: Bytes,
                                                        fileAfter: Bytes, bufAfter: Bytes)
    requires answers == [Wrote(1), Error]
    ensures state.WaitRewrite? && size == 0 && file == FLUSHALL && buf == FLUSHALL_IN_0
    ensures fileAfter == "" && bufAfter == buf
  {
    hide Room;
    var aof;
    ghost var s;
    aof, s := RewrittenWhileOff();
    var ok := aof.StartAppendOnly(true, false, true, true, 2, s, "");
    s := Forked(Cleanup(s), "").(state := WaitRewrite);
    state, size, file, buf := aof.state, aof.currentSize, aof.file, aof.buf;
    OneByte();
    var exited := aof.FlushAppendOnlyFile(true, 3, false, true, answers, true, s);
    fileAfter, bufAfter := aof.file, aof.buf;
  }

  lemma OneByte()
    ensures Room([Wrote(1), Error]) == 1
  {
    assert [Wrote(1), Error][1..] == [Error];
    NoRoom();
  }

  // -------------------------------------------------------------------- the child

  class RewriteChild {
    var diff: Bytes
    var pipe: Bytes

    constructor ()
      ensures diff == "" && pipe == ""
    {
      diff, pipe := "", "";
    }

    /** Reads what the parent sent. A read of a pipe that is not empty gives at least one
        byte unless a signal interrupts it; without interruptions the pipe ends empty. */
    method AofReadDiffFromParent(sizes: seq<nat>) returns (total: nat)
      modifies this
      ensures total <= |old(pipe)| && diff == old(diff) + old(pipe)[..total] && pipe == old(pipe)[total..]
      ensures |sizes| >= |old(pipe)| && (forall i | 0 <= i < |sizes| :: sizes[i] > 0) ==> pipe == ""
    {
      ghost var was, all := diff, pipe;
      var i := 0;
      total := 0;
      while pipe != "" && i < |sizes| && sizes[i] > 0
        invariant i <= |sizes| && total <= |all|
        invariant diff == was + all[..total] && pipe == all[total..]
        invariant (forall j | 0 <= j < |sizes| :: sizes[j] > 0) ==> total >= i
        decreases |sizes| - i
      {
        var n := Min(Min(sizes[i], PIPE_READ), |pipe|);
        assert all[..total] + all[total..][..n] == all[..total + n];
        assert all[total..][n..] == all[total + n..];
        diff, pipe := diff + pipe[..n], pipe[n..];
        total, i := total + n, i + 1;
      }
    }
  }
}
