/** Background rewrite of the append only file: the parent keeps serving commands, and
    what it feeds meanwhile reaches the new file through a rewrite buffer, a pipe and
    the child, with a stop request and its acknowledgement at the end. Transactions are fed
    as MULTI, their commands and EXEC, and anything may happen between these. */
module AofRewrite {
  import opened Wrappers
  import opened Decimal
  import opened Strings
  import opened AofCodec
  import opened AofFeed

  datatype AofState = Off | On | WaitRewrite

  // While the state is WaitRewrite the file is not relied upon, and a flush may do
  // anything to it (see AofProcess.Aof.FlushAppendOnlyFile).

  // Copying: writing the dataset, reading diffs now and then. Asked: '!' was sent.
  // Acked: the answer was read. Done: the temporary file is complete.
  datatype Phase = Copying | Asked | Acked | Done | Failed

  // base is the rewritten dataset, diff what was read from the parent so far.
  datatype Child = Child(phase: Phase, base: Bytes, diff: Bytes)

  // file is the append only file; buf and rewrite are aof_buf and the rewrite buffer;
  // pipe, ask and ack are what travels between the processes. multi: MULTI was emitted and
  // EXEC not yet. fed records, for the statements only, what was fed since the fork.
  datatype Sys = Sys(
    live: map<nat, Keyspace>,
    selected: Option<nat>,
    state: AofState,
    file: Bytes,
    buf: Bytes,
    rewrite: Bytes,
    stop: bool,
    pipe: Bytes,
    ask: bool,
    ack: bool,
    child: Option<Child>,
    fed: Bytes,
    multi: bool)

  datatype Event =
    | Execute(db: nat, argv: Argv, now: int)
    | Multi(db: nat)
    | Exec(db: nat, argv: Argv)
    | Flush(n: nat)
    | FlushWaiting(file: Bytes, buf: Bytes)
    | Fork(snapshot: seq<Argv>)
    | SendDiff(n: nat)
    | ReadDiff(n: nat)
    | AskToStop
    | AnswerStop(sent: bool)
    | ReadAnswer
    | Finish(n: nat)
    | Fail
    | Complete(ok: bool)
    | Enable
    | Disable

  // ------------------------------------------------------------------ transitions

  // What a command does to the data and writes; nothing is written while the file is off.
  function Fed(s: Sys, db: nat, argv: Argv, now: int, other: Effects): Option<Live> {
    if s.state.Off? then
      var r := Run(Db(s.live, db), argv, now, false, other);
      Some(Live(if r.Some? then s.live[db := r.value.data] else s.live, s.selected, []))
    else
      Feed(Live(s.live, s.selected, []), db, argv, now, other)
  }

  // MULTI or EXEC: it changes no data.
  function Control(s: Sys, db: nat, argv: Argv): Live {
    if s.state.Off? then Live(s.live, s.selected, [])
    else Live(s.live, Some(db), (if s.selected == Some(db) then [] else [Select(db)]) + [argv])
  }

  // One command: what it writes goes to aof_buf if the file is in use, and to the
  // rewrite buffer if a child is at work.
  function Executed(s: Sys, l: Live): Sys {
    var bytes := EncodeAll(l.written);
    s.(live := l.dbs, selected := l.selected,
       buf := if s.state.On? then s.buf + bytes else s.buf,
       rewrite := if s.child.Some? then s.rewrite + bytes else s.rewrite,
       fed := if s.child.Some? then s.fed + bytes else s.fed)
  }

  // The buffers, pipes and temporary file of a rewrite are discarded.
  function Cleanup(s: Sys): Sys {
    s.(rewrite := "", pipe := "", ask := false, ack := false, child := None, fed := "")
  }

  function NewFile(s: Sys): Bytes
    requires s.child.Some?
  {
    s.child.value.base + s.child.value.diff + s.rewrite
  }

  function Switched(s: Sys): Sys
    requires s.child.Some?
  {
    Cleanup(s).(
      file := NewFile(s),
      buf := if s.state.Off? then s.buf else "",
      selected := if s.state.Off? then s.selected else None,
      state := if s.state.WaitRewrite? then On else s.state)
  }

  function Flushed(s: Sys, n: nat): Sys
    requires n <= |s.buf|
  {
    s.(file := s.file + s.buf[..n], buf := s.buf[n..])
  }

  function Forked(s: Sys, base: Bytes): Sys {
    s.(child := Some(Child(Copying, base, "")), selected := None, stop := false,
       rewrite := "", pipe := "", ask := false, ack := false, fed := "")
  }

  function Sent(s: Sys, n: nat): Sys
    requires n <= |s.rewrite|
  {
    s.(pipe := s.pipe + s.rewrite[..n], rewrite := s.rewrite[n..])
  }

  function Answered(s: Sys, sent: bool): Sys { s.(stop := true, ask := false, ack := sent) }

  function Disabled(s: Sys): Sys { Cleanup(s.(state := Off, selected := None)) }

  ghost predicate Enabled(s: Sys, ev: Event, other: Effects) {
    match ev
    case Execute(db, argv, now) => Fed(s, db, argv, now, other).Some?
    case Multi(_) => !s.multi
    case Exec(_, argv) => |argv| == 1 && IsExec(argv)
    case Flush(n) => s.state.On? && n <= |s.buf|
    case FlushWaiting(_, _) => !s.state.On?
    case Fork(_) => s.child.None?
    case SendDiff(n) => s.child.Some? && !s.stop && n <= |s.rewrite|
    case ReadDiff(n) => s.child.Some? && s.child.value.phase.Copying? && n <= |s.pipe|
    case AskToStop => s.child.Some? && s.child.value.phase.Copying?
    case AnswerStop(_) => s.child.Some? && s.ask
    case ReadAnswer => s.child.Some? && s.child.value.phase.Asked? && s.ack
    case Finish(n) => s.child.Some? && s.child.value.phase.Acked? && n <= |s.pipe|
    case Fail => s.child.Some?
    case Complete(ok) => s.child.Some? && (ok ==> s.child.value.phase.Done?)
    case Enable => s.state.Off? && s.child.None?
    case Disable => !s.state.Off?
  }

  ghost function Apply(s: Sys, ev: Event, other: Effects): Sys
    requires Enabled(s, ev, other)
  {
    match ev
    case Execute(db, argv, now) => Executed(s, Fed(s, db, argv, now, other).value)
    case Multi(db) => Executed(s, Control(s, db, ["MULTI"])).(multi := true)
    case Exec(db, argv) => Executed(s, Control(s, db, argv)).(multi := false)
    case Flush(n) => Flushed(s, n)
    case FlushWaiting(file, buf) => s.(file := file, buf := buf)
    case Fork(snapshot) => Forked(s, EncodeAll(snapshot))
    case SendDiff(n) => Sent(s, n)
    case ReadDiff(n) => Read(s, n)
    case AskToStop => s.(child := Some(s.child.value.(phase := Asked)), ask := true)
    case AnswerStop(sent) => Answered(s, sent)
    case ReadAnswer => s.(child := Some(s.child.value.(phase := Acked)), ack := false)
    case Finish(n) => var r := Read(s, n); r.(child := Some(r.child.value.(phase := Done)))
    case Fail => s.(child := Some(s.child.value.(phase := Failed)))
    case Complete(ok) => if ok then Switched(s) else Cleanup(s)
    case Enable => s.(state := WaitRewrite)
    case Disable => Disabled(s)
  }

  function Read(s: Sys, n: nat): Sys
    requires s.child.Some? && n <= |s.pipe|
  {
    s.(child := Some(s.child.value.(diff := s.child.value.diff + s.pipe[..n])), pipe := s.pipe[n..])
  }

  ghost predicate Init(s: Sys) {
    && s.live == map[] && s.selected.None? && s.file == "" && s.buf == ""
    && s.rewrite == "" && s.pipe == "" && !s.ask && !s.ack && s.child.None? && s.fed == "" && !s.multi
  }

  ghost predicate IsRun(trace: seq<Sys>, evs: seq<Event>, other: Effects) {
    && |trace| == |evs| + 1
    && Init(trace[0])
    && forall i | 0 <= i < |evs| ::
         Enabled(trace[i], evs[i], other) && trace[i + 1] == Apply(trace[i], evs[i], other)
  }

  // ----------------------------------------------------------------- conservation

  /** Nothing fed since the fork is lost, duplicated or reordered: it is what the child
      read, then what is in the pipe, then what is still in the rewrite buffer. Once
      the parent answered the stop request it sends no more. */
  ghost predicate Conserved(s: Sys) {
    && (s.child.Some? ==> s.fed == s.child.value.diff + s.pipe + s.rewrite)
    && (s.ack ==> s.stop)
    && (s.child.Some? && (s.child.value.phase.Acked? || s.child.value.phase.Done?) ==> s.stop)
    && (s.child.None? ==> s.rewrite == "" && s.fed == "")
  }

  lemma StepKeepsConserved(s: Sys, ev: Event, other: Effects)
    requires Conserved(s) && Enabled(s, ev, other)
    ensures Conserved(Apply(s, ev, other))
  {
    hide Fed, EncodeAll, Executed, Read, Switched, Cleanup, Control, IsExec;
    match ev
    case Execute(db, argv, now) => ExecutedKeepsConserved(s, Fed(s, db, argv, now, other).value);
    case Multi(db) => ExecutedKeepsConserved(s, Control(s, db, ["MULTI"]));
    case Exec(db, argv) => ExecutedKeepsConserved(s, Control(s, db, argv));
    case SendDiff(n) => SendKeepsConserved(s, n);
    case ReadDiff(n) => ReadKeepsConserved(s, n);
    case Finish(n) => ReadKeepsConserved(s, n);
    case Complete(ok) => CleanupIsConserved(s);
    case Disable => CleanupIsConserved(s.(state := Off, selected := None));
    case _ =>
  }

  lemma CleanupIsConserved(s: Sys)
    ensures Conserved(Cleanup(s)) && (s.child.Some? ==> Conserved(Switched(s)))
  {
    hide NewFile;
  }

  lemma SendKeepsConserved(s: Sys, n: nat)
    requires Conserved(s) && s.child.Some? && n <= |s.rewrite|
    ensures Conserved(Sent(s, n))
  {
    var diff, front, rest := s.child.value.diff, s.rewrite[..n], s.rewrite[n..];
    assert s.rewrite == front + rest;
    assert diff + s.pipe + (front + rest) == diff + (s.pipe + front) + rest;
  }

  lemma ReadKeepsConserved(s: Sys, n: nat)
    requires Conserved(s) && s.child.Some? && n <= |s.pipe|
    ensures
      var r := Read(s, n);
      Conserved(r) && r.child.Some? && r == s.(child := r.child, pipe := r.pipe)
      && r.child.value.phase == s.child.value.phase
  {
    var diff, front, rest := s.child.value.diff, s.pipe[..n], s.pipe[n..];
    assert s.pipe == front + rest;
    assert diff + (front + rest) + s.rewrite == diff + front + rest + s.rewrite;
  }

  lemma ExecutedKeepsConserved(s: Sys, l: Live)
    requires Conserved(s)
    ensures Conserved(Executed(s, l)) && Conserved(Executed(s, l).(multi := true)) && Conserved(Executed(s, l).(multi := false))
  {
    hide EncodeAll;
    if s.child.Some? {
      var front := s.child.value.diff + s.pipe;
      assert front + s.rewrite + EncodeAll(l.written) == front + (s.rewrite + EncodeAll(l.written));
    }
  }

  lemma {:induction false} RunIsConserved(trace: seq<Sys>, evs: seq<Event>, other: Effects, i: nat)
    requires IsRun(trace, evs, other) && i < |trace|
    ensures Conserved(trace[i])
  {
    if i > 0 {
      RunIsConserved(trace, evs, other, i - 1);
      StepKeepsConserved(trace[i - 1], evs[i - 1], other);
    }
  }

  /** When a rewrite completes, for every interleaving of feeds, partial pipe writes,
      reads and the stop exchange: the new file is the snapshot of the fork followed by
      exactly the bytes fed since the fork, if and only if the last read of the child
      left nothing in the pipe. */
  lemma RewriteIsExactIff(trace: seq<Sys>, evs: seq<Event>, other: Effects, i: nat)
    requires IsRun(trace, evs, other) && i < |evs| && evs[i] == Complete(true)
    ensures
      var s := trace[i];
      && s.child.Some? && trace[i + 1].file == NewFile(s)
      && (trace[i + 1].file == s.child.value.base + s.fed <==> s.pipe == "")
  {
    RunIsConserved(trace, evs, other, i);
    var s := trace[i];
    var c := s.child.value;
    if s.pipe == "" {
      assert c.diff + s.pipe + s.rewrite == c.diff + s.rewrite;
      assert c.base + c.diff + s.rewrite == c.base + (c.diff + s.rewrite);
    } else {
      assert |c.base + s.fed| > |NewFile(s)|;
    }
  }

  // ------------------------------------------------------------ the file is the data

  // The commands a rewrite may be asked to write for the present data.
  ghost predicate IsSnapshot(s: Sys, cmds: seq<Argv>, other: Effects) {
    && Plain(cmds)
    && forall clock :: SameData(LoadAll(Server(map[], 0), cmds, clock, other).dbs, s.live)
  }

  // Commands the encoder can hold and the loader runs at once.
  ghost predicate Plain(cmds: seq<Argv>) { AllStorable(cmds) && NoTransactions(cmds) }

  // Running everything read, the open transaction included, gives the live data; unless
  // SELECT is due, in the same database.
  ghost predicate Gives(c: Client, live: map<nat, Keyspace>, selected: Option<nat>, other: Effects) {
    forall clock :: InStep(LoadAll(Server(map[], 0), Effective(c), clock, other), Live(live, selected, []))
  }

  ghost predicate LoadsTo(cmds: seq<Argv>, live: map<nat, Keyspace>, selected: Option<nat>, multi: bool, other: Effects) {
    var c := RunFrom(FRESH_CLIENT, cmds);
    AllStorable(cmds) && (c.multi ==> multi) && Gives(c, live, selected, other)
  }

  ghost predicate Represents(bytes: Bytes, live: map<nat, Keyspace>, selected: Option<nat>, multi: bool, other: Effects) {
    exists cmds :: EncodeAll(cmds) == bytes && LoadsTo(cmds, live, selected, multi, other)
  }

  ghost predicate Faithful(s: Sys, other: Effects) {
    && (s.state.On? ==> Represents(s.file + s.buf, s.live, s.selected, s.multi, other))
    && (s.child.Some? && !s.state.Off? ==>
          Represents(s.child.value.base + s.fed, s.live, s.selected, s.multi, other))
    && (s.child.Some? && s.child.value.phase.Done? ==> s.pipe == "")
  }

  const DB_LIMIT: nat := 0x8000_0000      // int dictid

  /** What the statement about the data asks of a step, besides that the machine can take it:
      what is written while the file is not off loses no expire and is no MULTI or EXEC under
      another name, snapshots recreate the data, and the last read of a child drains the pipe. */
  ghost predicate Usual(s: Sys, ev: Event, other: Effects)
    requires Enabled(s, ev, other)
  {
    match ev
    case Execute(db, argv, now) =>
      s.state.Off? || (!LosesTtl(Db(s.live, db), argv) && Plain(Fed(s, db, argv, now, other).value.written))
    case Multi(db) => db < DB_LIMIT
    case Exec(db, _) => db < DB_LIMIT
    case Fork(snapshot) => s.state.Off? || IsSnapshot(s, snapshot, other)
    case Finish(n) => n == |s.pipe|
    case _ => true
  }

  ghost predicate UsualRun(trace: seq<Sys>, evs: seq<Event>, other: Effects)
    requires IsRun(trace, evs, other)
  {
    forall i | 0 <= i < |evs| :: Usual(trace[i], evs[i], other)
  }

  lemma {:induction false} EncodeConcat(a: seq<Argv>, b: seq<Argv>)
    ensures EncodeAll(a + b) == EncodeAll(a) + EncodeAll(b)
    decreases |a|
  {
    hide Encode;
    if a == [] {
      assert a + b == b;
    } else {
      assert (a + b)[1..] == a[1..] + b;
      EncodeConcat(a[1..], b);
    }
  }

  lemma AllStorableConcat(a: seq<Argv>, b: seq<Argv>)
    requires AllStorable(a) && AllStorable(b)
    ensures AllStorable(a + b)
  {
    hide Storable;
  }

  // A command more, whether it is executed at once or queued.
  lemma GivesFed(c: Client, d: Client, live: map<nat, Keyspace>, selected: Option<nat>,
                 db: nat, argv: Argv, now: int, other: Effects)
    requires Gives(c, live, selected, other) && !LosesTtl(Db(live, db), argv)
    requires Feed(Live(live, selected, []), db, argv, now, other).Some?
    requires Effective(d) == Effective(c) + Feed(Live(live, selected, []), db, argv, now, other).value.written
    ensures
      var l := Feed(Live(live, selected, []), db, argv, now, other).value;
      Gives(d, l.dbs, l.selected, other)
  {
    hide Feed, LosesTtl, LoadAll, Effective;
    var l := Feed(Live(live, selected, []), db, argv, now, other).value;
    forall clock
      ensures InStep(LoadAll(Server(map[], 0), Effective(d), clock, other), Live(l.dbs, l.selected, []))
    {
      var s := LoadAll(Server(map[], 0), Effective(c), clock, other);
      FeedInStep(s, Live(live, selected, []), db, argv, now, clock, other);
      assert l.written[0..] == l.written;
      LoadConcat(Server(map[], 0), Effective(c), l.written, clock, other);
    }
  }

  // The SELECT before a command, if one is due.
  function SelectFor(selected: Option<nat>, db: nat): seq<Argv> {
    if selected == Some(db) then [] else [Select(db)]
  }

  lemma GivesSelected(c: Client, d: Client, live: map<nat, Keyspace>, selected: Option<nat>, db: nat, other: Effects)
    requires Gives(c, live, selected, other) && Effective(d) == Effective(c) + SelectFor(selected, db)
    ensures Gives(d, live, Some(db), other)
  {
    hide LoadAll, Effective;
    var l := Live(live, selected, []);
    forall clock
      ensures InStep(LoadAll(Server(map[], 0), Effective(d), clock, other), Live(live, Some(db), []))
    {
      var s := LoadAll(Server(map[], 0), Effective(c), clock, other);
      assert InStep(s, l);
      LoadConcat(Server(map[], 0), Effective(c), SelectFor(selected, db), clock, other);
      SelectInStep(s, l, db, clock, other);
    }
  }

  lemma SelectIsPlain(selected: Option<nat>, db: nat)
    requires db < DB_LIMIT
    ensures NoTransactions(SelectFor(selected, db)) && AllStorable(SelectFor(selected, db))
  {
    hide NatToString;
    assert LowerAll("SELECT") == "select";
    assert Pow10(10) == 10_000_000_000;
    LengthBound(db, 10);
  }

  // One more command extends a faithful log.
  lemma RepresentsMore(bytes: Bytes, live: map<nat, Keyspace>, selected: Option<nat>, multi: bool,
                       db: nat, argv: Argv, now: int, other: Effects)
    requires Represents(bytes, live, selected, multi, other)
    requires !LosesTtl(Db(live, db), argv)
    requires
      var l := Feed(Live(live, selected, []), db, argv, now, other);
      l.Some? && Plain(l.value.written)
    ensures
      var l := Feed(Live(live, selected, []), db, argv, now, other).value;
      Represents(bytes + EncodeAll(l.written), l.dbs, l.selected, multi, other)
  {
    hide Feed, LosesTtl, EncodeAll, Gives, Effective, AllStorable;
    var l := Feed(Live(live, selected, []), db, argv, now, other).value;
    var cmds :| EncodeAll(cmds) == bytes && LoadsTo(cmds, live, selected, multi, other);
    var c := RunFrom(FRESH_CLIENT, cmds);
    EncodeConcat(cmds, l.written);
    AllStorableConcat(cmds, l.written);
    RunWellQueued(FRESH_CLIENT, cmds);
    RunConcat(FRESH_CLIENT, cmds, l.written);
    RunPlainMore(c, l.written);
    GivesFed(c, RunFrom(c, l.written), live, selected, db, argv, now, other);
    assert LoadsTo(cmds + l.written, l.dbs, l.selected, multi, other);
  }

  // MULTI, outside any transaction, and EXEC extend a faithful log, too.
  lemma RepresentsControl(bytes: Bytes, live: map<nat, Keyspace>, selected: Option<nat>, multi: bool,
                          db: nat, argv: Argv, other: Effects)
    requires Represents(bytes, live, selected, multi, other) && db < DB_LIMIT
    requires (argv == ["MULTI"] && !multi) || (|argv| == 1 && IsExec(argv))
    ensures
      var w := SelectFor(selected, db) + [argv];
      Represents(bytes + EncodeAll(w), live, Some(db), argv == ["MULTI"], other)
  {
    hide EncodeAll, Gives, AllStorable, SelectFor, IsMulti, IsExec;
    var select := SelectFor(selected, db);
    var w := select + [argv];
    var cmds :| EncodeAll(cmds) == bytes && LoadsTo(cmds, live, selected, multi, other);
    var c := RunFrom(FRESH_CLIENT, cmds);
    EncodeConcat(cmds, w);
    SelectIsPlain(selected, db);
    ControlStorable(argv);
    AllStorableConcat(select, [argv]);
    AllStorableConcat(cmds, w);
    RunWellQueued(FRESH_CLIENT, cmds);
    RunConcat(FRESH_CLIENT, cmds, w);
    RunConcat(c, select, [argv]);
    RunPlainMore(c, select);
    ControlRuns(RunFrom(c, select), argv);
    GivesSelected(c, RunFrom(c, w), live, selected, db, other);
    assert LoadsTo(cmds + w, live, Some(db), argv == ["MULTI"], other);
  }

  lemma ControlRuns(c: Client, argv: Argv)
    requires (argv == ["MULTI"] && !c.multi) || (|argv| == 1 && IsExec(argv))
    ensures
      var r := RunFrom(c, [argv]);
      Effective(r) == Effective(c) && r.multi == (argv == ["MULTI"])
  {
    MultiIs();
    RunOne(c, argv);
  }

  lemma ControlStorable(argv: Argv)
    requires argv == ["MULTI"] || (|argv| == 1 && IsExec(argv))
    ensures AllStorable([argv])
  {
    assert |argv[0]| == |LowerAll(argv[0])|;
  }

  // Forcing SELECT to be issued again keeps a log faithful.
  lemma RepresentsForget(bytes: Bytes, live: map<nat, Keyspace>, selected: Option<nat>, multi: bool, other: Effects)
    requires Represents(bytes, live, selected, multi, other)
    ensures Represents(bytes, live, None, multi, other)
  {
    hide LoadAll, EncodeAll, AllStorable;
    var cmds :| EncodeAll(cmds) == bytes && LoadsTo(cmds, live, selected, multi, other);
    var e := Effective(RunFrom(FRESH_CLIENT, cmds));
    forall clock
      ensures InStep(LoadAll(Server(map[], 0), e, clock, other), Live(live, None, []))
    {
      assert InStep(LoadAll(Server(map[], 0), e, clock, other), Live(live, selected, []));
    }
    assert LoadsTo(cmds, live, None, multi, other);
  }

  // A fork may come between MULTI and EXEC: the new log has no open transaction then.
  lemma SnapshotRepresents(s: Sys, cmds: seq<Argv>, other: Effects)
    requires IsSnapshot(s, cmds, other)
    ensures Represents(EncodeAll(cmds) + "", s.live, None, s.multi, other)
  {
    hide LoadAll, EncodeAll, AllStorable;
    assert EncodeAll(cmds) + "" == EncodeAll(cmds);
    RunPlain(FRESH_CLIENT, cmds);
    assert Effective(RunFrom(FRESH_CLIENT, cmds)) == cmds;
    assert LoadsTo(cmds, s.live, None, s.multi, other);
  }

  lemma ExecuteKeepsFaithful(s: Sys, db: nat, argv: Argv, now: int, other: Effects)
    requires Faithful(s, other) && Enabled(s, Execute(db, argv, now), other) && Usual(s, Execute(db, argv, now), other)
    ensures Faithful(Executed(s, Fed(s, db, argv, now, other).value), other)
  {
    hide Feed, LosesTtl, EncodeAll, Represents, Plain;
    var l := Fed(s, db, argv, now, other).value;
    if s.state.On? {
      RepresentsMore(s.file + s.buf, s.live, s.selected, s.multi, db, argv, now, other);
      assert s.file + s.buf + EncodeAll(l.written) == s.file + (s.buf + EncodeAll(l.written));
    }
    if s.child.Some? && !s.state.Off? {
      var base := s.child.value.base;
      RepresentsMore(base + s.fed, s.live, s.selected, s.multi, db, argv, now, other);
      assert base + s.fed + EncodeAll(l.written) == base + (s.fed + EncodeAll(l.written));
    }
  }

  lemma ControlKeepsFaithful(s: Sys, db: nat, argv: Argv, other: Effects)
    requires Faithful(s, other) && db < DB_LIMIT
    requires (argv == ["MULTI"] && !s.multi) || (|argv| == 1 && IsExec(argv))
    ensures Faithful(Executed(s, Control(s, db, argv)).(multi := argv == ["MULTI"]), other)
  {
    hide EncodeAll, Represents, IsExec;
    var w := Control(s, db, argv).written;
    if s.state.On? {
      RepresentsControl(s.file + s.buf, s.live, s.selected, s.multi, db, argv, other);
      assert s.file + s.buf + EncodeAll(w) == s.file + (s.buf + EncodeAll(w));
    }
    if s.child.Some? && !s.state.Off? {
      var base := s.child.value.base;
      RepresentsControl(base + s.fed, s.live, s.selected, s.multi, db, argv, other);
      assert base + s.fed + EncodeAll(w) == base + (s.fed + EncodeAll(w));
    }
  }

  lemma CompleteKeepsFaithful(s: Sys, other: Effects)
    requires Faithful(s, other) && Conserved(s) && Enabled(s, Complete(true), other)
    ensures Faithful(Switched(s), other)
  {
    hide Represents;
    var c := s.child.value;
    assert c.diff + s.pipe + s.rewrite == c.diff + s.rewrite;
    assert NewFile(s) == c.base + s.fed;
    if !s.state.Off? { RepresentsForget(c.base + s.fed, s.live, s.selected, s.multi, other); }
    assert NewFile(s) + "" == NewFile(s);
  }

  lemma StepKeepsFaithful(s: Sys, ev: Event, other: Effects)
    requires Faithful(s, other) && Conserved(s) && Enabled(s, ev, other) && Usual(s, ev, other)
    ensures Faithful(Apply(s, ev, other), other)
  {
    hide Fed, Executed, EncodeAll, Represents, IsSnapshot, LosesTtl, Plain, Switched, Control, IsExec;
    match ev
    case Execute(db, argv, now) => ExecuteKeepsFaithful(s, db, argv, now, other);
    case Multi(db) => ControlKeepsFaithful(s, db, ["MULTI"], other);
    case Exec(db, argv) =>
      ExecIsNotMulti(argv);
      ControlKeepsFaithful(s, db, argv, other);
    case Flush(n) => assert s.file + s.buf[..n] + s.buf[n..] == s.file + s.buf;
    case Fork(snapshot) =>
      if !s.state.Off? { SnapshotRepresents(s, snapshot, other); }
      if s.state.On? { RepresentsForget(s.file + s.buf, s.live, s.selected, s.multi, other); }
    case Complete(ok) => if ok { CompleteKeepsFaithful(s, other); }
    case _ =>
  }

  lemma ExecIsNotMulti(argv: Argv)
    requires IsExec(argv)
    ensures argv != ["MULTI"]
  {
    MultiIs();
  }

  lemma {:induction false} RunIsFaithful(trace: seq<Sys>, evs: seq<Event>, other: Effects, i: nat)
    requires IsRun(trace, evs, other) && UsualRun(trace, evs, other) && i < |trace|
    ensures Faithful(trace[i], other)
  {
    hide Apply, Enabled, Faithful, Conserved, Usual;
    if i == 0 {
      EmptyIsFaithful(trace[0], other);
    } else {
      RunIsFaithful(trace, evs, other, i - 1);
      RunIsConserved(trace, evs, other, i - 1);
      StepKeepsFaithful(trace[i - 1], evs[i - 1], other);
    }
  }

  lemma EmptyIsFaithful(s: Sys, other: Effects)
    requires Init(s)
    ensures Faithful(s, other)
  {
    var none: seq<Argv> := [];
    assert EncodeAll(none) == s.file + s.buf;
    assert RunFrom(FRESH_CLIENT, none) == FRESH_CLIENT && Effective(FRESH_CLIENT) == none;
    forall clock
      ensures LoadAll(Server(map[], 0), none, clock, other) == Server(map[], 0)
    {
    }
    assert LoadsTo(none, s.live, s.selected, s.multi, other);
  }

  // What is run gives the live keys, values and expires.
  ghost predicate IsLive(s: Sys, cmds: seq<Argv>, other: Effects) {
    forall clock :: SameData(LoadAll(Server(map[], 0), cmds, clock, other).dbs, s.live)
  }

  /** In every run, transactions and rewrites that begin inside them included: whenever the
      append only file is on and no transaction is under way, restarting the server from the
      file and what is still buffered for it gives the live keys, values and expires. In the
      middle of a transaction it does so with what was queued. */
  lemma FileAndBufferAreLiveData(trace: seq<Sys>, evs: seq<Event>, other: Effects, i: nat)
    requires IsRun(trace, evs, other) && UsualRun(trace, evs, other)
    requires i < |trace| && trace[i].state.On?
    ensures
      var s := trace[i];
      exists c: Client ::
        && IsLive(s, c.executed + c.queued, other) && (c.multi ==> s.multi) && (!c.multi ==> c.queued == [])
        && var r := LoadFrom(s.file + s.buf, 0, FRESH_CLIENT, 0);
           if c.multi then r.Truncated? && r.client == c else r == Loaded(c)
  {
    hide IsRun, EncodeAll, LoadAll, LoadFrom, UsualRun, Gives, AllStorable;
    RunIsFaithful(trace, evs, other, i);
    var s := trace[i];
    var cmds :| EncodeAll(cmds) == s.file + s.buf && LoadsTo(cmds, s.live, s.selected, s.multi, other);
    LoadOfWholeFile(cmds);
    RunWellQueued(FRESH_CLIENT, cmds);
    GivesLive(RunFrom(FRESH_CLIENT, cmds), s, other);
  }

  lemma GivesLive(c: Client, s: Sys, other: Effects)
    requires Gives(c, s.live, s.selected, other)
    ensures IsLive(s, c.executed + c.queued, other)
  {
    hide LoadAll;
    forall clock
      ensures SameData(LoadAll(Server(map[], 0), c.executed + c.queued, clock, other).dbs, s.live)
    {
      assert InStep(LoadAll(Server(map[], 0), Effective(c), clock, other), Live(s.live, s.selected, []));
    }
  }
}
