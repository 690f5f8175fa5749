/** The course of one rewrite: what its steps do, that an undisturbed one comes to its end, and
    what is left when one fails. */
module RewriteCourse {
  import opened Wrappers
  import opened Decimal
  import opened AofCodec
  import opened AofFeed
  import opened AofMeaning
  import opened AofRewrite

  // Only the data and what is fed to the file differ.
  ghost predicate FedOnly(s: Sys, r: Sys) {
    r == s.(live := r.live, selected := r.selected, buf := r.buf, rewrite := r.rewrite, fed := r.fed, multi := r.multi)
  }

  // These bytes were fed: to aof_buf while the file is on, to the rewrite while there is one.
  ghost predicate GotBytes(s: Sys, r: Sys, bytes: Bytes) {
    && r.buf == (if s.state.On? then s.buf + bytes else s.buf)
    && r.rewrite == (if s.child.Some? then s.rewrite + bytes else s.rewrite)
    && r.fed == (if s.child.Some? then s.fed + bytes else s.fed)
  }

  // SELECT, if the file is in another database or in none that is known.
  ghost function Prefix(s: Sys, db: nat): seq<Argv> {
    if s.selected == Some(db) then [] else [["SELECT", IntToString(db)]]
  }

  /** A command changes the data alike whether the file is on or off; if it changed some, and the
      file is not off, what is fed is its translation. */
  lemma ExecuteIs(s: Sys, db: nat, argv: Argv, now: int, other: Effects)
    requires Enabled(s, Execute(db, argv, now), other)
    ensures
      var r, ran := Apply(s, Execute(db, argv, now), other), Run(Db(s.live, db), argv, now, false, other);
      && FedOnly(s, r) && r.multi == s.multi
      && r.live == (if ran.Some? then s.live[db := ran.value.data] else s.live)
      && (s.state.Off? || ran.None? ==> GotBytes(s, r, "") && r.selected == s.selected)
      && (!s.state.Off? && ran.Some? ==>
            && Translate(ran.value.fed, now).Some? && r.selected == Some(db)
            && GotBytes(s, r, EncodeAll(Prefix(s, db) + Translate(ran.value.fed, now).value)))
  {
    hide Run, Translate, IntToString, Encode, EncodeAll;
    SelectIsWritten(Live(s.live, s.selected, []), db, argv, now, other);
    NothingEncoded();
    assert forall b: Bytes :: b + "" == b;
    assert forall a: seq<Argv> :: [] + a == a;
  }

  lemma NothingEncoded()
    ensures EncodeAll([]) == ""
  {
  }

  /** MULTI and EXEC change no data, and are fed unless the file is off. */
  lemma ControlIs(s: Sys, db: nat, exec: Argv, other: Effects)
    requires |exec| == 1 && IsExec(exec)
    ensures
      var e := Apply(s, Exec(db, exec), other);
      && FedOnly(s, e) && e.live == s.live && !e.multi
      && if s.state.Off? then GotBytes(s, e, "") && e.selected == s.selected
         else GotBytes(s, e, EncodeAll(Prefix(s, db) + [exec])) && e.selected == Some(db)
    ensures !s.multi ==>
      var m := Apply(s, Multi(db), other);
      && FedOnly(s, m) && m.live == s.live && m.multi
      && if s.state.Off? then GotBytes(s, m, "") && m.selected == s.selected
         else GotBytes(s, m, EncodeAll(Prefix(s, db) + [["MULTI"]])) && m.selected == Some(db)
  {
    hide IntToString, Encode, EncodeAll, IsExec;
    NothingEncoded();
    assert forall b: Bytes :: b + "" == b;
  }

  // ----------------------------------------------------------------- a rewrite

  // A child has begun, and nothing was said about its end.
  ghost predicate AtWork(s: Sys, base: Bytes) {
    s.child.Some? && s.child.value.phase.Copying? && s.child.value.base == base && !s.stop && !s.ask && !s.ack
  }

  // Nothing of a rewrite is left.
  ghost predicate NoRewrite(s: Sys) {
    s.child.None? && s.rewrite == "" && s.pipe == "" && !s.ask && !s.ack && s.fed == ""
  }

  /** A fork: the child has the data of that moment, nothing was fed to it yet, and SELECT will
      be issued again. */
  lemma ForkIs(s: Sys, snapshot: seq<Argv>, other: Effects)
    requires s.child.None?
    ensures Enabled(s, Fork(snapshot), other)
    ensures
      var r := Apply(s, Fork(snapshot), other);
      && AtWork(r, EncodeAll(snapshot)) && r.child.value.diff == "" && r.rewrite == "" && r.pipe == "" && r.fed == ""
      && r.selected.None? && Conserved(r)
      && r.live == s.live && r.state == s.state && r.file == s.file && r.buf == s.buf && r.multi == s.multi
  {
  }

  // All steps from a state in which the child is at work to the new file.
  ghost predicate Course(t: Sys, s1: Sys, s2: Sys, s3: Sys, s4: Sys, s5: Sys, r: Sys, other: Effects) {
    && Enabled(t, SendDiff(|t.rewrite|), other) && s1 == Apply(t, SendDiff(|t.rewrite|), other)
    && Enabled(s1, AskToStop, other) && s2 == Apply(s1, AskToStop, other)
    && Enabled(s2, AnswerStop(true), other) && s3 == Apply(s2, AnswerStop(true), other)
    && Enabled(s3, ReadAnswer, other) && s4 == Apply(s3, ReadAnswer, other)
    && Enabled(s4, Finish(|s4.pipe|), other) && s5 == Apply(s4, Finish(|s4.pipe|), other)
    && Enabled(s5, Complete(true), other) && r == Apply(s5, Complete(true), other)
  }

  // The child has the answer, and everything fed is on its way.
  ghost predicate Answered4(t: Sys, s3: Sys, s4: Sys, base: Bytes) {
    && t.child.Some? && s4 == t.(rewrite := "", pipe := t.pipe + t.rewrite, stop := true, child := s4.child)
    && s4.child.Some? && s4.child.value == t.child.value.(phase := Acked)
    && s3 == s4.(ack := true, child := s3.child) && s3.child == Some(t.child.value.(phase := Asked))
    && t.child.value.base == base
  }

  lemma StopAgreed(t: Sys, base: Bytes, other: Effects) returns (s1: Sys, s2: Sys, s3: Sys, s4: Sys)
    requires AtWork(t, base)
    ensures Enabled(t, SendDiff(|t.rewrite|), other) && s1 == Apply(t, SendDiff(|t.rewrite|), other)
    ensures Enabled(s1, AskToStop, other) && s2 == Apply(s1, AskToStop, other)
    ensures Enabled(s2, AnswerStop(true), other) && s3 == Apply(s2, AnswerStop(true), other)
    ensures Enabled(s3, ReadAnswer, other) && s4 == Apply(s3, ReadAnswer, other)
    ensures Answered4(t, s3, s4, base)
    ensures forall n :: !Enabled(s3, SendDiff(n), other)
    ensures forall sent :: !Enabled(s3, AnswerStop(sent), other)
    ensures !Enabled(s4, ReadAnswer, other)
  {
    hide Fed, Conserved;
    s1 := Apply(t, SendDiff(|t.rewrite|), other);
    s2 := Apply(s1, AskToStop, other);
    s3 := Apply(s2, AnswerStop(true), other);
    s4 := Apply(s3, ReadAnswer, other);
    assert t.rewrite[..|t.rewrite|] == t.rewrite && t.rewrite[|t.rewrite|..] == "";
  }

  /** Whatever was fed, sent and read so far: the rewrite can be brought to its end, and then the
      file is what the child began with and all that was fed since; it is in use unless it was
      off, aof_buf starts anew with it, and nothing of the rewrite is left. Once the request was
      answered no more is sent, and it is not answered twice. */
  lemma RewriteSucceeds(t: Sys, base: Bytes, other: Effects)
    returns (s1: Sys, s2: Sys, s3: Sys, s4: Sys, s5: Sys, r: Sys)
    requires Conserved(t) && AtWork(t, base)
    ensures Course(t, s1, s2, s3, s4, s5, r, other)
    ensures forall n :: !Enabled(s3, SendDiff(n), other) && !Enabled(s5, SendDiff(n), other)
    ensures forall sent :: !Enabled(s3, AnswerStop(sent), other)
    ensures !Enabled(s4, ReadAnswer, other)
    ensures r.file == base + t.fed && NoRewrite(r) && r.live == t.live && r.multi == t.multi
    ensures if t.state.Off? then r.state == t.state && r.buf == t.buf && r.selected == t.selected
            else r.state.On? && r.buf == "" && r.selected.None?
  {
    hide Enabled, Apply, Conserved, Answered4, NoRewrite;
    s1, s2, s3, s4 := StopAgreed(t, base, other);
    s5, r := Finished(t, s3, s4, base, other);
  }

  lemma Finished(t: Sys, s3: Sys, s4: Sys, base: Bytes, other: Effects) returns (s5: Sys, r: Sys)
    requires Conserved(t) && Answered4(t, s3, s4, base) && !t.ask && !t.ack
    ensures Enabled(s4, Finish(|s4.pipe|), other) && s5 == Apply(s4, Finish(|s4.pipe|), other)
    ensures Enabled(s5, Complete(true), other) && r == Apply(s5, Complete(true), other)
    ensures forall n :: !Enabled(s5, SendDiff(n), other)
    ensures r.file == base + t.fed && NoRewrite(r) && r.live == t.live && r.multi == t.multi
    ensures if t.state.Off? then r.state == t.state && r.buf == t.buf && r.selected == t.selected
            else r.state.On? && r.buf == "" && r.selected.None?
  {
    hide Conserved, Fed;
    s5 := Apply(s4, Finish(|s4.pipe|), other);
    r := Apply(s5, Complete(true), other);
    var diff, pipe, rewrite := t.child.value.diff, t.pipe, t.rewrite;
    FedIs(t);
    assert s4.pipe[..|s4.pipe|] == s4.pipe && s4.pipe[|s4.pipe|..] == "";
    assert base + (diff + (pipe + rewrite)) + "" == base + (diff + pipe + rewrite);
  }

  lemma FedIs(t: Sys)
    requires Conserved(t) && t.child.Some?
    ensures t.fed == t.child.value.diff + t.pipe + t.rewrite
  {
  }

  /** A request that could not be answered leaves the child waiting: the answer was not sent. */
  lemma AnswerIs(s: Sys, sent: bool, other: Effects)
    requires s.child.Some? && s.ask
    ensures Apply(s, AnswerStop(sent), other) == s.(stop := true, ask := false, ack := sent)
  {
  }

  /** A child that fails can do nothing more, and its rewrite not succeed; switching the file on
      waits for a rewrite. */
  lemma FailIs(s: Sys, other: Effects)
    ensures s.child.Some? ==>
      var r := Apply(s, Fail, other);
      && r == s.(child := Some(s.child.value.(phase := Failed)))
      && !Enabled(r, Complete(true), other) && Enabled(r, Complete(false), other) && !Enabled(r, AskToStop, other)
      && forall n :: !Enabled(r, ReadDiff(n), other) && !Enabled(r, Finish(n), other)
    ensures s.state.Off? && s.child.None? ==> Apply(s, Enable, other) == s.(state := WaitRewrite)
  {
  }

  /** A failed rewrite, and one that is killed as the file is switched off, leaves the file and
      what was to be written to it as they were, and nothing of itself. */
  lemma FailureIs(s: Sys, other: Effects)
    ensures s.child.Some? ==>
      var r := Apply(s, Complete(false), other);
      && NoRewrite(r) && r.file == s.file && r.buf == s.buf && r.live == s.live && r.state == s.state
      && r.selected == s.selected && r.multi == s.multi
    ensures !s.state.Off? ==>
      var r := Apply(s, Disable, other);
      && NoRewrite(r) && r.file == s.file && r.buf == s.buf && r.live == s.live && r.state.Off?
      && r.selected.None? && r.multi == s.multi
  {
  }
}
