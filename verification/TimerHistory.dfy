/** The timers of the event loop as values: what callbacks, finalizers and passes over the
    list may do to them, and how such changes add up. */
module TimerHistory {
  import opened Wrappers

  const DELETED: int := -1

  type Millis = ms: nat | ms < 1000

  // What a timer is at some time. uid is the identity of the object; id becomes DELETED
  // when it is to be freed; refs counts the callbacks of it that are running.
  datatype Timer = Timer(uid: nat, id: int, sec: int, ms: Millis, finalizer: bool, refs: nat)

  datatype Time = Time(sec: int, ms: Millis)

  // What a callback does, at the times given, and what it returns: again in so many
  // milliseconds from now on, or not.
  datatype Action =
    | Create(delay: nat, now: Time, finalizer: bool)
    | Delete(id: int)
    | Process(pass: Pass)

  datatype Call = Call(actions: seq<Action>, again: Option<nat>, now: Time)

  // What a finalizer does.
  datatype Final = Final(actions: seq<Action>)

  // times are the readings of the clock, one for each timer looked at; calls and finals is
  // what the callbacks and the finalizers do, in the order they run. clock is the time in
  // seconds at the start.
  datatype Pass = Pass(clock: int, times: seq<Time>, calls: seq<Call>, finals: seq<Final>)

  // How many readings of the clock, callbacks and finalizers a pass has used.
  datatype Counters = Counters(checks: nat, calls: nat, finals: nat)

  // One timer looked at: what it was then, the time then, and whether its callback ran.
  datatype Visit = Visit(timer: Timer, now: Time, ran: bool)

  function After(now: Time, delay: nat): (r: Time)
    ensures 1000 * r.sec + r.ms == 1000 * now.sec + now.ms + delay
  {
    var sec, ms := now.sec + delay / 1000, now.ms + delay % 1000;
    if ms >= 1000 then Time(sec + 1, ms - 1000) else Time(sec, ms)
  }

  predicate Sooner(a: Timer, b: Timer) { 1000 * a.sec + a.ms < 1000 * b.sec + b.ms }

  ghost function Uids(timers: seq<Timer>): seq<nat> { seq(|timers|, i requires 0 <= i < |timers| => timers[i].uid) }

  ghost function Without(s: seq<nat>, gone: set<nat>): seq<nat> {
    if s == [] then [] else (if s[0] in gone then [] else [s[0]]) + Without(s[1..], gone)
  }

  // A list after changes: new objects in front, and of the old ones those not freed, in
  // their order.
  ghost predicate Evolved(was: seq<nat>, front: seq<nat>, gone: set<nat>, now: seq<nat>, from: nat) {
    now == front + Without(was, gone) && forall u | u in front :: u >= from
  }

  lemma NoDupFirst<T>(u: T, s: seq<T>)
    requires NoDup(s) && u !in s
    ensures NoDup([u] + s)
  {
  }

  lemma {:induction false} WithoutFacts(s: seq<nat>, gone: set<nat>)
    ensures forall u :: u in Without(s, gone) <==> u in s && u !in gone
    ensures NoDup(s) ==> NoDup(Without(s, gone))
    ensures |Without(s, gone)| <= |s|
  {
    if s != [] {
      WithoutFacts(s[1..], gone);
      assert s == [s[0]] + s[1..];
      var r := Without(s[1..], gone);
      if NoDup(s) {
        assert NoDup(s[1..]);
        assert s[0] !in s[1..];
        assert s[0] !in r;
        assert NoDup([s[0]] + r);
      }
    }
  }

  lemma {:induction false} WithoutConcat(a: seq<nat>, b: seq<nat>, gone: set<nat>)
    ensures Without(a + b, gone) == Without(a, gone) + Without(b, gone)
  {
    if a == [] {
      assert a + b == b;
    } else {
      assert (a + b)[1..] == a[1..] + b;
      WithoutConcat(a[1..], b, gone);
    }
  }

  lemma {:induction false} WithoutTwice(s: seq<nat>, a: set<nat>, b: set<nat>)
    ensures Without(Without(s, a), b) == Without(s, a + b)
  {
    if s != [] {
      WithoutTwice(s[1..], a, b);
      var x, rest := Without(s, a), Without(s[1..], a);
      if s[0] in a {
        assert x == rest;
      } else {
        assert x == [s[0]] + rest && x[1..] == rest;
      }
    }
  }

  lemma {:induction false} WithoutNothing(s: seq<nat>, gone: set<nat>)
    requires forall u | u in s :: u !in gone
    ensures Without(s, gone) == s
  {
    if s != [] { WithoutNothing(s[1..], gone); }
  }

  lemma EvolvedTwice(s0: seq<nat>, f1: seq<nat>, g1: set<nat>, s1: seq<nat>, from0: nat,
                     f2: seq<nat>, g2: set<nat>, s2: seq<nat>, from1: nat) returns (front: seq<nat>)
    requires Evolved(s0, f1, g1, s1, from0) && Evolved(s1, f2, g2, s2, from1) && from0 <= from1
    ensures front == f2 + Without(f1, g2)
    ensures Evolved(s0, front, g1 + g2, s2, from0)
  {
    front := f2 + Without(f1, g2);
    WithoutConcat(f1, Without(s0, g1), g2);
    WithoutTwice(s0, g1, g2);
    WithoutFacts(f1, g2);
    assert s2 == front + Without(s0, g1 + g2);
  }

  datatype Snapshot = Snapshot(timers: seq<Timer>, created: nat, nextId: nat, finalized: seq<nat>)

  // Some timer had this identity, use count and finalizer.
  ghost predicate Was(timers: seq<Timer>, t: Timer) {
    exists i :: 0 <= i < |timers| && timers[i].uid == t.uid && timers[i].refs == t.refs
      && timers[i].finalizer == t.finalizer && (t.id == timers[i].id || t.id == DELETED)
  }

  // Timers in use stay; the finalizer of a timer runs when it is freed, if it has one.
  ghost predicate FreedRightly(a: Snapshot, gone: set<nat>, b: Snapshot) {
    && a.finalized <= b.finalized
    && (forall i | 0 <= i < |a.timers| && a.timers[i].refs > 0 :: a.timers[i].uid !in gone)
    && (forall i | 0 <= i < |a.timers| && a.timers[i].uid in gone :: a.timers[i].finalizer <==> a.timers[i].uid in b.finalized)
    && (forall u | u in b.finalized && u !in a.finalized && u < a.created :: u in gone)
  }

  /** From a to b, while callbacks ran: front is new, gone was freed. */
  ghost predicate Grown(a: Snapshot, front: seq<nat>, gone: set<nat>, b: Snapshot) {
    && Evolved(Uids(a.timers), front, gone, Uids(b.timers), a.created)
    && a.created <= b.created && a.nextId <= b.nextId
    && (forall u | u in gone :: u in Uids(a.timers) || u >= a.created)
    && (forall i | 0 <= i < |b.timers| && b.timers[i].uid < a.created :: Was(a.timers, b.timers[i]))
    && FreedRightly(a, gone, b)
  }

  // Objects are linked once, are not used again once freed, and are finalized once.
  ghost predicate Right(s: Snapshot) {
    && NoDup(Uids(s.timers)) && (forall u | u in Uids(s.timers) :: u < s.created)
    && NoDup(s.finalized) && (forall u | u in s.finalized :: u < s.created && u !in Uids(s.timers))
    && forall i | 0 <= i < |s.timers| :: s.timers[i].id < s.nextId
  }

  lemma UidAt(timers: seq<Timer>, u: nat)
    requires u in Uids(timers)
    ensures exists i :: 0 <= i < |timers| && timers[i].uid == u
  {
    var i :| 0 <= i < |Uids(timers)| && Uids(timers)[i] == u;
    assert timers[i].uid == u;
  }

  lemma GrownNot(a: Snapshot)
    ensures Grown(a, [], {}, a)
  {
    WithoutNothing(Uids(a.timers), {});
    forall i | 0 <= i < |a.timers| ensures Was(a.timers, a.timers[i]) {}
  }

  lemma WasTwice(a: seq<Timer>, b: seq<Timer>, t: Timer, bound: nat)
    requires Was(b, t) && t.uid < bound && forall i | 0 <= i < |b| && b[i].uid < bound :: Was(a, b[i])
    ensures Was(a, t)
  {
    var i :| 0 <= i < |b| && b[i].uid == t.uid && b[i].refs == t.refs && b[i].finalizer == t.finalizer
      && (t.id == b[i].id || t.id == DELETED);
    assert Was(a, b[i]);
  }

  lemma GrownTwice(a: Snapshot, f1: seq<nat>, g1: set<nat>, b: Snapshot, f2: seq<nat>, g2: set<nat>, c: Snapshot)
    returns (front: seq<nat>)
    requires Right(a) && Right(b) && Grown(a, f1, g1, b) && Grown(b, f2, g2, c)
    ensures Grown(a, front, g1 + g2, c)
  {
    hide Without, Was, FreedRightly;
    front := EvolvedTwice(Uids(a.timers), f1, g1, Uids(b.timers), a.created, f2, g2, Uids(c.timers), b.created);
    WithoutFacts(Uids(a.timers), g1);
    forall i | 0 <= i < |c.timers| && c.timers[i].uid < a.created
      ensures Was(a.timers, c.timers[i])
    {
      WasTwice(a.timers, b.timers, c.timers[i], a.created);
    }
    forall u | u in g1 + g2
      ensures u in Uids(a.timers) || u >= a.created
    {
      if u in g2 && u in Uids(b.timers) {
        assert u in f1 || u in Without(Uids(a.timers), g1);
      }
    }
    FreedTwice(a, f1, g1, b, f2, g2, c);
  }

  // A timer that is not freed is still the same.
  lemma Survives(a: Snapshot, f: seq<nat>, g: set<nat>, b: Snapshot, i: nat) returns (j: nat)
    requires Right(a) && Grown(a, f, g, b) && i < |a.timers| && a.timers[i].uid !in g
    ensures j < |b.timers| && b.timers[j].uid == a.timers[i].uid
    ensures b.timers[j].refs == a.timers[i].refs && b.timers[j].finalizer == a.timers[i].finalizer
  {
    var u := a.timers[i].uid;
    assert Uids(a.timers)[i] == u;
    WithoutFacts(Uids(a.timers), g);
    assert u in Uids(b.timers);
    UidAt(b.timers, u);
    j :| 0 <= j < |b.timers| && b.timers[j].uid == u;
    assert Was(a.timers, b.timers[j]);
    var k :| 0 <= k < |a.timers| && a.timers[k].uid == u && a.timers[k].refs == b.timers[j].refs
      && a.timers[k].finalizer == b.timers[j].finalizer;
    assert Uids(a.timers)[k] == Uids(a.timers)[i];
  }

  lemma StillIn(a: seq<nat>, b: seq<nat>, u: nat)
    requires a <= b
    ensures u in a ==> u in b
  {
    if u in a {
      var k :| 0 <= k < |a| && a[k] == u;
      assert b[k] == u;
    }
  }

  lemma FreedTwice(a: Snapshot, f1: seq<nat>, g1: set<nat>, b: Snapshot, f2: seq<nat>, g2: set<nat>, c: Snapshot)
    requires Right(a) && Right(b) && Grown(a, f1, g1, b) && Grown(b, f2, g2, c)
    ensures FreedRightly(a, g1 + g2, c)
  {
    hide Without, Was;
    WithoutFacts(Uids(a.timers), g1);
    forall i | 0 <= i < |a.timers|
      ensures a.timers[i].refs > 0 ==> a.timers[i].uid !in g1 + g2
      ensures a.timers[i].uid in g1 + g2 ==> (a.timers[i].finalizer <==> a.timers[i].uid in c.finalized)
    {
      var u := a.timers[i].uid;
      assert Uids(a.timers)[i] == u;
      assert u in Uids(a.timers);
      assert u < a.created;
      if u !in g1 {
        var j := Survives(a, f1, g1, b, i);
      } else {
        assert u !in Uids(b.timers);
        StillIn(b.finalized, c.finalized, u);
        assert u < b.created;
        assert u !in g2;
        assert u in c.finalized ==> u in b.finalized;
      }
    }
    forall u | u in c.finalized && u !in a.finalized && u < a.created
      ensures u in g1 + g2
    {
    }
  }

  /** What a pass over some timers comes to. */
  ghost predicate PassDone(pass: Pass, timers: seq<Timer>, visits: seq<Visit>, gone: set<nat>) {
    && NoDup(VisitUids(visits)) && (forall u | u in VisitUids(visits) :: u in Uids(timers))
    && (forall u | u in Uids(timers) :: u in VisitUids(visits) || u in gone)
    && (!Nests(pass) ==> forall u | u in Uids(timers) :: u in VisitUids(visits))
    && RanIfDue(visits)
    && (forall u | Dead(timers, u) :: u in gone)
    && (Quiet(pass) ==> ExactlyDead(timers, gone))
  }

  // A timer before and after its callback: fired again later, or to be freed.
  ghost predicate Called(was: Timer, again: Option<nat>, now: Time, left: Timer) {
    && left.refs == was.refs && (left.id == was.id || left.id == DELETED)
    && match again
       case None => left.id == DELETED
       case Some(delay) => 1000 * left.sec + left.ms == 1000 * now.sec + now.ms + delay
  }

  // What looking at the i-th timer does; the next one is the j-th then.
  ghost predicate Visited(pass: Pass, was: seq<Timer>, i: nat, now: seq<Timer>, j: nat, gone: set<nat>)
    requires i < |was| && j <= |now|
  {
    && (DeadAt(was, i) ==> was[i].uid in gone)
    && (!Nests(pass) ==> gone <= {was[i].uid})
    && (Quiet(pass) ==> now[j..] == was[i + 1..] && (gone == {} || (gone == {was[i].uid} && DeadAt(was, i))))
  }

  // During a pass: dead timers were freed or are to come; in a quiet one nothing else.
  ghost predicate Progress(pass: Pass, start: seq<Timer>, now: seq<Timer>, i: nat, gone: set<nat>)
    requires i <= |now|
  {
    && (forall u | Dead(start, u) :: u in gone || u in Uids(now)[i..])
    && (Quiet(pass) ==> |now| - i <= |start| && now[i..] == start[|start| - (|now| - i)..] && forall u | u in gone :: Dead(start, u))
  }

  // What becomes of looking at the i-th timer, when f finalizers ran before.
  ghost predicate Stepped(pass: Pass, f: nat, was: seq<Timer>, i: nat, ok: bool, now: seq<Timer>, j: nat)
    requires i < |was|
  {
    var finale := if DeadAt(was, i) then Finale(pass, f, was[i].finalizer) else [];
    && (CallsTame(pass) && NoPass(finale) ==> ok)
    && (OnePass(finale) ==> (ok <==> i + 1 == |was| || !DeadAt(was, i + 1)))
    && (ok ==> j <= |now|)
    && (ok && CallsCreate(pass) && OnlyCreates(finale) ==> now[j..] == was[i + 1..])
  }

  // Before the q-th finalizer runs the timers to come are those of the start, and it was not
  // fatal so far; afterwards it was not.
  ghost predicate Course(q: nat, start: seq<Timer>, now: seq<Timer>, i: nat, f: nat)
    requires i <= |now|
  {
    if f > q then !Fatal(start, q)
    else
      var m := |start| - (|now| - i);
      && m >= 0 && now[i..] == start[m..] && f == Finals(start, m)
      && forall k: nat | FatalAt(start, q, k) :: k >= m
  }

  lemma CourseStarts(q: nat, start: seq<Timer>)
    ensures Course(q, start, start, 0, 0)
  {
    assert start[|start| - (|start| - 0)..] == start;
  }

  lemma {:induction false} FinalsGrow(timers: seq<Timer>, k: nat, m: nat)
    requires k <= m <= |timers|
    ensures Finals(timers, k) <= Finals(timers, m)
  {
    if k < m { FinalsGrow(timers, k, m - 1); }
  }

  lemma CourseStep(pass: Pass, q: nat, start: seq<Timer>, was: seq<Timer>, i: nat, f: nat, ok: bool, now: seq<Timer>, j: nat)
    requires FirstProcesses(pass, q) && i < |was|
    requires Course(q, start, was, i, f) && Stepped(pass, f, was, i, ok, now, j)
    ensures ok ==> Course(q, start, now, j, NextFinals(was, i, f))
    ensures !ok && LastProcesses(pass, q) ==> Fatal(start, q)
  {
    hide OnePass, CallsCreate, CallsTame, NoPass, OnlyCreates, DeadAt;
    CreatesIsTame(pass, []);
    if f <= q {
      var m := |start| - (|was| - i);
      assert was[i] == start[m] && was[i..][1..] == was[i + 1..] && start[m..][1..] == start[m + 1..];
      if i + 1 < |was| { assert was[i + 1] == start[m + 1]; }
      DeadSame(was, i, start, m);
      if DeadAt(was, i) && was[i].finalizer {
        if f < q { CreatesIsTame(pass, pass.finals[f].actions); } else { AtThePass(q, start, was, i, m); }
      }
    }
  }

  // A fatal place is still to come, unless the q-th finalizer ran.
  lemma CourseEnds(q: nat, start: seq<Timer>, now: seq<Timer>, i: nat, f: nat)
    requires i <= |now| && Course(q, start, now, i, f) && (f > q || i == |now|)
    ensures !Fatal(start, q)
  {
  }

  lemma CreatesIsTame(pass: Pass, actions: seq<Action>)
    ensures CallsCreate(pass) ==> CallsTame(pass)
    ensures OnlyCreates(actions) ==> NoPass(actions)
    ensures OnlyCreates([])
  {
    if CallsCreate(pass) {
      forall c | c in pass.calls ensures TameActions(c.actions) { NoPassIsTame(c.actions); }
    }
  }

  lemma DeadSame(was: seq<Timer>, i: nat, start: seq<Timer>, m: nat)
    requires i < |was| && m < |start| && was[i..] == start[m..]
    ensures DeadAt(was, i) <==> DeadAt(start, m)
    ensures i + 1 < |was| ==> m + 1 < |start| && (DeadAt(was, i + 1) <==> DeadAt(start, m + 1))
  {
    assert was[i] == was[i..][0] && start[m] == start[m..][0];
    if i + 1 < |was| { assert was[i + 1] == was[i..][1] && start[m + 1] == start[m..][1]; }
  }

  // The finalizer that processes the timers ran: it was fatal now or not at all.
  lemma AtThePass(q: nat, start: seq<Timer>, was: seq<Timer>, i: nat, m: nat)
    requires m < |start| && i < |was| && DeadAt(start, m) && start[m].finalizer && Finals(start, m) == q
    requires |was| - i == |start| - m && forall k: nat | FatalAt(start, q, k) :: k >= m
    requires i + 1 < |was| ==> (DeadAt(was, i + 1) <==> DeadAt(start, m + 1))
    ensures Fatal(start, q) <==> i + 1 < |was| && DeadAt(was, i + 1)
  {
    hide DeadAt;
    if i + 1 < |was| && DeadAt(was, i + 1) { assert FatalAt(start, q, m); }
    forall k: nat | FatalAt(start, q, k)
      ensures k == m
    {
      if k > m { FinalsGrow(start, m + 1, k); }
    }
  }

  lemma OneFirst(pass: Pass, q: nat, r: nat)
    requires FirstProcesses(pass, q) && FirstProcesses(pass, r)
    ensures q == r
  {
    assert pass.finals[q].actions[0] in pass.finals[q].actions;
    assert pass.finals[r].actions[0] in pass.finals[r].actions;
  }

  // Two dead timers in a row, and the finalizer of the first processes the timers.
  ghost predicate Doomed(pass: Pass, f: nat, timers: seq<Timer>, i: nat) {
    && i + 1 < |timers| && DeadAt(timers, i) && DeadAt(timers, i + 1)
    && OnePass(Finale(pass, f, timers[i].finalizer))
  }

  // The actions of the f-th finalizer that runs in a pass.
  function Finale(pass: Pass, f: nat, finalizer: bool): seq<Action> {
    if finalizer && f < |pass.finals| then pass.finals[f].actions else []
  }

  // One pass, in which callbacks and finalizers only create timers.
  predicate OnePass(actions: seq<Action>) {
    |actions| == 1 && actions[0].Process? && Quiet(actions[0].pass)
  }

  ghost predicate ExactlyDead(timers: seq<Timer>, gone: set<nat>) { forall u :: u in gone <==> Dead(timers, u) }

  // A timer that was deleted and is not in use.
  predicate DeadAt(timers: seq<Timer>, i: nat)
    requires i < |timers|
  {
    timers[i].id == DELETED && timers[i].refs == 0
  }

  predicate Dead(timers: seq<Timer>, u: nat) { exists i: nat :: i < |timers| && timers[i].uid == u && DeadAt(timers, i) }

  // The i-th timer is the first with this identifier.
  ghost predicate FirstWith(timers: seq<Timer>, i: nat, id: int)
    requires i < |timers|
  {
    timers[i].id == id && forall j | 0 <= j < i :: timers[j].id != id
  }

  // One timer changed.
  ghost function Stored(s: Snapshot, i: nat, t: Timer): Snapshot
    requires i < |s.timers|
  {
    s.(timers := s.timers[i := t])
  }

  // Some callback or finalizer processes the timers again.
  predicate Nests(pass: Pass) {
    || (exists c, a :: c in pass.calls && a in c.actions && a.Process?)
    || (exists f, a :: f in pass.finals && a in f.actions && a.Process?)
  }

  predicate OnlyCreates(actions: seq<Action>) { forall a | a in actions :: a.Create? }

  predicate CallsCreate(pass: Pass) { forall c | c in pass.calls :: OnlyCreates(c.actions) }

  // Callbacks and finalizers neither delete timers nor process them.
  predicate Quiet(pass: Pass) { CallsCreate(pass) && forall f | f in pass.finals :: OnlyCreates(f.actions) }

  predicate NoPass(actions: seq<Action>) { forall a | a in actions :: !a.Process? }

  // The q-th finalizer is the first that does more than creating timers: it processes them.
  predicate FirstProcesses(pass: Pass, q: nat) {
    && CallsCreate(pass) && q < |pass.finals| && OnePass(pass.finals[q].actions)
    && forall f | 0 <= f < q :: OnlyCreates(pass.finals[f].actions)
  }

  predicate LastProcesses(pass: Pass, q: nat) { forall f | q < f < |pass.finals| :: NoPass(pass.finals[f].actions) }

  // How many of the first k timers are freed and have a finalizer.
  ghost function Finals(timers: seq<Timer>, k: nat): nat
    requires k <= |timers|
  {
    if k == 0 then 0 else NextFinals(timers, k - 1, Finals(timers, k - 1))
  }

  ghost function NextFinals(timers: seq<Timer>, i: nat, f: nat): nat
    requires i < |timers|
  {
    if DeadAt(timers, i) && timers[i].finalizer then f + 1 else f
  }

  // The k-th timer is the one whose finalizer is the q-th to run, and the next one is to be
  // freed, too.
  ghost predicate FatalAt(timers: seq<Timer>, q: nat, k: nat) {
    && k + 1 < |timers| && DeadAt(timers, k) && timers[k].finalizer && Finals(timers, k) == q
    && DeadAt(timers, k + 1)
  }

  ghost predicate Fatal(timers: seq<Timer>, q: nat) { exists k: nat :: FatalAt(timers, q, k) }

  predicate TameActions(actions: seq<Action>)
    decreases actions
  {
    forall a | a in actions :: TameAction(a)
  }

  predicate TameAction(action: Action)
    decreases action
  {
    action.Process? ==> Tame(action.pass)
  }

  predicate CallsTame(pass: Pass)
    decreases pass, 0
  {
    forall c | c in pass.calls :: TameActions(c.actions)
  }

  /** No finalizer processes the timers, however deeply passes are nested. */
  predicate Tame(pass: Pass)
    decreases pass, 1
  {
    CallsTame(pass) && forall f | f in pass.finals :: NoPass(f.actions)
  }

  // The one list is the end of the other.
  ghost predicate Ends(now: seq<Timer>, was: seq<Timer>) { |was| <= |now| && now[|now| - |was|..] == was }

  lemma EndsItself(s: seq<Timer>)
    ensures Ends(s, s)
  {
  }

  lemma EndsTwice(c: seq<Timer>, b: seq<Timer>, a: seq<Timer>)
    requires Ends(c, b) && Ends(b, a)
    ensures Ends(c, a)
  {
    assert c[|c| - |a|..] == b[|b| - |a|..];
  }

  // What stands behind a timer did not change, if the end of the list did not.
  lemma SamePlace(a: Snapshot, b: Snapshot, i: nat, j: nat)
    requires Right(b) && Ends(b.timers, a.timers) && i < |a.timers| && j < |b.timers|
    requires b.timers[j].uid == a.timers[i].uid
    ensures b.timers[j..] == a.timers[i..] && b.timers[j + 1..] == a.timers[i + 1..]
  {
    var k := |b.timers| - |a.timers| + i;
    assert b.timers[k] == b.timers[|b.timers| - |a.timers|..][i] == a.timers[i];
    OnlyThat(b, k);
    assert j == k;
  }

  lemma PlaceHeld(a: Snapshot, i: nat, start: Snapshot, b: Snapshot, j: nat)
    requires Right(b) && i < |a.timers| && Ends(b.timers, start.timers) && j < |b.timers|
    requires start == Stored(a, i, a.timers[i].(refs := a.timers[i].refs + 1))
    requires b.timers[j].uid == a.timers[i].uid
    ensures b.timers[j + 1..] == a.timers[i + 1..]
  {
    hide Right;
    SamePlace(start, b, i, j);
    assert start.timers[i + 1..] == a.timers[i + 1..];
  }

  lemma FreedIsOut(a: Snapshot, i: nat, front: seq<nat>, gone: set<nat>, b: Snapshot)
    requires Right(a) && i < |a.timers| && Evolved(Uids(a.timers), front, gone, Uids(b.timers), a.created)
    requires a.timers[i].uid in gone
    ensures a.timers[i].uid !in Uids(b.timers)
  {
    WithoutFacts(Uids(a.timers), gone);
    assert Uids(a.timers)[i] in Uids(a.timers);
  }

  lemma DeadBehind(s0: Snapshot, s1: Snapshot, i: nat, g: set<nat>)
    requires Right(s0) && i + 1 < |s0.timers| && s1.timers == s0.timers[..i] + s0.timers[i + 1..]
    requires ExactlyDead(s1.timers, g)
    ensures s0.timers[i + 1].uid in g <==> DeadAt(s0.timers, i + 1)
  {
    OnlyThat(s0, i + 1);
    assert s1.timers[i] == s0.timers[i + 1];
    if DeadAt(s0.timers, i + 1) { assert DeadAt(s1.timers, i); }
  }

  lemma NothingLeft(s: seq<nat>, gone: set<nat>)
    requires s == []
    ensures Without(s, gone) == []
  {
  }

  lemma WithoutFirst(s: seq<nat>, gone: set<nat>)
    requires s != [] && s[0] !in gone
    ensures Without(s, gone) == [s[0]] + Without(s[1..], gone)
  {
  }

  // The timers behind one that is freed, less those that go with it.
  lemma BehindFreed(a: Snapshot, i: nat, g: set<nat>)
    requires Right(a) && i < |a.timers|
    ensures
      var rest := Uids(a.timers)[i + 1..];
      Without(rest, {a.timers[i].uid} + g) == Without(rest, g)
  {
    var u, rest := a.timers[i].uid, Uids(a.timers)[i + 1..];
    OnlyThat(a, i);
    forall v | v in rest ensures v != u {
      var k :| 0 <= k < |rest| && rest[k] == v;
      assert v == a.timers[i + 1 + k].uid;
    }
    WithoutNothing(rest, {u});
    WithoutTwice(rest, {u}, g);
  }

  lemma FinaleFacts(pass: Pass, f: nat, finalizer: bool)
    ensures Tame(pass) || !Nests(pass) ==> NoPass(Finale(pass, f, finalizer))
    ensures Quiet(pass) ==> OnlyCreates(Finale(pass, f, finalizer)) && Tame(pass)
  {
    if Quiet(pass) { QuietIsTame(pass); }
    if finalizer && f < |pass.finals| { assert pass.finals[f] in pass.finals; }
  }

  lemma StepFacts(pass: Pass, f: nat, was: seq<Timer>, i: nat, ok: bool, now: seq<Timer>, j: nat)
    requires i < |was| && Stepped(pass, f, was, i, ok, now, j)
    ensures Tame(pass) ==> ok
    ensures Doomed(pass, f, was, i) ==> !ok
  {
    hide CallsTame, OnePass, CallsCreate, OnlyCreates;
    if Tame(pass) { FinaleFacts(pass, f, was[i].finalizer); }
  }

  // The times changed at most.
  lemma SameDead(a: Snapshot, b: Snapshot, pass: Pass)
    requires |a.timers| == |b.timers|
    requires forall i | 0 <= i < |a.timers| :: b.timers[i] == a.timers[i].(sec := b.timers[i].sec)
    ensures forall visits, gone | PassDone(pass, b.timers, visits, gone) :: PassDone(pass, a.timers, visits, gone)
    ensures Doomed(pass, 0, a.timers, 0) <==> Doomed(pass, 0, b.timers, 0)
  {
    hide OnePass, VisitUids, Nests, Quiet, RanIfDue, Fatal;
    assert Uids(a.timers) == Uids(b.timers);
    forall u
      ensures Dead(a.timers, u) <==> Dead(b.timers, u)
    {
      forall i: nat | i < |a.timers| ensures DeadAt(a.timers, i) <==> DeadAt(b.timers, i) {}
    }
  }

  lemma SameFatal(a: seq<Timer>, b: seq<Timer>, q: nat)
    requires |a| == |b| && forall i | 0 <= i < |a| :: b[i] == a[i].(sec := b[i].sec)
    ensures Fatal(a, q) <==> Fatal(b, q)
  {
    hide Finals;
    forall k: nat | k <= |a| ensures Finals(a, k) == Finals(b, k) { SameFinals(a, b, k); }
    forall k: nat ensures FatalAt(a, q, k) <==> FatalAt(b, q, k) {}
  }

  lemma {:induction false} SameFinals(a: seq<Timer>, b: seq<Timer>, k: nat)
    requires |a| == |b| && k <= |a| && forall i | 0 <= i < |a| :: b[i] == a[i].(sec := b[i].sec)
    ensures Finals(a, k) == Finals(b, k)
  {
    if k > 0 { SameFinals(a, b, k - 1); }
  }

  lemma DoomedHasTwo(pass: Pass, timers: seq<Timer>)
    ensures Doomed(pass, 0, timers, 0) ==> |timers| >= 2
  {
  }

  // Who was dead when the pass began is dead when the walk comes to it.
  lemma DeadStill(s: Snapshot, front: seq<nat>, gone: set<nat>, a: Snapshot, i: nat)
    requires Right(s) && Grown(s, front, gone, a) && i < |a.timers|
    requires a.timers[i].uid in Uids(s.timers) && Dead(s.timers, a.timers[i].uid)
    ensures DeadAt(a.timers, i)
  {
    hide Without, Was, FreedRightly;
    var k: nat :| k < |s.timers| && s.timers[k].uid == a.timers[i].uid && DeadAt(s.timers, k);
    OnlyThat(s, k);
    WasThat(s, k, a.timers[i]);
  }

  lemma ProgressOn(pass: Pass, s: Snapshot, front: seq<nat>, gone: set<nat>, a: Snapshot, i: nat, b: Snapshot, j: nat, g: set<nat>)
    requires Right(s) && Grown(s, front, gone, a) && i < |a.timers| && j <= |b.timers|
    requires Progress(pass, s.timers, a.timers, i, gone) && Visited(pass, a.timers, i, b.timers, j, g)
    requires Uids(b.timers)[j..] == Without(Uids(a.timers)[i + 1..], g) && a.timers[i].uid in Uids(s.timers)
    ensures Progress(pass, s.timers, b.timers, j, gone + g)
  {
    hide Grown, Right, Without, Dead, Quiet;
    var us := Uids(a.timers);
    WithoutFacts(us[i + 1..], g);
    assert us[i..] == [us[i]] + us[i + 1..];
    forall u | Dead(s.timers, u)
      ensures u in gone + g || u in Uids(b.timers)[j..]
    {
      if u == us[i] { DeadStill(s, front, gone, a, i); }
    }
    if Quiet(pass) {
      var k := |s.timers| - (|a.timers| - i);
      assert a.timers[i..][1..] == a.timers[i + 1..] && s.timers[k..][1..] == s.timers[k + 1..];
      assert |b.timers[j..]| == |a.timers[i + 1..]|;
      assert a.timers[i] == s.timers[k];
      if DeadAt(a.timers, i) { DeadIs(s.timers, k); }
    }
  }

  // One timer was looked at: where the pass stands then.
  lemma OneVisited(pass: Pass, s: Snapshot, front: seq<nat>, gone: set<nat>, visits: seq<Visit>, a: Snapshot, i: nat,
                   f: seq<nat>, g: set<nat>, b: Snapshot, j: nat, maxId: int, v: Visit) returns (all: seq<nat>)
    requires Right(s) && Right(a) && PassAt(pass, s, front, gone, visits, a, i, maxId) && Grown(a, f, g, b)
    requires i < |a.timers| && j <= |b.timers| && v.timer == a.timers[i] && RanIfDue([v])
    requires Uids(b.timers)[j..] == Without(Uids(a.timers)[i + 1..], g) && Visited(pass, a.timers, i, b.timers, j, g)
    ensures PassAt(pass, s, all, gone + g, visits + [v], b, j, maxId) && |b.timers| - j < |a.timers| - i
  {
    hide Grown, Right, Without, Dead, Quiet, Progress, InPass, Nests, RanIfDue, VisitUids;
    var rest, seen := Uids(a.timers)[i..], VisitUids(visits);
    assert rest[0] == a.timers[i].uid && rest[1..] == Uids(a.timers)[i + 1..];
    RestIsOld(Uids(s.timers), seen, gone, rest);
    PassOne(Uids(s.timers), seen, gone, rest, g);
    ProgressOn(pass, s, front, gone, a, i, b, j, g);
    all := GrownTwice(s, front, gone, a, f, g, b);
    KeptIds(a, i + 1, f, g, b, j, maxId);
    VisitMore(visits, v);
  }

  lemma RestIsOld(uids: seq<nat>, seen: seq<nat>, gone: set<nat>, rest: seq<nat>)
    requires InPass(uids, seen, gone, rest) && rest != []
    ensures rest[0] in uids
  {
  }

  lemma DeadIs(timers: seq<Timer>, k: nat)
    requires k < |timers| && DeadAt(timers, k)
    ensures Dead(timers, timers[k].uid)
  {
  }

  lemma ProgressStarts(pass: Pass, start: seq<Timer>)
    ensures Progress(pass, start, start, 0, {})
  {
    assert start[|start| - |start|..] == start == start[0..];
    forall u | Dead(start, u)
      ensures u in Uids(start)[0..]
    {
      var i: nat :| i < |start| && start[i].uid == u && DeadAt(start, i);
      assert Uids(start)[0..][i] == u;
    }
  }

  lemma NoPassIsTame(actions: seq<Action>)
    requires NoPass(actions)
    ensures TameActions(actions)
  {
  }

  lemma QuietIsTame(pass: Pass)
    requires Quiet(pass)
    ensures Tame(pass) && !Nests(pass)
  {
    forall c | c in pass.calls ensures TameActions(c.actions) { NoPassIsTame(c.actions); }
  }

  lemma OnePassIsTame(actions: seq<Action>)
    requires OnePass(actions)
    ensures TameActions(actions)
  {
    QuietIsTame(actions[0].pass);
  }

  lemma InUseStays(a: Snapshot, i: nat, front: seq<nat>, gone: set<nat>, b: Snapshot)
    requires Grown(a, front, gone, b) && i < |a.timers| && a.timers[i].refs > 0
    ensures a.timers[i].uid !in gone
  {
  }

  ghost function VisitUids(visits: seq<Visit>): seq<nat> {
    seq(|visits|, i requires 0 <= i < |visits| => visits[i].timer.uid)
  }

  // Callbacks run for timers that are due and not deleted.
  ghost predicate RanIfDue(visits: seq<Visit>) {
    forall v | v in visits ::
      v.ran <==> v.timer.id != DELETED && 1000 * v.now.sec + v.now.ms >= 1000 * v.timer.sec + v.timer.ms
  }

  ghost predicate Within(gone: set<nat>, seen: seq<nat>) { forall u | u in gone :: u in seen }

  ghost predicate IdsUpTo(timers: seq<Timer>, i: nat, maxId: int) { forall k | i <= k < |timers| :: timers[k].id <= maxId }

  // Where a pass over the timers of s stands: it comes to the i-th of a next.
  ghost predicate PassAt(pass: Pass, s: Snapshot, front: seq<nat>, gone: set<nat>, visits: seq<Visit>, a: Snapshot, i: nat, maxId: int) {
    && i <= |a.timers| && Grown(s, front, gone, a) && maxId >= -1
    && InPass(Uids(s.timers), VisitUids(visits), gone, Uids(a.timers)[i..])
    && IdsUpTo(a.timers, i, maxId) && RanIfDue(visits)
    && (!Nests(pass) ==> Within(gone, VisitUids(visits)))
    && Progress(pass, s.timers, a.timers, i, gone)
  }

  lemma PassStarts(pass: Pass, s: Snapshot)
    requires Right(s)
    ensures PassAt(pass, s, [], {}, [], s, 0, s.nextId - 1)
  {
    GrownNot(s);
    StartPass(s);
    IdsAtMost(s);
    ProgressStarts(pass, s.timers);
  }

  lemma IdAtMost(pass: Pass, s: Snapshot, front: seq<nat>, gone: set<nat>, visits: seq<Visit>, a: Snapshot, i: nat, maxId: int)
    requires PassAt(pass, s, front, gone, visits, a, i, maxId) && i < |a.timers|
    ensures a.timers[i].id <= maxId
  {
  }

  lemma PassEnds(pass: Pass, s: Snapshot, front: seq<nat>, gone: set<nat>, visits: seq<Visit>, a: Snapshot, i: nat, maxId: int)
    requires PassAt(pass, s, front, gone, visits, a, i, maxId) && i == |a.timers|
    ensures Grown(s, front, gone, a) && PassDone(pass, s.timers, visits, gone)
  {
    hide Grown, Dead, Quiet, Nests, RanIfDue, VisitUids;
    assert Uids(a.timers)[i..] == [];
  }

  lemma VisitMore(visits: seq<Visit>, v: Visit)
    ensures VisitUids(visits + [v]) == VisitUids(visits) + [v.timer.uid]
    ensures RanIfDue(visits) && RanIfDue([v]) ==> RanIfDue(visits + [v])
  {
  }

  // Where a pass stands: rest are the timers to come.
  ghost predicate InPass(uids: seq<nat>, seen: seq<nat>, gone: set<nat>, rest: seq<nat>) {
    && NoDup(seen) && NoDup(rest)
    && (forall u | u in seen :: u in uids && u !in rest)
    && (forall u | u in rest :: u in uids)
    && (forall u | u in uids :: u in seen || u in gone || u in rest)
  }

  lemma StartPass(s: Snapshot)
    requires Right(s)
    ensures InPass(Uids(s.timers), VisitUids([]), {}, Uids(s.timers)[0..])
  {
    assert Uids(s.timers)[0..] == Uids(s.timers);
  }

  lemma NoDupMore(seen: seq<nat>, rest: seq<nat>)
    requires NoDup(seen) && NoDup(rest) && rest != [] && rest[0] !in seen
    ensures NoDup(seen + [rest[0]]) && NoDup(rest[1..]) && rest[0] !in rest[1..]
  {
    forall i | 0 <= i < |rest[1..]| ensures rest[1..][i] != rest[0] { assert rest[i + 1] != rest[0]; }
  }

  // The next timer was looked at, and some of those to come were freed.
  lemma PassOne(uids: seq<nat>, seen: seq<nat>, gone: set<nat>, rest: seq<nat>, more: set<nat>)
    requires InPass(uids, seen, gone, rest) && rest != []
    ensures InPass(uids, seen + [rest[0]], gone + more, Without(rest[1..], more))
    ensures more == {} || more == {rest[0]} ==> Without(rest[1..], more) == rest[1..]
  {
    hide NoDup, Without;
    NoDupMore(seen, rest);
    WithoutFacts(rest[1..], more);
    assert rest == [rest[0]] + rest[1..];
    if more == {} || more == {rest[0]} { WithoutNothing(rest[1..], more); }
  }

  lemma NewIsRight(a: Snapshot, t: Timer, b: Snapshot)
    requires Right(a) && b == Snapshot([t] + a.timers, a.created + 1, a.nextId + 1, a.finalized)
    requires t.uid == a.created && t.id == a.nextId
    ensures Right(b)
  {
    assert Uids(b.timers) == [t.uid] + Uids(a.timers);
    NoDupFirst(t.uid, Uids(a.timers));
  }

  lemma StoredIsRight(a: Snapshot, i: nat, t: Timer)
    requires Right(a) && i < |a.timers| && t.uid == a.timers[i].uid && (t.id == a.timers[i].id || t.id == DELETED)
    ensures Right(Stored(a, i, t)) && Uids(a.timers[i := t]) == Uids(a.timers)
  {
    assert Uids(a.timers[i := t]) == Uids(a.timers);
  }

  lemma AllDue(a: Snapshot, b: Snapshot)
    requires Right(a) && b == a.(timers := b.timers) && |b.timers| == |a.timers|
    requires forall i | 0 <= i < |a.timers| :: b.timers[i] == a.timers[i].(sec := 0)
    ensures Right(b) && Uids(b.timers) == Uids(a.timers)
  {
    assert Uids(b.timers) == Uids(a.timers);
  }

  lemma IdsAtMost(s: Snapshot)
    requires Right(s)
    ensures IdsUpTo(s.timers, 0, s.nextId - 1)
  {
  }

  // Only times and marks changed.
  lemma SameObjects(a: Snapshot, b: Snapshot)
    requires |a.timers| == |b.timers| && a.created == b.created && a.nextId == b.nextId && a.finalized == b.finalized
    requires forall i | 0 <= i < |a.timers| ::
      && a.timers[i].uid == b.timers[i].uid && a.timers[i].refs == b.timers[i].refs
      && a.timers[i].finalizer == b.timers[i].finalizer
      && (b.timers[i].id == a.timers[i].id || b.timers[i].id == DELETED)
    ensures Grown(a, [], {}, b)
  {
    assert Uids(a.timers) == Uids(b.timers);
    WithoutNothing(Uids(a.timers), {});
  }

  lemma OneCreated(a: Snapshot, b: Snapshot)
    requires Right(a) && b.created == a.created + 1 && b.nextId == a.nextId + 1 && b.finalized == a.finalized
    requires |b.timers| == |a.timers| + 1 && b.timers[1..] == a.timers && b.timers[0].uid == a.created
    ensures Grown(a, [a.created], {}, b)
  {
    WithoutNothing(Uids(a.timers), {});
    assert Uids(b.timers) == [a.created] + Uids(a.timers);
    forall i | 0 <= i < |b.timers| && b.timers[i].uid < a.created
      ensures Was(a.timers, b.timers[i])
    {
      assert b.timers[i] == a.timers[i - 1];
    }
  }

  lemma OneFreed(a: Snapshot, i: nat, b: Snapshot)
    requires Right(a) && i < |a.timers| && a.timers[i].refs == 0
    requires b.timers == a.timers[..i] + a.timers[i + 1..] && b.created == a.created && b.nextId == a.nextId
    requires b.finalized == a.finalized + if a.timers[i].finalizer then [a.timers[i].uid] else []
    ensures Right(b) && Grown(a, [], {a.timers[i].uid}, b)
  {
    hide Without, NoDup, Was;
    var u, us := a.timers[i].uid, Uids(a.timers);
    assert us[i] == u && u in us;
    UidsWithout(a, i);
    assert Uids(b.timers) == us[..i] + us[i + 1..];
    WithoutFacts(us, {u});
    forall k | 0 <= k < |b.timers|
      ensures Was(a.timers, b.timers[k]) && b.timers[k].id < b.nextId
    {
      assert b.timers[k] == if k < i then a.timers[k] else a.timers[k + 1];
      SelfWas(a.timers, if k < i then k else k + 1);
    }
    OnlyThat(a, i);
    NoDupAppend(a.finalized, u);
    assert a.finalized + [] == a.finalized;
    assert Uids(b.timers) == Without(us, {u});
    assert [] + Without(us, {u}) == Without(us, {u});
    assert forall x :: x in b.finalized <==> x in a.finalized || (x == u && a.timers[i].finalizer);
    assert FreedRightly(a, {u}, b);
  }

  lemma SelfWas(timers: seq<Timer>, k: nat)
    requires k < |timers|
    ensures Was(timers, timers[k])
  {
  }

  lemma NoDupAppend(s: seq<nat>, u: nat)
    requires NoDup(s) && u !in s
    ensures NoDup(s + [u])
  {
  }

  lemma OnlyThat(a: Snapshot, i: nat)
    requires Right(a) && i < |a.timers|
    ensures forall k | 0 <= k < |a.timers| && k != i :: a.timers[k].uid != a.timers[i].uid
    ensures forall k | 0 <= k < |a.timers| :: a.timers[k].uid !in a.finalized && a.timers[k].uid < a.created
  {
    forall k | 0 <= k < |a.timers|
      ensures k != i ==> a.timers[k].uid != a.timers[i].uid
      ensures a.timers[k].uid in Uids(a.timers)
    {
      assert Uids(a.timers)[k] == a.timers[k].uid && Uids(a.timers)[i] == a.timers[i].uid;
    }
  }

  lemma UidsWithout(a: Snapshot, i: nat)
    requires NoDup(Uids(a.timers)) && i < |a.timers|
    ensures
      var us := Uids(a.timers);
      Without(us, {a.timers[i].uid}) == us[..i] + us[i + 1..]
  {
    hide Without;
    var u, us := a.timers[i].uid, Uids(a.timers);
    assert us[i] == u;
    assert us == us[..i] + ([u] + us[i + 1..]);
    WithoutConcat(us[..i], [u] + us[i + 1..], {u});
    WithoutConcat([u], us[i + 1..], {u});
    WithoutOne(u);
    WithoutNothing(us[..i], {u});
    WithoutNothing(us[i + 1..], {u});
  }

  lemma WithoutOne(u: nat)
    ensures Without([u], {u}) == []
  {
    assert [u][1..] == [];
  }

  lemma {:induction false} UniquePlace(s: seq<nat>, p: seq<nat>, u: nat, r: seq<nat>, j: nat)
    requires NoDup(s) && s == p + [u] + r && j < |s| && s[j] == u
    ensures s[j + 1..] == r
  {
    assert s[|p|] == u;
    assert j == |p|;
  }

  lemma CallbackPlace(a: Snapshot, i: nat, front: seq<nat>, gone: set<nat>, b: Snapshot, j: nat)
    requires Right(a) && Right(b) && i < |a.timers| && a.timers[i].uid !in gone && Grown(a, front, gone, b)
    requires j < |b.timers| && b.timers[j].uid == a.timers[i].uid
    ensures Uids(b.timers)[j + 1..] == Without(Uids(a.timers)[i + 1..], gone)
    ensures b.timers[j].refs == a.timers[i].refs && b.timers[j].finalizer == a.timers[i].finalizer
    ensures b.timers[j].id == a.timers[i].id || b.timers[j].id == DELETED
  {
    hide Without, Was, NoDup;
    var us, u := Uids(a.timers), a.timers[i].uid;
    assert us[i] == u && u in us;
    WithoutAround(us, i, gone);
    UniquePlace(Uids(b.timers), front + Without(us[..i], gone), u, Without(us[i + 1..], gone), j);
    WasThat(a, i, b.timers[j]);
  }

  lemma WithoutAround(us: seq<nat>, i: nat, gone: set<nat>)
    requires i < |us| && us[i] !in gone
    ensures Without(us, gone) == Without(us[..i], gone) + [us[i]] + Without(us[i + 1..], gone)
  {
    var u := us[i];
    assert us == us[..i] + ([u] + us[i + 1..]);
    WithoutConcat(us[..i], [u] + us[i + 1..], gone);
    WithoutConcat([u], us[i + 1..], gone);
    assert [u][1..] == [];
    assert Without([u], gone) == [u];
  }

  // There is only one timer it can have been.
  lemma WasThat(a: Snapshot, i: nat, t: Timer)
    requires Right(a) && i < |a.timers| && t.uid == a.timers[i].uid && Was(a.timers, t)
    ensures t.refs == a.timers[i].refs && t.finalizer == a.timers[i].finalizer
    ensures t.id == a.timers[i].id || t.id == DELETED
  {
    OnlyThat(a, i);
  }

  // Using a timer for the time of its callback does not show from outside.
  lemma HeldAgain(a: Snapshot, i: nat, start: Snapshot, front: seq<nat>, gone: set<nat>, before: Snapshot, j: nat, b: Snapshot)
    requires Right(a) && i < |a.timers| && Right(start)
    requires start == a.(timers := a.timers[i := a.timers[i].(refs := a.timers[i].refs + 1)])
    requires Grown(start, front, gone, before) && j < |before.timers| && before.timers[j].uid == a.timers[i].uid
    requires before.timers[j].refs == a.timers[i].refs + 1 && Right(before)
    requires b == before.(timers := b.timers) && |b.timers| == |before.timers|
    requires forall k | 0 <= k < |b.timers| && k != j :: b.timers[k] == before.timers[k]
    requires b.timers[j].uid == before.timers[j].uid && b.timers[j].finalizer == before.timers[j].finalizer
    requires b.timers[j].refs == a.timers[i].refs
    requires b.timers[j].id == before.timers[j].id || b.timers[j].id == DELETED
    ensures Grown(a, front, gone, b)
  {
    assert Uids(start.timers) == Uids(a.timers);
    assert Uids(b.timers) == Uids(before.timers);
    forall k | 0 <= k < |b.timers| && b.timers[k].uid < a.created
      ensures Was(a.timers, b.timers[k])
    {
      assert Was(start.timers, before.timers[k]);
      var m :| 0 <= m < |start.timers| && start.timers[m].uid == before.timers[k].uid
        && start.timers[m].refs == before.timers[k].refs && start.timers[m].finalizer == before.timers[k].finalizer
        && (before.timers[k].id == start.timers[m].id || before.timers[k].id == DELETED);
      assert Uids(start.timers)[m] == Uids(before.timers)[k];
      if k == j {
        assert Uids(start.timers)[m] == Uids(start.timers)[i];
        assert m == i;
      } else {
        assert Uids(before.timers)[k] != Uids(before.timers)[j];
      }
    }
    forall k | 0 <= k < |a.timers|
      ensures start.timers[k].uid == a.timers[k].uid && start.timers[k].finalizer == a.timers[k].finalizer
      ensures a.timers[k].refs > 0 ==> start.timers[k].refs > 0
    {
    }
  }

  // Timers still to come keep identifiers from before the pass.
  lemma KeptIds(a: Snapshot, i: nat, front: seq<nat>, gone: set<nat>, b: Snapshot, j: nat, maxId: int)
    requires Right(a) && Grown(a, front, gone, b) && i <= |a.timers| && j <= |b.timers| && maxId >= -1
    requires Uids(b.timers)[j..] == Without(Uids(a.timers)[i..], gone)
    requires forall k | i <= k < |a.timers| :: a.timers[k].id <= maxId
    ensures forall k | j <= k < |b.timers| :: b.timers[k].id <= maxId
    ensures |b.timers| - j <= |a.timers| - i
  {
    hide Without, Was, FreedRightly, NoDup, Uids, Evolved, Right;
    AsManyUids(a.timers);
    AsManyUids(b.timers);
    WithoutFacts(Uids(a.timers)[i..], gone);
    forall k | j <= k < |b.timers|
      ensures b.timers[k].id <= maxId
    {
      UidFrom(b.timers, j, k);
      var m := FromUid(a.timers, i, b.timers[k].uid);
      OnlyThat(a, m);
      WasThat(a, m, b.timers[k]);
    }
  }

  lemma AsManyUids(timers: seq<Timer>)
    ensures |Uids(timers)| == |timers|
  {
  }

  lemma UidFrom(timers: seq<Timer>, j: nat, k: nat)
    requires j <= k < |timers|
    ensures |Uids(timers)| == |timers| && timers[k].uid in Uids(timers)[j..]
  {
    assert Uids(timers)[j..][k - j] == timers[k].uid;
  }

  lemma FromUid(timers: seq<Timer>, i: nat, u: nat) returns (m: nat)
    requires i <= |timers| && |Uids(timers)| == |timers| && u in Uids(timers)[i..]
    ensures i <= m < |timers| && timers[m].uid == u
  {
    var n :| 0 <= n < |Uids(timers)[i..]| && Uids(timers)[i..][n] == u;
    m := i + n;
  }
}
