/** When timers fire. A timer keeps its time until its callback runs, and its callback runs only
    at a reading of the clock that is not earlier. */
module TimerTimes {
  import opened Wrappers
  import opened TimerHistory

  // A timer of this identity, to fire at this time.
  ghost predicate HasTime(timers: seq<Timer>, u: nat, at: Time) {
    exists i :: 0 <= i < |timers| && timers[i].uid == u && timers[i].sec == at.sec && timers[i].ms == at.ms
  }

  // ------------------------------------------------------------ readings of the clock

  // The n-th reading of a pass.
  function Reading(pass: Pass, n: nat): Time { if n < |pass.times| then pass.times[n] else Time(pass.clock, 0) }

  // r is a reading of the pass, or of one that is nested in it.
  ghost predicate ReadInPass(pass: Pass, r: Time)
    decreases pass, 2
  {
    || r in pass.times || r == Time(pass.clock, 0)
    || (exists c | c in pass.calls :: ReadInActions(c.actions, r))
    || (exists f | f in pass.finals :: ReadInActions(f.actions, r))
  }

  ghost predicate ReadInActions(actions: seq<Action>, r: Time)
    decreases actions, 1
  {
    exists a | a in actions :: ReadInAction(a, r)
  }

  ghost predicate ReadInAction(action: Action, r: Time)
    decreases action, 0
  {
    action.Process? && ReadInPass(action.pass, r)
  }

  ghost function PassReadings(pass: Pass): iset<Time> { iset r | ReadInPass(pass, r) }

  ghost function ActionsReadings(actions: seq<Action>): iset<Time> { iset r | ReadInActions(actions, r) }

  ghost function ActionReadings(action: Action): iset<Time> { iset r | ReadInAction(action, r) }

  lemma ReadingIn(pass: Pass, n: nat)
    ensures Reading(pass, n) in PassReadings(pass)
  {
  }

  lemma PartsRead(pass: Pass, actions: seq<Action>)
    requires (exists c | c in pass.calls :: c.actions == actions) || (exists f | f in pass.finals :: f.actions == actions)
    ensures ActionsReadings(actions) <= PassReadings(pass)
  {
    hide ReadInActions;
  }

  lemma ActionRead(actions: seq<Action>, a: Action)
    requires a in actions
    ensures ActionReadings(a) <= ActionsReadings(actions)
  {
    hide ReadInAction;
  }

  lemma ProcessRead(action: Action)
    requires action.Process?
    ensures ActionReadings(action) == PassReadings(action.pass)
  {
    hide ReadInPass;
  }

  // ------------------------------------------------------------------ times are kept

  /** From a to b the timers ran, of those there were, ran: all others that are left kept their
      times, and each of these ran, first, at a reading that was not before its time. */
  ghost predicate Timed(a: Snapshot, ran: set<nat>, b: Snapshot, readings: iset<Time>) {
    && (forall u: nat, at | HasTime(b.timers, u, at) && u < a.created && u !in ran :: HasTime(a.timers, u, at))
    && (forall u | u in ran :: u in Uids(a.timers) || u >= a.created)
    && (forall u, at | u in ran && HasTime(a.timers, u, at) :: Passed(at, readings))
  }

  ghost predicate Passed(at: Time, readings: iset<Time>) {
    exists r | r in readings :: 1000 * r.sec + r.ms >= 1000 * at.sec + at.ms
  }

  lemma TimedNot(a: Snapshot, readings: iset<Time>)
    ensures Timed(a, {}, a, readings)
  {
    hide HasTime;
  }

  lemma TimedMore(a: Snapshot, ran: set<nat>, b: Snapshot, readings: iset<Time>, more: iset<Time>)
    requires Timed(a, ran, b, readings) && readings <= more
    ensures Timed(a, ran, b, more)
  {
    hide HasTime;
    forall at | Passed(at, readings) ensures Passed(at, more) {}
  }

  lemma OneTime(s: Snapshot, u: nat, at: Time, bt: Time)
    requires Right(s) && HasTime(s.timers, u, at) && HasTime(s.timers, u, bt)
    ensures at == bt
  {
    var i :| 0 <= i < |s.timers| && s.timers[i].uid == u && s.timers[i].sec == at.sec && s.timers[i].ms == at.ms;
    var j :| 0 <= j < |s.timers| && s.timers[j].uid == u && s.timers[j].sec == bt.sec && s.timers[j].ms == bt.ms;
    assert Uids(s.timers)[i] == Uids(s.timers)[j] == u;
  }

  lemma UidHasTime(timers: seq<Timer>, u: nat)
    requires u in Uids(timers)
    ensures exists at :: HasTime(timers, u, at)
  {
    UidAt(timers, u);
    var i :| 0 <= i < |timers| && timers[i].uid == u;
    assert HasTime(timers, u, Time(timers[i].sec, timers[i].ms));
  }

  lemma HasTimeUid(timers: seq<Timer>, u: nat, at: Time)
    requires HasTime(timers, u, at)
    ensures u in Uids(timers)
  {
    var i :| 0 <= i < |timers| && timers[i].uid == u && timers[i].sec == at.sec && timers[i].ms == at.ms;
    assert Uids(timers)[i] == u;
  }

  /** Two changes, one after the other. */
  lemma TimedTwice(a: Snapshot, ran1: set<nat>, b: Snapshot, ran2: set<nat>, c: Snapshot, readings: iset<Time>)
    requires Right(a) && Right(b) && a.created <= b.created
    requires Timed(a, ran1, b, readings) && Timed(b, ran2, c, readings)
    ensures Timed(a, ran1 + ran2, c, readings)
  {
    hide HasTime, Right;
    forall u | u in ran2 ensures u in Uids(a.timers) || u >= a.created {
      if u in Uids(b.timers) && u < a.created { TimedWas(a, ran1, b, u, readings); }
    }
    forall u, at | u in ran2 && u !in ran1 && HasTime(a.timers, u, at)
      ensures Passed(at, readings)
    {
      HasTimeUid(a.timers, u, at);
      UidsBelow(a, u);
      UidHasTime(b.timers, u);
      var bt :| HasTime(b.timers, u, bt);
      OneTime(a, u, at, bt);
    }
  }

  lemma UidsBelow(s: Snapshot, u: nat)
    requires Right(s) && u in Uids(s.timers)
    ensures u < s.created
  {
  }

  // A timer that is there now and is old was there.
  lemma TimedWas(a: Snapshot, ran: set<nat>, b: Snapshot, u: nat, readings: iset<Time>)
    requires Timed(a, ran, b, readings) && u in Uids(b.timers) && u < a.created
    ensures u in Uids(a.timers)
  {
    hide HasTime;
    if u !in ran {
      UidHasTime(b.timers, u);
      var at :| HasTime(b.timers, u, at);
      HasTimeUid(a.timers, u, at);
    }
  }

  // Times did not change, and new timers are new.
  lemma SameTimes(a: Snapshot, b: Snapshot, readings: iset<Time>)
    requires forall i | 0 <= i < |b.timers| && b.timers[i].uid < a.created ::
      HasTime(a.timers, b.timers[i].uid, Time(b.timers[i].sec, b.timers[i].ms))
    ensures Timed(a, {}, b, readings)
  {
  }

  // A timer was created in front of the others.
  lemma TimesBehind(a: Snapshot, b: Snapshot, readings: iset<Time>)
    requires Right(a) && |b.timers| == |a.timers| + 1 && b.timers[1..] == a.timers && b.timers[0].uid == a.created
    ensures Timed(a, {}, b, readings)
  {
    hide Right;
    forall i | 0 <= i < |b.timers| && b.timers[i].uid < a.created
      ensures HasTime(a.timers, b.timers[i].uid, Time(b.timers[i].sec, b.timers[i].ms))
    {
      assert a.timers[i - 1] == b.timers[i];
    }
    SameTimes(a, b, readings);
  }

  // At most identifiers changed.
  lemma TimesAsBefore(a: Snapshot, b: Snapshot, readings: iset<Time>)
    requires |b.timers| == |a.timers|
    requires forall i | 0 <= i < |a.timers| ::
      b.timers[i].uid == a.timers[i].uid && b.timers[i].sec == a.timers[i].sec && b.timers[i].ms == a.timers[i].ms
    ensures Timed(a, {}, b, readings)
  {
    forall i | 0 <= i < |b.timers| && b.timers[i].uid < a.created
      ensures HasTime(a.timers, b.timers[i].uid, Time(b.timers[i].sec, b.timers[i].ms))
    {
      assert a.timers[i].uid == b.timers[i].uid;
    }
    SameTimes(a, b, readings);
  }

  // One timer changed, whose callback returned; it was in use meanwhile.
  lemma TimedHeld(s0: Snapshot, i: nat, start: Snapshot, ran: set<nat>, before: Snapshot, j: nat, b: Snapshot,
                  readings: iset<Time>, r: Time)
    requires i < |s0.timers| && start.created == s0.created && |start.timers| == |s0.timers| && Right(s0)
    requires forall k | 0 <= k < |s0.timers| ::
      && start.timers[k].uid == s0.timers[k].uid
      && start.timers[k].sec == s0.timers[k].sec && start.timers[k].ms == s0.timers[k].ms
    requires Timed(start, ran, before, readings) && j < |before.timers| && before.timers[j].uid == s0.timers[i].uid
    requires |b.timers| == |before.timers| && b.timers[j].uid == before.timers[j].uid
    requires forall k | 0 <= k < |b.timers| && k != j :: b.timers[k] == before.timers[k]
    requires 1000 * r.sec + r.ms >= 1000 * s0.timers[i].sec + s0.timers[i].ms
    ensures Timed(s0, ran + {s0.timers[i].uid}, b, readings + iset{r})
  {
    hide Right;
    var u0, all := s0.timers[i].uid, readings + iset{r};
    forall u, at ensures HasTime(s0.timers, u, at) <==> HasTime(start.timers, u, at) {}
    assert Uids(s0.timers) == Uids(start.timers);
    forall u, at | HasTime(b.timers, u, at) && u != u0 ensures HasTime(before.timers, u, at) {}
    assert Uids(s0.timers)[i] == u0;
    forall u, at | u in ran + {u0} && HasTime(s0.timers, u, at)
      ensures Passed(at, all)
    {
      if u == u0 {
        assert HasTime(s0.timers, u0, Time(s0.timers[i].sec, s0.timers[i].ms));
        OneTime(s0, u0, at, Time(s0.timers[i].sec, s0.timers[i].ms));
        assert r in all;
      } else {
        assert Passed(at, readings);
        var q :| q in readings && 1000 * q.sec + q.ms >= 1000 * at.sec + at.ms;
        assert q in all;
      }
    }
  }

  // ------------------------------------------------------------------ in a pass

  // How many of the visits read the clock, and how many ran a callback.
  function Checks(visits: seq<Visit>): nat {
    if visits == [] then 0
    else Checks(visits[..|visits| - 1]) + if visits[|visits| - 1].timer.id == DELETED then 0 else 1
  }

  function Fired(visits: seq<Visit>): nat {
    if visits == [] then 0 else Fired(visits[..|visits| - 1]) + if visits[|visits| - 1].ran then 1 else 0
  }

  // The readings are used one after the other.
  ghost predicate ReadInOrder(pass: Pass, visits: seq<Visit>) {
    forall k | 0 <= k < |visits| && visits[k].timer.id != DELETED :: visits[k].now == Reading(pass, Checks(visits[..k]))
  }

  // If the callback asked for that, the timer fires again that much later.
  ghost predicate FiredAt(timers: seq<Timer>, u: nat, call: Call) {
    call.again.Some? ==>
      forall at | HasTime(timers, u, at) :: 1000 * at.sec + at.ms == 1000 * call.now.sec + call.now.ms + call.again.value
  }

  // The callbacks are called one after the other, too.
  ghost predicate Rescheduled(pass: Pass, visits: seq<Visit>, timers: seq<Timer>) {
    forall k | 0 <= k < |visits| && visits[k].ran && Fired(visits[..k]) < |pass.calls| ::
      FiredAt(timers, visits[k].timer.uid, pass.calls[Fired(visits[..k])])
  }

  ghost predicate RanAre(visits: seq<Visit>, ran: set<nat>) {
    forall u :: u in ran <==> exists v | v in visits :: v.ran && v.timer.uid == u
  }

  // Each timer had, when it was looked at, the time it had at the start.
  ghost predicate OldTimes(start: seq<Timer>, visits: seq<Visit>) {
    forall v | v in visits :: HasTime(start, v.timer.uid, Time(v.timer.sec, v.timer.ms))
  }

  // In a pass without other passes in it.
  ghost predicate Flat(pass: Pass, start: Snapshot, visits: seq<Visit>, ran: set<nat>, now: Snapshot) {
    RanAre(visits, ran) && OldTimes(start.timers, visits) && Rescheduled(pass, visits, now.timers)
  }

  // What is known of the times when some timers were looked at.
  ghost predicate TimesSoFar(pass: Pass, start: Snapshot, visits: seq<Visit>, ran: set<nat>, now: Snapshot) {
    && Timed(start, ran, now, PassReadings(pass))
    && (forall v | v in visits :: v.timer.uid < start.created && (v.ran ==> v.timer.uid in ran))
    && (!Nests(pass) ==> Flat(pass, start, visits, ran, now))
  }

  lemma TimesStart(pass: Pass, start: Snapshot)
    ensures TimesSoFar(pass, start, [], {}, start) && ReadInOrder(pass, []) && Checks([]) == 0 == Fired([])
  {
    TimedNot(start, PassReadings(pass));
  }

  lemma ReadMore(pass: Pass, visits: seq<Visit>, v: Visit)
    requires ReadInOrder(pass, visits) && (v.timer.id != DELETED ==> v.now == Reading(pass, Checks(visits)))
    ensures ReadInOrder(pass, visits + [v])
    ensures Checks(visits + [v]) == Checks(visits) + if v.timer.id == DELETED then 0 else 1
    ensures Fired(visits + [v]) == Fired(visits) + if v.ran then 1 else 0
  {
    hide Reading;
    var more := visits + [v];
    assert more[..|visits|] == visits;
    forall k | 0 <= k < |more| && more[k].timer.id != DELETED
      ensures more[k].now == Reading(pass, Checks(more[..k]))
    {
      if k < |visits| { assert more[..k] == visits[..k]; } else { assert more[..k] == visits; }
    }
  }

  /** One more timer was looked at. */
  lemma TimesMore(pass: Pass, start: Snapshot, visits: seq<Visit>, ran: set<nat>, before: Snapshot, i: nat, v: Visit,
                  r: set<nat>, b: Snapshot)
    requires Right(start) && Right(before) && start.created <= before.created
    requires TimesSoFar(pass, start, visits, ran, before) && Timed(before, r, b, PassReadings(pass))
    requires i < |before.timers| && v.timer == before.timers[i] && v.timer.uid < start.created
    requires v.ran ==> v.timer.uid in r
    requires !Nests(pass) ==> r == (if v.ran then {v.timer.uid} else {}) && forall w | w in visits :: w.timer.uid != v.timer.uid
    requires v.ran && Fired(visits) < |pass.calls| ==> FiredAt(b.timers, v.timer.uid, pass.calls[Fired(visits)])
    ensures TimesSoFar(pass, start, visits + [v], ran + r, b)
  {
    hide Timed, Nests, Right, PassReadings, Rescheduled, OldTimes, RanAre;
    TimedTwice(start, ran, before, r, b, PassReadings(pass));
    forall w | w in visits + [v]
      ensures w.timer.uid < start.created && (w.ran ==> w.timer.uid in ran + r)
    {
      assert w in visits || w == v;
    }
    if !Nests(pass) {
      RanMore(visits, ran, v, r);
      OldMore(start, visits, ran, before, i, v, PassReadings(pass));
      RescheduledMore(pass, visits, before, v, r, b, PassReadings(pass), start, ran);
    }
  }

  lemma RanMore(visits: seq<Visit>, ran: set<nat>, v: Visit, r: set<nat>)
    requires RanAre(visits, ran) && r == if v.ran then {v.timer.uid} else {}
    ensures RanAre(visits + [v], ran + r)
  {
    var more := visits + [v];
    forall u
      ensures u in ran + r <==> exists w | w in more :: w.ran && w.timer.uid == u
    {
      if u in ran { var w :| w in visits && w.ran && w.timer.uid == u; assert w in more; }
      if u in r { assert v in more; }
      if w :| w in more && w.ran && w.timer.uid == u { assert w in visits || w == v; }
    }
  }

  lemma OldMore(start: Snapshot, visits: seq<Visit>, ran: set<nat>, before: Snapshot, i: nat, v: Visit, readings: iset<Time>)
    requires OldTimes(start.timers, visits) && Timed(start, ran, before, readings) && RanAre(visits, ran)
    requires i < |before.timers| && v.timer == before.timers[i] && v.timer.uid < start.created
    requires forall w | w in visits :: w.timer.uid != v.timer.uid
    ensures OldTimes(start.timers, visits + [v])
  {
    assert HasTime(before.timers, v.timer.uid, Time(v.timer.sec, v.timer.ms));
    assert v.timer.uid !in ran;
    assert HasTime(start.timers, v.timer.uid, Time(v.timer.sec, v.timer.ms));
    hide HasTime;
  }

  // A timer that did not run again keeps the time it was given.
  lemma StillFired(before: Snapshot, r: set<nat>, b: Snapshot, u: nat, call: Call, readings: iset<Time>)
    requires FiredAt(before.timers, u, call) && Timed(before, r, b, readings) && u !in r && u < before.created
    ensures FiredAt(b.timers, u, call)
  {
    hide HasTime;
  }

  lemma RescheduledMore(pass: Pass, visits: seq<Visit>, before: Snapshot, v: Visit, r: set<nat>, b: Snapshot,
                        readings: iset<Time>, start: Snapshot, ran: set<nat>)
    requires Rescheduled(pass, visits, before.timers) && Timed(before, r, b, readings)
    requires r == if v.ran then {v.timer.uid} else {}
    requires forall w | w in visits :: w.timer.uid != v.timer.uid
    requires RanAre(visits, ran) && Timed(start, ran, before, readings) && start.created <= before.created
    requires forall w | w in visits :: w.timer.uid < start.created
    requires v.ran && Fired(visits) < |pass.calls| ==> FiredAt(b.timers, v.timer.uid, pass.calls[Fired(visits)])
    ensures Rescheduled(pass, visits + [v], b.timers)
  {
    hide HasTime, Timed, FiredAt, Fired, RanAre;
    var more := visits + [v];
    forall k | 0 <= k < |more| && more[k].ran && Fired(more[..k]) < |pass.calls|
      ensures FiredAt(b.timers, more[k].timer.uid, pass.calls[Fired(more[..k])])
    {
      if k < |visits| {
        assert more[..k] == visits[..k] && more[k] == visits[k] && visits[k] in visits;
        StillFired(before, r, b, visits[k].timer.uid, pass.calls[Fired(visits[..k])], readings);
      } else {
        assert more[..k] == visits;
      }
    }
  }

  // The timer whose callback returned is there with the time it was given.
  lemma FiredIs(s: Snapshot, j: nat, was: Timer, call: Call)
    requires Right(s) && j < |s.timers| && Called(was, call.again, call.now, s.timers[j])
    ensures FiredAt(s.timers, s.timers[j].uid, call)
  {
    hide Right;
    var u, t := s.timers[j].uid, Time(s.timers[j].sec, s.timers[j].ms);
    assert HasTime(s.timers, u, t);
    forall at | HasTime(s.timers, u, at) ensures at == t { OneTime(s, u, at, t); }
  }

  predicate DueAt(t: Timer, now: Time) { 1000 * now.sec + now.ms >= 1000 * t.sec + t.ms }

  // The counters after one timer was looked at.
  predicate VisitCounted(pass: Pass, at: Counters, v: Visit, after: Counters) {
    && (v.timer.id != DELETED ==> v.now == Reading(pass, at.checks))
    && after.checks == at.checks + (if v.timer.id == DELETED then 0 else 1)
    && after.calls == at.calls + if v.ran then 1 else 0
  }

  // One timer was taken out.
  lemma TimesWithout(a: Snapshot, i: nat, b: Snapshot, readings: iset<Time>)
    requires i < |a.timers| && b.timers == a.timers[..i] + a.timers[i + 1..]
    ensures Timed(a, {}, b, readings)
  {
    forall k | 0 <= k < |b.timers| && b.timers[k].uid < a.created
      ensures HasTime(a.timers, b.timers[k].uid, Time(b.timers[k].sec, b.timers[k].ms))
    {
      assert b.timers[k] == a.timers[if k < i then k else k + 1];
    }
    SameTimes(a, b, readings);
  }

  // One timer was taken out, and then others ran.
  lemma TimesBeside(a: Snapshot, i: nat, b: Snapshot, ran: set<nat>, c: Snapshot, readings: iset<Time>)
    requires Right(a) && Right(b) && i < |a.timers| && b.timers == a.timers[..i] + a.timers[i + 1..] && b.created == a.created
    requires Timed(b, ran, c, readings)
    ensures Timed(a, ran, c, readings)
  {
    hide Timed, Right;
    TimesWithout(a, i, b, readings);
    TimedTwice(a, {}, b, ran, c, readings);
    assert {} + ran == ran;
  }

  // The timer that comes next is old, and was not looked at yet.
  lemma NotYetSeen(pass: Pass, s: Snapshot, front: seq<nat>, gone: set<nat>, visits: seq<Visit>, a: Snapshot, i: nat, maxId: int)
    requires Right(s) && PassAt(pass, s, front, gone, visits, a, i, maxId) && i < |a.timers|
    ensures a.timers[i].uid < s.created && s.created <= a.created
    ensures forall w | w in visits :: w.timer.uid != a.timers[i].uid
  {
    hide RanIfDue, IdsUpTo, Progress;
    var rest := Uids(a.timers)[i..];
    assert rest[0] == a.timers[i].uid && rest[0] in rest;
    UidsBelow(s, rest[0]);
    forall w | w in visits ensures w.timer.uid in VisitUids(visits) {
      var k :| 0 <= k < |visits| && visits[k] == w;
      assert VisitUids(visits)[k] == w.timer.uid;
    }
  }

  // The clock was set back before the pass began.
  lemma SecondsWere(pass: Pass, start: Snapshot, visits: seq<Visit>, ran: set<nat>, now: Snapshot)
    requires TimesSoFar(pass, start, visits, ran, now) && !Nests(pass)
    requires forall i | 0 <= i < |start.timers| :: start.timers[i].sec == 0
    ensures forall v | v in visits :: v.timer.sec == 0
  {
    hide Timed, Rescheduled, RanAre;
  }

  // ------------------------------------------------------------------- the results

  /** No pass runs a timer all of whose readings of the clock, those of nested passes included,
      are before its time; if it is still there, it has the same time. */
  lemma NeverEarly(pass: Pass, start: Snapshot, visits: seq<Visit>, ran: set<nat>, now: Snapshot, i: nat)
    requires Right(start) && TimesSoFar(pass, start, visits, ran, now) && i < |start.timers|
    requires forall r | ReadInPass(pass, r) :: 1000 * r.sec + r.ms < 1000 * start.timers[i].sec + start.timers[i].ms
    ensures
      var t := start.timers[i];
      && (forall v | v in visits && v.timer.uid == t.uid :: !v.ran)
      && forall at | HasTime(now.timers, t.uid, at) :: at == Time(t.sec, t.ms)
  {
    hide Right, ReadInPass;
    var t := start.timers[i];
    assert HasTime(start.timers, t.uid, Time(t.sec, t.ms));
    assert !Passed(Time(t.sec, t.ms), PassReadings(pass));
    assert t.uid !in ran;
    assert Uids(start.timers)[i] == t.uid;
    UidsBelow(start, t.uid);
    forall at | HasTime(now.timers, t.uid, at)
      ensures at == Time(t.sec, t.ms)
    {
      assert HasTime(start.timers, t.uid, at);
      OneTime(start, t.uid, at, Time(t.sec, t.ms));
    }
  }

  /** A pass with no other pass in it looks at every timer, at a reading of its own, and runs it
      exactly if that is not before its time, unless the timer was deleted meanwhile. A timer
      that did not run has the same time afterwards; one that did, and is to fire again, has
      the time its callback asked for. */
  lemma FiresInTime(pass: Pass, start: Snapshot, visits: seq<Visit>, gone: set<nat>, ran: set<nat>, now: Snapshot, i: nat)
    returns (k: nat)
    requires Right(start) && TimesSoFar(pass, start, visits, ran, now) && i < |start.timers| && !Nests(pass)
    requires PassDone(pass, start.timers, visits, gone) && ReadInOrder(pass, visits)
    ensures k < |visits| && visits[k].timer.uid == start.timers[i].uid
    ensures
      var t, v := start.timers[i], visits[k];
      var r, calls := Reading(pass, Checks(visits[..k])), Fired(visits[..k]);
      && v.timer.sec == t.sec && v.timer.ms == t.ms
      && (v.ran <==> v.timer.id != DELETED && 1000 * r.sec + r.ms >= 1000 * t.sec + t.ms)
      && forall at | HasTime(now.timers, t.uid, at) ::
           if !v.ran then at == Time(t.sec, t.ms)
           else calls < |pass.calls| && pass.calls[calls].again.Some? ==>
             1000 * at.sec + at.ms
             == 1000 * pass.calls[calls].now.sec + pass.calls[calls].now.ms + pass.calls[calls].again.value
  {
    hide Right, Reading, Nests, Checks, Fired, PassReadings, Dead, ExactlyDead, Quiet;
    var t := start.timers[i];
    assert Uids(start.timers)[i] == t.uid;
    UidsBelow(start, t.uid);
    var u :| 0 <= u < |VisitUids(visits)| && VisitUids(visits)[u] == t.uid;
    k := u;
    var v := visits[k];
    assert v in visits;
    assert HasTime(start.timers, t.uid, Time(t.sec, t.ms));
    OneTime(start, t.uid, Time(t.sec, t.ms), Time(v.timer.sec, v.timer.ms));
    OnlyVisit(visits, k);
    forall at | !v.ran && HasTime(now.timers, t.uid, at)
      ensures at == Time(t.sec, t.ms)
    {
      assert t.uid !in ran;
      OneTime(start, t.uid, at, Time(t.sec, t.ms));
    }
  }

  lemma OnlyVisit(visits: seq<Visit>, k: nat)
    requires NoDup(VisitUids(visits)) && k < |visits|
    ensures forall w | w in visits && w.timer.uid == visits[k].timer.uid :: w == visits[k]
  {
    forall w | w in visits && w.timer.uid == visits[k].timer.uid
      ensures w == visits[k]
    {
      var m :| 0 <= m < |visits| && visits[m] == w;
      assert VisitUids(visits)[m] == VisitUids(visits)[k];
    }
  }
}
