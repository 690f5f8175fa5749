/** Timers of the event loop, in their doubly linked list: callbacks and finalizers may
    create and delete timers and process the timers themselves while a pass over the list
    is under way. The walk follows the pointers of the list; when the one saved before a
    finalizer is still good is proved here too. */
module EventTimers {
  import opened Wrappers
  import opened TimerHistory
  import opened TimerTimes

  // --------------------------------------------------------------- timers in a list

  // alive is false once the object was unlinked to be freed.
  class TimeEvent {
    ghost const uid: nat
    const finalizer: bool
    var id: int
    var sec: int
    var ms: Millis
    var refs: nat
    var prev: TimeEvent?
    var next: TimeEvent?
    var alive: bool

    constructor (ghost uid: nat, id: int, at: Time, finalizer: bool, next: TimeEvent?)
      ensures View() == Timer(uid, id, at.sec, at.ms, finalizer, 0) && this.uid == uid
      ensures prev == null && this.next == next && alive
    {
      this.uid, this.id, this.finalizer := uid, id, finalizer;
      sec, ms, refs := at.sec, at.ms, 0;
      prev, this.next, alive := null, next, true;
    }

    ghost function View(): Timer
      reads this`id, this`sec, this`ms, this`refs
    {
      Timer(uid, id, sec, ms, finalizer, refs)
    }
  }

  ghost function At(nodes: seq<TimeEvent>, i: int): TimeEvent? { if 0 <= i < |nodes| then nodes[i] else null }

  ghost predicate LinkedAt(nodes: seq<TimeEvent>, i: nat)
    requires i < |nodes|
    reads nodes`prev, nodes`next, nodes`alive
  {
    nodes[i].prev == At(nodes, i - 1) && nodes[i].next == At(nodes, i + 1) && nodes[i].alive
  }

  // Neighbours in the sequence point to each other, and the ends to nothing.
  ghost predicate Linked(nodes: seq<TimeEvent>)
    reads nodes`prev, nodes`next, nodes`alive
  {
    forall i: nat | i < |nodes| :: LinkedAt(nodes, i)
  }

  ghost function TimersOf(nodes: seq<TimeEvent>): (r: seq<Timer>)
    reads nodes`id, nodes`sec, nodes`ms, nodes`refs
    ensures |r| == |nodes| && forall i | 0 <= i < |nodes| :: r[i] == nodes[i].View()
  {
    if nodes == [] then [] else [nodes[0].View()] + TimersOf(nodes[1..])
  }

  lemma TimersAre(nodes: seq<TimeEvent>, timers: seq<Timer>)
    requires |timers| == |nodes| && forall i | 0 <= i < |nodes| :: timers[i] == nodes[i].View()
    ensures TimersOf(nodes) == timers
  {
  }

  // --------------------------------------------------------------------- the loop

  class TimerLoop {
    var head: TimeEvent?
    var nextId: nat
    var lastTime: int
    ghost var nodes: seq<TimeEvent>     // from head on
    ghost var all: set<TimeEvent>       // made so far, freed or not
    ghost var created: nat              // their number
    ghost var finalized: seq<nat>       // whose finalizers ran
    ghost var resets: nat               // how often the clock was found set back

    ghost predicate Shaped()
      reads this`head, this`nodes, nodes`prev, nodes`next, nodes`alive
    {
      NoDup(nodes) && Linked(nodes) && head == At(nodes, 0)
    }

    // A timer is alive if and only if it is in the list; identities are given out once.
    ghost predicate Owned()
      reads this`nodes, this`created, this`all, all`alive
    {
      && (forall n | n in all :: n.uid < created && (n.alive <==> n in nodes))
      && (forall n, m | n in all && m in all && n.uid == m.uid :: n == m)
    }

    ghost predicate Valid()
      reads this, nodes, all
    {
      Right(Snap()) && Shaped() && Owned() && forall n | n in nodes :: n in all
    }

    ghost function Snap(): Snapshot
      reads this`nodes, this`created, this`nextId, this`finalized, nodes`id, nodes`sec, nodes`ms, nodes`refs
    {
      Snapshot(TimersOf(nodes), created, nextId, finalized)
    }

    constructor (now: int)
      ensures Valid() && nodes == [] && all == {} && finalized == [] && nextId == 0
    {
      head, nextId, lastTime, nodes, all, created, finalized := null, 0, now, [], {}, 0, [];
    }

    // A new timer, which points to the first one, becomes the first one.
    method LinkHead(te: TimeEvent)
      requires Shaped() && te !in nodes && te.prev == null && te.next == head && te.alive
      modifies this`head, this`nodes, nodes`prev
      ensures Shaped() && nodes == [te] + old(nodes)
      ensures TimersOf(nodes) == [old(te.View())] + old(TimersOf(nodes))
    {
      hide TimersOf, NoDup;
      ghost var was, timers := nodes, TimersOf(nodes);
      if te.next != null {
        assert LinkedAt(was, 0);
        te.next.prev := te;
      }
      head := te;
      nodes := [te] + nodes;
      forall i: nat | i < |nodes| ensures LinkedAt(nodes, i) && (i > 0 ==> nodes[i].View() == timers[i - 1]) {
        if i > 0 { assert nodes[i] == was[i - 1] && old(LinkedAt(was, i - 1)); }
      }
      NoDupFirst(te, was);
      TimersAre(nodes, [te.View()] + timers);
    }

    method CreateTimeEvent(delay: nat, now: Time, finalizer: bool) returns (id: nat)
      requires Valid()
      modifies this, nodes
      ensures Valid() && id == old(nextId) && nextId == id + 1
      ensures nodes != [] && fresh(nodes[0]) && nodes == [nodes[0]] + old(nodes) && all == old(all) + {nodes[0]}
      ensures
        var t := nodes[0].View();
        && Snap().timers == [t] + old(Snap()).timers
        && t == Timer(old(created), id, t.sec, t.ms, finalizer, 0)
        && 1000 * t.sec + t.ms == 1000 * now.sec + now.ms + delay
      ensures created == old(created) + 1 && finalized == old(finalized) && lastTime == old(lastTime) && resets == old(resets)
    {
      hide Right, TimersOf, Shaped, After;
      id := nextId;
      nextId := nextId + 1;
      var te := new TimeEvent(created, id, After(now, delay), finalizer, head);
      LinkHead(te);
      Adopt(te, old(Snap()));
    }

    // A new object is counted.
    ghost method Adopt(te: TimeEvent, was: Snapshot)
      requires Shaped() && Right(was)
      requires nodes != [] && nodes[0] == te && te.alive && te !in all && te.uid == created
      requires te.id == was.nextId && nextId == was.nextId + 1 && created == was.created && finalized == was.finalized
      requires TimersOf(nodes) == [te.View()] + was.timers
      requires forall n | n in nodes && n != te :: n in all
      requires forall n | n in all :: n.uid < created && (n.alive <==> n in nodes)
      requires forall n, m | n in all && m in all && n.uid == m.uid :: n == m
      modifies this`created, this`all
      ensures Valid() && created == old(created) + 1 && all == old(all) + {te}
    {
      hide Right, TimersOf;
      created, all := created + 1, all + {te};
      NewIsRight(was, te.View(), Snap());
    }

    /** The first timer with this identifier is marked; nothing is freed. */
    method DeleteTimeEvent(id: int) returns (ok: bool)
      requires Valid()
      modifies all`id, all`sec, all`ms, all`refs
      ensures Valid() && Uids(Snap().timers) == old(Uids(Snap().timers))
      ensures !ok ==> Snap() == old(Snap()) && forall i | 0 <= i < |nodes| :: Snap().timers[i].id != id
      ensures ok ==> exists i: nat ::
        && i < |nodes| && FirstWith(old(Snap()).timers, i, id)
        && Snap() == Stored(old(Snap()), i, old(Snap()).timers[i].(id := DELETED))
    {
      hide TimersOf, Right, NoDup;
      var te := head;
      ghost var i: nat := 0;
      while te != null
        invariant 0 <= i <= |nodes| && te == At(nodes, i) && forall j | 0 <= j < i :: nodes[j].id != id
        invariant Valid() && Snap() == old(Snap()) && forall n | n in nodes :: n.id == old(n.id)
        decreases |nodes| - i
      {
        assert LinkedAt(nodes, i);
        if te.id == id {
          Store(te, DELETED, Time(te.sec, te.ms), te.refs, i);
          return true;
        }
        te := te.next;
        i := i + 1;
      }
      return false;
    }

    // The mark, the time and the use count of one timer.
    method Store(te: TimeEvent, id: int, at: Time, refs: nat, ghost i: nat)
      requires Valid() && i < |nodes| && nodes[i] == te && (id == te.id || id == DELETED)
      modifies te`id, te`sec, te`ms, te`refs
      ensures Valid() && Snap() == Stored(old(Snap()), i, Timer(te.uid, id, at.sec, at.ms, te.finalizer, refs))
      ensures te.id == id && te.refs == refs && Uids(Snap().timers) == old(Uids(Snap().timers))
    {
      hide Right, TimersOf;
      ghost var was, s := nodes, Snap();
      te.id, te.sec, te.ms, te.refs := id, at.sec, at.ms, refs;
      forall k: nat | k < |nodes| ensures LinkedAt(nodes, k) { assert old(LinkedAt(was, k)); }
      TimersAre(nodes, s.timers[i := te.View()]);
      StoredIsRight(s, i, te.View());
    }

    /** A timer no other fires before, the first one of these. */
    method SearchNearestTimer() returns (nearest: TimeEvent?)
      requires Valid()
      ensures nearest == null <==> nodes == []
      ensures nearest != null ==> nearest in nodes && forall n | n in nodes :: !Sooner(n.View(), nearest.View())
    {
      hide Right, TimersOf, NoDup;
      var te := head;
      ghost var i := 0;
      nearest := null;
      while te != null
        invariant 0 <= i <= |nodes| && te == At(nodes, i) && (nearest == null <==> i == 0)
        invariant nearest != null ==>
          nearest in nodes && forall j | 0 <= j < i :: !Sooner(nodes[j].View(), nearest.View())
        decreases |nodes| - i
      {
        assert LinkedAt(nodes, i);
        if nearest == null || te.sec < nearest.sec || (te.sec == nearest.sec && te.ms < nearest.ms) { nearest := te; }
        te := te.next;
        i := i + 1;
      }
    }

    // The clock was set back: all timers are made due.
    method MakeAllDue()
      requires Valid()
      modifies nodes`sec
      ensures Valid() && Uids(Snap().timers) == old(Uids(Snap().timers))
      ensures
        var was, now := old(Snap()).timers, Snap().timers;
        |now| == |was| && forall i | 0 <= i < |now| :: now[i] == was[i].(sec := 0)
    {
      hide Right, TimersOf;
      var te := head;
      ghost var was, i := nodes, 0;
      while te != null
        invariant 0 <= i <= |nodes| && te == At(nodes, i) && Shaped()
        invariant forall j | 0 <= j < |nodes| :: nodes[j].sec == if j < i then 0 else old(nodes[j].sec)
        decreases |nodes| - i
      {
        assert LinkedAt(nodes, i);
        te.sec := 0;
        forall k: nat | k < |nodes| ensures LinkedAt(nodes, k) { assert old(LinkedAt(was, k)); }
        te := te.next;
        i := i + 1;
      }
      AllDue(old(Snap()), Snap());
    }

    // ---------------------------------------------------------------- processing

    // A timer is taken out: its neighbours point to each other.
    method LinkOut(te: TimeEvent, ghost i: nat)
      requires Shaped() && i < |nodes| && nodes[i] == te
      modifies this`head, this`nodes, nodes`prev, nodes`next, te`alive
      ensures Shaped() && nodes == old(nodes)[..i] + old(nodes)[i + 1..]
      ensures !te.alive && forall n :: n in nodes <==> n in old(nodes) && n != te
    {
      ghost var was := nodes;
      assert LinkedAt(was, i) && (i > 0 ==> LinkedAt(was, i - 1)) && (i + 1 < |was| ==> LinkedAt(was, i + 1));
      if te.prev != null { te.prev.next := te.next; } else { head := te.next; }
      if te.next != null { te.next.prev := te.prev; }
      te.alive := false;
      nodes := nodes[..i] + nodes[i + 1..];
      forall k: nat | k < |nodes| ensures LinkedAt(nodes, k) {
        if k < i { assert nodes[k] == was[k] && old(LinkedAt(was, k)); }
        else { assert nodes[k] == was[k + 1] && old(LinkedAt(was, k + 1)); }
      }
      assert was == was[..i] + [te] + was[i + 1..];
    }

    // A deleted timer is unlinked to be freed.
    method Unlink(te: TimeEvent, ghost i: nat)
      requires Valid() && i < |nodes| && nodes[i] == te && te.refs == 0
      modifies this`head, this`nodes, this`finalized, nodes`prev, nodes`next, te`alive
      ensures Valid() && nodes == old(nodes)[..i] + old(nodes)[i + 1..]
      ensures Snap().timers == old(Snap()).timers[..i] + old(Snap()).timers[i + 1..] && created == old(created)
      ensures Grown(old(Snap()), [], {te.uid}, Snap())
    {
      hide Right, TimersOf, Shaped, Grown;
      ghost var s := Snap();
      LinkOut(te, i);
      TimersAre(nodes, s.timers[..i] + s.timers[i + 1..]);
      if te.finalizer { finalized := finalized + [te.uid]; }
      OneFreed(s, i, Snap());
    }

    // What was the k-th timer, if it was not freed, is still there: that very object.
    lemma StillThere(te: TimeEvent, a: Snapshot, k: nat, front: seq<nat>, gone: set<nat>) returns (j: nat)
      requires Valid() && Right(a) && k < |a.timers| && te in all
      requires a.timers[k].uid == te.uid && Grown(a, front, gone, Snap()) && te.uid !in gone
      ensures j < |nodes| && nodes[j] == te && Snap().timers[j] == te.View()
      ensures Uids(Snap().timers)[j + 1..] == Without(Uids(a.timers)[k + 1..], gone)
      ensures Snap().timers[j].refs == a.timers[k].refs
      ensures te.id == a.timers[k].id || te.id == DELETED
    {
      hide Grown, TimersOf, Without, Was, Right, Shaped;
      j := Survives(a, front, gone, Snap(), k);
      assert nodes[j].View() == Snap().timers[j] && nodes[j] in all;
      CallbackPlace(a, k, front, gone, Snap(), j);
    }

    lemma NextIsBehind(i: nat)
      requires Valid() && i < |nodes|
      ensures nodes[i].next == At(nodes, i + 1)
    {
      assert LinkedAt(nodes, i);
    }

    lemma HeadIsFirst()
      requires Valid()
      ensures head == At(nodes, 0)
    {
    }

    // The timer whose address was saved is alive exactly if it was not freed.
    lemma SavedNext(next: TimeEvent, a: Snapshot, i: nat, front: seq<nat>, gone: set<nat>) returns (j: nat)
      requires Valid() && Right(a) && i < |a.timers| && next in all
      requires a.timers[i].uid == next.uid && Grown(a, front, gone, Snap())
      ensures next.alive <==> next.uid !in gone
      ensures next.alive ==> j < |nodes| && nodes[j] == next
      ensures next.alive ==> Uids(Snap().timers)[j..] == Without(Uids(a.timers)[i..], gone)
    {
      hide TimersOf, Without, Was, Right, Shaped, FreedRightly;
      j := 0;
      var us, now := Uids(a.timers), Uids(Snap().timers);
      assert us[i] == next.uid;
      if next.uid in gone {
        FreedIsOut(a, i, front, gone, Snap());
        assert forall k | 0 <= k < |nodes| :: now[k] == nodes[k].uid;
      } else {
        j := StillThere(next, a, i, front, gone);
        assert us[i..] == [us[i]] + us[i + 1..] && now[j..] == [now[j]] + now[j + 1..];
        WithoutFirst(us[i..], gone);
      }
    }

    /** The callback of a timer: any creations, deletions and passes over the list. The
        timer itself stays in the list, and its pointer leads to what is behind it then. */
    method RunCallback(te: TimeEvent, call: Call, now: Time, ghost i: nat)
      returns (ok: bool, ghost j: nat, ghost front: seq<nat>, ghost gone: set<nat>, ghost ran: set<nat>)
      requires Valid() && i < |nodes| && nodes[i] == te && 1000 * now.sec + now.ms >= 1000 * te.sec + te.ms
      modifies this, all
      ensures Valid() && (TameActions(call.actions) ==> ok)
      ensures ok ==>
        && Grown(old(Snap()), front, gone, Snap()) && old(all) <= all && fresh(all - old(all))
        && j < |nodes| && nodes[j] == te
        && Uids(Snap().timers)[j + 1..] == Without(Uids(old(Snap()).timers)[i + 1..], gone)
        && Called(old(te.View()), call.again, call.now, te.View())
        && (NoPass(call.actions) ==> gone == {} && ran == {te.uid} && resets == old(resets) && lastTime == old(lastTime))
        && (OnlyCreates(call.actions) ==> Snap().timers[j + 1..] == old(Snap()).timers[i + 1..])
        && te.uid in ran
        && resets >= old(resets)
        && (resets == old(resets) ==> Timed(old(Snap()), ran, Snap(), ActionsReadings(call.actions) + iset{now}))
      decreases call, 2
    {
      hide Right, Grown, Without, Was, Shaped, TimersOf, Owned, Ends, Called, NoPass, Timed;
      j, ran := 0, {};
      ghost var start: Snapshot;
      ok, start, front, gone, ran := HoldAndRun(te, call.actions, i);
      if !ok { return; }
      ghost var mid := Snap();
      j := Release(te, call.again, call.now, old(Snap()), i, start, front, gone);
      if resets == old(resets) {
        TimedHeld(old(Snap()), i, start, ran, mid, j, Snap(), ActionsReadings(call.actions), now);
      }
      ran := ran + {te.uid};
      if OnlyCreates(call.actions) { PlaceHeld(old(Snap()), i, start, mid, j); }
    }

    // The timer is in use while its callback runs.
    method HoldAndRun(te: TimeEvent, actions: seq<Action>, ghost i: nat)
      returns (ok: bool, ghost start: Snapshot, ghost front: seq<nat>, ghost gone: set<nat>, ghost ran: set<nat>)
      requires Valid() && i < |nodes| && nodes[i] == te
      modifies this, all
      ensures Valid() && (TameActions(actions) ==> ok)
      ensures ok ==>
        && te in all && old(all) <= all && fresh(all - old(all))
        && old(Snap()).timers[i] == old(te.View())
        && Right(old(Snap())) && Right(start) && te.uid == old(Snap()).timers[i].uid
        && start == Stored(old(Snap()), i, old(Snap()).timers[i].(refs := old(Snap()).timers[i].refs + 1))
        && Grown(start, front, gone, Snap())
        && (NoPass(actions) ==> gone == {} && ran == {} && resets == old(resets) && lastTime == old(lastTime))
        && (OnlyCreates(actions) ==> Ends(Snap().timers, start.timers))
        && resets >= old(resets) && (resets == old(resets) ==> Timed(start, ran, Snap(), ActionsReadings(actions)))
      decreases actions, 2
    {
      hide Right, Grown, Without, Was, Shaped, TimersOf, Owned, Ends, NoPass, Timed;
      assert Snap().timers[i] == te.View();
      Store(te, te.id, Time(te.sec, te.ms), te.refs + 1, i);
      start := Snap();
      ok, front, gone, ran := RunActions(actions);
    }

    // The callback has returned; te was the i-th timer when it was called.
    method Release(te: TimeEvent, again: Option<nat>, now: Time, ghost s0: Snapshot, ghost i: nat, ghost start: Snapshot,
                   ghost front: seq<nat>, ghost gone: set<nat>) returns (ghost j: nat)
      requires Valid() && te in all && Right(s0) && i < |s0.timers| && Right(start)
      requires te.uid == s0.timers[i].uid && start == Stored(s0, i, s0.timers[i].(refs := s0.timers[i].refs + 1))
      requires Grown(start, front, gone, Snap())
      modifies te`id, te`sec, te`ms, te`refs
      ensures Valid() && Grown(s0, front, gone, Snap()) && j < |nodes| && nodes[j] == te && nodes == old(nodes)
      ensures Uids(Snap().timers)[j + 1..] == Without(Uids(s0.timers)[i + 1..], gone)
      ensures |Snap().timers| == |old(Snap()).timers| && Snap().timers[j + 1..] == old(Snap()).timers[j + 1..]
      ensures forall k | 0 <= k < |Snap().timers| && k != j :: Snap().timers[k] == old(Snap()).timers[k]
      ensures Snap().timers[j] == te.View()
      ensures old(Snap()).timers[j].uid == te.uid && Called(s0.timers[i], again, now, te.View())
    {
      hide Right, Grown, Without, Was, Shaped, TimersOf, Owned;
      InUseStays(start, i, front, gone, Snap());
      j := StillThere(te, start, i, front, gone);
      ghost var before := Snap();
      assert Snap().timers[j] == te.View();
      if again.Some? {
        var at := After(now, again.value);
        Store(te, te.id, at, te.refs - 1, j);
      } else {
        Store(te, DELETED, Time(te.sec, te.ms), te.refs - 1, j);
      }
      HeldAgain(s0, i, start, front, gone, before, j, Snap());
      assert Uids(start.timers) == Uids(s0.timers);
    }

    /** What a callback or a finalizer does. It is not finished if the walk of a pass in it
        would go on at a timer that was freed. */
    method RunActions(actions: seq<Action>)
      returns (ok: bool, ghost front: seq<nat>, ghost gone: set<nat>, ghost ran: set<nat>)
      requires Valid()
      modifies this, all
      ensures Valid() && (TameActions(actions) ==> ok)
      ensures ok ==>
        && Grown(old(Snap()), front, gone, Snap()) && old(all) <= all && fresh(all - old(all))
        && (NoPass(actions) ==> gone == {} && ran == {} && resets == old(resets) && lastTime == old(lastTime))
        && (OnlyCreates(actions) ==> Ends(Snap().timers, old(Snap()).timers))
        && (OnePass(actions) ==> ExactlyDead(old(Snap()).timers, gone))
        && resets >= old(resets) && (resets == old(resets) ==> Timed(old(Snap()), ran, Snap(), ActionsReadings(actions)))
      decreases actions, 1
    {
      hide Right, Shaped, TimersOf, Tame, Ends, ExactlyDead, Owned, Timed, Evolved, FreedRightly, Was;
      ok, front, gone, ran := true, [], {}, {};
      ghost var all0 := ActionsReadings(actions);
      TimedNot(Snap(), all0);
      EndsItself(Snap().timers);
      GrownNot(Snap());
      ghost var s0 := Snap();
      for k := 0 to |actions|
        invariant Valid() && ok && Grown(s0, front, gone, Snap()) && old(all) <= all && fresh(all - old(all))
        invariant NoPass(actions) ==> gone == {} && ran == {} && resets == old(resets) && lastTime == old(lastTime)
        invariant resets >= old(resets) && (resets == old(resets) ==> Timed(s0, ran, Snap(), all0))
        invariant OnlyCreates(actions) ==> Ends(Snap().timers, s0.timers)
        invariant k == 0 ==> Snap() == s0 && gone == {}
        invariant k == 1 && OnePass(actions) ==> ExactlyDead(s0.timers, gone)
      {
        ghost var before := Snap();
        assert actions[k] in actions;
        ghost var f, g, r, resets0 := [], {}, {}, resets;
        ok, f, g, r := RunAction(actions[k]);
        if !ok { return; }
        if resets == old(resets) {
          ActionRead(actions, actions[k]);
          TimedMore(before, r, Snap(), ActionReadings(actions[k]), all0);
          TimedTwice(s0, ran, before, r, Snap(), all0);
        }
        ran := ran + r;
        if OnlyCreates(actions) { EndsTwice(Snap().timers, before.timers, s0.timers); }
        front := GrownTwice(s0, front, gone, before, f, g, Snap());
        assert {} + g == g;
        gone := gone + g;
      }
    }

    method RunAction(action: Action)
      returns (ok: bool, ghost front: seq<nat>, ghost gone: set<nat>, ghost ran: set<nat>)
      requires Valid()
      modifies this, all
      ensures Valid() && (TameAction(action) ==> ok)
      ensures ok ==>
        && Grown(old(Snap()), front, gone, Snap()) && old(all) <= all && fresh(all - old(all))
        && (!action.Process? ==> gone == {} && ran == {} && resets == old(resets) && lastTime == old(lastTime))
        && resets >= old(resets) && (resets == old(resets) ==> Timed(old(Snap()), ran, Snap(), ActionReadings(action)))
        && (action.Create? ==> Ends(Snap().timers, old(Snap()).timers))
        && (action.Process? && Quiet(action.pass) ==> ExactlyDead(old(Snap()).timers, gone))
      decreases action, 0
    {
      hide Right, Shaped, TimersOf, ReadInPass, Grown, Timed, Owned, ExactlyDead, Dead;
      ok, front, gone, ran := true, [], {}, {};
      match action
      case Create(delay, now, finalizer) =>
        var id := CreateTimeEvent(delay, now, finalizer);
        front := [old(created)];
        OneCreated(old(Snap()), Snap());
        TimesBehind(old(Snap()), Snap(), ActionReadings(action));
      case Delete(id) =>
        var found := DeleteTimeEvent(id);
        SameObjects(old(Snap()), Snap());
        TimesAsBefore(old(Snap()), Snap(), ActionReadings(action));
      case Process(pass) =>
        ghost var visits;
        ok, visits, front, gone, ran := ProcessTimeEvents(pass);
        ProcessRead(action);
    }

    // A timer that is due. Callbacks beyond those given do nothing.
    method FireTimer(te: TimeEvent, pass: Pass, c: nat, now: Time, ghost i: nat)
      returns (ok: bool, ghost j: nat, ghost front: seq<nat>, ghost gone: set<nat>, ghost ran: set<nat>)
      requires Valid() && i < |nodes| && nodes[i] == te
      requires 1000 * now.sec + now.ms >= 1000 * te.sec + te.ms && now in PassReadings(pass)
      modifies this, all
      ensures Valid() && (CallsTame(pass) ==> ok)
      ensures ok ==>
        && Grown(old(Snap()), front, gone, Snap()) && old(all) <= all && fresh(all - old(all))
        && j < |nodes| && nodes[j] == te
        && Uids(Snap().timers)[j + 1..] == Without(Uids(old(Snap()).timers)[i + 1..], gone)
        && (c < |pass.calls| ==> Called(old(te.View()), pass.calls[c].again, pass.calls[c].now, te.View()))
        && (!Nests(pass) ==> gone == {} && ran == {te.uid} && resets == old(resets) && lastTime == old(lastTime))
        && te.uid in ran
        && resets >= old(resets) && (resets == old(resets) ==> Timed(old(Snap()), ran, Snap(), PassReadings(pass)))
        && (CallsCreate(pass) ==> Snap().timers[j + 1..] == old(Snap()).timers[i + 1..])
      decreases pass, 0
    {
      hide Right, Grown, Without, Was, Shaped, TimersOf, Timed, PassReadings, ActionsReadings;
      ghost var s0 := Snap();
      if c < |pass.calls| {
        assert pass.calls[c] in pass.calls;
        ok, j, front, gone, ran := RunCallback(te, pass.calls[c], now, i);
        if ok && resets == old(resets) {
          PartsRead(pass, pass.calls[c].actions);
          TimedMore(s0, ran, Snap(), ActionsReadings(pass.calls[c].actions) + iset{now}, PassReadings(pass));
        }
      } else {
        ok, j, ran := true, i, {te.uid};
        front, gone := NoCall(te, pass, now, i);
      }
    }

    // A callback beyond those given: the timer is to be freed.
    method NoCall(te: TimeEvent, pass: Pass, now: Time, ghost i: nat) returns (ghost front: seq<nat>, ghost gone: set<nat>)
      requires Valid() && i < |nodes| && nodes[i] == te
      requires 1000 * now.sec + now.ms >= 1000 * te.sec + te.ms && now in PassReadings(pass)
      modifies te`id, te`sec, te`ms, te`refs
      ensures Valid() && front == [] && gone == {} && Grown(old(Snap()), front, gone, Snap())
      ensures Uids(Snap().timers)[i + 1..] == Without(Uids(old(Snap()).timers)[i + 1..], gone)
      ensures Snap().timers[i + 1..] == old(Snap()).timers[i + 1..]
      ensures Timed(old(Snap()), {te.uid}, Snap(), PassReadings(pass))
    {
      hide Right, Grown, Without, Was, Shaped, TimersOf, Timed, PassReadings;
      ghost var s0 := Snap();
      assert s0.timers[i] == te.View();
      front, gone := [], {};
      TimedNot(s0, PassReadings(pass));
      Store(te, DELETED, Time(te.sec, te.ms), te.refs, i);
      TimedHeld(s0, i, s0, {}, s0, i, Snap(), PassReadings(pass), now);
      assert {} + {te.uid} == {te.uid} && PassReadings(pass) + iset{now} == PassReadings(pass);
      SameObjects(s0, Snap());
      WithoutNothing(Uids(Snap().timers)[i + 1..], {});
    }

    /** A deleted timer that is not in use is freed. The walk is to go on at the timer behind
        it, whose address was read before the finalizer ran: that works if and only if the
        finalizer did not free that one. A finalizer that does not process the timers never
        does; one that processes them once, with callbacks that only create timers, does
        exactly if the timer behind was deleted and is not in use. */
    method Reap(te: TimeEvent, pass: Pass, f: nat, ghost i: nat)
      returns (ok: bool, next: TimeEvent?, ghost j: nat, ghost front: seq<nat>, ghost gone: set<nat>, ghost ran: set<nat>)
      requires Valid() && i < |nodes| && nodes[i] == te && te.refs == 0
      modifies this, all
      ensures Valid()
      ensures ok ==>
        && Grown(old(Snap()), front, gone, Snap()) && old(all) <= all && fresh(all - old(all))
        && te.uid in gone && j <= |nodes| && next == At(nodes, j)
        && Uids(Snap().timers)[j..] == Without(Uids(old(Snap()).timers)[i + 1..], gone)
        && resets >= old(resets) && (resets == old(resets) ==> Timed(old(Snap()), ran, Snap(), PassReadings(pass)))
      ensures NoPass(Finale(pass, f, te.finalizer)) ==>
        ok && gone == {te.uid} && ran == {} && resets == old(resets) && lastTime == old(lastTime)
      ensures OnlyCreates(Finale(pass, f, te.finalizer)) ==> Snap().timers[j..] == old(Snap()).timers[i + 1..]
      ensures OnePass(Finale(pass, f, te.finalizer)) ==>
        (ok <==> i + 1 == |old(nodes)| || !DeadAt(old(Snap()).timers, i + 1))
      decreases pass, 1
    {
      hide Right, Grown, Without, Was, Shaped, TimersOf, Owned, TameActions, Quiet, ExactlyDead, Ends, DeadAt, NoDup, Finale,
        Timed, PassReadings;
      NextIsBehind(i);
      next := te.next;
      ghost var s0 := Snap();
      Unlink(te, i);
      ghost var s1, actions := Snap(), Finale(pass, f, te.finalizer);
      ghost var g: set<nat>;
      ok, front, g, ran := Finalize(te.finalizer, pass, f);
      gone, j := {te.uid} + g, |nodes|;
      if !ok { return; }
      if resets == old(resets) { TimesBeside(s0, i, s1, ran, Snap(), PassReadings(pass)); }
      if OnePass(actions) && next != null { DeadBehind(s0, s1, i, g); }
      ok, j, front := Resume(next, s0, te, i, s1, actions, front, g);
    }

    // Runs the f-th finalizer, if there is one.
    method Finalize(finalizer: bool, pass: Pass, f: nat)
      returns (ok: bool, ghost front: seq<nat>, ghost gone: set<nat>, ghost ran: set<nat>)
      requires Valid()
      modifies this, all
      ensures
        var actions := Finale(pass, f, finalizer);
        && Valid()
        && (NoPass(actions) ==> ok && gone == {} && ran == {} && resets == old(resets) && lastTime == old(lastTime))
        && (ok ==> resets >= old(resets) && (resets == old(resets) ==> Timed(old(Snap()), ran, Snap(), PassReadings(pass))))
        && (OnePass(actions) ==> ok && ExactlyDead(old(Snap()).timers, gone))
        && (ok ==> Grown(old(Snap()), front, gone, Snap()) && old(all) <= all && fresh(all - old(all)))
        && (OnlyCreates(actions) ==> Ends(Snap().timers, old(Snap()).timers))
      decreases pass, 0
    {
      hide Right, Grown, Shaped, TimersOf, Owned, Quiet, ExactlyDead, Ends, Timed, PassReadings, ActionsReadings;
      ghost var actions := Finale(pass, f, finalizer);
      ok, front, gone, ran := true, [], {}, {};
      GrownNot(Snap());
      TimedNot(Snap(), PassReadings(pass));
      EndsItself(Snap().timers);
      if finalizer && f < |pass.finals| {
        assert pass.finals[f] in pass.finals;
        if NoPass(actions) { NoPassIsTame(actions); }
        if OnePass(actions) { OnePassIsTame(actions); }
        ghost var s0 := Snap();
        ok, front, gone, ran := RunActions(pass.finals[f].actions);
        if ok && resets == old(resets) {
          PartsRead(pass, pass.finals[f].actions);
          TimedMore(s0, ran, Snap(), ActionsReadings(pass.finals[f].actions), PassReadings(pass));
        }
      }
    }

    // Goes on at the saved timer behind the one that was freed, if that is alive.
    method Resume(next: TimeEvent?, ghost s0: Snapshot, ghost te: TimeEvent, ghost i: nat, ghost s1: Snapshot,
                  ghost actions: seq<Action>, ghost f: seq<nat>, ghost g: set<nat>)
      returns (ok: bool, ghost j: nat, ghost front: seq<nat>)
      requires Valid() && Right(s0) && Right(s1) && i < |s0.timers| && s0.timers[i].uid == te.uid
      requires s1.timers == s0.timers[..i] + s0.timers[i + 1..]
      requires Grown(s0, [], {te.uid}, s1) && Grown(s1, f, g, Snap())
      requires next == null <==> i + 1 == |s0.timers|
      requires next != null ==> next in all && next.uid == s0.timers[i + 1].uid
      requires OnlyCreates(actions) ==> Ends(Snap().timers, s1.timers)
      ensures ok <==> next == null || next.uid !in g
      ensures ok ==>
        && Grown(s0, front, {te.uid} + g, Snap()) && j <= |nodes| && next == At(nodes, j)
        && Uids(Snap().timers)[j..] == Without(Uids(s0.timers)[i + 1..], {te.uid} + g)
        && (OnlyCreates(actions) ==> Snap().timers[j..] == s0.timers[i + 1..])
    {
      hide Right, Grown, Without, Was, Shaped, TimersOf, Owned;
      ok := next == null || next.alive;
      front := GrownTwice(s0, [], {te.uid}, s1, f, g, Snap());
      j := |nodes|;
      BehindFreed(s0, i, g);
      assert Uids(s1.timers)[i..] == Uids(s0.timers)[i + 1..];
      if next != null {
        j := SavedNext(next, s1, i, f, g);
        if ok && OnlyCreates(actions) {
          assert Snap().timers[j].uid == next.uid;
          SamePlace(s1, Snap(), i, j);
        }
      } else {
        NothingLeft(Uids(s0.timers)[i + 1..], {te.uid} + g);
      }
    }

    // A timer that is not due, or in use: nothing happens to it.
    method Skip(te: TimeEvent, ghost i: nat)
      returns (next: TimeEvent?, ghost front: seq<nat>, ghost gone: set<nat>)
      requires Valid() && i < |nodes| && nodes[i] == te
      ensures next == At(nodes, i + 1) && front == [] && gone == {} && Grown(Snap(), front, gone, Snap())
      ensures Uids(Snap().timers)[i + 1..] == Without(Uids(Snap().timers)[i + 1..], gone)
    {
      hide Right, Grown, Without, Shaped, TimersOf, Owned;
      NextIsBehind(i);
      next, front, gone := te.next, [], {};
      GrownNot(Snap());
      WithoutNothing(Uids(Snap().timers)[i + 1..], {});
    }

    // A timer that was deleted.
    method VisitDeleted(te: TimeEvent, pass: Pass, f: nat, ghost i: nat)
      returns (ok: bool, next: TimeEvent?, ghost j: nat, ghost front: seq<nat>, ghost gone: set<nat>, ghost ran: set<nat>)
      requires Valid() && i < |nodes| && nodes[i] == te && te.id == DELETED
      modifies this, all
      ensures Valid() && Stepped(pass, f, old(Snap()).timers, i, ok, Snap().timers, j)
      ensures ok ==>
        && Grown(old(Snap()), front, gone, Snap()) && old(all) <= all && fresh(all - old(all))
        && j <= |nodes| && next == At(nodes, j)
        && Uids(Snap().timers)[j..] == Without(Uids(old(Snap()).timers)[i + 1..], gone)
        && Visited(pass, old(Snap()).timers, i, Snap().timers, j, gone)
        && (!Nests(pass) ==> ran == {} && resets == old(resets) && lastTime == old(lastTime))
        && resets >= old(resets) && (resets == old(resets) ==> Timed(old(Snap()), ran, Snap(), PassReadings(pass)))
      decreases pass, 2
    {
      hide Right, Grown, Without, Was, Shaped, TimersOf, Owned, Quiet, TameActions, Timed, PassReadings;
      ran := {};
      TimedNot(Snap(), PassReadings(pass));
      assert Snap().timers[i] == te.View();
      if te.refs > 0 {
        ok, j := true, i + 1;
        next, front, gone := Skip(te, i);
        return;
      }
      FinaleFacts(pass, f, te.finalizer);
      ok, next, j, front, gone, ran := Reap(te, pass, f, i);
    }

    // A timer that was not deleted.
    method VisitLive(te: TimeEvent, pass: Pass, c: nat, now: Time, ghost i: nat)
      returns (ok: bool, next: TimeEvent?, ghost j: nat, ghost front: seq<nat>, ghost gone: set<nat>, ghost ran: set<nat>)
      requires Valid() && i < |nodes| && nodes[i] == te && te.id != DELETED && now in PassReadings(pass)
      modifies this, all
      ensures Valid() && (CallsTame(pass) ==> ok)
      ensures ok && CallsCreate(pass) ==> j <= |nodes| && Snap().timers[j..] == old(Snap()).timers[i + 1..]
      ensures ok ==>
        && Grown(old(Snap()), front, gone, Snap()) && old(all) <= all && fresh(all - old(all))
        && j <= |nodes| && next == At(nodes, j)
        && Uids(Snap().timers)[j..] == Without(Uids(old(Snap()).timers)[i + 1..], gone)
        && Visited(pass, old(Snap()).timers, i, Snap().timers, j, gone)
        && (DueAt(old(te.View()), now) ==> te.uid in ran)
        && (DueAt(old(te.View()), now) && c < |pass.calls| ==> FiredAt(Snap().timers, te.uid, pass.calls[c]))
        && (!Nests(pass) ==>
              ran == (if DueAt(old(te.View()), now) then {te.uid} else {}) && resets == old(resets) && lastTime == old(lastTime))
        && resets >= old(resets) && (resets == old(resets) ==> Timed(old(Snap()), ran, Snap(), PassReadings(pass)))
      decreases pass, 2
    {
      hide Right, Grown, Without, Was, Shaped, TimersOf, Owned, CallsCreate, CallsTame, Nests, Timed, PassReadings, Called,
        FiredAt;
      assert Snap().timers[i] == te.View();
      if Quiet(pass) { QuietIsTame(pass); }
      next := null;
      if now.sec > te.sec || (now.sec == te.sec && now.ms >= te.ms) {
        ok, j, front, gone, ran := FireTimer(te, pass, c, now, i);
        if !ok { return; }
        assert Snap().timers[j] == te.View();
        if c < |pass.calls| { FiredIs(Snap(), j, old(te.View()), pass.calls[c]); }
        NextIsBehind(j);
        next, j := te.next, j + 1;
      } else {
        ok, j, ran := true, i + 1, {};
        TimedNot(Snap(), PassReadings(pass));
        next, front, gone := Skip(te, i);
      }
    }

    // One timer.
    method VisitTimer(te: TimeEvent, pass: Pass, at: Counters, ghost i: nat)
      returns (ok: bool, next: TimeEvent?, after: Counters, ghost v: Visit, ghost j: nat, ghost front: seq<nat>,
               ghost gone: set<nat>, ghost ran: set<nat>)
      requires Valid() && i < |nodes| && nodes[i] == te
      modifies this, all
      ensures Valid() && Stepped(pass, at.finals, old(Snap()).timers, i, ok, Snap().timers, j)
      ensures after.finals == NextFinals(old(Snap()).timers, i, at.finals)
      ensures ok ==>
        && Grown(old(Snap()), front, gone, Snap()) && old(all) <= all && fresh(all - old(all))
        && j <= |nodes| && next == At(nodes, j)
        && Uids(Snap().timers)[j..] == Without(Uids(old(Snap()).timers)[i + 1..], gone)
        && Visited(pass, old(Snap()).timers, i, Snap().timers, j, gone)
        && v.timer == old(Snap()).timers[i] && RanIfDue([v])
        && VisitCounted(pass, at, v, after)
        && (v.ran ==> te.uid in ran && (at.calls < |pass.calls| ==> FiredAt(Snap().timers, te.uid, pass.calls[at.calls])))
        && (!Nests(pass) ==> ran == (if v.ran then {te.uid} else {}) && resets == old(resets) && lastTime == old(lastTime))
        && resets >= old(resets) && (resets == old(resets) ==> Timed(old(Snap()), ran, Snap(), PassReadings(pass)))
      decreases pass, 3
    {
      hide Right, Grown, Without, Was, Shaped, TimersOf, Owned, Quiet, Tame, Visited, Nests, Timed, PassReadings, FiredAt;
      ghost var view := te.View();
      assert Snap().timers[i] == view;
      if te.id == DELETED {
        v := Visit(view, Time(pass.clock, 0), false);
        after := if te.refs == 0 && te.finalizer then at.(finals := at.finals + 1) else at;
        ok, next, j, front, gone, ran := VisitDeleted(te, pass, at.finals, i);
      } else {
        var now := if at.checks < |pass.times| then pass.times[at.checks] else Time(pass.clock, 0);
        ReadingIn(pass, at.checks);
        var due := now.sec > te.sec || (now.sec == te.sec && now.ms >= te.ms);
        v := Visit(view, now, due);
        after := at.(checks := at.checks + 1, calls := if due then at.calls + 1 else at.calls);
        ok, next, j, front, gone, ran := VisitLive(te, pass, at.calls, now, i);
      }
    }

    /** One pass. No timer created meanwhile is looked at; of the timers there at the start
        each is looked at once, unless a pass inside a callback freed it before; those that
        are due and not deleted run their callbacks; those that were deleted and are not in
        use are freed. The check of identifiers against the largest one at the start never
        finds anything. Not ok: the walk would go on at a timer that a finalizer freed. If
        callbacks only create timers and one finalizer, the q-th, processes them, that happens
        exactly if the q-th timer freed that has a finalizer stood, at the start, in front of
        another one to be freed. */
    method ProcessTimeEvents(pass: Pass)
      returns (ok: bool, ghost visits: seq<Visit>, ghost front: seq<nat>, ghost gone: set<nat>, ghost ran: set<nat>)
      requires Valid()
      modifies this, all
      ensures Valid() && (Tame(pass) ==> ok)
      ensures Doomed(pass, 0, old(Snap()).timers, 0) ==> !ok
      ensures forall q: nat | FirstProcesses(pass, q) ::
        && (Fatal(old(Snap()).timers, q) ==> !ok)
        && (LastProcesses(pass, q) ==> (ok <==> !Fatal(old(Snap()).timers, q)))
      ensures ok ==>
        && Grown(old(Snap()), front, gone, Snap()) && old(all) <= all && fresh(all - old(all))
        && PassDone(pass, old(Snap()).timers, visits, gone)
        && ReadInOrder(pass, visits)
        && (!Nests(pass) ==> lastTime == pass.clock && resets == old(resets) + if pass.clock < old(lastTime) then 1 else 0)
        && resets >= old(resets) && (resets == old(resets) ==> TimesSoFar(pass, old(Snap()), visits, ran, Snap()))
        && (pass.clock < old(lastTime) && !Nests(pass) ==> forall v | v in visits :: v.timer.sec == 0)
      decreases pass, 5
    {
      hide Right, Grown, Without, Was, Shaped, TimersOf, Owned, Tame, Doomed, PassDone, FirstProcesses, LastProcesses, Fatal,
        TimesSoFar, ReadInOrder;
      ghost var s0 := Snap();
      ghost var q := SetClock(pass);
      ghost var start := Snap();
      ok, visits, front, gone, ran := Walk(pass, q);
      if !ok { return; }
      if !Nests(pass) && pass.clock < old(lastTime) { SecondsWere(pass, start, visits, ran, Snap()); }
      front := GrownTwice(s0, [], {}, start, front, gone, Snap());
      assert {} + gone == gone;
    }

    // The time of the pass; q is the finalizer that processes the timers, if there is one.
    method SetClock(pass: Pass) returns (ghost q: nat)
      requires Valid()
      modifies this, nodes
      ensures Valid() && nodes == old(nodes) && all == old(all)
      ensures lastTime == pass.clock && resets == old(resets) + if pass.clock < old(lastTime) then 1 else 0
      ensures Grown(old(Snap()), [], {}, Snap())
      ensures pass.clock >= old(lastTime) ==> Snap() == old(Snap())
      ensures pass.clock < old(lastTime) ==> forall i | 0 <= i < |Snap().timers| :: Snap().timers[i].sec == 0
      ensures forall visits, gone | PassDone(pass, Snap().timers, visits, gone) :: PassDone(pass, old(Snap()).timers, visits, gone)
      ensures Doomed(pass, 0, old(Snap()).timers, 0) <==> Doomed(pass, 0, Snap().timers, 0)
      ensures forall p: nat | FirstProcesses(pass, p) :: p == q && (Fatal(old(Snap()).timers, p) <==> Fatal(Snap().timers, p))
    {
      hide Right, Grown, Shaped, TimersOf, Owned, Doomed, PassDone, FirstProcesses, Fatal, TimeEvent.View;
      ghost var s0 := Snap();
      if pass.clock < lastTime {
        MakeAllDue();
        resets := resets + 1;
      }
      lastTime := pass.clock;
      SameObjects(s0, Snap());
      ghost var start := Snap();
      SameDead(s0, start, pass);
      q := FirstPass(pass, s0.timers, start.timers);
    }

    lemma FirstPass(pass: Pass, a: seq<Timer>, b: seq<Timer>) returns (q: nat)
      requires |a| == |b| && forall i | 0 <= i < |a| :: b[i] == a[i].(sec := b[i].sec)
      ensures forall p: nat | FirstProcesses(pass, p) :: p == q && (Fatal(a, p) <==> Fatal(b, p))
    {
      hide FirstProcesses, Fatal;
      q := 0;
      if r: nat :| FirstProcesses(pass, r) {
        q := r;
        SameFatal(a, b, q);
        forall p: nat | FirstProcesses(pass, p) ensures p == q { OneFirst(pass, p, q); }
      }
    }

    // The walk over the timers.
    method Walk(pass: Pass, ghost q: nat)
      returns (ok: bool, ghost visits: seq<Visit>, ghost front: seq<nat>, ghost gone: set<nat>, ghost ran: set<nat>)
      requires Valid()
      modifies this, all
      ensures Valid() && (Tame(pass) ==> ok)
      ensures Doomed(pass, 0, old(Snap()).timers, 0) ==> !ok
      ensures FirstProcesses(pass, q) ==>
        && (Fatal(old(Snap()).timers, q) ==> !ok)
        && (LastProcesses(pass, q) ==> (ok <==> !Fatal(old(Snap()).timers, q)))
      ensures ok ==>
        && Grown(old(Snap()), front, gone, Snap()) && old(all) <= all && fresh(all - old(all))
        && PassDone(pass, old(Snap()).timers, visits, gone)
        && ReadInOrder(pass, visits)
        && (!Nests(pass) ==> lastTime == old(lastTime) && resets == old(resets))
        && resets >= old(resets) && (resets == old(resets) ==> TimesSoFar(pass, old(Snap()), visits, ran, Snap()))
      decreases pass, 4
    {
      hide Right, Grown, Without, Was, VisitUids, Shaped, TimersOf, Owned, Tame, Doomed, Visited, PassAt, RanIfDue,
        PassDone, Stepped, Course, FirstProcesses, LastProcesses, Fatal, NextFinals,
        Nests, Timed, TimesSoFar, ReadInOrder, FiredAt, Checks, Fired, PassReadings;
      ghost var start := Snap();
      var maxId := nextId - 1;
      var te, at := head, Counters(0, 0, 0);
      ghost var i: nat := 0;
      ok, front, gone, visits, ran := true, [], {}, [], {};
      TimesStart(pass, start);
      HeadIsFirst();
      PassStarts(pass, start);
      CourseStarts(q, start.timers);
      while te != null
        invariant ok && Valid() && old(all) <= all && fresh(all - old(all)) && i <= |nodes| && te == At(nodes, i)
        invariant PassAt(pass, start, front, gone, visits, Snap(), i, maxId)
        invariant Doomed(pass, 0, start.timers, 0) ==> i == 0 && at.finals == 0 && Snap() == start
        invariant FirstProcesses(pass, q) ==> Course(q, start.timers, Snap().timers, i, at.finals)
        invariant ReadInOrder(pass, visits) && at.checks == Checks(visits) && at.calls == Fired(visits)
        invariant !Nests(pass) ==> lastTime == old(lastTime) && resets == old(resets)
        invariant resets >= old(resets) && (resets == old(resets) ==> TimesSoFar(pass, start, visits, ran, Snap()))
        decreases |nodes| - i
      {
        ghost var before, f := Snap(), at.finals;
        IdAtMost(pass, start, front, gone, visits, before, i, maxId);
        assert before.timers[i] == te.View();
        assert te.id <= maxId;
        ghost var v: Visit, j: nat, fr: seq<nat>, g: set<nat>, r: set<nat>;
        var next: TimeEvent?;
        ok, next, at, v, j, fr, g, r := VisitTimer(te, pass, at, i);
        StepFacts(pass, f, before.timers, i, ok, Snap().timers, j);
        if FirstProcesses(pass, q) {
          CourseStep(pass, q, start.timers, before.timers, i, f, ok, Snap().timers, j);
        }
        if !ok { return; }
        NotYetSeen(pass, start, front, gone, visits, before, i, maxId);
        ReadMore(pass, visits, v);
        if resets == old(resets) { TimesMore(pass, start, visits, ran, before, i, v, r, Snap()); }
        ran := ran + r;
        front := OneVisited(pass, start, front, gone, visits, before, i, fr, g, Snap(), j, maxId, v);
        visits, gone, i, te := visits + [v], gone + g, j, next;
      }
      if FirstProcesses(pass, q) { CourseEnds(q, start.timers, Snap().timers, i, at.finals); }
      DoomedHasTwo(pass, start.timers);
      PassEnds(pass, start, front, gone, visits, Snap(), i, maxId);
    }
  }

  method TwoCreated() returns (loop: TimerLoop)
    ensures fresh(loop) && loop.Valid() && fresh(loop.all)
    ensures
      var timers := loop.Snap().timers;
      |timers| == 2 && timers[0].id == 1 && timers[1].id == 0 && timers[0].finalizer && timers[0].refs == 0 == timers[1].refs
  {
    hide Right, TimersOf, TimerLoop.Shaped, TimerLoop.Owned, After;
    loop := new TimerLoop(0);
    var a := loop.CreateTimeEvent(0, Time(0, 0), false);
    var b := loop.CreateTimeEvent(0, Time(0, 0), true);
  }

  method TwoDeleted() returns (loop: TimerLoop)
    ensures fresh(loop) && loop.Valid() && fresh(loop.all)
    ensures
      var timers := loop.Snap().timers;
      |timers| == 2 && DeadAt(timers, 0) && timers[0].finalizer && DeadAt(timers, 1)
  {
    hide Right, TimersOf, TimerLoop.Shaped, TimerLoop.Owned;
    loop := TwoCreated();
    ghost var t0 := loop.Snap().timers;
    assert t0[1].id == 0;
    var a := loop.DeleteTimeEvent(0);
    ghost var t1 := loop.Snap().timers;
    assert t1[0] == t0[0] && t1[1].id == DELETED;
    var b := loop.DeleteTimeEvent(1);
  }

  /** Two timers are deleted, and the finalizer of the one in front processes the timers:
      that frees the other one, at which the outer pass would go on. */
  method SavedTimerFreed(pass: Pass) returns (ghost timers: seq<Timer>, ok: bool)
    requires pass == Pass(0, [], [], [Final([Process(Pass(0, [], [], []))])])
    ensures |timers| == 2 && timers[0].id == DELETED == timers[1].id && timers[0].refs == 0 == timers[1].refs
    ensures timers[0].finalizer && !ok
  {
    hide Right, TimersOf, Grown, TimerLoop.Shaped, TimerLoop.Owned, PassDone, Tame, FirstProcesses, LastProcesses, Fatal,
      TimesSoFar, ReadInOrder;
    var loop := TwoDeleted();
    timers := loop.Snap().timers;
    assert Doomed(pass, 0, timers, 0);
    ghost var visits, front, gone, ran;
    ok, visits, front, gone, ran := loop.ProcessTimeEvents(pass);
  }
}
