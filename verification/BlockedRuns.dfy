/** Everything that happens to blocked clients and to the keys they wait for, over whole
    runs: the index stays right, and when a client can be left waiting. */
module BlockedRuns {
  import opened Wrappers
  import opened BlockedModel
  import opened BlockedService

  // Push, Add, Append and Overwrite: a list is extended or created; a value of another type
  // is created, which signals sorted sets and streams; a stream gets entries; a value
  // changes in place. Leave: a time out or CLIENT UNBLOCK. Reprocess: the input of an
  // unblocked client is taken up again.
  datatype Event =
    | Connect(c: ClientId)
    | Push(k: Key, items: seq<Elem>, head: bool)
    | Add(k: Key, value: Value)
    | Append(k: Key, due: set<ClientId>)
    | Overwrite(k: Key, value: Value)
    | Delete(k: Key)
    | Pop(k: Key, head: bool)
    | BlockOnLists(c: ClientId, keys: seq<Key>, target: Option<Key>, head: bool)
    | BlockOnSorted(c: ClientId, keys: seq<Key>, head: bool)
    | BlockOnStreams(c: ClientId, keys: seq<Key>)
    | BlockOnReplicas(c: ClientId)
    | Leave(c: ClientId)
    | Disconnect(c: ClientId)
    | Reprocess
    | Handle

  function Remove(s: seq<ClientId>, c: ClientId): seq<ClientId> {
    if s == [] then [] else if s[0] == c then s[1..] else [s[0]] + Remove(s[1..], c)
  }

  // A client is freed: unblocked first, then taken from the queue of unblocked clients.
  function Gone(ix: Index, c: ClientId): Index
    requires c in ix.clients
  {
    var u := if ix.clients[c].btype.BNone? then ix else Unblock(ix, c);
    u.(unblocked := if u.clients[c].requeued then Remove(u.unblocked, c) else u.unblocked, clients := u.clients - {c})
  }

  // The first unblocked client is taken from the queue.
  function TakenUp(ix: Index): Index
    requires ix.unblocked != [] && ix.unblocked[0] in ix.clients
  {
    var c := ix.unblocked[0];
    ix.(unblocked := ix.unblocked[1..], clients := ix.clients[c := ix.clients[c].(requeued := false)])
  }

  function Free(s: State, c: ClientId): bool { c in s.ix.clients && s.ix.clients[c].btype.BNone? }

  ghost predicate Enabled(s: State, ev: Event) {
    match ev
    case Connect(c) => c !in s.ix.clients
    case Push(k, items, _) => items != []
    case Add(k, value) => k !in s.data && !value.Items? && (value.Sorted? ==> value.members != [])
    case Append(k, _) => k in s.data && s.data[k].Stream?
    case Overwrite(k, value) => k in s.data && (value.Items? ==> value.items != [])
    case Delete(k) => k in s.data
    case Pop(k, _) => IsList(s, k) && s.data[k].items != []
    case BlockOnLists(c, keys, _, _) => Free(s, c) && keys != [] && forall k | k in keys :: k !in s.data
    case BlockOnSorted(c, keys, _) => Free(s, c) && keys != [] && forall k | k in keys :: k !in s.data
    case BlockOnStreams(c, keys) => Free(s, c) && keys != []
    case BlockOnReplicas(c) => Free(s, c)
    case Leave(c) => c in s.ix.clients && !s.ix.clients[c].btype.BNone?
    case Disconnect(c) => c in s.ix.clients
    case Reprocess => s.ix.unblocked != [] && s.ix.unblocked[0] in s.ix.clients
    case Handle => ServiceInv(s, [], AnyKey())
  }

  ghost function Step(s: State, ev: Event): State
    requires Enabled(s, ev)
  {
    match ev
    case Connect(c) => s.(ix := s.ix.(clients := s.ix.clients[c := NEW_CLIENT]))
    case Push(k, items, head) =>
      if k !in s.data then Signal(s, k).(data := s.data[k := Items(items)])
      else if IsList(s, k) then
        s.(data := s.data[k := Items(if head then items + s.data[k].items else s.data[k].items + items)])
      else s
    case Add(k, value) => (if value.Other? then s else Signal(s, k)).(data := s.data[k := value])
    case Append(k, due) => Signal(s, k).(data := s.data[k := Stream(due)])
    case Overwrite(k, value) => s.(data := s.data[k := value])
    case Delete(k) => s.(data := s.data - {k})
    case Pop(k, head) => DropIfEmpty(s.(data := s.data[k := Items(Rest(s.data[k].items, head))]), k)
    case BlockOnLists(c, keys, target, head) => s.(ix := BlockForKeys(s.ix, c, BList, keys, target, head))
    case BlockOnSorted(c, keys, head) => s.(ix := BlockForKeys(s.ix, c, BZset, keys, None, head))
    case BlockOnStreams(c, keys) => s.(ix := BlockForKeys(s.ix, c, BStream, keys, None, false))
    case BlockOnReplicas(c) => s.(ix := MarkBlocked(s.ix, c, BWait))
    case Leave(c) => s.(ix := Unblock(s.ix, c))
    case Disconnect(c) => s.(ix := Gone(s.ix, c))
    case Reprocess => s.(ix := TakenUp(s.ix))
    case Handle => HandleAll(s)
  }

  const START := State(Index(map[], map[], 0, 0, map[], []), map[], [], {}, [])

  /** In a run the queue is handled when it comes to that; that this is always possible
      is RunKeepsIndex. */
  ghost predicate IsRun(trace: seq<State>, evs: seq<Event>) {
    && |trace| == |evs| + 1 && trace[0] == START
    && forall i | 0 <= i < |evs| :: Enabled(trace[i], evs[i]) && trace[i + 1] == Step(trace[i], evs[i])
  }

  // A value is replaced by a list while somebody waits for one there, unnoticed.
  ghost predicate Unnoticed(s: State, ev: Event) {
    ev.Overwrite? && ev.value.Items? && ev.k !in s.readySet && exists n :: ListWaiter(s.ix, ev.k, n)
  }

  // ------------------------------------------------------------------ what is kept

  lemma ConnectKeepsIndex(ix: Index, c: ClientId)
    requires IndexInv(ix) && c !in ix.clients
    ensures IndexInv(ix.(clients := ix.clients[c := NEW_CLIENT]))
    ensures forall k, n :: ListWaiter(ix.(clients := ix.clients[c := NEW_CLIENT]), k, n) <==> ListWaiter(ix, k, n)
  {
    var jx := ix.(clients := ix.clients[c := NEW_CLIENT]);
    forall k, n
      ensures ListWaiter(jx, k, n) <==> ListWaiter(ix, k, n)
    {
      if Listed(ix, k, n) { assert Listed(ix, k, Node(n.id, n.client)); assert Holds(ix, n.client, k, n.id); }
    }
    SameNodes(ix, jx);
    forall t: BlockType | !t.BNone? ensures CountsAre(jx, t) { assert CountsAre(ix, t); assert OfType(jx, t) == OfType(ix, t); }
    assert BlockedClients(jx) == BlockedClients(ix);
  }

  lemma WaitKeepsIndex(ix: Index, c: ClientId)
    requires IndexInv(ix) && c in ix.clients && ix.clients[c].btype.BNone?
    ensures IndexInv(MarkBlocked(ix, c, BWait))
    ensures forall k, n | ListWaiter(MarkBlocked(ix, c, BWait), k, n) :: ListWaiter(ix, k, n)
  {
    hide NodesInv, CountInv, QueueInv, MarkBlocked;
    MarkFrame(ix, c, BWait);
    DataIffKeys(ix, c);
    assert WaitsProperly(MarkBlocked(ix, c, BWait).clients[c]);
    ChangeKeepsCounts(ix, MarkBlocked(ix, c, BWait), c, 1, BWait);
    SameQueue(ix, MarkBlocked(ix, c, BWait));
    assert MarkBlocked(ix, c, BWait).blocking == ix.blocking by { MarkedLists(ix, c); }
  }

  lemma MarkedLists(ix: Index, c: ClientId)
    requires c in ix.clients
    ensures MarkBlocked(ix, c, BWait).blocking == ix.blocking
  {
  }

  lemma TakenUpKeepsIndex(ix: Index)
    requires IndexInv(ix) && ix.unblocked != []
    ensures ix.unblocked[0] in ix.clients && IndexInv(TakenUp(ix))
    ensures forall k, n :: ListWaiter(TakenUp(ix), k, n) <==> ListWaiter(ix, k, n)
  {
    hide NodesInv, OfType, BlockedClients;
    var c := ix.unblocked[0];
    var jx := TakenUp(ix);
    SameKeysKeepNodes(ix, jx);
    assert BlockedClients(jx) == BlockedClients(ix) by { SameBlocked(ix, jx); }
    forall t: BlockType | !t.BNone? ensures CountsAre(jx, t) { assert CountsAre(ix, t); SameType(ix, jx, t); }
    assert ix.unblocked == [c] + jx.unblocked;
  }

  lemma SameBlocked(ix: Index, jx: Index)
    requires jx.clients.Keys == ix.clients.Keys
    requires forall c | c in ix.clients :: jx.clients[c].btype == ix.clients[c].btype
    ensures BlockedClients(jx) == BlockedClients(ix)
  {
  }

  lemma {:induction false} RemoveFacts(s: seq<ClientId>, c: ClientId)
    requires NoDup(s)
    ensures NoDup(Remove(s, c)) && forall d :: d in Remove(s, c) <==> d in s && d != c
  {
    if s != [] {
      RemoveFacts(s[1..], c);
      assert s == [s[0]] + s[1..];
      assert s[0] !in s[1..];
      assert s[0] !in Remove(s[1..], c);
    }
  }

  lemma GoneKeepsIndex(ix: Index, c: ClientId)
    requires IndexInv(ix) && c in ix.clients
    ensures IndexInv(Gone(ix, c))
    ensures forall k, n | ListWaiter(Gone(ix, c), k, n) :: ListWaiter(ix, k, n)
  {
    hide Unblock;
    var u := if ix.clients[c].btype.BNone? then ix else Unblock(ix, c);
    if !ix.clients[c].btype.BNone? {
      UnblockKeepsInv(ix, c);
      UnblockWaiters(ix, c);
    }
    IdleKeepsIndex(u, c);
  }

  lemma IdleKeepsIndex(u: Index, c: ClientId)
    requires IndexInv(u) && c in u.clients && u.clients[c].btype.BNone?
    ensures
      var jx := u.(unblocked := if u.clients[c].requeued then Remove(u.unblocked, c) else u.unblocked, clients := u.clients - {c});
      IndexInv(jx) && forall k, n | ListWaiter(jx, k, n) :: ListWaiter(u, k, n)
  {
    hide OfType, BlockedClients, ListOk;
    var jx := u.(unblocked := if u.clients[c].requeued then Remove(u.unblocked, c) else u.unblocked, clients := u.clients - {c});
    DataIffKeys(u, c);
    RemoveFacts(u.unblocked, c);
    assert forall d: ClientId, k, id: nat :: Holds(jx, d, k, id) <==> Holds(u, d, k, id);
    SameNodes(u, jx);
    assert BlockedClients(jx) == BlockedClients(u) by { SameBlockedWithout(u, jx, c); }
    forall t: BlockType | !t.BNone? ensures CountsAre(jx, t) { assert CountsAre(u, t); SameTypeWithout(u, jx, c, t); }
  }

  lemma SameBlockedWithout(u: Index, jx: Index, c: ClientId)
    requires c in u.clients && u.clients[c].btype.BNone? && jx.clients == u.clients - {c}
    ensures BlockedClients(jx) == BlockedClients(u)
  {
  }

  lemma SameTypeWithout(u: Index, jx: Index, c: ClientId, t: BlockType)
    requires c in u.clients && u.clients[c].btype.BNone? && jx.clients == u.clients - {c} && !t.BNone?
    ensures OfType(jx, t) == OfType(u, t)
  {
  }

  // Blocking makes a client wait for the keys it names, and no other.
  lemma BlockWaiters(ix: Index, c: ClientId, t: BlockType, keys: seq<Key>, target: Option<Key>, head: bool)
    requires IndexInv(ix) && c in ix.clients && ix.clients[c].btype.BNone? && WaitsForData(t) && keys != []
    ensures
      var r := BlockForKeys(ix, c, t, keys, target, head);
      forall k, n | ListWaiter(r, k, n) :: ListWaiter(ix, k, n) || (t.BList? && k in keys)
  {
    hide BlockForKeys, CountInv, QueueInv;
    BlockKeepsInv(ix, c, t, keys, target, head);
    var r := BlockForKeys(ix, c, t, keys, target, head);
    forall k, n | ListWaiter(r, k, n)
      ensures ListWaiter(ix, k, n) || (t.BList? && k in keys)
    {
      assert Listed(r, k, Node(n.id, n.client));
      assert Holds(r, n.client, k, n.id);
      if n.client != c {
        assert Holds(ix, n.client, k, n.id);
        assert Listed(ix, k, Node(n.id, n.client));
      }
    }
  }

  // The index changes, and nobody waits for a list who did not before or is accounted for.
  lemma IndexStep(s: State, jx: Index, skip: iset<Key>)
    requires ServiceInv(s, [], skip) && IndexInv(jx)
    requires forall k, n | ListWaiter(jx, k, n) :: ListWaiter(s.ix, k, n) || !IsList(s, k)
    ensures ServiceInv(s.(ix := jx), [], skip)
  {
    hide IndexInv;
    var r := s.(ix := jx);
    SameReady(s, r, []);
    forall k | k !in skip && Unserved(r, k)
      ensures k in r.readySet
    {
      var n :| ListWaiter(jx, k, n);
      assert Unserved(s, k);
    }
  }

  // The values change; keys that hold lists now did before, or are queued if need be.
  lemma DataStep(s: State, r: State, skip: iset<Key>)
    requires ServiceInv(s, [], skip) && r.ix == s.ix && ReadyInv(r, []) && r.readySet >= s.readySet && DataOk(r, skip)
    requires forall k | IsList(r, k) && !IsList(s, k) && k in s.ix.blocking :: k in r.readySet || k in skip
    ensures ServiceInv(r, [], skip)
  {
    hide IndexInv;
    forall k | k !in skip && Unserved(r, k)
      ensures k in r.readySet
    {
      var n :| ListWaiter(r.ix, k, n);
      if IsList(s, k) { assert Unserved(s, k); }
    }
  }

  lemma AddStep(s: State, k: Key, v: Value, skip: iset<Key>)
    requires ServiceInv(s, [], skip) && k !in s.data && (v.Items? ==> v.items != [])
    ensures ServiceInv(Signal(s, k).(data := s.data[k := v]), [], skip)
  {
    hide IndexInv, ReadyInv, Signal;
    SignalKeepsReady(s, k, []);
    var r := Signal(s, k).(data := s.data[k := v]);
    SignalFrame(s, k);
    SameReady(Signal(s, k), r, []);
    DataStep(s, r, skip);
  }

  lemma SignalFrame(s: State, k: Key)
    ensures Signal(s, k) == s.(ready := Signal(s, k).ready, readySet := Signal(s, k).readySet)
  {
  }

  /** Every event keeps the index, the counters and the queues; and everybody who could be
      served stays queued, except for the key of an unnoticed overwrite. */
  lemma StepKeepsInv(s: State, ev: Event, skip: iset<Key>)
    requires ServiceInv(s, [], skip) && Enabled(s, ev)
    requires Unnoticed(s, ev) ==> ev.k in skip
    ensures ServiceInv(Step(s, ev), [], skip)
  {
    hide IndexInv, ReadyInv, BlockForKeys, Unblock, Gone, TakenUp, HandleAll;
    match ev
    case Connect(c) =>
      ConnectKeepsIndex(s.ix, c);
      IndexStep(s, s.ix.(clients := s.ix.clients[c := NEW_CLIENT]), skip);
    case Push(k, items, head) =>
      if k !in s.data {
        AddStep(s, k, Items(items), skip);
      } else {
        SameReady(s, Step(s, ev), []);
        DataStep(s, Step(s, ev), skip);
      }
    case Add(k, value) =>
      if !value.Other? { AddStep(s, k, value, skip); }
      else {
        SameReady(s, Step(s, ev), []);
        DataStep(s, Step(s, ev), skip);
      }
    case Append(k, due) => AppendStep(s, k, due, skip);
    case Overwrite(k, value) => OverwriteStep(s, k, value, skip);
    case Delete(k) =>
      SameReady(s, Step(s, ev), []);
      DataStep(s, Step(s, ev), skip);
    case Pop(k, head) =>
      SameReady(s, Step(s, ev), []);
      DataStep(s, Step(s, ev), skip);
    case BlockOnLists(c, keys, target, head) =>
      BlockKeepsInv(s.ix, c, BList, keys, target, head);
      BlockWaiters(s.ix, c, BList, keys, target, head);
      IndexStep(s, BlockForKeys(s.ix, c, BList, keys, target, head), skip);
    case BlockOnSorted(c, keys, head) =>
      BlockKeepsInv(s.ix, c, BZset, keys, None, head);
      BlockWaiters(s.ix, c, BZset, keys, None, head);
      IndexStep(s, BlockForKeys(s.ix, c, BZset, keys, None, head), skip);
    case BlockOnStreams(c, keys) =>
      BlockKeepsInv(s.ix, c, BStream, keys, None, false);
      BlockWaiters(s.ix, c, BStream, keys, None, false);
      IndexStep(s, BlockForKeys(s.ix, c, BStream, keys, None, false), skip);
    case BlockOnReplicas(c) =>
      WaitKeepsIndex(s.ix, c);
      IndexStep(s, MarkBlocked(s.ix, c, BWait), skip);
    case Leave(c) =>
      UnblockKeepsInv(s.ix, c);
      UnblockWaiters(s.ix, c);
      IndexStep(s, Unblock(s.ix, c), skip);
    case Disconnect(c) =>
      GoneKeepsIndex(s.ix, c);
      IndexStep(s, Gone(s.ix, c), skip);
    case Reprocess =>
      TakenUpKeepsIndex(s.ix);
      IndexStep(s, TakenUp(s.ix), skip);
    case Handle => HandleAllKeepsInv(s, skip);
  }

  lemma AppendStep(s: State, k: Key, due: set<ClientId>, skip: iset<Key>)
    requires ServiceInv(s, [], skip) && k in s.data && s.data[k].Stream?
    ensures ServiceInv(Signal(s, k).(data := s.data[k := Stream(due)]), [], skip)
  {
    hide IndexInv, ReadyInv, Signal;
    SignalKeepsReady(s, k, []);
    var r := Signal(s, k).(data := s.data[k := Stream(due)]);
    SignalFrame(s, k);
    SameReady(Signal(s, k), r, []);
    DataStep(s, r, skip);
  }

  lemma OverwriteStep(s: State, k: Key, value: Value, skip: iset<Key>)
    requires ServiceInv(s, [], skip) && Enabled(s, Overwrite(k, value))
    requires Unnoticed(s, Overwrite(k, value)) ==> k in skip
    ensures ServiceInv(s.(data := s.data[k := value]), [], skip)
  {
    hide IndexInv, ReadyInv;
    var r := s.(data := s.data[k := value]);
    SameReady(s, r, []);
    forall j | j !in skip && Unserved(r, j)
      ensures j in r.readySet
    {
      var n :| ListWaiter(r.ix, j, n);
      if j != k { assert Unserved(s, j); }
    }
  }

  /** Over every run the index agrees both ways, the counters are true, keys and clients
      are queued once, and handling the queue is always possible and ends. */
  lemma {:induction false} RunKeepsIndex(trace: seq<State>, evs: seq<Event>, i: nat)
    requires IsRun(trace, evs) && i < |trace|
    ensures ServiceInv(trace[i], [], AnyKey())
  {
    hide ServiceInv, Enabled, Step, Unnoticed;
    if i == 0 {
      StartIsRight(AnyKey());
    } else {
      RunKeepsIndex(trace, evs, i - 1);
      assert Unnoticed(trace[i - 1], evs[i - 1]) ==> evs[i - 1].k in AnyKey() by { UnnoticedIsOverwrite(trace[i - 1], evs[i - 1]); }
      StepKeepsInv(trace[i - 1], evs[i - 1], AnyKey());
    }
  }

  lemma UnnoticedIsOverwrite(s: State, ev: Event)
    ensures Unnoticed(s, ev) ==> ev.Overwrite?
  {
  }

  lemma StartIsRight(skip: iset<Key>)
    ensures ServiceInv(START, [], skip)
  {
    forall t: BlockType ensures CountsAre(START.ix, t) { assert OfType(START.ix, t) == {}; }
    assert BlockedClients(START.ix) == {};
    assert forall c: ClientId, k, id: nat :: !Listed(START.ix, k, Node(id, c)) && !Holds(START.ix, c, k, id);
    assert START.ready + [] == [];
  }

  /** Without unnoticed overwrites, whoever can be served is queued; so after the queue
      was handled nobody waits for a list that has elements. */
  lemma {:induction false} NoLostWakeUp(trace: seq<State>, evs: seq<Event>, i: nat)
    requires IsRun(trace, evs) && i < |trace|
    requires forall j | 0 <= j < i :: !Unnoticed(trace[j], evs[j])
    ensures Awake(trace[i], iset{})
    ensures i > 0 && evs[i - 1].Handle? ==> forall k :: !Unserved(trace[i], k)
  {
    hide Enabled, Step, Unnoticed, Unserved, ServiceInv;
    RunIsAwake(trace, evs, i);
    AwakePart(trace[i]);
    if i > 0 && evs[i - 1].Handle? {
      RunIsAwake(trace, evs, i - 1);
      NobodyIsLeftWaiting(trace[i - 1]);
      HandleIs(trace[i - 1]);
    }
  }

  lemma AwakePart(s: State)
    requires ServiceInv(s, [], iset{})
    ensures Awake(s, iset{})
  {
  }

  lemma HandleIs(s: State)
    requires ServiceInv(s, [], AnyKey())
    ensures Enabled(s, Handle) && Step(s, Handle) == HandleAll(s)
  {
  }

  lemma {:induction false} RunIsAwake(trace: seq<State>, evs: seq<Event>, i: nat)
    requires IsRun(trace, evs) && i < |trace|
    requires forall j | 0 <= j < i :: !Unnoticed(trace[j], evs[j])
    ensures ServiceInv(trace[i], [], iset{})
  {
    hide ServiceInv, Enabled, Step, Unnoticed;
    if i == 0 {
      StartIsRight(iset{});
    } else {
      RunIsAwake(trace, evs, i - 1);
      StepKeepsInv(trace[i - 1], evs[i - 1], iset{});
    }
  }

  /** An unnoticed overwrite leaves somebody waiting for a list that has elements, although
      the key is not queued: the next handling of the queue does not look at it. */
  lemma UnnoticedIsLost(s: State, ev: Event)
    requires Awake(s, iset{}) && Enabled(s, ev) && ev.Overwrite?
    ensures Awake(Step(s, ev), iset{}) <==> !Unnoticed(s, ev)
  {
    var r := Step(s, ev);
    if Unnoticed(s, ev) {
      var n :| ListWaiter(s.ix, ev.k, n);
      assert ListWaiter(r.ix, ev.k, n);
      assert Unserved(r, ev.k);
    } else {
      forall j | Unserved(r, j)
        ensures j in r.readySet
      {
        var n :| ListWaiter(r.ix, j, n);
        assert ListWaiter(s.ix, j, n);
        if j != ev.k { assert Unserved(s, j); }
      }
    }
  }

  /** A client blocks on k; k is set to a string, which is then replaced by a list, as SORT
      with STORE does: the client waits on, although the list has an element. */
  lemma LostWakeUpExample()
    ensures exists trace: seq<State> ::
      var evs := [Connect(0), BlockOnLists(0, ["k"], None, true), Add("k", Other), Overwrite("k", Items(["x"])), Handle];
      IsRun(trace, evs) && Unserved(trace[5], "k")
  {
    hide HandleAll, Unnoticed, ServiceInv, Step, Enabled;
    var evs := [Connect(0), BlockOnLists(0, ["k"], None, true), Add("k", Other), Overwrite("k", Items(["x"])), Handle];
    var s1, s2 := ExampleBlocks();
    var s3, s4 := ExampleOverwrites(s2);
    var trace := [START, s1, s2, s3, s4, s4];
    forall i | 0 <= i < |evs|
      ensures Enabled(trace[i], evs[i]) && trace[i + 1] == Step(trace[i], evs[i])
    {
      if i == 0 { assert evs[i] == Connect(0); }
      else if i == 1 { assert evs[i] == BlockOnLists(0, ["k"], None, true); }
      else if i == 2 { assert evs[i] == Add("k", Other); }
      else if i == 3 { assert evs[i] == Overwrite("k", Items(["x"])); }
      else { assert evs[i] == Handle; }
    }
    assert trace[5] == s4;
  }

  lemma AnyStep(s: State, ev: Event)
    requires ServiceInv(s, [], AnyKey()) && Enabled(s, ev)
    ensures ServiceInv(Step(s, ev), [], AnyKey())
  {
    hide ServiceInv, Step, Enabled;
    UnnoticedIsOverwrite(s, ev);
    assert ev.Overwrite? ==> ev.k in AnyKey();
    StepKeepsInv(s, ev, AnyKey());
  }

  lemma ExampleBlocks() returns (s1: State, s2: State)
    ensures Enabled(START, Connect(0)) && s1 == Step(START, Connect(0))
    ensures Enabled(s1, BlockOnLists(0, ["k"], None, true)) && s2 == Step(s1, BlockOnLists(0, ["k"], None, true))
    ensures ServiceInv(s2, [], AnyKey()) && ListWaiter(s2.ix, "k", Node(0, 0))
    ensures s2.data == map[] && s2.ready == []
  {
    hide ServiceInv, BlockForKeys;
    StartIsRight(AnyKey());
    s1 := Step(START, Connect(0));
    AnyStep(START, Connect(0));
    s2 := Step(s1, BlockOnLists(0, ["k"], None, true));
    AnyStep(s1, BlockOnLists(0, ["k"], None, true));
    OneBlocked(s1.ix);
  }

  lemma ExampleOverwrites(s2: State) returns (s3: State, s4: State)
    requires ServiceInv(s2, [], AnyKey()) && ListWaiter(s2.ix, "k", Node(0, 0)) && s2.data == map[] && s2.ready == []
    ensures Enabled(s2, Add("k", Other)) && s3 == Step(s2, Add("k", Other))
    ensures Enabled(s3, Overwrite("k", Items(["x"]))) && s4 == Step(s3, Overwrite("k", Items(["x"])))
    ensures Enabled(s4, Handle) && s4 == Step(s4, Handle) && Unserved(s4, "k")
  {
    hide ServiceInv, HandleAll;
    s3 := Step(s2, Add("k", Other));
    AnyStep(s2, Add("k", Other));
    s4 := Step(s3, Overwrite("k", Items(["x"])));
    AnyStep(s3, Overwrite("k", Items(["x"])));
    assert ListWaiter(s4.ix, "k", Node(0, 0));
    NothingQueued(s4);
  }

  lemma OneBlocked(ix: Index)
    requires ix == START.ix.(clients := map[0 := NEW_CLIENT])
    ensures
      var r := BlockForKeys(ix, 0, BList, ["k"], None, true);
      ListWaiter(r, "k", Node(0, 0))
  {
    var p := Prepare(ix, 0, None, true);
    assert AddKeys(p, 0, ["k"], 0) == p;
    assert AddKeys(p, 0, ["k"], 1) == AddKey(p, 0, "k");
    var a := AddKey(p, 0, "k");
    assert a.blocking["k"][0] == Node(0, 0);
  }

  lemma NothingQueued(s: State)
    requires ServiceInv(s, [], AnyKey()) && s.ready == []
    ensures HandleAll(s) == s
  {
  }

  // ------------------------------------------------------------- what events do to keys

  // Only this key changed, and it is queued if it was signalled, awaited and not queued.
  ghost predicate KeyOnly(s: State, r: State, k: Key, signalled: bool) {
    && r.ix == s.ix && r.replies == s.replies
    && (forall j | j != k :: (j in r.data <==> j in s.data) && (j in s.data ==> r.data[j] == s.data[j]))
    && r.ready == (if signalled && k in s.ix.blocking && k !in s.readySet then s.ready + [k] else s.ready)
    && r.readySet == (if signalled && k in s.ix.blocking then s.readySet + {k} else s.readySet)
  }

  /** Commands on keys: pushing makes a list and signals it, or extends the one that is there;
      popping takes one element, and an empty list away; making another value signals it. */
  lemma DataEventIs(s: State, ev: Event)
    requires Enabled(s, ev)
    requires ev.Push? || ev.Add? || ev.Append? || ev.Overwrite? || ev.Delete? || ev.Pop?
    ensures
      var r, k := Step(s, ev), ev.k;
      match ev
      case Push(_, items, head) =>
        if k !in s.data then KeyOnly(s, r, k, true) && r.data == s.data[k := Items(items)]
        else if s.data[k].Items? then
          && KeyOnly(s, r, k, false)
          && r.data == s.data[k := Items(if head then items + s.data[k].items else s.data[k].items + items)]
        else r == s
      case Add(_, value) => KeyOnly(s, r, k, !value.Other?) && r.data == s.data[k := value]
      case Append(_, due) => KeyOnly(s, r, k, true) && r.data == s.data[k := Stream(due)]
      case Overwrite(_, value) => KeyOnly(s, r, k, false) && r.data == s.data[k := value]
      case Delete(_) => KeyOnly(s, r, k, false) && k !in r.data
      case Pop(_, head) =>
        var items := s.data[k].items;
        && KeyOnly(s, r, k, false)
        && if |items| == 1 then k !in r.data
           else k in r.data && r.data[k] == Items(if head then items[1..] else items[..|items| - 1])
      case _ => true
  {
  }

  /** Clients come, wait for replicas, are taken up again, and go: whoever is freed is blocked by
      nothing and queued nowhere any more, and nobody else changes. */
  lemma ClientEventIs(s: State, ev: Event)
    requires IndexInv(s.ix) && Enabled(s, ev)
    requires ev.Connect? || ev.BlockOnReplicas? || ev.Reprocess? || ev.Disconnect?
    ensures
      var r := Step(s, ev);
      && r == s.(ix := r.ix)
      && match ev
         case Connect(c) => r.ix == s.ix.(clients := s.ix.clients[c := Client(BNone, map[], None, false, false)])
         case BlockOnReplicas(c) =>
           r.ix == s.ix.(clients := s.ix.clients[c := s.ix.clients[c].(btype := BWait)],
                         blocked := s.ix.blocked + 1, byType := r.ix.byType)
         case Reprocess =>
           var c := s.ix.unblocked[0];
           r.ix == s.ix.(unblocked := s.ix.unblocked[1..], clients := s.ix.clients[c := s.ix.clients[c].(requeued := false)])
         case Disconnect(c) =>
           && r.ix.clients == s.ix.clients - {c} && c !in r.ix.unblocked
           && (forall j, n :: Listed(r.ix, j, n) <==> Listed(s.ix, j, n) && n.client != c)
         case _ => true
  {
    hide Unblock, Listed;
    if ev.Disconnect? { FreedIs(s.ix, ev.c); }
  }

  lemma FreedIs(ix: Index, c: ClientId)
    requires IndexInv(ix) && c in ix.clients
    ensures
      var r := Gone(ix, c);
      && r.clients == ix.clients - {c} && c !in r.unblocked
      && forall j, n :: Listed(r, j, n) <==> Listed(ix, j, n) && n.client != c
  {
    hide Unblock, NodesInv, CountInv;
    var u := if ix.clients[c].btype.BNone? then ix else Unblock(ix, c);
    if !ix.clients[c].btype.BNone? {
      UnblockKeepsInv(ix, c);
      ListedAfter(ix, c, u);
    } else {
      DataIffKeys(ix, c);
      NotListed(ix, c);
    }
    RemoveAll(u.unblocked, c);
  }

  lemma NotListed(ix: Index, c: ClientId)
    requires NodesInv(ix) && c in ix.clients && ix.clients[c].keys == map[]
    ensures forall j, n | Listed(ix, j, n) :: n.client != c
  {
    forall j, n | Listed(ix, j, n)
      ensures n.client != c
    {
      assert Listed(ix, j, Node(n.id, n.client));
      assert Holds(ix, n.client, j, n.id);
    }
  }

  lemma {:induction false} RemoveAll(s: seq<ClientId>, c: ClientId)
    requires NoDup(s)
    ensures c !in Remove(s, c)
  {
    if s != [] && s[0] != c { RemoveAll(s[1..], c); }
  }
}
