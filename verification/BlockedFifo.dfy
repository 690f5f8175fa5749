/** First come, first served over whole runs: which client blocked first can be read off the
    node identities, waiters for one type stay in that order as long as the services of the
    other types are calm, and a run in which one is not. */
module BlockedFifo {
  import opened Wrappers
  import opened BlockedModel
  import opened BlockedService
  import opened BlockedRuns
  import opened BlockedOrder

  // ---------------------------------------------------------------- nodes over time

  /** Nodes are never made again: those of before that are there now always were. */
  ghost predicate Later(ix: Index, jx: Index) {
    ix.next <= jx.next && forall k, n | Listed(jx, k, n) && n.id < ix.next :: Listed(ix, k, n)
  }

  lemma HandleKeyThins(s: State, k: Key)
    requires IndexInv(s.ix)
    ensures Thins(s.ix, HandleKey(s, k).ix)
  {
    hide IndexInv, Thins, ServeLoop, ServeSorted, ServeStream;
    var t := s.(readySet := s.readySet - {k});
    ThinsSelf(t.ix);
    if k in t.data {
      match t.data[k]
      case Items(_) => ServeLoopThins(t, k, |Waiting(t.ix, k)|);
      case Sorted(_) => ServeSortedThins(t, k, |Waiting(t.ix, k)|);
      case Stream(due) => ServeStreamThins(t.ix, Waiting(t.ix, k), due);
      case Other =>
    }
  }

  lemma {:induction false} HandleKeysThins(s: State, l: seq<Key>)
    requires IndexInv(s.ix)
    ensures Thins(s.ix, HandleKeys(s, l).ix)
    decreases |l|
  {
    hide IndexInv, Thins, HandleKey;
    if l == [] {
      ThinsSelf(s.ix);
    } else {
      var t := HandleKey(s, l[0]);
      HandleKeyThins(s, l[0]);
      assert IndexInv(t.ix) by { ThinsInv(s.ix, t.ix); }
      HandleKeysThins(t, l[1..]);
      ThinsTwice(s.ix, t.ix, HandleKeys(t, l[1..]).ix);
    }
  }

  lemma ThinsInv(ix: Index, jx: Index)
    requires Thins(ix, jx)
    ensures IndexInv(jx)
  {
  }

  lemma {:induction false} HandleAllThins(s: State)
    requires ServiceInv(s, [], AnyKey())
    ensures Thins(s.ix, HandleAll(s).ix)
    decreases |BlockedClients(s.ix)|, |s.ready|
  {
    hide HandleKeys, IndexInv, Awake, DataOk, ReadyInv, Thins;
    ThinsSelf(s.ix);
    if s.ready != [] {
      var t := s.(ready := []);
      TakeAll(s, AnyKey());
      HandleKeysKeepsInv(t, s.ready, AnyKey());
      HandleKeysThins(t, s.ready);
      HandleAllThins(HandleKeys(t, s.ready));
      ThinsTwice(s.ix, HandleKeys(t, s.ready).ix, HandleAll(HandleKeys(t, s.ready)).ix);
    }
  }

  // ----------------------------------------------------------------------- blocking

  // One node of c, newer than all, at the end.
  ghost predicate Appended(before: seq<Node>, after: seq<Node>, next: nat, c: ClientId) {
    && |after| == |before| + 1 && after[..|before|] == before
    && after[|before|].client == c && after[|before|].id >= next
  }

  ghost predicate Extended(ix: Index, jx: Index, c: ClientId) {
    && ix.next <= jx.next && c in jx.clients
    && forall k :: if k in jx.clients[c].keys then Appended(Waiting(ix, k), Waiting(jx, k), ix.next, c)
                   else Waiting(jx, k) == Waiting(ix, k)
  }

  lemma {:induction false} AddKeysExtends(ix: Index, c: ClientId, keys: seq<Key>, n: nat)
    requires c in ix.clients && ix.clients[c].keys == map[] && n <= |keys|
    ensures Extended(ix, AddKeys(ix, c, keys, n), c)
  {
    hide Waiting;
    if n > 0 {
      AddKeysExtends(ix, c, keys, n - 1);
      AddKeyExtends(ix, AddKeys(ix, c, keys, n - 1), c, keys[n - 1]);
    }
  }

  lemma AddKeyExtends(ix: Index, jx: Index, c: ClientId, k: Key)
    requires Extended(ix, jx, c)
    ensures Extended(ix, AddKey(jx, c, k), c)
  {
    var r := AddKey(jx, c, k);
    forall j
      ensures if j in r.clients[c].keys then Appended(Waiting(ix, j), Waiting(r, j), ix.next, c)
              else Waiting(r, j) == Waiting(ix, j)
    {
      if j != k { assert Waiting(r, j) == Waiting(jx, j); }
    }
  }

  lemma BlockExtends(ix: Index, c: ClientId, t: BlockType, keys: seq<Key>, target: Option<Key>, fromHead: bool)
    requires c in ix.clients && ix.clients[c].keys == map[]
    ensures Extended(ix, BlockForKeys(ix, c, t, keys, target, fromHead), c)
  {
    hide AddKeys;
    var p := Prepare(ix, c, target, fromHead);
    AddKeysExtends(p, c, keys, |keys|);
    var a, r := AddKeys(p, c, keys, |keys|), BlockForKeys(ix, c, t, keys, target, fromHead);
    forall k
      ensures Waiting(p, k) == Waiting(ix, k) && Waiting(r, k) == Waiting(a, k)
    {
    }
  }

  // The clients of nodes are known, and the nodes are older than the next one.
  lemma Older(ix: Index, k: Key, n: Node)
    requires NodesInv(ix) && Listed(ix, k, n)
    ensures n.client in ix.clients && n.id < ix.next && ix.clients[n.client].keys != map[]
  {
    assert Listed(ix, k, Node(n.id, n.client));
    assert Holds(ix, n.client, k, n.id);
  }

  lemma BlockKeepsOrder(ix: Index, c: ClientId, t: BlockType, keys: seq<Key>, target: Option<Key>, fromHead: bool, w: BlockType)
    requires IndexInv(ix) && c in ix.clients && ix.clients[c].btype.BNone? && WaitsForData(t) && keys != []
    ensures
      var r := BlockForKeys(ix, c, t, keys, target, fromHead);
      Later(ix, r) && (OrderInv(ix, w) ==> OrderInv(r, w))
  {
    hide IndexInv, BlockForKeys, Ordered, Wants;
    var r := BlockForKeys(ix, c, t, keys, target, fromHead);
    BlockKeepsInv(ix, c, t, keys, target, fromHead);
    assert NodesInv(ix) && ix.clients[c].keys == map[] by { FreeHasNoKeys(ix, c); }
    BlockExtends(ix, c, t, keys, target, fromHead);
    forall k | k in r.blocking
      ensures forall n | n in r.blocking[k] && n.id < ix.next :: Listed(ix, k, n)
      ensures Ordered(ix, Waiting(ix, k), w) ==> Ordered(r, r.blocking[k], w)
    {
      ListExtends(ix, r, c, k, w);
    }
    if OrderInv(ix, w) {
      forall k | k in r.blocking ensures Ordered(r, r.blocking[k], w) { WholeOrder(ix, k, w); }
    }
  }

  lemma FreeHasNoKeys(ix: Index, c: ClientId)
    requires IndexInv(ix) && c in ix.clients && ix.clients[c].btype.BNone?
    ensures NodesInv(ix) && ix.clients[c].keys == map[]
  {
    DataIffKeys(ix, c);
  }

  lemma ListExtends(ix: Index, r: Index, c: ClientId, k: Key, w: BlockType)
    requires NodesInv(ix) && Extended(ix, r, c) && k in r.blocking && c in ix.clients && ix.clients[c].keys == map[]
    requires forall d | d in ix.clients && d != c :: d in r.clients && r.clients[d] == ix.clients[d]
    ensures forall n | n in r.blocking[k] && n.id < ix.next :: Listed(ix, k, n)
    ensures Ordered(ix, Waiting(ix, k), w) ==> Ordered(r, r.blocking[k], w)
  {
    hide NodesInv, Ordered, Wants, Listed;
    var before, after := Waiting(ix, k), r.blocking[k];
    forall n | n in before
      ensures Listed(ix, k, n) && n.id < ix.next && (Wants(r, n, w) <==> Wants(ix, n, w))
    {
      OldWaiter(ix, r, c, k, n, w);
    }
    OrderedStill2(ix, r, before, w);
    if k in r.clients[c].keys {
      var last := after[|before|];
      assert after == before + [last];
      OrderedParts(r, before, [last], w);
      OrderedOne(r, last, w);
    }
  }

  lemma OrderedOne(ix: Index, n: Node, w: BlockType)
    ensures Ordered(ix, [n], w)
  {
  }

  lemma OldWaiter(ix: Index, r: Index, c: ClientId, k: Key, n: Node, w: BlockType)
    requires NodesInv(ix) && c in ix.clients && ix.clients[c].keys == map[] && n in Waiting(ix, k)
    requires forall d | d in ix.clients && d != c :: d in r.clients && r.clients[d] == ix.clients[d]
    ensures Listed(ix, k, n) && n.id < ix.next && (Wants(r, n, w) <==> Wants(ix, n, w))
  {
    assert Listed(ix, k, n);
    Older(ix, k, n);
  }

  // --------------------------------------------------------------------------- runs

  lemma ThinsLater(ix: Index, jx: Index)
    requires Thins(ix, jx)
    ensures Later(ix, jx)
  {
    hide Listed;
  }

  lemma SameIsLater(ix: Index, jx: Index)
    requires jx.blocking == ix.blocking && jx.next == ix.next
    ensures Later(ix, jx)
  {
  }

  lemma LaterTwice(ix: Index, jx: Index, kx: Index)
    requires Later(ix, jx) && Later(jx, kx)
    ensures Later(ix, kx)
  {
    hide Listed;
  }

  // The clients whose nodes are listed still want what they wanted.
  lemma SameListsOrder(ix: Index, jx: Index, w: BlockType)
    requires IndexInv(ix) && jx.blocking == ix.blocking
    requires forall c | c in ix.clients && ix.clients[c].keys != map[] ::
      c in jx.clients && jx.clients[c].btype == ix.clients[c].btype
    ensures OrderInv(ix, w) ==> OrderInv(jx, w)
  {
    if OrderInv(ix, w) {
      forall k | k in jx.blocking
        ensures Ordered(jx, jx.blocking[k], w)
      {
        forall n | n in ix.blocking[k]
          ensures Wants(jx, n, w) <==> Wants(ix, n, w)
        {
          assert Listed(ix, k, n);
          Older(ix, k, n);
        }
        OrderedStill2(ix, jx, ix.blocking[k], w);
      }
    }
  }

  lemma StepKeepsOrder(s: State, ev: Event, w: BlockType)
    requires ServiceInv(s, [], AnyKey()) && Enabled(s, ev)
    ensures Later(s.ix, Step(s, ev).ix)
    ensures OrderInv(s.ix, w) && (ev.Handle? ==> CalmAll(s, w)) ==> OrderInv(Step(s, ev).ix, w)
  {
    hide IndexInv, ReadyInv, Awake, DataOk, BlockForKeys, Unblock, Gone, TakenUp, HandleAll, CalmAll, OrderInv, Later, Signal;
    var r := Step(s, ev);
    match ev
    case BlockOnLists(c, keys, target, head) => BlockKeepsOrder(s.ix, c, BList, keys, target, head, w);
    case BlockOnSorted(c, keys, head) => BlockKeepsOrder(s.ix, c, BZset, keys, None, head, w);
    case BlockOnStreams(c, keys) => BlockKeepsOrder(s.ix, c, BStream, keys, None, false, w);
    case Leave(c) => LeaveKeepsOrder(s.ix, c, w);
    case Disconnect(c) => GoneKeepsOrder(s.ix, c, w);
    case Reprocess => TakenUpKeepsOrder(s.ix, w);
    case Handle =>
      HandleAllThins(s);
      ThinsLater(s.ix, r.ix);
      if OrderInv(s.ix, w) && CalmAll(s, w) { HandleAllKeepsOrder(s, w); }
    case BlockOnReplicas(c) => OtherStepKeepsOrder(s, ev, w);
    case Connect(c) => OtherStepKeepsOrder(s, ev, w);
    case _ =>
      SignalKeepsIndex(s, ev.k);
      assert r.ix == s.ix;
      SameIsLater(s.ix, r.ix);
  }

  lemma SignalKeepsIndex(s: State, k: Key)
    ensures Signal(s, k).ix == s.ix
  {
  }

  lemma OtherStepKeepsOrder(s: State, ev: Event, w: BlockType)
    requires IndexInv(s.ix) && Enabled(s, ev) && (ev.Connect? || ev.BlockOnReplicas?)
    ensures Later(s.ix, Step(s, ev).ix) && (OrderInv(s.ix, w) ==> OrderInv(Step(s, ev).ix, w))
  {
    hide OrderInv, Later;
    var r := Step(s, ev);
    if ev.BlockOnReplicas? { DataIffKeys(s.ix, ev.c); }
    SameListsOrder(s.ix, r.ix, w);
    SameIsLater(s.ix, r.ix);
  }

  lemma LeaveKeepsOrder(ix: Index, c: ClientId, w: BlockType)
    requires IndexInv(ix) && c in ix.clients && !ix.clients[c].btype.BNone?
    ensures Later(ix, Unblock(ix, c)) && (OrderInv(ix, w) ==> OrderInv(Unblock(ix, c), w))
  {
    hide IndexInv, OrderInv, Later, Unblock;
    UnblockThins(ix, c);
    ThinsLater(ix, Unblock(ix, c));
    if OrderInv(ix, w) {
      WholeOrder(ix, "", w);
      UnblockKeepsOrder(ix, c, "", w);
    }
  }

  lemma GoneKeepsOrder(ix: Index, c: ClientId, w: BlockType)
    requires IndexInv(ix) && c in ix.clients
    ensures Later(ix, Gone(ix, c)) && (OrderInv(ix, w) ==> OrderInv(Gone(ix, c), w))
  {
    hide OrderInv, Later, Unblock;
    var u := if ix.clients[c].btype.BNone? then ix else Unblock(ix, c);
    if ix.clients[c].btype.BNone? {
      SameIsLater(ix, u);
    } else {
      LeaveKeepsOrder(ix, c, w);
      UnblockKeepsInv(ix, c);
    }
    DataIffKeys(u, c);
    SameListsOrder(u, Gone(ix, c), w);
    SameIsLater(u, Gone(ix, c));
    LaterTwice(ix, u, Gone(ix, c));
  }

  lemma TakenUpKeepsOrder(ix: Index, w: BlockType)
    requires IndexInv(ix) && ix.unblocked != [] && ix.unblocked[0] in ix.clients
    ensures Later(ix, TakenUp(ix)) && (OrderInv(ix, w) ==> OrderInv(TakenUp(ix), w))
  {
    hide OrderInv, Later;
    SameListsOrder(ix, TakenUp(ix), w);
    SameIsLater(ix, TakenUp(ix));
  }

  /** Over every run in which services are calm for w, the waiters for w of each key stand in
      the order in which they blocked. */
  lemma {:induction false} RunKeepsOrder(trace: seq<State>, evs: seq<Event>, i: nat, w: BlockType)
    requires IsRun(trace, evs) && i < |trace|
    requires forall j | 0 <= j < i && evs[j].Handle? :: ServiceInv(trace[j], [], AnyKey()) && CalmAll(trace[j], w)
    ensures OrderInv(trace[i].ix, w)
  {
    hide ServiceInv, Enabled, Step, CalmAll, OrderInv, Later;
    if i == 0 {
      assert OrderInv(START.ix, w) by { NothingToOrder(w); }
    } else {
      RunKeepsOrder(trace, evs, i - 1, w);
      RunKeepsIndex(trace, evs, i - 1);
      StepKeepsOrder(trace[i - 1], evs[i - 1], w);
    }
  }

  lemma NothingToOrder(w: BlockType)
    ensures OrderInv(START.ix, w)
  {
  }

  /** In every run: what has an older identity was there before. */
  lemma {:induction false} RunIsLater(trace: seq<State>, evs: seq<Event>, i: nat, j: nat)
    requires IsRun(trace, evs) && i <= j < |trace|
    ensures Later(trace[i].ix, trace[j].ix)
  {
    hide ServiceInv, Enabled, Step, CalmAll, OrderInv, Later;
    if i == j {
      SameIsLater(trace[i].ix, trace[j].ix);
    } else {
      RunIsLater(trace, evs, i, j - 1);
      RunKeepsIndex(trace, evs, j - 1);
      StepKeepsOrder(trace[j - 1], evs[j - 1], BList);
      LaterTwice(trace[i].ix, trace[j - 1].ix, trace[j].ix);
    }
  }

  /** Of two clients that wait for the same type at the same key, the one that already did when the
      other did not stands in front: it is served first. */
  lemma WhoBlockedFirstIsInFront(trace: seq<State>, evs: seq<Event>, i: nat, j: nat, k: Key, a: Node, b: Node, w: BlockType)
    requires IsRun(trace, evs) && i <= j < |trace|
    requires forall h | 0 <= h < j && evs[h].Handle? :: ServiceInv(trace[h], [], AnyKey()) && CalmAll(trace[h], w)
    requires Listed(trace[i].ix, k, a) && !Listed(trace[i].ix, k, b)
    requires Listed(trace[j].ix, k, a) && Wants(trace[j].ix, a, w) && Listed(trace[j].ix, k, b) && Wants(trace[j].ix, b, w)
    ensures a.id < b.id
    ensures exists p, q :: 0 <= p < q < |Waiting(trace[j].ix, k)| && Waiting(trace[j].ix, k)[p] == a && Waiting(trace[j].ix, k)[q] == b
  {
    hide ServiceInv, Enabled, Step, CalmAll, IndexInv;
    RunIsLater(trace, evs, i, j);
    RunKeepsIndex(trace, evs, i);
    InvParts(trace[i], [], AnyKey());
    assert NodesInv(trace[i].ix) by { NodesPart(trace[i].ix); }
    Older(trace[i].ix, k, a);
    RunKeepsOrder(trace, evs, j, w);
    var nodes := Waiting(trace[j].ix, k);
    var p :| 0 <= p < |nodes| && nodes[p] == a;
    var q :| 0 <= q < |nodes| && nodes[q] == b;
    assert p < q;
  }

  // -------------------------------------------------------- keys used for one type

  /** Where somebody waits for w, nobody waits for a list or a sorted set unless that is w. */
  ghost predicate NoMixed(ix: Index, w: BlockType) {
    forall k, n, m | Listed(ix, k, n) && Listed(ix, k, m) && Wants(ix, n, w) ::
      (w == BList || !Wants(ix, m, BList)) && (w == BZset || !Wants(ix, m, BZset))
  }

  lemma ThinsUnmixed(ix: Index, jx: Index, w: BlockType)
    requires Thins(ix, jx) && NoMixed(ix, w)
    ensures NoMixed(jx, w)
  {
    hide IndexInv, Listed;
    forall k, n, m | Listed(jx, k, n) && Listed(jx, k, m) && Wants(jx, n, w)
      ensures (w == BList || !Wants(jx, m, BList)) && (w == BZset || !Wants(jx, m, BZset))
    {
      assert SameKind(ix, jx, n.client) && SameKind(ix, jx, m.client);
    }
  }

  lemma UnmixedIsCalm(s: State, k: Key, w: BlockType)
    requires IndexInv(s.ix) && NoMixed(s.ix, w)
    ensures Calm(s, k, w)
  {
    hide IndexInv, ListLooks, SortedLooks, Wants, Turns, ServeLoop;
    var nodes := Waiting(s.ix, k);
    if x :| x in nodes && Wants(s.ix, x, w) {
      assert Listed(s.ix, k, x);
      forall m | m in nodes
        ensures (w == BList || !Wants(s.ix, m, BList)) && (w == BZset || !Wants(s.ix, m, BZset))
      {
        assert Listed(s.ix, k, m);
      }
      if IsList(s, k) {
        if w != BList { ListLooksAtAll(s, k); }
      } else if w != BZset {
        SortedLooksAtAll(s.ix, nodes, |MembersOf(s, k)|);
      }
    }
  }

  lemma ListLooksAtAll(s: State, k: Key)
    requires IndexInv(s.ix) && forall m | m in Waiting(s.ix, k) :: !Wants(s.ix, m, BList)
    ensures ListLooks(s, k, |Waiting(s.ix, k)|) == |Waiting(s.ix, k)|
  {
    hide IndexInv, ListLooks, Wants, ServeLoop;
    var nodes := Waiting(s.ix, k);
    assert nodes + [] == nodes;
    ListIs(s, k, nodes, []);
  }

  lemma {:induction false} SortedLooksAtAll(ix: Index, nodes: seq<Node>, members: nat)
    requires forall m | m in nodes :: !Wants(ix, m, BZset)
    ensures SortedLooks(ix, nodes, members) == if members == 0 then 0 else |nodes|
  {
    if nodes != [] && members != 0 {
      assert nodes[0] in nodes;
      SortedLooksAtAll(ix, nodes[1..], members);
    }
  }

  lemma {:induction false} UnmixedKeysAreCalm(s: State, l: seq<Key>, w: BlockType)
    requires IndexInv(s.ix) && NoMixed(s.ix, w)
    ensures CalmKeys(s, l, w)
    decreases |l|
  {
    hide IndexInv, Thins, HandleKey, Calm, NoMixed;
    if l != [] {
      UnmixedIsCalm(s, l[0], w);
      HandleKeyThins(s, l[0]);
      ThinsInv(s.ix, HandleKey(s, l[0]).ix);
      ThinsUnmixed(s.ix, HandleKey(s, l[0]).ix, w);
      UnmixedKeysAreCalm(HandleKey(s, l[0]), l[1..], w);
    }
  }

  /** If no key is waited for as w and as another type that is popped, handling the queue
      is calm. */
  lemma {:induction false} UnmixedAllIsCalm(s: State, w: BlockType)
    requires ServiceInv(s, [], AnyKey()) && NoMixed(s.ix, w)
    ensures CalmAll(s, w)
    decreases |BlockedClients(s.ix)|, |s.ready|
  {
    hide HandleKeys, IndexInv, Awake, DataOk, ReadyInv, Thins, NoMixed, CalmKeys;
    if s.ready != [] {
      var t := s.(ready := []);
      TakeAll(s, AnyKey());
      HandleKeysKeepsInv(t, s.ready, AnyKey());
      UnmixedKeysAreCalm(t, s.ready, w);
      HandleKeysThins(t, s.ready);
      ThinsUnmixed(t.ix, HandleKeys(t, s.ready).ix, w);
      UnmixedAllIsCalm(HandleKeys(t, s.ready), w);
    }
  }

  lemma UnmixedRunKeepsOrder(trace: seq<State>, evs: seq<Event>, i: nat, w: BlockType)
    requires IsRun(trace, evs) && i < |trace|
    requires forall j | 0 <= j < i && evs[j].Handle? :: NoMixed(trace[j].ix, w)
    ensures OrderInv(trace[i].ix, w)
  {
    hide ServiceInv, Enabled, Step, CalmAll, OrderInv, NoMixed;
    forall j | 0 <= j < i && evs[j].Handle?
      ensures ServiceInv(trace[j], [], AnyKey()) && CalmAll(trace[j], w)
    {
      RunKeepsIndex(trace, evs, j);
      UnmixedAllIsCalm(trace[j], w);
    }
    RunKeepsOrder(trace, evs, i, w);
  }

  // ---------------------------------------------------------------------- the example

  const KEY: Key := "k"

  function Blocked(t: BlockType, id: nat): Client { Client(t, map[KEY := id], None, true, false) }

  const LEFT := Client(BNone, map[], None, true, true)

  function NobodyWaits(): Index {
    Index(map[0 := NEW_CLIENT, 1 := NEW_CLIENT, 2 := NEW_CLIENT], map[], 0, 0, map[], [])
  }

  function OneWaits(): Index {
    Index(map[0 := Blocked(BList, 0), 1 := NEW_CLIENT, 2 := NEW_CLIENT], map[KEY := [Node(0, 0)]], 1, 1, map[BList := 1], [])
  }

  function TwoWait(): Index {
    Index(map[0 := Blocked(BList, 0), 1 := Blocked(BZset, 1), 2 := NEW_CLIENT],
          map[KEY := [Node(0, 0), Node(1, 1)]], 2, 2, map[BList := 1, BZset := 1], [])
  }

  function ThreeWait(): Index {
    Index(map[0 := Blocked(BList, 0), 1 := Blocked(BZset, 1), 2 := Blocked(BList, 2)],
          map[KEY := [Node(0, 0), Node(1, 1), Node(2, 2)]], 3, 3, map[BList := 2, BZset := 1], [])
  }

  // After the sorted set was served.
  function Overtaken(): Index {
    Index(map[0 := Blocked(BList, 0), 1 := LEFT, 2 := Blocked(BList, 2)],
          map[KEY := [Node(2, 2), Node(0, 0)]], 3, 2, map[BList := 2, BZset := 0], [1])
  }

  // After the list was served.
  function LeftBehind(): Index {
    Index(map[0 := Blocked(BList, 0), 1 := LEFT, 2 := LEFT],
          map[KEY := [Node(0, 0)]], 3, 1, map[BList := 1, BZset := 0], [1, 2])
  }

  lemma OneKey(ix: Index, c: ClientId, t: BlockType)
    requires c in ix.clients && ix.clients[c] == NEW_CLIENT
    ensures BlockForKeys(ix, c, t, [KEY], None, true) ==
            ix.(clients := ix.clients[c := Blocked(t, ix.next)],
                blocking := ix.blocking[KEY := Waiting(ix, KEY) + [Node(ix.next, c)]], next := ix.next + 1,
                blocked := ix.blocked + 1, byType := ix.byType[t := TypeCount(ix, t) + 1])
  {
    var p := Prepare(ix, c, None, true);
    assert AddKeys(p, c, [KEY], 0) == p;
    assert AddKeys(p, c, [KEY], 1) == AddKey(p, c, KEY);
    var r := BlockForKeys(ix, c, t, [KEY], None, true);
    assert r.clients == ix.clients[c := Blocked(t, ix.next)];
  }

  lemma FirstBlocks()
    ensures BlockForKeys(NobodyWaits(), 0, BList, [KEY], None, true) == OneWaits()
  {
    hide BlockForKeys;
    OneKey(NobodyWaits(), 0, BList);
    assert [] + [Node(0, 0)] == [Node(0, 0)];
  }

  lemma SecondBlocks()
    ensures BlockForKeys(OneWaits(), 1, BZset, [KEY], None, true) == TwoWait()
  {
    hide BlockForKeys;
    OneKey(OneWaits(), 1, BZset);
    assert [Node(0, 0)] + [Node(1, 1)] == [Node(0, 0), Node(1, 1)];
  }

  lemma ThirdBlocks()
    ensures BlockForKeys(TwoWait(), 2, BList, [KEY], None, true) == ThreeWait()
  {
    hide BlockForKeys;
    OneKey(TwoWait(), 2, BList);
    assert [Node(0, 0), Node(1, 1)] + [Node(2, 2)] == [Node(0, 0), Node(1, 1), Node(2, 2)];
  }

  // One client that waits for KEY alone is unblocked.
  lemma OneLeaves(ix: Index, c: ClientId, t: BlockType, id: nat)
    requires KEY in ix.blocking && c in ix.clients && ix.clients[c] == Blocked(t, id) && WaitsForData(t)
    requires ix.blocking.Keys == {KEY} && Drop(ix.blocking[KEY], Node(id, c)) != []
    ensures Unblock(ix, c) ==
            ix.(clients := ix.clients[c := LEFT], blocking := map[KEY := Drop(ix.blocking[KEY], Node(id, c))],
                blocked := ix.blocked - 1, byType := ix.byType[t := TypeCount(ix, t) - 1], unblocked := ix.unblocked + [c])
  {
    hide Drop;
    var r := Unblock(ix, c);
    assert r.blocking == map[KEY := Drop(ix.blocking[KEY], Node(id, c))];
    assert r.clients == ix.clients[c := LEFT];
  }

  lemma SortedSetServed(s: State)
    requires s.ix == ThreeWait() && s.data == map[KEY := Sorted(["m"])]
    ensures ServeSorted(s, KEY, 3) ==
            s.(ix := Overtaken(), data := map[], replies := s.replies + [Popped(1, KEY, "m")])
  {
    hide ServeSortedFirst;
    var t := s.(ix := Turned());
    FirstTurns(s);
    SortedFirst(t);
    var u := ServeSortedFirst(t, KEY);
    assert ServeSorted(s, KEY, 3) == ServeSorted(t, KEY, 2) == ServeSorted(u, KEY, 1) == u;
  }

  // The first client went to the end.
  function Turned(): Index { ThreeWait().(blocking := map[KEY := [Node(1, 1), Node(2, 2), Node(0, 0)]]) }

  lemma FirstTurns(s: State)
    requires s.ix == ThreeWait()
    ensures Rotate(s.ix, KEY) == Turned()
  {
    assert [Node(0, 0), Node(1, 1), Node(2, 2)][1..] + [Node(0, 0)] == [Node(1, 1), Node(2, 2), Node(0, 0)];
  }

  lemma SortedFirst(t: State)
    requires t.ix == Turned() && t.data == map[KEY := Sorted(["m"])]
    ensures SortedServable(t, KEY)
    ensures ServeSortedFirst(t, KEY) == t.(ix := Overtaken(), data := map[], replies := t.replies + [Popped(1, KEY, "m")])
  {
    hide Unblock;
    OneTaken();
    assert ServeSortedFirst(t, KEY).data == map[];
  }

  lemma OneTaken()
    ensures Unblock(Turned(), 1) == Overtaken()
  {
    hide Unblock;
    assert Drop([Node(1, 1), Node(2, 2), Node(0, 0)], Node(1, 1)) == [Node(2, 2), Node(0, 0)];
    OneLeaves(Turned(), 1, BZset, 1);
  }

  lemma ListServed(s: State)
    requires s.ix == Overtaken() && s.data == map[KEY := Items(["x"])]
    ensures Serve(s, KEY) == s.(ix := LeftBehind(), data := map[], replies := s.replies + [Popped(2, KEY, "x")])
  {
    hide ServeFirst;
    FirstOfTwo(s);
    var u := ServeFirst(s, KEY);
    assert ServeLoop(s, KEY, 2) == ServeLoop(u, KEY, 1) == u;
  }

  lemma FirstOfTwo(s: State)
    requires s.ix == Overtaken() && s.data == map[KEY := Items(["x"])]
    ensures Servable(s, KEY) && ServeFirst(s, KEY) ==
            s.(ix := LeftBehind(), data := map[KEY := Items([])], replies := s.replies + [Popped(2, KEY, "x")])
  {
    hide Unblock;
    TwoTaken();
    assert ["x"][1..] == [];
  }

  lemma TwoTaken()
    ensures Unblock(Overtaken(), 2) == LeftBehind()
  {
    hide Unblock;
    assert Drop([Node(2, 2), Node(0, 0)], Node(2, 2)) == [Node(0, 0)];
    OneLeaves(Overtaken(), 2, BList, 2);
  }

  // A queue of one key.
  lemma HandleOne(s: State, k: Key)
    requires ServiceInv(s, [], AnyKey()) && s.ready == [k] && HandleKey(s.(ready := []), k).ready == []
    ensures HandleAll(s) == HandleKey(s.(ready := []), k)
  {
    hide IndexInv, Awake, DataOk, ReadyInv, HandleKey;
    var t := s.(ready := []);
    TakeAll(s, AnyKey());
    HandleKeysKeepsInv(t, s.ready, AnyKey());
    assert s.ready[1..] == [];
    assert HandleKeys(t, s.ready) == HandleKeys(HandleKey(t, k), []);
  }

  // The sorted set, and then the list, is put at KEY and the queue is handled.
  lemma SortedSetComes(s: State) returns (s1: State, s2: State)
    requires ServiceInv(s, [], AnyKey()) && s == START.(ix := ThreeWait())
    ensures Enabled(s, Add(KEY, Sorted(["m"]))) && s1 == Step(s, Add(KEY, Sorted(["m"])))
    ensures Enabled(s1, Handle) && s2 == Step(s1, Handle) && ServiceInv(s2, [], AnyKey())
    ensures s2 == START.(ix := Overtaken(), replies := [Popped(1, KEY, "m")])
  {
    hide ServiceInv, ServeSorted, ServeLoop;
    s1 := Step(s, Add(KEY, Sorted(["m"])));
    assert s1 == s.(data := map[KEY := Sorted(["m"])], ready := [KEY], readySet := {KEY});
    AnyStep(s, Add(KEY, Sorted(["m"])));
    var t := s1.(ready := [], readySet := {});
    SortedSetServed(t);
    s2 := HandleKey(s1.(ready := []), KEY);
    HandleOne(s1, KEY);
    AnyStep(s1, Handle);
  }

  lemma ListComes(s: State) returns (s1: State, s2: State)
    requires ServiceInv(s, [], AnyKey()) && s == START.(ix := Overtaken(), replies := [Popped(1, KEY, "m")])
    ensures Enabled(s, Push(KEY, ["x"], true)) && s1 == Step(s, Push(KEY, ["x"], true))
    ensures Enabled(s1, Handle) && s2 == Step(s1, Handle)
    ensures s2 == START.(ix := LeftBehind(), replies := [Popped(1, KEY, "m"), Popped(2, KEY, "x")])
  {
    hide ServiceInv, ServeLoop, ServeSorted, Serve;
    s1 := Step(s, Push(KEY, ["x"], true));
    assert s1 == s.(data := map[KEY := Items(["x"])], ready := [KEY], readySet := {KEY});
    AnyStep(s, Push(KEY, ["x"], true));
    var t := s1.(ready := [], readySet := {});
    ListServed(t);
    s2 := HandleKey(s1.(ready := []), KEY);
    HandleOne(s1, KEY);
  }

  ghost function OvertakenEvents(): seq<Event> {
    [Connect(0), Connect(1), Connect(2), BlockOnLists(0, [KEY], None, true), BlockOnSorted(1, [KEY], true),
     BlockOnLists(2, [KEY], None, true), Add(KEY, Sorted(["m"])), Handle, Push(KEY, ["x"], true), Handle]
  }

  lemma Start3() returns (s1: State, s2: State, s3: State)
    ensures Enabled(START, Connect(0)) && s1 == Step(START, Connect(0))
    ensures Enabled(s1, Connect(1)) && s2 == Step(s1, Connect(1))
    ensures Enabled(s2, Connect(2)) && s3 == Step(s2, Connect(2))
    ensures s3 == START.(ix := NobodyWaits()) && ServiceInv(s3, [], AnyKey())
  {
    hide ServiceInv;
    s1 := Step(START, Connect(0));
    s2 := Step(s1, Connect(1));
    s3 := Step(s2, Connect(2));
    assert s3.ix.clients == NobodyWaits().clients;
    StartIsRight(AnyKey());
    AnyStep(START, Connect(0));
    AnyStep(s1, Connect(1));
    AnyStep(s2, Connect(2));
  }

  lemma ThreeBlock(s: State) returns (s1: State, s2: State, s3: State)
    requires s == START.(ix := NobodyWaits()) && ServiceInv(s, [], AnyKey())
    ensures Enabled(s, BlockOnLists(0, [KEY], None, true)) && s1 == Step(s, BlockOnLists(0, [KEY], None, true))
    ensures Enabled(s1, BlockOnSorted(1, [KEY], true)) && s2 == Step(s1, BlockOnSorted(1, [KEY], true))
    ensures Enabled(s2, BlockOnLists(2, [KEY], None, true)) && s3 == Step(s2, BlockOnLists(2, [KEY], None, true))
    ensures s3 == START.(ix := ThreeWait()) && ServiceInv(s3, [], AnyKey())
  {
    hide ServiceInv, BlockForKeys;
    FirstBlocks();
    s1 := Step(s, BlockOnLists(0, [KEY], None, true));
    AnyStep(s, BlockOnLists(0, [KEY], None, true));
    SecondBlocks();
    s2 := Step(s1, BlockOnSorted(1, [KEY], true));
    AnyStep(s1, BlockOnSorted(1, [KEY], true));
    ThirdBlocks();
    s3 := Step(s2, BlockOnLists(2, [KEY], None, true));
    AnyStep(s2, BlockOnLists(2, [KEY], None, true));
  }

  /** Client 0 blocks for a list, 1 for a sorted set, 2 for a list, all at one key. A sorted
      set of one member comes: 0 goes to the end, 1 is served, the service stops. Then a
      list of one element comes, and client 2 gets it although 0 blocked before. */
  lemma OvertakenExample()
    ensures exists trace: seq<State> ::
      && IsRun(trace, OvertakenEvents())
      && Waiting(trace[6].ix, KEY) == [Node(0, 0), Node(1, 1), Node(2, 2)]
      && Waiting(trace[8].ix, KEY) == [Node(2, 2), Node(0, 0)]
      && trace[10].replies == [Popped(1, KEY, "m"), Popped(2, KEY, "x")]
      && ListWaiter(trace[10].ix, KEY, Node(0, 0))
  {
    hide ServiceInv, Step, Enabled, IsRun, ThreeWait, Overtaken, LeftBehind, Waiting, ListWaiter;
    WhoWaits();
    var s1, s2, s3 := Start3();
    var s4, s5, s6 := ThreeBlock(s3);
    var s7, s8 := SortedSetComes(s6);
    var s9, s10 := ListComes(s8);
    var trace := [START, s1, s2, s3, s4, s5, s6, s7, s8, s9, s10];
    TenSteps(trace);
  }

  lemma WhoWaits()
    ensures Waiting(ThreeWait(), KEY) == [Node(0, 0), Node(1, 1), Node(2, 2)]
    ensures Waiting(Overtaken(), KEY) == [Node(2, 2), Node(0, 0)]
    ensures ListWaiter(LeftBehind(), KEY, Node(0, 0))
  {
    assert LeftBehind().blocking[KEY][0] == Node(0, 0);
  }

  lemma TenSteps(trace: seq<State>)
    requires |trace| == 11 && trace[0] == START
    requires Happens(trace, 0, Connect(0)) && Happens(trace, 1, Connect(1)) && Happens(trace, 2, Connect(2))
    requires Happens(trace, 3, BlockOnLists(0, [KEY], None, true)) && Happens(trace, 4, BlockOnSorted(1, [KEY], true))
    requires Happens(trace, 5, BlockOnLists(2, [KEY], None, true)) && Happens(trace, 6, Add(KEY, Sorted(["m"])))
    requires Happens(trace, 7, Handle) && Happens(trace, 8, Push(KEY, ["x"], true)) && Happens(trace, 9, Handle)
    ensures IsRun(trace, OvertakenEvents())
  {
    hide Step, Enabled;
    var evs := OvertakenEvents();
    forall i | 0 <= i < |evs|
      ensures Enabled(trace[i], evs[i]) && trace[i + 1] == Step(trace[i], evs[i])
    {
      assert Happens(trace, i, evs[i]);
    }
  }

  ghost predicate Happens(trace: seq<State>, i: nat, ev: Event)
    requires i + 1 < |trace|
  {
    Enabled(trace[i], ev) && trace[i + 1] == Step(trace[i], ev)
  }
}
