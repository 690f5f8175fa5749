/** Serving the clients that wait for a list, a sorted set or a stream: keys that became
    ready are queued once, the clients of a key are served in the order of its list, and
    serving goes on until nobody waits for a list that has elements. When that order is
    the order in which the clients blocked is the subject of BlockedOrder. */
module BlockedService {
  import opened Wrappers
  import opened BlockedModel

  // A list; a sorted set, its members by score; a stream, with the clients it has new
  // entries for; anything else.
  datatype Value = Items(items: seq<Elem>) | Sorted(members: seq<Elem>) | Stream(due: set<ClientId>) | Other

  datatype Reply =
    | Popped(client: ClientId, key: Key, value: Elem)
    | Moved(client: ClientId, key: Key, target: Key, value: Elem)
    | WrongType(client: ClientId, target: Key)

  // replies records, for the statements, what waiting clients were answered.
  datatype State = State(
    ix: Index,
    data: map<Key, Value>,
    ready: seq<Key>,
    readySet: set<Key>,
    replies: seq<Reply>)

  predicate IsList(s: State, k: Key) { k in s.data && s.data[k].Items? }

  function ItemsOf(s: State, k: Key): seq<Elem> { if IsList(s, k) then s.data[k].items else [] }

  function MembersOf(s: State, k: Key): seq<Elem> {
    if k in s.data && s.data[k].Sorted? then s.data[k].members else []
  }

  // ------------------------------------------------------------------ transitions

  /** Queues a key if somebody waits for it and it is not queued. */
  function Signal(s: State, k: Key): State {
    if k !in s.ix.blocking || k in s.readySet then s
    else s.(ready := s.ready + [k], readySet := s.readySet + {k})
  }

  function First(items: seq<Elem>, head: bool): Elem
    requires items != []
  {
    if head then items[0] else items[|items| - 1]
  }

  function Rest(items: seq<Elem>, head: bool): seq<Elem>
    requires items != []
  {
    if head then items[1..] else items[..|items| - 1]
  }

  function Pushed(items: seq<Elem>, v: Elem, head: bool): seq<Elem> { if head then [v] + items else items + [v] }

  // The element goes to the client, to the list it asked to move it to, or back.
  function Deliver(s: State, c: ClientId, k: Key, v: Elem, target: Option<Key>, head: bool): State {
    if target.None? then s.(replies := s.replies + [Popped(c, k, v)])
    else
      var d := target.value;
      if d !in s.data then
        var t := Signal(s, d);
        t.(data := s.data[d := Items([v])], replies := s.replies + [Moved(c, k, d, v)])
      else if s.data[d].Items? then
        s.(data := s.data[d := Items([v] + s.data[d].items)], replies := s.replies + [Moved(c, k, d, v)])
      else
        s.(data := s.data[k := Items(Pushed(ItemsOf(s, k), v, head))], replies := s.replies + [WrongType(c, d)])
  }

  // The client in front waits for a list, and the list has an element.
  predicate Servable(s: State, k: Key) {
    && k in s.ix.blocking && s.ix.blocking[k] != [] && s.ix.blocking[k][0].client in s.ix.clients
    && s.ix.clients[s.ix.blocking[k][0].client].btype.BList?
    && IsList(s, k) && s.data[k].items != []
  }

  function ServeFirst(s: State, k: Key): State
    requires Servable(s, k)
  {
    var c := s.ix.blocking[k][0].client;
    var cl := s.ix.clients[c];
    var items := s.data[k].items;
    Deliver(s.(data := s.data[k := Items(Rest(items, cl.fromHead))], ix := Unblock(s.ix, c)),
            c, k, First(items, cl.fromHead), cl.target, cl.fromHead)
  }

  predicate FrontWaitsElsewhere(s: State, k: Key) {
    && k in s.ix.blocking && s.ix.blocking[k] != [] && s.ix.blocking[k][0].client in s.ix.clients
    && !s.ix.clients[s.ix.blocking[k][0].client].btype.BList?
  }

  /** Looks at n clients: those waiting for another type go to the end, the others are
      served until the list is empty. */
  function ServeLoop(s: State, k: Key, n: nat): State
    decreases n
  {
    if n == 0 then s
    else if FrontWaitsElsewhere(s, k) then ServeLoop(s.(ix := Rotate(s.ix, k)), k, n - 1)
    else if Servable(s, k) then ServeLoop(ServeFirst(s, k), k, n - 1)
    else s
  }

  function DropIfEmpty(s: State, k: Key): State {
    if IsList(s, k) && s.data[k].items == [] then s.(data := s.data - {k}) else s
  }

  function Serve(s: State, k: Key): State {
    DropIfEmpty(ServeLoop(s, k, |Waiting(s.ix, k)|), k)
  }

  // The client in front waits for a sorted set, and the sorted set has a member.
  predicate SortedServable(s: State, k: Key) {
    && k in s.ix.blocking && s.ix.blocking[k] != [] && s.ix.blocking[k][0].client in s.ix.clients
    && s.ix.clients[s.ix.blocking[k][0].client].btype.BZset?
    && MembersOf(s, k) != []
  }

  // fromHead: the least member is popped, for BZPOPMIN. An emptied sorted set is deleted.
  function ServeSortedFirst(s: State, k: Key): State
    requires SortedServable(s, k)
  {
    var c := s.ix.blocking[k][0].client;
    var head := s.ix.clients[c].fromHead;
    var left := Rest(s.data[k].members, head);
    s.(data := if left == [] then s.data - {k} else s.data[k := Sorted(left)], ix := Unblock(s.ix, c),
       replies := s.replies + [Popped(c, k, First(s.data[k].members, head))])
  }

  predicate FrontWantsOther(s: State, k: Key) {
    && k in s.ix.blocking && s.ix.blocking[k] != [] && s.ix.blocking[k][0].client in s.ix.clients
    && !s.ix.clients[s.ix.blocking[k][0].client].btype.BZset?
  }

  /** Looks at n clients as long as there are members: those waiting for another type, for
      a list, say, go to the end. */
  function ServeSorted(s: State, k: Key, n: nat): State
    decreases n
  {
    if n == 0 || MembersOf(s, k) == [] then s
    else if FrontWantsOther(s, k) then ServeSorted(s.(ix := Rotate(s.ix, k)), k, n - 1)
    else if SortedServable(s, k) then ServeSorted(ServeSortedFirst(s, k), k, n - 1)
    else s
  }

  predicate ReadsStream(ix: Index, c: ClientId, due: set<ClientId>) {
    c in ix.clients && ix.clients[c].btype.BStream? && c in due
  }

  /** Walks the nodes of a key; who waits for a stream that has entries for it leaves. */
  function ServeStream(ix: Index, nodes: seq<Node>, due: set<ClientId>): Index
    decreases |nodes|
  {
    if nodes == [] then ix
    else
      ServeStream(if ReadsStream(ix, nodes[0].client, due) then Unblock(ix, nodes[0].client) else ix, nodes[1..], due)
  }

  function HandleKey(s: State, k: Key): State {
    var t := s.(readySet := s.readySet - {k});
    if k !in t.data then t
    else
      match t.data[k]
      case Items(_) => Serve(t, k)
      case Sorted(_) => ServeSorted(t, k, |Waiting(t.ix, k)|)
      case Stream(due) => t.(ix := ServeStream(t.ix, Waiting(t.ix, k), due))
      case Other => t
  }

  function HandleKeys(s: State, l: seq<Key>): State
    decreases |l|
  {
    if l == [] then s else HandleKeys(HandleKey(s, l[0]), l[1..])
  }

  // ----------------------------------------------------------------- what is kept

  // l are the keys taken from the queue and not handled yet.
  ghost predicate ReadyInv(s: State, l: seq<Key>) {
    NoDup(s.ready + l) && forall k :: k in s.readySet <==> k in s.ready || k in l
  }

  ghost predicate ListWaiter(ix: Index, k: Key, n: Node) {
    Listed(ix, k, n) && n.client in ix.clients && ix.clients[n.client].btype.BList?
  }

  // The key holds a list although somebody waits for one there.
  ghost predicate Unserved(s: State, k: Key) { IsList(s, k) && exists n :: ListWaiter(s.ix, k, n) }

  // Keys other than those of skip: whoever could be served will be.
  ghost predicate Awake(s: State, skip: iset<Key>) {
    forall k | k !in skip && Unserved(s, k) :: k in s.readySet
  }

  ghost predicate DataOk(s: State, skip: iset<Key>) {
    forall k | k !in skip && IsList(s, k) :: s.data[k].items != []
  }

  ghost predicate ServiceInv(s: State, l: seq<Key>, skip: iset<Key>) {
    IndexInv(s.ix) && ReadyInv(s, l) && Awake(s, skip) && DataOk(s, skip)
  }

  // What serving does to the number of blocked clients and to the queue.
  ghost predicate Less(s: State, r: State) {
    || |BlockedClients(r.ix)| < |BlockedClients(s.ix)|
    || (|BlockedClients(r.ix)| == |BlockedClients(s.ix)| && r.ready == s.ready)
  }

  lemma SignalKeepsReady(s: State, k: Key, l: seq<Key>)
    requires ReadyInv(s, l)
    ensures ReadyInv(Signal(s, k), l)
    ensures k in s.ix.blocking ==> k in Signal(s, k).readySet
    ensures s.readySet <= Signal(s, k).readySet
  {
    var r := Signal(s, k);
    if r != s {
      assert k !in s.ready && k !in l;
      var whole, n := s.ready + l, |s.ready|;
      forall i, j | 0 <= i < j < |r.ready + l|
        ensures (r.ready + l)[i] != (r.ready + l)[j]
      {
        var a := if i < n then i else i - 1;
        var b := if j < n then j else j - 1;
        if i != n && j != n { assert whole[a] != whole[b]; }
      }
    }
  }

  // A client that left no longer waits, and the others wait as before.
  lemma UnblockWaiters(ix: Index, c: ClientId)
    requires IndexInv(ix) && c in ix.clients && !ix.clients[c].btype.BNone?
    ensures forall k, n :: ListWaiter(Unblock(ix, c), k, n) <==> ListWaiter(ix, k, n) && n.client != c
  {
    var r := Unblock(ix, c);
    UnblockKeepsInv(ix, c);
    if WaitsForData(ix.clients[c].btype) {
      LeaveFacts(ix, c);
    } else {
      DataIffKeys(ix, c);
      LeaveNothing(ix.blocking, c);
      assert forall k, id: nat :: !Holds(ix, c, k, id);
      forall k, n | Listed(ix, k, n)
        ensures n.client != c
      {
        assert Listed(ix, k, Node(n.id, n.client));
      }
    }
    hide IndexInv, Unblock;
    assert forall k, n :: Listed(r, k, n) <==> Listed(ix, k, n) && n.client != c by { ListedAfter(ix, c, r); }
  }

  lemma ListedAfter(ix: Index, c: ClientId, r: Index)
    requires NodesInv(ix) && c in ix.clients && r.blocking == LeaveAll(ix.blocking, c, ix.clients[c].keys)
    ensures forall k, n :: Listed(r, k, n) <==> Listed(ix, k, n) && n.client != c
  {
    LeaveFacts(ix, c);
    var u := UnblockWaitingData(ix, c);
    assert forall k, n :: Listed(r, k, n) <==> Listed(u, k, n);
  }

  // Whoever waits for a key is listed once: different nodes, different clients.
  lemma OneNodeEach(ix: Index, k: Key, i: nat, j: nat)
    requires NodesInv(ix) && k in ix.blocking && i < j < |ix.blocking[k]|
    ensures ix.blocking[k][i].client != ix.blocking[k][j].client
  {
    var a, b := ix.blocking[k][i], ix.blocking[k][j];
    assert Listed(ix, k, Node(a.id, a.client)) && Listed(ix, k, Node(b.id, b.client));
    assert Holds(ix, a.client, k, a.id) && Holds(ix, b.client, k, b.id);
    assert a != b;
  }

  // The client in front leaves; the rest of the list stays in order.
  lemma FrontLeaves(ix: Index, k: Key)
    requires IndexInv(ix) && k in ix.blocking
    ensures ix.blocking[k] != [] && ix.blocking[k][0].client in ix.clients
    ensures
      var c := ix.blocking[k][0].client;
      !ix.clients[c].btype.BNone? ==> Waiting(Unblock(ix, c), k) == ix.blocking[k][1..]
  {
    var n := ix.blocking[k][0];
    assert Listed(ix, k, Node(n.id, n.client));
    assert Holds(ix, n.client, k, n.id);
    if !ix.clients[n.client].btype.BNone? { UnblockKeepsInv(ix, n.client); }
  }

  lemma ServeFirstKeepsInv(s: State, k: Key, l: seq<Key>, skip: iset<Key>)
    requires ServiceInv(s, l, skip + iset{k}) && Servable(s, k)
    ensures
      var r := ServeFirst(s, k);
      && ServiceInv(r, l, skip + iset{k}) && IsList(r, k)
      && |BlockedClients(r.ix)| < |BlockedClients(s.ix)|
      && Waiting(r.ix, k) == s.ix.blocking[k][1..]
      && (forall d | d in s.ix.clients && d != s.ix.blocking[k][0].client :: d in r.ix.clients && r.ix.clients[d] == s.ix.clients[d])
      && r.readySet >= s.readySet
  {
    hide IndexInv, Unblock, ReadyInv, BlockedClients;
    var c := s.ix.blocking[k][0].client;
    var cl := s.ix.clients[c];
    UnblockKeepsInv(s.ix, c);
    UnblockWaiters(s.ix, c);
    FrontLeaves(s.ix, k);
    var items := s.data[k].items;
    var m := s.(data := s.data[k := Items(Rest(items, cl.fromHead))], ix := Unblock(s.ix, c));
    assert ReadyInv(m, l) by { SameReady(s, m, l); }
    DeliverKeepsInv(m, c, k, First(items, cl.fromHead), cl.target, cl.fromHead, l, skip);
  }

  lemma SameReady(s: State, m: State, l: seq<Key>)
    requires ReadyInv(s, l) && m.ready == s.ready && m.readySet == s.readySet
    ensures ReadyInv(m, l)
  {
  }

  lemma DeliverKeepsInv(m: State, c: ClientId, k: Key, v: Elem, target: Option<Key>, head: bool, l: seq<Key>, skip: iset<Key>)
    requires ServiceInv(m, l, skip + iset{k}) && IsList(m, k)
    ensures
      var r := Deliver(m, c, k, v, target, head);
      ServiceInv(r, l, skip + iset{k}) && IsList(r, k) && r.ix == m.ix && r.readySet >= m.readySet
  {
    hide IndexInv, ReadyInv;
    var r := Deliver(m, c, k, v, target, head);
    if target.Some? && target.value !in m.data {
      var d := target.value;
      SignalKeepsReady(m, d, l);
      SameReady(Signal(m, d), r, l);
      forall j | j !in skip + iset{k} && Unserved(r, j)
        ensures j in r.readySet
      {
        var n :| ListWaiter(r.ix, j, n);
        if j != d { assert Unserved(m, j); }
      }
    } else {
      SameReady(m, r, l);
      forall j | j !in skip + iset{k} && Unserved(r, j)
        ensures j in r.readySet
      {
        var n :| ListWaiter(r.ix, j, n);
        assert Unserved(m, j);
      }
    }
  }

  lemma RotateKeepsService(s: State, k: Key, l: seq<Key>, skip: iset<Key>)
    requires ServiceInv(s, l, skip + iset{k}) && k in s.ix.blocking && s.ix.blocking[k] != []
    ensures
      var r := s.(ix := Rotate(s.ix, k));
      && ServiceInv(r, l, skip + iset{k})
      && BlockedClients(r.ix) == BlockedClients(s.ix)
      && Waiting(r.ix, k) == s.ix.blocking[k][1..] + [s.ix.blocking[k][0]]
  {
    hide IndexInv, ReadyInv;
    RotateKeepsInv(s.ix, k);
    var r := s.(ix := Rotate(s.ix, k));
    SameReady(s, r, l);
    var nodes := s.ix.blocking[k];
    assert nodes == [nodes[0]] + nodes[1..];
    forall j, n
      ensures ListWaiter(r.ix, j, n) <==> ListWaiter(s.ix, j, n)
    {
    }
    forall j | j !in skip + iset{k} && Unserved(r, j)
      ensures j in r.readySet
    {
      var n :| ListWaiter(r.ix, j, n);
      assert ListWaiter(s.ix, j, n);
      assert Unserved(s, j);
    }
  }

  // ----------------------------------------------------------- order of service

  ghost predicate Wants(ix: Index, n: Node, w: BlockType) { n.client in ix.clients && ix.clients[n.client].btype == w }

  // The nodes of clients that wait for one type, a list, say, in order.
  ghost function Takers(ix: Index, nodes: seq<Node>, w: BlockType): seq<Node> {
    if nodes == [] then []
    else (if Wants(ix, nodes[0], w) then [nodes[0]] else []) + Takers(ix, nodes[1..], w)
  }

  lemma {:induction false} SameTakers(ix: Index, jx: Index, nodes: seq<Node>)
    requires forall i | 0 <= i < |nodes| ::
      nodes[i].client in ix.clients && nodes[i].client in jx.clients
      && ix.clients[nodes[i].client].btype == jx.clients[nodes[i].client].btype
    ensures Takers(ix, nodes, BList) == Takers(jx, nodes, BList)
  {
    if nodes != [] { SameTakers(ix, jx, nodes[1..]); }
  }

  ghost predicate NoListClient(ix: Index, nodes: seq<Node>) {
    forall i | 0 <= i < |nodes| :: nodes[i].client in ix.clients && !ix.clients[nodes[i].client].btype.BList?
  }

  // Of some waiters for a list, the first m got one reply each, in order; the others
  // still wait, in order.
  ghost predicate InOrder(s: State, r: State, k: Key, waiters: seq<Node>, m: nat) {
    && m <= |waiters|
    && |r.replies| == |s.replies| + m && r.replies[..|s.replies|] == s.replies
    && (forall i | 0 <= i < m :: r.replies[|s.replies| + i].client == waiters[i].client)
    && Takers(r.ix, Waiting(r.ix, k), BList) == waiters[m..]
  }

  /** Of the n clients in front, those waiting for a list are answered in the order of their
      nodes, one reply each; some are left only if the list ran empty. The list of
      clients is never read after the last one left: it still has n entries. */
  lemma {:induction false} ServeLoopIsFifo(s: State, k: Key, n: nat, l: seq<Key>, skip: iset<Key>) returns (m: nat)
    requires ServiceInv(s, l, skip + iset{k}) && IsList(s, k) && n <= |Waiting(s.ix, k)|
    requires NoListClient(s.ix, Waiting(s.ix, k)[n..])
    ensures
      var r := ServeLoop(s, k, n);
      var waiters := Takers(s.ix, Waiting(s.ix, k)[..n], BList);
      && ServiceInv(r, l, skip + iset{k}) && IsList(r, k) && Less(s, r) && r.readySet >= s.readySet
      && InOrder(s, r, k, waiters, m)
      && (m < |waiters| ==> ItemsOf(r, k) == [])
      && (m == |waiters| ==> NoListClient(r.ix, Waiting(r.ix, k)))
    decreases n
  {
    hide ServiceInv, Less;
    if n == 0 {
      m := 0;
      assert Waiting(s.ix, k)[..0] == [] && Waiting(s.ix, k)[0..] == Waiting(s.ix, k);
      NoTakers(s.ix, Waiting(s.ix, k));
      assert Less(s, s) by { LessSelf(s); }
    } else {
      assert IndexInv(s.ix) by { InvParts(s, l, skip + iset{k}); }
      FrontLeaves(s.ix, k);
      var nodes := s.ix.blocking[k];
      var c := nodes[0].client;
      assert nodes[..n][0] == nodes[0] && nodes[..n][1..] == nodes[1..][..n - 1];
      if FrontWaitsElsewhere(s, k) {
        m := RotatedIsFifo(s, k, n, l, skip);
      } else if Servable(s, k) {
        m := ServedIsFifo(s, k, n, l, skip);
      } else {
        m := 0;
        assert ItemsOf(s, k) == [];
        SplitTakers(s.ix, nodes, n);
        assert Less(s, s) by { LessSelf(s); }
      }
    }
  }

  lemma InvParts(s: State, l: seq<Key>, skip: iset<Key>)
    requires ServiceInv(s, l, skip)
    ensures IndexInv(s.ix)
  {
  }

  lemma LessSelf(s: State)
    ensures Less(s, s)
  {
  }

  lemma LessMore(s: State, t: State, r: State)
    requires Less(t, r)
    requires |BlockedClients(t.ix)| < |BlockedClients(s.ix)| || (BlockedClients(t.ix) == BlockedClients(s.ix) && t.ready == s.ready)
    ensures Less(s, r)
  {
  }

  lemma {:induction false} NoTakers(ix: Index, nodes: seq<Node>)
    requires NoListClient(ix, nodes)
    ensures Takers(ix, nodes, BList) == []
  {
    if nodes != [] { NoTakers(ix, nodes[1..]); }
  }

  lemma {:induction false} TakersConcat(ix: Index, a: seq<Node>, b: seq<Node>, w: BlockType)
    ensures Takers(ix, a + b, w) == Takers(ix, a, w) + Takers(ix, b, w)
  {
    if a == [] {
      assert a + b == b;
    } else {
      assert (a + b)[1..] == a[1..] + b;
      TakersConcat(ix, a[1..], b, w);
    }
  }

  lemma SplitTakers(ix: Index, nodes: seq<Node>, n: nat)
    requires n <= |nodes| && NoListClient(ix, nodes[n..])
    ensures Takers(ix, nodes, BList) == Takers(ix, nodes[..n], BList)
  {
    assert nodes == nodes[..n] + nodes[n..];
    TakersConcat(ix, nodes[..n], nodes[n..], BList);
    NoTakers(ix, nodes[n..]);
  }

  lemma {:induction false} RotatedIsFifo(s: State, k: Key, n: nat, l: seq<Key>, skip: iset<Key>) returns (m: nat)
    requires ServiceInv(s, l, skip + iset{k}) && IsList(s, k) && 0 < n <= |Waiting(s.ix, k)|
    requires NoListClient(s.ix, Waiting(s.ix, k)[n..]) && FrontWaitsElsewhere(s, k)
    ensures
      var r := ServeLoop(s, k, n);
      var waiters := Takers(s.ix, Waiting(s.ix, k)[..n], BList);
      && ServiceInv(r, l, skip + iset{k}) && IsList(r, k) && Less(s, r) && r.readySet >= s.readySet
      && InOrder(s, r, k, waiters, m)
      && (m < |waiters| ==> ItemsOf(r, k) == [])
      && (m == |waiters| ==> NoListClient(r.ix, Waiting(r.ix, k)))
    decreases n, 0
  {
    hide ServiceInv, Less, ServeLoop, Takers, NoListClient, ItemsOf, FrontWaitsElsewhere;
    var t := s.(ix := Rotate(s.ix, k));
    RotatedFront(s, k, n, l, skip);
    LoopRotates(s, k, n);
    m := ServeLoopIsFifo(t, k, n - 1, l, skip);
    LessMore(s, t, ServeLoop(t, k, n - 1));
  }

  // The first client went to the end: the waiters for the list are as before.
  lemma RotatedFront(s: State, k: Key, n: nat, l: seq<Key>, skip: iset<Key>)
    requires ServiceInv(s, l, skip + iset{k}) && 0 < n <= |Waiting(s.ix, k)|
    requires NoListClient(s.ix, Waiting(s.ix, k)[n..]) && FrontWaitsElsewhere(s, k)
    ensures
      var t := s.(ix := Rotate(s.ix, k));
      && ServiceInv(t, l, skip + iset{k}) && BlockedClients(t.ix) == BlockedClients(s.ix)
      && |Waiting(t.ix, k)| == |Waiting(s.ix, k)| && NoListClient(t.ix, Waiting(t.ix, k)[n - 1..])
      && Takers(s.ix, Waiting(s.ix, k)[..n], BList) == Takers(t.ix, Waiting(t.ix, k)[..n - 1], BList)
  {
    hide ServiceInv, BlockedClients;
    var nodes := s.ix.blocking[k];
    var t := s.(ix := Rotate(s.ix, k));
    RotateKeepsService(s, k, l, skip);
    var turned := nodes[1..] + [nodes[0]];
    assert turned[n - 1..] == nodes[n..] + [nodes[0]];
    assert turned[..n - 1] == nodes[1..][..n - 1];
    assert nodes[..n] == [nodes[0]] + nodes[1..][..n - 1];
    TakersConcat(s.ix, [nodes[0]], nodes[1..][..n - 1], BList);
    assert [nodes[0]][1..] == [];
    assert Takers(s.ix, [nodes[0]], BList) == [];
    SameClients(s.ix, t.ix, nodes[1..][..n - 1]);
  }

  lemma {:induction false} SameClients(ix: Index, jx: Index, nodes: seq<Node>)
    requires ix.clients == jx.clients
    ensures Takers(ix, nodes, BList) == Takers(jx, nodes, BList)
  {
    if nodes != [] { SameClients(ix, jx, nodes[1..]); }
  }

  lemma {:induction false} ServedIsFifo(s: State, k: Key, n: nat, l: seq<Key>, skip: iset<Key>) returns (m: nat)
    requires ServiceInv(s, l, skip + iset{k}) && IsList(s, k) && 0 < n <= |Waiting(s.ix, k)|
    requires NoListClient(s.ix, Waiting(s.ix, k)[n..]) && Servable(s, k)
    ensures
      var r := ServeLoop(s, k, n);
      var waiters := Takers(s.ix, Waiting(s.ix, k)[..n], BList);
      && ServiceInv(r, l, skip + iset{k}) && IsList(r, k) && Less(s, r) && r.readySet >= s.readySet
      && InOrder(s, r, k, waiters, m)
      && (m < |waiters| ==> ItemsOf(r, k) == [])
      && (m == |waiters| ==> NoListClient(r.ix, Waiting(r.ix, k)))
    decreases n, 0
  {
    hide ServiceInv, Less, ServeFirst, ServeLoop, Takers, NoListClient, ItemsOf, Servable, Wants;
    var t := ServeFirst(s, k);
    ServedFront(s, k, n, l, skip);
    var j := ServeLoopIsFifo(t, k, n - 1, l, skip);
    LoopServes(s, k, n);
    m := j + 1;
    LessMore(s, t, ServeLoop(t, k, n - 1));
    RepliesGrow(s.replies, t.replies, ServeLoop(t, k, n - 1).replies, Waiting(s.ix, k)[0],
                Takers(t.ix, Waiting(t.ix, k)[..n - 1], BList), j);
  }

  // The first client was served: the others wait as before.
  lemma ServedFront(s: State, k: Key, n: nat, l: seq<Key>, skip: iset<Key>)
    requires ServiceInv(s, l, skip + iset{k}) && 0 < n <= |Waiting(s.ix, k)|
    requires NoListClient(s.ix, Waiting(s.ix, k)[n..]) && Servable(s, k)
    ensures
      var t, nodes := ServeFirst(s, k), Waiting(s.ix, k);
      && ServiceInv(t, l, skip + iset{k}) && IsList(t, k) && t.readySet >= s.readySet
      && |BlockedClients(t.ix)| < |BlockedClients(s.ix)|
      && |t.replies| == |s.replies| + 1 && t.replies[..|s.replies|] == s.replies
      && t.replies[|s.replies|].client == nodes[0].client
      && |Waiting(t.ix, k)| == |nodes| - 1 && NoListClient(t.ix, Waiting(t.ix, k)[n - 1..])
      && Takers(s.ix, nodes[..n], BList) == [nodes[0]] + Takers(t.ix, Waiting(t.ix, k)[..n - 1], BList)
  {
    hide ServiceInv, ServeFirst, Takers, NoListClient, BlockedClients;
    var t, nodes := ServeFirst(s, k), s.ix.blocking[k];
    ServeFirstKeepsInv(s, k, l, skip);
    ServeFirstReplies(s, k);
    assert NodesInv(s.ix) by { InvParts(s, l, skip + iset{k}); }
    OthersWait(s, k);
    var front := nodes[1..][..n - 1];
    assert nodes[1..][n - 1..] == nodes[n..];
    SameNoList(s.ix, t.ix, nodes[n..]);
    SameTakers(s.ix, t.ix, front);
    assert nodes[..n] == [nodes[0]] + front;
    TakersFirst(s.ix, nodes[0], front);
  }

  lemma SameNoList(ix: Index, jx: Index, nodes: seq<Node>)
    requires NoListClient(ix, nodes)
    requires forall i | 0 <= i < |nodes| ::
      nodes[i].client in ix.clients && nodes[i].client in jx.clients
      && ix.clients[nodes[i].client].btype == jx.clients[nodes[i].client].btype
    ensures NoListClient(jx, nodes)
  {
  }

  // The clients behind the first one are known, and others.
  lemma OthersWait(s: State, k: Key)
    requires NodesInv(s.ix) && k in s.ix.blocking
    ensures
      var nodes := s.ix.blocking[k];
      forall i | 1 <= i < |nodes| :: nodes[i].client != nodes[0].client && nodes[i].client in s.ix.clients
  {
    var nodes := s.ix.blocking[k];
    forall i | 1 <= i < |nodes|
      ensures nodes[i].client != nodes[0].client && nodes[i].client in s.ix.clients
    {
      OneNodeEach(s.ix, k, 0, i);
      assert Listed(s.ix, k, Node(nodes[i].id, nodes[i].client));
      assert Holds(s.ix, nodes[i].client, k, nodes[i].id);
    }
  }

  lemma TakersFirst(ix: Index, n: Node, rest: seq<Node>)
    requires Wants(ix, n, BList)
    ensures Takers(ix, [n] + rest, BList) == [n] + Takers(ix, rest, BList)
  {
    assert ([n] + rest)[1..] == rest;
  }

  lemma LoopRotates(s: State, k: Key, n: nat)
    requires n > 0 && FrontWaitsElsewhere(s, k)
    ensures ServeLoop(s, k, n) == ServeLoop(s.(ix := Rotate(s.ix, k)), k, n - 1)
  {
  }

  lemma LoopServes(s: State, k: Key, n: nat)
    requires n > 0 && Servable(s, k)
    ensures ServeLoop(s, k, n) == ServeLoop(ServeFirst(s, k), k, n - 1)
  {
  }

  lemma ServeFirstReplies(s: State, k: Key)
    requires Servable(s, k)
    ensures
      var r := ServeFirst(s, k);
      && |r.replies| == |s.replies| + 1 && r.replies[..|s.replies|] == s.replies
      && r.replies[|s.replies|].client == s.ix.blocking[k][0].client
  {
    hide Unblock;
  }

  lemma RepliesGrow(a: seq<Reply>, b: seq<Reply>, e: seq<Reply>, n: Node, waiters: seq<Node>, j: nat)
    requires |b| == |a| + 1 && b[..|a|] == a && b[|a|].client == n.client
    requires j <= |waiters| && |e| == |b| + j && e[..|b|] == b
    requires forall i | 0 <= i < j :: e[|b| + i].client == waiters[i].client
    ensures |e| == |a| + j + 1 && e[..|a|] == a
    ensures forall i | 0 <= i < j + 1 :: e[|a| + i].client == ([n] + waiters)[i].client
    ensures ([n] + waiters)[j + 1..] == waiters[j..]
  {
    assert e[..|a|] == b[..|a|];
    assert e[|a|] == b[|a|];
  }

  // ------------------------------------------------------- sorted sets and streams

  // What serving clients that wait for something else leaves to those that wait for lists.
  ghost predicate ListsAlone(s: State, r: State) {
    && IndexInv(r.ix) && r.ready == s.ready && r.readySet == s.readySet
    && (forall j | IsList(r, j) :: IsList(s, j) && r.data[j] == s.data[j])
    && (forall j, n :: ListWaiter(r.ix, j, n) <==> ListWaiter(s.ix, j, n))
    && |BlockedClients(r.ix)| <= |BlockedClients(s.ix)|
  }

  lemma ListsAloneKeepsInv(s: State, r: State, l: seq<Key>, skip: iset<Key>)
    requires ServiceInv(s, l, skip) && ListsAlone(s, r)
    ensures ServiceInv(r, l, skip) && Less(s, r)
  {
    hide IndexInv, ReadyInv, BlockedClients;
    SameReady(s, r, l);
    forall j | j !in skip && Unserved(r, j)
      ensures j in r.readySet
    {
      var n :| ListWaiter(r.ix, j, n);
      assert Unserved(s, j);
    }
  }

  lemma ListsAloneTwice(s: State, t: State, r: State)
    requires ListsAlone(s, t) && ListsAlone(t, r)
    ensures ListsAlone(s, r)
  {
    hide IndexInv, BlockedClients, ListWaiter;
  }

  // Somebody who does not wait for a list leaves.
  lemma OtherLeaves(s: State, c: ClientId)
    requires IndexInv(s.ix) && c in s.ix.clients
    requires !s.ix.clients[c].btype.BNone? && !s.ix.clients[c].btype.BList?
    ensures ListsAlone(s, s.(ix := Unblock(s.ix, c)))
  {
    hide IndexInv, Unblock, BlockedClients;
    UnblockKeepsInv(s.ix, c);
    UnblockWaiters(s.ix, c);
  }

  lemma SortedTurns(s: State, k: Key)
    requires IndexInv(s.ix) && k in s.ix.blocking && s.ix.blocking[k] != []
    ensures ListsAlone(s, s.(ix := Rotate(s.ix, k)))
  {
    hide IndexInv, BlockedClients;
    RotateKeepsInv(s.ix, k);
    var r := s.(ix := Rotate(s.ix, k));
    forall j, n
      ensures ListWaiter(r.ix, j, n) <==> ListWaiter(s.ix, j, n)
    {
    }
    assert BlockedClients(r.ix) == BlockedClients(s.ix) by { SameBlockedSet(s.ix, r.ix); }
  }

  lemma SameBlockedSet(ix: Index, jx: Index)
    requires jx.clients == ix.clients
    ensures BlockedClients(jx) == BlockedClients(ix)
  {
  }

  lemma SortedServed(s: State, k: Key)
    requires IndexInv(s.ix) && SortedServable(s, k)
    ensures
      var r := ServeSortedFirst(s, k);
      && ListsAlone(s, r)
      && Waiting(r.ix, k) == s.ix.blocking[k][1..]
      && r.ix == Unblock(s.ix, s.ix.blocking[k][0].client)
      && |MembersOf(s, k)| == |MembersOf(r, k)| + 1
  {
    hide IndexInv, Unblock, BlockedClients, ListWaiter;
    FrontLeaves(s.ix, k);
    OtherLeaves(s, s.ix.blocking[k][0].client);
  }

  lemma {:induction false} ServeSortedKeepsLists(s: State, k: Key, n: nat)
    requires IndexInv(s.ix) && n <= |Waiting(s.ix, k)|
    ensures ListsAlone(s, ServeSorted(s, k, n))
    decreases n
  {
    hide IndexInv, ListWaiter, Unblock, Rotate, BlockedClients, ServeSortedFirst;
    if n > 0 && MembersOf(s, k) != [] {
      FrontLeaves(s.ix, k);
      if FrontWantsOther(s, k) {
        var t := s.(ix := Rotate(s.ix, k));
        SortedTurns(s, k);
        RotateLength(s.ix, k);
        ServeSortedKeepsLists(t, k, n - 1);
        ListsAloneTwice(s, t, ServeSorted(t, k, n - 1));
      } else {
        SortedServed(s, k);
        var t := ServeSortedFirst(s, k);
        ServeSortedKeepsLists(t, k, n - 1);
        ListsAloneTwice(s, t, ServeSorted(t, k, n - 1));
      }
    }
  }

  lemma RotateLength(ix: Index, k: Key)
    requires k in ix.blocking && ix.blocking[k] != []
    ensures Waiting(Rotate(ix, k), k) == ix.blocking[k][1..] + [ix.blocking[k][0]]
    ensures |Waiting(Rotate(ix, k), k)| == |ix.blocking[k]|
  {
  }

  lemma {:induction false} ServeStreamKeepsLists(s: State, nodes: seq<Node>, due: set<ClientId>)
    requires IndexInv(s.ix)
    ensures ListsAlone(s, s.(ix := ServeStream(s.ix, nodes, due)))
    decreases |nodes|
  {
    hide IndexInv, ListWaiter, Unblock, BlockedClients;
    if nodes != [] {
      var c := nodes[0].client;
      if ReadsStream(s.ix, c, due) {
        OtherLeaves(s, c);
        var t := s.(ix := Unblock(s.ix, c));
        ServeStreamKeepsLists(t, nodes[1..], due);
        ListsAloneTwice(s, t, t.(ix := ServeStream(t.ix, nodes[1..], due)));
      } else {
        ServeStreamKeepsLists(s, nodes[1..], due);
      }
    }
  }

  // ------------------------------------------------------------ handling the queue

  lemma ServeKeepsInv(s: State, k: Key, l: seq<Key>, skip: iset<Key>) returns (m: nat)
    requires ServiceInv(s, l, skip + iset{k}) && IsList(s, k)
    ensures
      var r := Serve(s, k);
      var waiters := Takers(s.ix, Waiting(s.ix, k), BList);
      && ServiceInv(r, l, skip) && Less(s, r)
      && InOrder(s, r, k, waiters, m)
      && (m < |waiters| ==> k !in r.data)
      && !Unserved(r, k)
  {
    hide ServeLoop, Takers, IndexInv, ReadyInv;
    var nodes := Waiting(s.ix, k);
    assert nodes[|nodes|..] == [] && nodes[..|nodes|] == nodes;
    m := ServeLoopIsFifo(s, k, |nodes|, l, skip);
    var t := ServeLoop(s, k, |nodes|);
    var r := DropIfEmpty(t, k);
    SameReady(t, r, l);
    if ItemsOf(t, k) != [] {
      forall n
        ensures !ListWaiter(r.ix, k, n)
      {
        if Listed(r.ix, k, n) {
          var i :| 0 <= i < |Waiting(t.ix, k)| && Waiting(t.ix, k)[i] == n;
        }
      }
    }
    forall j | j !in skip && Unserved(r, j)
      ensures j in r.readySet
    {
      assert j != k;
      var n :| ListWaiter(r.ix, j, n);
      assert ListWaiter(t.ix, j, n);
      assert Unserved(t, j);
    }
  }

  lemma HandleKeyKeepsInv(s: State, k: Key, l: seq<Key>, skip: iset<Key>)
    requires ServiceInv(s, [k] + l, skip)
    ensures ServiceInv(HandleKey(s, k), l, skip) && Less(s, HandleKey(s, k)) && !Unserved(HandleKey(s, k), k)
  {
    hide Serve, IndexInv;
    var t := s.(readySet := s.readySet - {k});
    assert ReadyInv(t, l) by { TakeReady(s, k, l); }
    forall j | j !in skip && j != k && Unserved(t, j)
      ensures j in t.readySet
    {
      var n :| ListWaiter(t.ix, j, n);
      assert Unserved(s, j);
    }
    if IsList(t, k) {
      var m := ServeKeepsInv(t, k, l, skip);
    } else {
      OthersKeepInv(s, k, l, skip);
    }
  }

  lemma OthersKeepInv(s: State, k: Key, l: seq<Key>, skip: iset<Key>)
    requires !IsList(s, k) && ServiceInv(s.(readySet := s.readySet - {k}), l, skip)
    ensures ServiceInv(HandleKey(s, k), l, skip) && Less(s, HandleKey(s, k)) && !IsList(HandleKey(s, k), k)
  {
    hide ServiceInv, ServeSorted, ServeStream, Less;
    var t := s.(readySet := s.readySet - {k});
    assert IndexInv(t.ix) by { InvParts(t, l, skip); }
    if k !in t.data || t.data[k].Other? {
      LessSelf(t);
    } else if t.data[k].Sorted? {
      ServeSortedKeepsLists(t, k, |Waiting(t.ix, k)|);
      ListsAloneKeepsInv(t, HandleKey(s, k), l, skip);
    } else {
      ServeStreamKeepsLists(t, Waiting(t.ix, k), t.data[k].due);
      ListsAloneKeepsInv(t, HandleKey(s, k), l, skip);
    }
    assert Less(s, HandleKey(s, k)) by { LessButReady(s, t, HandleKey(s, k)); }
  }

  lemma LessButReady(s: State, t: State, r: State)
    requires Less(t, r) && t.ix == s.ix && t.ready == s.ready
    ensures Less(s, r)
  {
  }

  lemma TakeReady(s: State, k: Key, l: seq<Key>)
    requires ReadyInv(s, [k] + l)
    ensures ReadyInv(s.(readySet := s.readySet - {k}), l)
  {
    var whole := s.ready + ([k] + l);
    forall i | 0 <= i < |s.ready| ensures s.ready[i] != k { assert whole[i] != whole[|s.ready|]; }
    forall i | 0 <= i < |l| ensures l[i] != k { assert whole[|s.ready|] != whole[|s.ready| + 1 + i]; }
    forall i, j | 0 <= i < j < |s.ready + l|
      ensures (s.ready + l)[i] != (s.ready + l)[j]
    {
      var a := if i < |s.ready| then i else i + 1;
      var b := if j < |s.ready| then j else j + 1;
      assert whole[a] != whole[b];
    }
    assert forall j :: j in [k] + l <==> j == k || j in l;
  }

  lemma {:induction false} HandleKeysKeepsInv(s: State, l: seq<Key>, skip: iset<Key>)
    requires ServiceInv(s, l, skip)
    ensures ServiceInv(HandleKeys(s, l), [], skip) && Less(s, HandleKeys(s, l))
    decreases |l|
  {
    hide ServiceInv, HandleKey, Less;
    if l == [] {
      LessSelf(s);
    } else {
      assert l == [l[0]] + l[1..];
      HandleKeyKeepsInv(s, l[0], l[1..], skip);
      var t := HandleKey(s, l[0]);
      HandleKeysKeepsInv(t, l[1..], skip);
      LessTrans(s, t, HandleKeys(t, l[1..]));
    }
  }

  lemma LessTrans(s: State, t: State, r: State)
    requires Less(s, t) && Less(t, r)
    ensures Less(s, r)
  {
  }

  // Every key: nothing is claimed of keys that hold lists.
  ghost function AnyKey(): iset<Key> { iset k: Key | |k| >= 0 }

  lemma SkipAll(s: State, l: seq<Key>, skip: iset<Key>)
    requires ServiceInv(s, l, skip)
    ensures ServiceInv(s, l, AnyKey())
  {
  }

  /** Handles the queue, then the keys queued meanwhile, until none is left. It ends: only
      serving a client can queue a key, and there are fewer blocked clients then. */
  ghost function HandleAll(s: State): State
    requires ServiceInv(s, [], AnyKey())
    decreases |BlockedClients(s.ix)|, |s.ready|
  {
    if s.ready == [] then s
    else
      var t := s.(ready := []);
      TakeAll(s, AnyKey());
      HandleKeysKeepsInv(t, s.ready, AnyKey());
      HandleAll(HandleKeys(t, s.ready))
  }

  lemma TakeAll(s: State, skip: iset<Key>)
    requires ServiceInv(s, [], skip)
    ensures ServiceInv(s.(ready := []), s.ready, skip)
  {
    hide IndexInv;
    var t := s.(ready := []);
    assert [] + s.ready == s.ready && s.ready + [] == s.ready;
    forall j | j !in skip && Unserved(t, j)
      ensures j in t.readySet
    {
      var n :| ListWaiter(t.ix, j, n);
      assert Unserved(s, j);
    }
  }

  lemma {:induction false} HandleAllKeepsInv(s: State, skip: iset<Key>)
    requires ServiceInv(s, [], skip)
    ensures ServiceInv(s, [], AnyKey())
    ensures ServiceInv(HandleAll(s), [], skip) && HandleAll(s).ready == []
    decreases |BlockedClients(s.ix)|, |s.ready|
  {
    hide HandleKeys, IndexInv, Awake, DataOk, ReadyInv;
    SkipAll(s, [], skip);
    if s.ready != [] {
      var t := s.(ready := []);
      TakeAll(s, skip);
      HandleKeysKeepsInv(t, s.ready, skip);
      SkipAll(t, s.ready, skip);
      HandleKeysKeepsInv(t, s.ready, AnyKey());
      HandleAllKeepsInv(HandleKeys(t, s.ready), skip);
    }
  }

  /** Afterwards nobody waits for a list that has elements, if before the call everybody
      who did had the key queued. */
  lemma NobodyIsLeftWaiting(s: State)
    requires ServiceInv(s, [], iset{})
    ensures ServiceInv(s, [], AnyKey())
    ensures forall k :: !Unserved(HandleAll(s), k)
  {
    hide IndexInv;
    HandleAllKeepsInv(s, iset{});
  }

  // ------------------------------------------------------------------ conservation

  ghost function Contents(v: Value): multiset<Elem> {
    if v.Items? then multiset(v.items) else if v.Sorted? then multiset(v.members) else multiset{}
  }

  /** All elements of all lists and sorted sets. */
  ghost function Stock(data: map<Key, Value>): multiset<Elem> {
    if data == map[] then multiset{}
    else
      var k :| k in data;
      Contents(data[k]) + Stock(data - {k})
  }

  lemma {:induction false} StockWithout(data: map<Key, Value>, k: Key)
    requires k in data
    ensures Stock(data) == Contents(data[k]) + Stock(data - {k})
    decreases |data|
  {
    var j :| j in data && Stock(data) == Contents(data[j]) + Stock(data - {j});
    if j != k {
      StockWithout(data - {j}, k);
      assert data - {j} - {k} == data - {k} - {j};
      StockWithout(data - {k}, j);
    }
  }

  lemma StockWith(data: map<Key, Value>, k: Key, v: Value)
    ensures k in data ==> Stock(data[k := v]) + Contents(data[k]) == Stock(data) + Contents(v)
    ensures k !in data ==> Stock(data[k := v]) == Stock(data) + Contents(v)
  {
    hide Stock, Contents;
    var after := data[k := v];
    StockWithout(after, k);
    assert after - {k} == data - {k};
    if k in data { StockWithout(data, k); } else { assert data - {k} == data; }
  }

  // The elements that left the lists for good, to clients that popped them.
  ghost function GivenAway(replies: seq<Reply>): multiset<Elem> {
    if replies == [] then multiset{}
    else
      var last := replies[|replies| - 1];
      GivenAway(replies[..|replies| - 1]) + if last.Popped? then multiset{last.value} else multiset{}
  }

  lemma GivenMore(replies: seq<Reply>, r: Reply)
    ensures GivenAway(replies + [r]) == GivenAway(replies) + if r.Popped? then multiset{r.value} else multiset{}
  {
    assert (replies + [r])[..|replies|] == replies;
  }

  ghost function Whole(s: State): multiset<Elem> { Stock(s.data) + GivenAway(s.replies) }

  // From sums with c taken away, and with g added.
  lemma Cancel(a: multiset<Elem>, b: multiset<Elem>, c: multiset<Elem>, v: multiset<Elem>, g: multiset<Elem>)
    ensures a + (c + v) == b + c ==> a + g + v == b + g
    ensures a + c == b + (c + v) ==> a + g == b + g + v
  {
    forall x
      ensures a + (c + v) == b + c ==> (a + g + v)[x] == (b + g)[x]
      ensures a + c == b + (c + v) ==> (a + g)[x] == (b + g + v)[x]
    {
      assert (a + (c + v))[x] == a[x] + c[x] + v[x] && (b + c)[x] == b[x] + c[x];
      assert (b + (c + v))[x] == b[x] + c[x] + v[x] && (a + c)[x] == a[x] + c[x];
    }
  }

  lemma PoppedContents(items: seq<Elem>, head: bool)
    requires items != []
    ensures multiset(items) == multiset(Rest(items, head)) + multiset{First(items, head)}
  {
    if head {
      assert items == [items[0]] + items[1..];
    } else {
      assert items == items[..|items| - 1] + [items[|items| - 1]];
    }
  }

  lemma DeliverConserves(s: State, c: ClientId, k: Key, v: Elem, target: Option<Key>, head: bool)
    requires IsList(s, k)
    ensures Whole(Deliver(s, c, k, v, target, head)) == Whole(s) + multiset{v}
  {
    hide Stock, GivenAway;
    if target.None? {
      GivenMore(s.replies, Popped(c, k, v));
    } else {
      var d := target.value;
      GivenMore(s.replies, Moved(c, k, d, v));
      GivenMore(s.replies, WrongType(c, d));
      if d !in s.data {
        StockWith(s.data, d, Items([v]));
      } else if s.data[d].Items? {
        StockWith(s.data, d, Items([v] + s.data[d].items));
        assert multiset([v] + s.data[d].items) == multiset(s.data[d].items) + multiset{v};
        Cancel(Stock(Deliver(s, c, k, v, target, head).data), Stock(s.data), multiset(s.data[d].items), multiset{v},
               GivenAway(s.replies));
      } else {
        StockWith(s.data, k, Items(Pushed(ItemsOf(s, k), v, head)));
        assert multiset(Pushed(ItemsOf(s, k), v, head)) == multiset(ItemsOf(s, k)) + multiset{v};
        Cancel(Stock(Deliver(s, c, k, v, target, head).data), Stock(s.data), multiset(ItemsOf(s, k)), multiset{v},
               GivenAway(s.replies));
      }
    }
  }

  lemma ServeFirstConserves(s: State, k: Key)
    requires Servable(s, k)
    ensures Whole(ServeFirst(s, k)) == Whole(s)
  {
    hide Stock, GivenAway, Unblock, Deliver, First, Rest;
    var cl := s.ix.clients[s.ix.blocking[k][0].client];
    var items := s.data[k].items;
    PoppedContents(items, cl.fromHead);
    StockWith(s.data, k, Items(Rest(items, cl.fromHead)));
    var m := s.(data := s.data[k := Items(Rest(items, cl.fromHead))], ix := Unblock(s.ix, s.ix.blocking[k][0].client));
    DeliverConserves(m, s.ix.blocking[k][0].client, k, First(items, cl.fromHead), cl.target, cl.fromHead);
    assert Contents(s.data[k]) == multiset(items);
    assert Contents(Items(Rest(items, cl.fromHead))) == multiset(Rest(items, cl.fromHead));
    Cancel(Stock(m.data), Stock(s.data), multiset(Rest(items, cl.fromHead)), multiset{First(items, cl.fromHead)},
           GivenAway(s.replies));
  }

  lemma {:induction false} ServeLoopConserves(s: State, k: Key, n: nat)
    ensures Whole(ServeLoop(s, k, n)) == Whole(s)
    decreases n
  {
    hide Stock, GivenAway, ServeFirst, Rotate;
    if n > 0 {
      if FrontWaitsElsewhere(s, k) {
        ServeLoopConserves(s.(ix := Rotate(s.ix, k)), k, n - 1);
      } else if Servable(s, k) {
        ServeFirstConserves(s, k);
        ServeLoopConserves(ServeFirst(s, k), k, n - 1);
      }
    }
  }

  lemma HandleKeyConserves(s: State, k: Key)
    ensures Whole(HandleKey(s, k)) == Whole(s)
  {
    hide Stock, GivenAway, ServeLoop, ServeSorted, ServeStream;
    var t := s.(readySet := s.readySet - {k});
    if k in t.data && t.data[k].Sorted? {
      ServeSortedConserves(t, k, |Waiting(t.ix, k)|);
    } else if IsList(t, k) {
      var n := |Waiting(t.ix, k)|;
      ServeLoopConserves(t, k, n);
      var r := ServeLoop(t, k, n);
      if IsList(r, k) && r.data[k].items == [] { StockWithout(r.data, k); }
    }
  }

  lemma SortedFirstConserves(s: State, k: Key)
    requires SortedServable(s, k)
    ensures Whole(ServeSortedFirst(s, k)) == Whole(s)
  {
    hide Stock, GivenAway, Unblock, First, Rest;
    var c := s.ix.blocking[k][0].client;
    var head, members := s.ix.clients[c].fromHead, s.data[k].members;
    PoppedContents(members, head);
    StockWithout(s.data, k);
    GivenMore(s.replies, Popped(c, k, First(members, head)));
    if Rest(members, head) != [] {
      var data := s.data[k := Sorted(Rest(members, head))];
      StockWithout(data, k);
      assert data - {k} == s.data - {k};
    }
  }

  lemma {:induction false} ServeSortedConserves(s: State, k: Key, n: nat)
    ensures Whole(ServeSorted(s, k, n)) == Whole(s)
    decreases n
  {
    hide Stock, GivenAway, ServeSortedFirst, Rotate;
    if n > 0 && MembersOf(s, k) != [] {
      if FrontWantsOther(s, k) {
        ServeSortedConserves(s.(ix := Rotate(s.ix, k)), k, n - 1);
      } else if SortedServable(s, k) {
        SortedFirstConserves(s, k);
        ServeSortedConserves(ServeSortedFirst(s, k), k, n - 1);
      }
    }
  }

  lemma {:induction false} HandleKeysConserves(s: State, l: seq<Key>)
    ensures Whole(HandleKeys(s, l)) == Whole(s)
    decreases |l|
  {
    hide Whole, HandleKey;
    if l != [] {
      HandleKeyConserves(s, l[0]);
      HandleKeysConserves(HandleKey(s, l[0]), l[1..]);
    }
  }

  /** No element is lost or doubled: each one popped went to the client it is reported
      to, into the list it was to be moved to, or back where it came from. */
  lemma {:induction false} ServiceConserves(s: State)
    requires ServiceInv(s, [], AnyKey())
    ensures Whole(HandleAll(s)) == Whole(s)
    decreases |BlockedClients(s.ix)|, |s.ready|
  {
    hide HandleKeys, IndexInv, Stock, GivenAway;
    if s.ready != [] {
      TakeAll(s, AnyKey());
      var t := s.(ready := []);
      HandleKeysKeepsInv(t, s.ready, AnyKey());
      HandleKeysConserves(t, s.ready);
      ServiceConserves(HandleKeys(t, s.ready));
    }
  }
}
