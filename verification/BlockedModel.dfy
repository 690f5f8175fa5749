/** Clients blocked on keys: the index from keys to waiting clients and back, the queue of
    keys that became ready, and the service of waiting clients in blocking order. */
module BlockedModel {
  import opened Wrappers

  type Key = string
  type Elem = string
  type ClientId = nat

  datatype BlockType = BNone | BList | BZset | BStream | BWait

  // A node of the list of clients waiting for a key; id is its identity.
  datatype Node = Node(id: nat, client: ClientId)

  // keys is bpop.keys: for each key waited for, the identity of the node in its list.
  // fromHead: the command was BLPOP. requeued: the flag CLIENT_UNBLOCKED.
  datatype Client = Client(
    btype: BlockType,
    keys: map<Key, nat>,
    target: Option<Key>,
    fromHead: bool,
    requeued: bool)

  const NEW_CLIENT := Client(BNone, map[], None, false, false)

  predicate WaitsForData(t: BlockType) { t.BList? || t.BZset? || t.BStream? }

  // unblocked is the queue of clients whose input is processed again.
  datatype Index = Index(
    clients: map<ClientId, Client>,
    blocking: map<Key, seq<Node>>,
    next: nat,
    blocked: int,
    byType: map<BlockType, int>,
    unblocked: seq<ClientId>)

  // ------------------------------------------------------------------- the index

  function Waiting(ix: Index, k: Key): seq<Node> { if k in ix.blocking then ix.blocking[k] else [] }

  // One key of blockForKeys; a key given twice is ignored the second time.
  function AddKey(ix: Index, c: ClientId, k: Key): Index
    requires c in ix.clients
  {
    var cl := ix.clients[c];
    if k in cl.keys then ix
    else ix.(blocking := ix.blocking[k := Waiting(ix, k) + [Node(ix.next, c)]],
             clients := ix.clients[c := cl.(keys := cl.keys[k := ix.next])],
             next := ix.next + 1)
  }

  function AddKeys(ix: Index, c: ClientId, keys: seq<Key>, n: nat): (r: Index)
    requires c in ix.clients && n <= |keys|
    ensures r.clients.Keys == ix.clients.Keys
  {
    if n == 0 then ix else AddKey(AddKeys(ix, c, keys, n - 1), c, keys[n - 1])
  }

  function TypeCount(ix: Index, t: BlockType): int { if t in ix.byType then ix.byType[t] else 0 }

  function MarkBlocked(ix: Index, c: ClientId, t: BlockType): Index
    requires c in ix.clients
  {
    ix.(clients := ix.clients[c := ix.clients[c].(btype := t)], blocked := ix.blocked + 1,
        byType := ix.byType[t := TypeCount(ix, t) + 1])
  }

  function Prepare(ix: Index, c: ClientId, target: Option<Key>, fromHead: bool): Index
    requires c in ix.clients
  {
    ix.(clients := ix.clients[c := ix.clients[c].(target := target, fromHead := fromHead)])
  }

  function BlockForKeys(ix: Index, c: ClientId, t: BlockType, keys: seq<Key>, target: Option<Key>, fromHead: bool): Index
    requires c in ix.clients
  {
    assert c in Prepare(ix, c, target, fromHead).clients;
    MarkBlocked(AddKeys(Prepare(ix, c, target, fromHead), c, keys, |keys|), c, t)
  }

  function Drop(nodes: seq<Node>, n: Node): seq<Node> {
    if nodes == [] then []
    else if nodes[0] == n then nodes[1..]
    else [nodes[0]] + Drop(nodes[1..], n)
  }

  // Leaving the list of one key; empty lists are not kept.
  function Leave(blocking: map<Key, seq<Node>>, k: Key, n: Node): map<Key, seq<Node>>
    requires k in blocking
  {
    if Drop(blocking[k], n) == [] then blocking - {k} else blocking[k := Drop(blocking[k], n)]
  }

  // Leaving the lists of all keys of a client.
  function LeaveAll(blocking: map<Key, seq<Node>>, c: ClientId, keys: map<Key, nat>): map<Key, seq<Node>> {
    map k | k in blocking && (k in keys ==> Drop(blocking[k], Node(keys[k], c)) != []) ::
      if k in keys then Drop(blocking[k], Node(keys[k], c)) else blocking[k]
  }

  function Requeue(ix: Index, c: ClientId): Index
    requires c in ix.clients
  {
    if ix.clients[c].requeued then ix
    else ix.(clients := ix.clients[c := ix.clients[c].(requeued := true)], unblocked := ix.unblocked + [c])
  }

  function UnblockWaitingData(ix: Index, c: ClientId): Index
    requires c in ix.clients
  {
    ix.(blocking := LeaveAll(ix.blocking, c, ix.clients[c].keys),
        clients := ix.clients[c := ix.clients[c].(keys := map[], target := None)])
  }

  // Unblock without the last step.
  function Freed(ix: Index, c: ClientId): Index
    requires c in ix.clients
  {
    var t := ix.clients[c].btype;
    var left := if WaitsForData(t) then UnblockWaitingData(ix, c) else ix;
    left.(clients := left.clients[c := left.clients[c].(btype := BNone)],
          blocked := ix.blocked - 1, byType := ix.byType[t := TypeCount(ix, t) - 1])
  }

  function Unblock(ix: Index, c: ClientId): (r: Index)
    requires c in ix.clients
    ensures r.clients.Keys == ix.clients.Keys
  {
    Requeue(Freed(ix, c), c)
  }

  // Putting the first waiting client behind the others, in the same node.
  function Rotate(ix: Index, k: Key): Index
    requires k in ix.blocking && ix.blocking[k] != []
  {
    ix.(blocking := ix.blocking[k := ix.blocking[k][1..] + [ix.blocking[k][0]]])
  }

  // ------------------------------------------------------- what the index satisfies

  ghost predicate Listed(ix: Index, k: Key, n: Node) { k in ix.blocking && n in ix.blocking[k] }

  ghost predicate Holds(ix: Index, c: ClientId, k: Key, id: nat) {
    c in ix.clients && k in ix.clients[c].keys && ix.clients[c].keys[k] == id
  }

  ghost predicate ListOk(nodes: seq<Node>) { nodes != [] && NoDup(nodes) }

  /** A client is in the list of a key, exactly once and in the node it remembers, if and
      only if the key is among those it waits for; no empty list is kept; no two nodes
      are the same. */
  ghost predicate NodesInv(ix: Index) {
    && (forall k | k in ix.blocking :: ListOk(ix.blocking[k]))
    && (forall c: ClientId, k, id: nat :: Listed(ix, k, Node(id, c)) <==> Holds(ix, c, k, id))
    && (forall c: ClientId, k, id: nat | Holds(ix, c, k, id) :: id < ix.next)
    && (forall c: ClientId, k, d: ClientId, l, id: nat | Holds(ix, c, k, id) && Holds(ix, d, l, id) :: c == d && k == l)
  }

  ghost function BlockedClients(ix: Index): set<ClientId> { set c | c in ix.clients && !ix.clients[c].btype.BNone? }

  ghost function OfType(ix: Index, t: BlockType): set<ClientId> { set c | c in ix.clients && ix.clients[c].btype == t }

  ghost predicate CountsAre(ix: Index, t: BlockType) { TypeCount(ix, t) == |OfType(ix, t)| }

  ghost predicate WaitsProperly(cl: Client) { WaitsForData(cl.btype) <==> cl.keys != map[] }

  /** The counters are the true counts, and clients that are not blocked wait for nothing. */
  ghost predicate CountInv(ix: Index) {
    && ix.blocked == |BlockedClients(ix)|
    && (forall t: BlockType | !t.BNone? :: CountsAre(ix, t))
    && (forall c | c in ix.clients :: WaitsProperly(ix.clients[c]))
  }

  /** A client is queued for reprocessing at most once. */
  ghost predicate QueueInv(ix: Index) {
    && NoDup(ix.unblocked)
    && (forall c | c in ix.unblocked :: c in ix.clients)
    && (forall c | c in ix.clients :: ix.clients[c].requeued <==> c in ix.unblocked)
  }

  ghost predicate IndexInv(ix: Index) { NodesInv(ix) && CountInv(ix) && QueueInv(ix) }

  lemma AddKeyFacts(ix: Index, c: ClientId, k: Key)
    requires c in ix.clients && k !in ix.clients[c].keys
    ensures
      var r := AddKey(ix, c, k);
      && (forall d: ClientId, l, id: nat :: Holds(r, d, l, id) <==> Holds(ix, d, l, id) || (d == c && l == k && id == ix.next))
      && (forall l, n :: Listed(r, l, n) <==> Listed(ix, l, n) || (l == k && n == Node(ix.next, c)))
      && (forall l | l in r.blocking && l != k :: l in ix.blocking && r.blocking[l] == ix.blocking[l])
      && r.blocking[k] == Waiting(ix, k) + [Node(ix.next, c)]
  {
    var r := AddKey(ix, c, k);
    forall l, n
      ensures Listed(r, l, n) <==> Listed(ix, l, n) || (l == k && n == Node(ix.next, c))
    {
      if l == k { assert n in r.blocking[k] <==> n in Waiting(ix, k) || n == Node(ix.next, c); }
    }
  }

  lemma AddKeyKeepsNodes(ix: Index, c: ClientId, k: Key)
    requires NodesInv(ix) && c in ix.clients
    ensures NodesInv(AddKey(ix, c, k))
  {
    if k !in ix.clients[c].keys {
      AddKeyFacts(ix, c, k);
      assert !Holds(ix, c, k, ix.next);
      var n := Node(ix.next, c);
      assert n !in Waiting(ix, k) by { assert !Listed(ix, k, n); }
      assert NoDup(Waiting(ix, k) + [n]);
      AddKeyEither(ix, c, k);
    }
  }

  // The parts of NodesInv about identities, from what AddKey does to them.
  lemma AddKeyEither(ix: Index, c: ClientId, k: Key)
    requires NodesInv(ix) && c in ix.clients && k !in ix.clients[c].keys
    ensures
      var r := AddKey(ix, c, k);
      && (forall d: ClientId, l, id: nat :: Listed(r, l, Node(id, d)) <==> Holds(r, d, l, id))
      && (forall d: ClientId, l, id: nat | Holds(r, d, l, id) :: id < r.next)
      && (forall d: ClientId, l, e: ClientId, m, id: nat | Holds(r, d, l, id) && Holds(r, e, m, id) :: d == e && l == m)
  {
    AddKeyFacts(ix, c, k);
    assert AddKey(ix, c, k).next == ix.next + 1;
    hide Holds, Listed, AddKey, ListOk;
  }

  // Nothing but the lists and the keys of one client is different.
  ghost predicate SameButKeys(ix: Index, r: Index, c: ClientId) {
    && c in ix.clients && r.clients.Keys == ix.clients.Keys
    && (forall d | d in ix.clients && d != c :: r.clients[d] == ix.clients[d])
    && r.clients[c] == ix.clients[c].(keys := r.clients[c].keys)
    && r.blocked == ix.blocked && r.byType == ix.byType && r.unblocked == ix.unblocked
  }

  lemma AddKeyFrame(ix: Index, c: ClientId, k: Key)
    requires c in ix.clients
    ensures SameButKeys(ix, AddKey(ix, c, k), c)
    ensures forall j :: j in AddKey(ix, c, k).clients[c].keys <==> j in ix.clients[c].keys || j == k
  {
  }

  lemma SameButKeysTwice(ix: Index, m: Index, r: Index, c: ClientId)
    requires SameButKeys(ix, m, c) && SameButKeys(m, r, c)
    ensures SameButKeys(ix, r, c)
  {
  }

  lemma {:induction false} AddKeysFacts(ix: Index, c: ClientId, keys: seq<Key>, n: nat)
    requires NodesInv(ix) && c in ix.clients && n <= |keys|
    ensures
      var r := AddKeys(ix, c, keys, n);
      && NodesInv(r) && SameButKeys(ix, r, c)
      && forall k :: k in r.clients[c].keys <==> k in ix.clients[c].keys || k in keys[..n]
  {
    hide NodesInv, AddKey, SameButKeys;
    if n > 0 {
      AddKeysFacts(ix, c, keys, n - 1);
      var m := AddKeys(ix, c, keys, n - 1);
      AddKeyKeepsNodes(m, c, keys[n - 1]);
      AddKeyFrame(m, c, keys[n - 1]);
      SameButKeysTwice(ix, m, AddKey(m, c, keys[n - 1]), c);
      assert keys[..n] == keys[..n - 1] + [keys[n - 1]];
    } else {
      SameAsItself(ix, c);
    }
  }

  lemma SameAsItself(ix: Index, c: ClientId)
    requires c in ix.clients
    ensures SameButKeys(ix, ix, c)
  {
  }

  // NodesInv speaks only of the keys of clients.
  lemma SameKeysKeepNodes(ix: Index, jx: Index)
    requires NodesInv(ix) && jx.blocking == ix.blocking && jx.next == ix.next
    requires jx.clients.Keys == ix.clients.Keys
    requires forall c | c in ix.clients :: jx.clients[c].keys == ix.clients[c].keys
    ensures NodesInv(jx)
  {
    SameNodes(ix, jx);
  }

  lemma SameNodes(ix: Index, jx: Index)
    requires NodesInv(ix) && jx.next == ix.next
    requires forall c: ClientId, k, id: nat :: Holds(jx, c, k, id) <==> Holds(ix, c, k, id)
    requires forall k, n :: Listed(jx, k, n) <==> Listed(ix, k, n)
    requires forall k | k in jx.blocking :: ListOk(jx.blocking[k])
    ensures NodesInv(jx)
  {
    hide Holds, Listed, ListOk;
  }

  lemma SameQueue(ix: Index, jx: Index)
    requires QueueInv(ix) && jx.unblocked == ix.unblocked && jx.clients.Keys == ix.clients.Keys
    requires forall c | c in ix.clients :: jx.clients[c].requeued == ix.clients[c].requeued
    ensures QueueInv(jx)
  {
  }

  // One client changes, and the counters with it.
  ghost predicate Changed(ix: Index, jx: Index, c: ClientId, step: int, t: BlockType) {
    && c in ix.clients && jx.clients.Keys == ix.clients.Keys
    && (forall d | d in ix.clients && d != c :: jx.clients[d] == ix.clients[d])
    && jx.blocked == ix.blocked + step && jx.byType == ix.byType[t := TypeCount(ix, t) + step]
    && WaitsProperly(jx.clients[c])
  }

  lemma TypeChanges(ix: Index, jx: Index, c: ClientId, step: int, t: BlockType, u: BlockType)
    requires Changed(ix, jx, c, step, t) && CountsAre(ix, u) && !u.BNone?
    requires step == 1 ==> ix.clients[c].btype.BNone? && jx.clients[c].btype == t
    requires step == -1 ==> ix.clients[c].btype == t && jx.clients[c].btype.BNone?
    requires step == 1 || step == -1
    ensures CountsAre(jx, u)
  {
    hide WaitsProperly, OfType;
    assert TypeCount(jx, u) == if u == t then TypeCount(ix, u) + step else TypeCount(ix, u);
    OfTypeChanges(ix, jx, c, t, u, step == 1);
  }

  lemma OfTypeChanges(ix: Index, jx: Index, c: ClientId, t: BlockType, u: BlockType, blocks: bool)
    requires c in ix.clients && jx.clients.Keys == ix.clients.Keys && !u.BNone?
    requires forall d | d in ix.clients && d != c :: jx.clients[d] == ix.clients[d]
    requires blocks ==> ix.clients[c].btype.BNone? && jx.clients[c].btype == t
    requires !blocks ==> ix.clients[c].btype == t && jx.clients[c].btype.BNone?
    ensures |OfType(jx, u)| == |OfType(ix, u)| + if u != t then 0 else if blocks then 1 else -1
  {
    if u == t && blocks { assert OfType(jx, u) == OfType(ix, u) + {c}; }
    else if u == t { assert OfType(jx, u) == OfType(ix, u) - {c}; }
    else { assert OfType(jx, u) == OfType(ix, u); }
  }

  lemma ChangeKeepsCounts(ix: Index, jx: Index, c: ClientId, step: int, t: BlockType)
    requires CountInv(ix) && Changed(ix, jx, c, step, t) && !t.BNone?
    requires step == 1 ==> ix.clients[c].btype.BNone? && jx.clients[c].btype == t
    requires step == -1 ==> ix.clients[c].btype == t && jx.clients[c].btype.BNone?
    requires step == 1 || step == -1
    ensures CountInv(jx)
    ensures step == -1 ==> |BlockedClients(jx)| < |BlockedClients(ix)|
  {
    hide OfType, CountsAre, WaitsProperly;
    if step == 1 { assert BlockedClients(jx) == BlockedClients(ix) + {c}; }
    else { assert BlockedClients(jx) == BlockedClients(ix) - {c}; }
    forall u: BlockType | !u.BNone?
      ensures CountsAre(jx, u)
    {
      TypeChanges(ix, jx, c, step, t, u);
    }
  }

  lemma BlockFrame(ix: Index, c: ClientId, t: BlockType, keys: seq<Key>, target: Option<Key>, fromHead: bool)
    requires NodesInv(ix) && c in ix.clients && ix.clients[c].keys == map[] && WaitsForData(t) && keys != []
    ensures
      var r := BlockForKeys(ix, c, t, keys, target, fromHead);
      && Changed(ix, r, c, 1, t)
      && r.clients[c].btype == t && r.clients[c].requeued == ix.clients[c].requeued
      && (forall k :: k in r.clients[c].keys <==> k in keys)
      && r.unblocked == ix.unblocked
      && NodesInv(r)
  {
    hide NodesInv, AddKeys, TypeCount, MarkBlocked, Prepare;
    PrepareFrame(ix, c, target, fromHead);
    var start := Prepare(ix, c, target, fromHead);
    AddKeysFacts(start, c, keys, |keys|);
    assert keys[..|keys|] == keys;
    var added := AddKeys(start, c, keys, |keys|);
    assert keys[0] in added.clients[c].keys;
    SameCount(ix, added, t);
    MarkFrame(added, c, t);
  }

  lemma PrepareFrame(ix: Index, c: ClientId, target: Option<Key>, fromHead: bool)
    requires NodesInv(ix) && c in ix.clients
    ensures
      var s := Prepare(ix, c, target, fromHead);
      && NodesInv(s) && s.clients.Keys == ix.clients.Keys
      && (forall d | d in ix.clients && d != c :: s.clients[d] == ix.clients[d])
      && s.clients[c].keys == ix.clients[c].keys && s.clients[c].requeued == ix.clients[c].requeued
      && s.blocked == ix.blocked && s.byType == ix.byType && s.unblocked == ix.unblocked
  {
    hide NodesInv;
    SameKeysKeepNodes(ix, Prepare(ix, c, target, fromHead));
  }

  lemma MarkFrame(ix: Index, c: ClientId, t: BlockType)
    requires NodesInv(ix) && c in ix.clients
    ensures
      var r := MarkBlocked(ix, c, t);
      && NodesInv(r) && r.clients.Keys == ix.clients.Keys
      && (forall d | d in ix.clients && d != c :: r.clients[d] == ix.clients[d])
      && r.clients[c] == ix.clients[c].(btype := t)
      && r.blocked == ix.blocked + 1 && r.byType == ix.byType[t := TypeCount(ix, t) + 1]
      && r.unblocked == ix.unblocked
  {
    hide NodesInv;
    SameKeysKeepNodes(ix, MarkBlocked(ix, c, t));
  }

  lemma SameCount(ix: Index, jx: Index, t: BlockType)
    requires ix.byType == jx.byType
    ensures TypeCount(ix, t) == TypeCount(jx, t)
  {
  }

  lemma BlockKeepsInv(ix: Index, c: ClientId, t: BlockType, keys: seq<Key>, target: Option<Key>, fromHead: bool)
    requires IndexInv(ix) && c in ix.clients && ix.clients[c].btype.BNone?
    requires WaitsForData(t) && keys != []
    ensures
      var r := BlockForKeys(ix, c, t, keys, target, fromHead);
      && IndexInv(r)
      && Changed(ix, r, c, 1, t)
      && r.clients[c].btype == t
      && (forall k :: k in r.clients[c].keys <==> k in keys)
  {
    hide NodesInv, CountInv, QueueInv, BlockForKeys;
    DataIffKeys(ix, c);
    var r := BlockForKeys(ix, c, t, keys, target, fromHead);
    BlockFrame(ix, c, t, keys, target, fromHead);
    ChangeKeepsCounts(ix, r, c, 1, t);
    SameQueue(ix, r);
  }

  lemma {:induction false} DropFacts(nodes: seq<Node>, n: Node)
    requires NoDup(nodes)
    ensures NoDup(Drop(nodes, n))
    ensures forall m :: m in Drop(nodes, n) <==> m in nodes && m != n
  {
    if nodes != [] {
      DropFacts(nodes[1..], n);
      var r := Drop(nodes[1..], n);
      assert nodes == [nodes[0]] + nodes[1..];
      assert nodes[0] !in nodes[1..];
      if nodes[0] != n {
        assert nodes[0] !in r;
        assert Drop(nodes, n) == [nodes[0]] + r;
      }
    }
  }

  lemma LeaveFacts(ix: Index, c: ClientId)
    requires NodesInv(ix) && c in ix.clients
    ensures
      var r := UnblockWaitingData(ix, c);
      && (forall k | k in r.blocking :: ListOk(r.blocking[k]))
      && (forall d: ClientId, k, id: nat :: Holds(r, d, k, id) <==> Holds(ix, d, k, id) && d != c)
      && (forall k, n :: Listed(r, k, n) <==> Listed(ix, k, n) && n.client != c)
  {
    hide NoDup, Drop;
    var keys := ix.clients[c].keys;
    var r := UnblockWaitingData(ix, c);
    forall k, n
      ensures Listed(r, k, n) <==> Listed(ix, k, n) && n.client != c
      ensures k in r.blocking ==> ListOk(r.blocking[k])
    {
      if k in ix.blocking {
        assert Listed(ix, k, Node(n.id, n.client)) <==> Holds(ix, n.client, k, n.id);
        if k in keys { DropFacts(ix.blocking[k], Node(keys[k], c)); }
      }
    }
  }

  lemma LeaveKeepsNodes(ix: Index, c: ClientId)
    requires NodesInv(ix) && c in ix.clients
    ensures NodesInv(UnblockWaitingData(ix, c))
  {
    LeaveFacts(ix, c);
    assert UnblockWaitingData(ix, c).next == ix.next;
    hide Holds, Listed, ListOk, UnblockWaitingData;
  }

  lemma RequeueKeepsQueue(ix: Index, c: ClientId)
    requires QueueInv(ix) && c in ix.clients
    ensures QueueInv(Requeue(ix, c))
  {
  }

  lemma FreedFrame(ix: Index, c: ClientId)
    requires NodesInv(ix) && c in ix.clients
    requires !WaitsForData(ix.clients[c].btype) ==> ix.clients[c].keys == map[]
    ensures
      var f := Freed(ix, c);
      && Changed(ix, f, c, -1, ix.clients[c].btype)
      && f.clients[c].btype.BNone? && f.clients[c].requeued == ix.clients[c].requeued
      && f.unblocked == ix.unblocked
      && f.blocking == LeaveAll(ix.blocking, c, ix.clients[c].keys)
      && NodesInv(f)
  {
    hide NodesInv, LeaveAll;
    if WaitsForData(ix.clients[c].btype) {
      LeaveKeepsNodes(ix, c);
      SameKeysKeepNodes(UnblockWaitingData(ix, c), Freed(ix, c));
    } else {
      LeaveNothing(ix.blocking, c);
      SameKeysKeepNodes(ix, Freed(ix, c));
    }
  }

  lemma RequeueFrame(ix: Index, c: ClientId)
    requires IndexInv(ix) && c in ix.clients
    ensures IndexInv(Requeue(ix, c))
    ensures
      var r := Requeue(ix, c);
      && r == ix.(clients := r.clients, unblocked := r.unblocked)
      && r.clients == ix.clients[c := ix.clients[c].(requeued := true)]
      && BlockedClients(r) == BlockedClients(ix)
  {
    hide NodesInv, OfType;
    var r := Requeue(ix, c);
    if ix.clients[c].requeued {
      assert r.clients[c] == ix.clients[c].(requeued := true);
      assert r.clients == ix.clients[c := ix.clients[c].(requeued := true)];
    }
    SameKeysKeepNodes(ix, r);
    RequeueKeepsQueue(ix, c);
    assert BlockedClients(r) == BlockedClients(ix);
    forall t: BlockType | !t.BNone?
      ensures CountsAre(r, t)
    {
      assert OfType(r, t) == OfType(ix, t) by { SameType(ix, r, t); }
    }
  }

  lemma SameType(ix: Index, jx: Index, t: BlockType)
    requires jx.clients.Keys == ix.clients.Keys
    requires forall c | c in ix.clients :: jx.clients[c].btype == ix.clients[c].btype
    ensures OfType(jx, t) == OfType(ix, t)
  {
  }

  lemma UnblockKeepsInv(ix: Index, c: ClientId)
    requires IndexInv(ix) && c in ix.clients && !ix.clients[c].btype.BNone?
    ensures
      var r := Unblock(ix, c);
      && IndexInv(r)
      && r.clients[c].btype.BNone?
      && (forall d | d in ix.clients && d != c :: r.clients[d] == ix.clients[d])
      && |BlockedClients(r)| < |BlockedClients(ix)|
      && r.blocking == LeaveAll(ix.blocking, c, ix.clients[c].keys)
  {
    hide NodesInv, CountInv, QueueInv, LeaveAll, Requeue, BlockedClients, UnblockWaitingData;
    DataIffKeys(ix, c);
    FreedFrame(ix, c);
    var f := Freed(ix, c);
    ChangeKeepsCounts(ix, f, c, -1, ix.clients[c].btype);
    SameQueue(ix, f);
    RequeueFrame(f, c);
    assert Unblock(ix, c) == Requeue(f, c);
  }

  lemma DataIffKeys(ix: Index, c: ClientId)
    requires CountInv(ix) && c in ix.clients
    ensures WaitsForData(ix.clients[c].btype) <==> ix.clients[c].keys != map[]
  {
  }

  lemma LeaveNothing(blocking: map<Key, seq<Node>>, c: ClientId)
    ensures LeaveAll(blocking, c, map[]) == blocking
  {
  }

  lemma RotateKeepsInv(ix: Index, k: Key)
    requires IndexInv(ix) && k in ix.blocking
    ensures IndexInv(Rotate(ix, k))
    ensures forall n :: n in Rotate(ix, k).blocking[k] <==> n in ix.blocking[k]
  {
    var nodes := ix.blocking[k];
    var r := Rotate(ix, k);
    assert nodes == [nodes[0]] + nodes[1..];
    assert ListOk(nodes) && ListOk(r.blocking[k]);
    SameNodes(ix, r);
    assert CountInv(r) && QueueInv(r);
  }
}
