/** Blocking, unblocking and serving clients as the server does it step by step. Every
    method computes the function of BlockedModel or BlockedService in its contract; the
    places where the server asserts or panics are assertions here. */
module BlockedProcess {
  import opened Wrappers
  import opened BlockedModel
  import opened BlockedService
  import opened BlockedOrder

  class BlockingServer {
    var clients: map<ClientId, Client>
    var blocking: map<Key, seq<Node>>
    var next: nat
    var blocked: int
    var byType: map<BlockType, int>
    var unblocked: seq<ClientId>
    var data: map<Key, Value>
    var ready: seq<Key>
    var readySet: set<Key>
    var replies: seq<Reply>

    function Idx(): Index
      reads this
    {
      Index(clients, blocking, next, blocked, byType, unblocked)
    }

    function Abs(): State
      reads this
    {
      State(Idx(), data, ready, readySet, replies)
    }

    constructor ()
      ensures Abs() == State(Index(map[], map[], 0, 0, map[], []), map[], [], {}, [])
    {
      clients, blocking, next, blocked, byType, unblocked := map[], map[], 0, 0, map[], [];
      data, ready, readySet, replies := map[], [], {}, [];
    }

    // ------------------------------------------------------------------- blocking

    method BlockClient(c: ClientId, t: BlockType)
      requires c in clients
      modifies this`clients, this`blocked, this`byType
      ensures Idx() == MarkBlocked(old(Idx()), c, t)
    {
      clients := clients[c := clients[c].(btype := t)];
      blocked := blocked + 1;
      byType := byType[t := (if t in byType then byType[t] else 0) + 1];
    }

    /** A client blocks for all the keys; a key given twice is ignored the second time. */
    method BlockForKeys(c: ClientId, t: BlockType, keys: seq<Key>, target: Option<Key>, fromHead: bool)
      requires c in clients
      modifies this`clients, this`blocking, this`next, this`blocked, this`byType
      ensures Idx() == BlockedModel.BlockForKeys(old(Idx()), c, t, keys, target, fromHead)
    {
      hide MarkBlocked;
      clients := clients[c := clients[c].(target := target, fromHead := fromHead)];
      ghost var start := Idx();
      assert start == Prepare(old(Idx()), c, target, fromHead);
      for j := 0 to |keys|
        invariant c in clients && Idx() == AddKeys(start, c, keys, j)
      {
        BlockForKey(c, keys[j]);
      }
      BlockClient(c, t);
    }

    method BlockForKey(c: ClientId, k: Key)
      requires c in clients
      modifies this`clients, this`blocking, this`next
      ensures Idx() == AddKey(old(Idx()), c, k)
    {
      if k in clients[c].keys { return; }
      var l := if k in blocking then blocking[k] else [];
      blocking := blocking[k := l + [Node(next, c)]];
      clients := clients[c := clients[c].(keys := clients[c].keys[k := next])];
      next := next + 1;
    }

    /** A client leaves the lists of all its keys, in whatever order the keys come. */
    method UnblockClientWaitingData(c: ClientId)
      requires c in clients && NodesInv(Idx()) && clients[c].keys != map[]
      modifies this`clients, this`blocking
      ensures Idx() == UnblockWaitingData(old(Idx()), c)
    {
      var keys := clients[c].keys;
      assert keys != map[];
      var todo := keys.Keys;
      assert LeaveAll(blocking, c, keys - todo) == blocking;
      while todo != {}
        invariant todo <= keys.Keys && clients == old(clients)
        invariant blocking == LeaveAll(old(blocking), c, keys - todo)
        decreases todo
      {
        var k :| k in todo;
        StillListed(old(Idx()), c, k, keys, todo);
        assert k in blocking;
        LeaveOne(old(blocking), c, keys, todo, k);
        var rest := Drop(blocking[k], Node(keys[k], c));
        blocking := if rest == [] then blocking - {k} else blocking[k := rest];
        todo := todo - {k};
      }
      assert keys - {} == keys;
      clients := clients[c := clients[c].(keys := map[], target := None)];
    }

    method QueueClientForReprocessing(c: ClientId)
      requires c in clients
      modifies this`clients, this`unblocked
      ensures Idx() == Requeue(old(Idx()), c)
    {
      if !clients[c].requeued {
        clients := clients[c := clients[c].(requeued := true)];
        unblocked := unblocked + [c];
      }
    }

    /** The type of a blocked client is always one of those known here. */
    method UnblockClient(c: ClientId)
      requires IndexInv(Idx()) && c in clients && !clients[c].btype.BNone?
      modifies this`clients, this`blocking, this`blocked, this`byType, this`unblocked
      ensures Idx() == Unblock(old(Idx()), c)
    {
      hide NodesInv, QueueInv, CountInv, Requeue, LeaveAll;
      DataIffKeys(Idx(), c);
      var t := clients[c].btype;
      if t.BList? || t.BZset? || t.BStream? {
        UnblockClientWaitingData(c);
      } else {
        assert t.BWait?;
      }
      blocked := blocked - 1;
      byType := byType[t := (if t in byType then byType[t] else 0) - 1];
      clients := clients[c := clients[c].(btype := BNone)];
      assert Idx() == Freed(old(Idx()), c);
      QueueClientForReprocessing(c);
    }

    // -------------------------------------------------------------------- serving

    method SignalKeyAsReady(k: Key)
      modifies this`ready, this`readySet
      ensures Abs() == Signal(old(Abs()), k)
    {
      if k !in blocking { return; }
      if k in readySet { return; }
      ready := ready + [k];
      readySet := readySet + {k};
    }

    // False: the destination holds another type.
    method ServeClientBlockedOnList(c: ClientId, k: Key, target: Option<Key>, v: Elem) returns (ok: bool)
      modifies this`data, this`ready, this`readySet, this`replies
      ensures ok <==> target.None? || target.value !in old(data) || old(data)[target.value].Items?
      ensures ok ==> Abs() == Deliver(old(Abs()), c, k, v, target, true) == Deliver(old(Abs()), c, k, v, target, false)
      ensures !ok ==> Abs() == old(Abs()).(replies := old(replies) + [WrongType(c, target.value)])
    {
      if target.None? {
        replies := replies + [Popped(c, k, v)];
      } else {
        var d := target.value;
        if d in data && !data[d].Items? {
          replies := replies + [WrongType(c, d)];
          return false;
        }
        if d !in data {
          data := data[d := Items([])];
          SignalKeyAsReady(d);
        }
        assert [v] + [] == [v];
        data := data[d := Items([v] + data[d].items)];
        assert d !in old(data) ==> data == old(data)[d := Items([v])];
        replies := replies + [Moved(c, k, d, v)];
      }
      return true;
    }

    /** One client is answered; if it cannot take the element, the element goes back. */
    method ServeFirst(k: Key)
      requires IndexInv(Idx()) && Servable(Abs(), k)
      modifies this
      ensures Abs() == BlockedService.ServeFirst(old(Abs()), k)
    {
      hide IndexInv, Unblock, First, Rest;
      var c := blocking[k][0].client;
      var dst, head := clients[c].target, clients[c].fromHead;
      var items := data[k].items;
      var value := First(items, head);
      data := data[k := Items(Rest(items, head))];
      UnblockClient(c);
      var ok := ServeClientBlockedOnList(c, k, dst, value);
      if !ok { data := data[k := Items(Pushed(data[k].items, value, head))]; }
    }

    // One round of the loop below; false: the list is empty.
    method ServeNext(k: Key, n: nat, ghost l: seq<Key>, ghost skip: iset<Key>) returns (more: bool)
      requires ServiceInv(Abs(), l, skip + iset{k}) && IndexInv(Idx()) && IsList(Abs(), k)
      requires 0 < n <= |Waiting(Idx(), k)|
      modifies this
      ensures ServiceInv(Abs(), l, skip + iset{k}) && IsList(Abs(), k)
      ensures more ==> n - 1 <= |Waiting(Idx(), k)| && ServeLoop(Abs(), k, n - 1) == ServeLoop(old(Abs()), k, n)
      ensures !more ==> Abs() == old(Abs()) == ServeLoop(old(Abs()), k, n)
    {
      hide ServiceInv, IndexInv, ServeLoop, BlockedService.ServeFirst;
      FrontLeaves(Idx(), k);
      assert k in blocking && blocking[k] != [];
      if !clients[blocking[k][0].client].btype.BList? {
        RotateKeepsService(Abs(), k, l, skip);
        LoopRotates(Abs(), k, n);
        blocking := blocking[k := blocking[k][1..] + [blocking[k][0]]];
      } else if data[k].items != [] {
        ServeFirstKeepsInv(Abs(), k, l, skip);
        LoopServes(Abs(), k, n);
        ServeFirst(k);
      } else {
        LoopStops(Abs(), k, n);
        return false;
      }
      return true;
    }

    /** Serves the clients waiting for a list. The list of clients is still there each time
        its first node is read. */
    method ServeClientsBlockedOnListKey(k: Key, ghost l: seq<Key>, ghost skip: iset<Key>)
      requires ServiceInv(Abs(), l, skip + iset{k}) && IsList(Abs(), k)
      modifies this
      ensures Abs() == Serve(old(Abs()), k)
    {
      hide ServiceInv, ServeLoop, BlockedService.ServeFirst, Rotate, Servable, FrontWaitsElsewhere;
      ghost var was, total := Abs(), |Waiting(Idx(), k)|;
      if k in blocking {
        var numclients: nat := |blocking[k]|;
        while numclients > 0
          invariant ServiceInv(Abs(), l, skip + iset{k}) && IsList(Abs(), k)
          invariant numclients <= |Waiting(Idx(), k)|
          invariant ServeLoop(Abs(), k, numclients) == ServeLoop(was, k, total)
          decreases numclients
        {
          assert IndexInv(Idx()) by { InvParts(Abs(), l, skip + iset{k}); }
          var more := ServeNext(k, numclients, l, skip);
          if !more { break; }
          numclients := numclients - 1;
        }
        if numclients == 0 { LoopEnds(Abs(), k); }
        assert Abs() == ServeLoop(was, k, total) && IsList(Abs(), k);
      } else {
        LoopEnds(Abs(), k);
      }
      if data[k].items == [] { data := data - {k}; }
    }

    // Pops the least or the greatest member; an emptied sorted set is deleted.
    method GenericZpop(c: ClientId, k: Key, least: bool)
      requires MembersOf(Abs(), k) != []
      modifies this`data, this`replies
      ensures data == (var left := Rest(old(data)[k].members, least); if left == [] then old(data) - {k} else old(data)[k := Sorted(left)])
      ensures replies == old(replies) + [Popped(c, k, First(old(data)[k].members, least))]
    {
      var members := data[k].members;
      var left := if least then members[1..] else members[..|members| - 1];
      data := data[k := Sorted(left)];
      replies := replies + [Popped(c, k, if least then members[0] else members[|members| - 1])];
      if left == [] {
        data := data - {k};
        assert data == old(data) - {k};
      }
    }

    /** Serves the clients waiting for a sorted set, as long as it has members. */
    method ServeClientsBlockedOnSortedSetKey(k: Key)
      requires IndexInv(Idx()) && k in data && data[k].Sorted?
      modifies this
      ensures Abs() == ServeSorted(old(Abs()), k, |Waiting(old(Idx()), k)|)
      ensures IndexInv(Idx())
    {
      hide IndexInv, ServeSorted, ServeSortedFirst, ListsAlone;
      ghost var was, total := Abs(), |Waiting(Idx(), k)|;
      SortedLoopEnds(Abs(), k, 0);
      if k in blocking {
        var numclients: nat, zcard: nat := |blocking[k]|, |data[k].members|;
        while numclients > 0 && zcard > 0
          invariant IndexInv(Idx()) && zcard == |MembersOf(Abs(), k)|
          invariant numclients <= |Waiting(Idx(), k)|
          invariant ServeSorted(Abs(), k, numclients) == ServeSorted(was, k, total)
          decreases numclients
        {
          FrontLeaves(Idx(), k);
          SortedStep(Abs(), k, numclients);
          if !clients[blocking[k][0].client].btype.BZset? {
            RotateKeepsInv(Idx(), k);
            blocking := blocking[k := blocking[k][1..] + [blocking[k][0]]];
          } else {
            SortedServed(Abs(), k);
            ServedKeepsInv(Abs(), k);
            ServeSortedClient(k);
            zcard := zcard - 1;
          }
          numclients := numclients - 1;
        }
        SortedLoopEnds(Abs(), k, numclients);
      }
    }

    method ServeSortedClient(k: Key)
      requires IndexInv(Idx()) && SortedServable(Abs(), k)
      modifies this
      ensures Abs() == ServeSortedFirst(old(Abs()), k)
    {
      hide IndexInv, Unblock, First, Rest;
      var c := blocking[k][0].client;
      var least := clients[c].fromHead;
      UnblockClient(c);
      GenericZpop(c, k, least);
    }

    /** Serves the clients waiting for a stream: the walk over the nodes goes on from a node
        that is still there after the client before it left. */
    method ServeClientsBlockedOnStreamKey(k: Key)
      requires IndexInv(Idx()) && k in data && data[k].Stream?
      modifies this
      ensures Abs() == old(Abs()).(ix := ServeStream(old(Idx()), Waiting(old(Idx()), k), old(data)[k].due))
      ensures IndexInv(Idx())
    {
      hide IndexInv, NodesInv, Unblock, Listed;
      if k in blocking {
        var nodes, due := blocking[k], data[k].due;
        var i := 0;
        assert nodes[0..] == nodes;
        AllListed(Idx(), k);
        while i < |nodes|
          invariant 0 <= i <= |nodes| && IndexInv(Idx()) && Abs() == old(Abs()).(ix := Idx())
          invariant ServeStream(Idx(), nodes[i..], due) == ServeStream(old(Idx()), nodes, due)
          invariant forall j | i <= j < |nodes| :: Listed(Idx(), k, nodes[j])
        {
          assert nodes[i..][1..] == nodes[i + 1..];
          ServeStreamClient(k, nodes[i], due);
          forall j | i + 1 <= j < |nodes| ensures Listed(Idx(), k, nodes[j]) { assert nodes[j].client != nodes[i].client; }
          i := i + 1;
        }
      }
    }

    method ServeStreamClient(k: Key, n: Node, due: set<ClientId>)
      requires IndexInv(Idx()) && Listed(Idx(), k, n)
      modifies this
      ensures Abs() == old(Abs()).(ix := if ReadsStream(old(Idx()), n.client, due) then Unblock(old(Idx()), n.client) else old(Idx()))
      ensures IndexInv(Idx()) && forall m | Listed(old(Idx()), k, m) && m.client != n.client :: Listed(Idx(), k, m)
    {
      hide IndexInv, NodesInv, Unblock, Listed;
      NodesPart(Idx());
      Known(Idx(), k, n);
      if clients[n.client].btype.BStream? && n.client in due {
        UnblockKeepsInv(Idx(), n.client);
        ListedAfter(Idx(), n.client, Unblock(Idx(), n.client));
        UnblockClient(n.client);
      }
    }

    /** Looks at every client for one blocked by a module. There is none, and each client
        went to the end once: the list is as before. */
    method ServeClientsBlockedOnKeyByModule(k: Key)
      modifies this`blocking
      ensures Idx() == old(Idx())
    {
      if k in blocking {
        var nodes := blocking[k];
        var numclients := |nodes|;
        assert nodes[0..] + nodes[..0] == nodes;
        while numclients > 0
          invariant 0 <= numclients <= |nodes| && k in blocking
          invariant blocking == old(blocking)[k := nodes[|nodes| - numclients..] + nodes[..|nodes| - numclients]]
        {
          ghost var i := |nodes| - numclients;
          assert (nodes[i..] + nodes[..i])[1..] + [nodes[i]] == nodes[i + 1..] + nodes[..i + 1];
          blocking := blocking[k := blocking[k][1..] + [blocking[k][0]]];
          numclients := numclients - 1;
        }
        assert nodes[|nodes|..] + nodes[..|nodes|] == nodes;
        assert blocking == old(blocking);
      }
    }

    /** Handles the queue until no key is ready. It ends because only serving a client can
        make another key ready. */
    method HandleClientsBlockedOnKeys()
      requires ServiceInv(Abs(), [], AnyKey())
      modifies this
      ensures Abs() == HandleAll(old(Abs()))
    {
      hide ServiceInv, HandleKeys, HandleKey;
      ghost var was := Abs();
      while ready != []
        invariant ServiceInv(Abs(), [], AnyKey()) && HandleAll(Abs()) == HandleAll(was)
        decreases |BlockedClients(Idx())|, |ready|
      {
        ghost var before := Abs();
        TakeAll(before, AnyKey());
        var l := ready;
        ready := [];
        ghost var start := Abs();
        HandleKeysKeepsInv(start, l, AnyKey());
        while l != []
          invariant ServiceInv(Abs(), l, AnyKey()) && HandleKeys(Abs(), l) == HandleKeys(start, before.ready)
          decreases |l|
        {
          var k := l[0];
          assert l == [k] + l[1..];
          HandleKeyKeepsInv(Abs(), k, l[1..], AnyKey());
          NextKey(Abs(), l);
          HandleReadyKey(k, l[1..]);
          l := l[1..];
        }
        assert Abs() == HandleKeys(start, before.ready) by { NoKeys(Abs()); }
      }
    }

    // One key taken from the queue.
    method HandleReadyKey(k: Key, ghost l: seq<Key>)
      requires ServiceInv(Abs(), [k] + l, AnyKey())
      modifies this
      ensures Abs() == HandleKey(old(Abs()), k)
    {
      hide Serve, ServeSorted, ServeStream, IndexInv;
      TakenOne(Abs(), k, l);
      readySet := readySet - {k};
      assert IndexInv(Idx());
      if k in data {
        if data[k].Items? { ServeClientsBlockedOnListKey(k, l, AnyKey()); }
        else if data[k].Sorted? { ServeClientsBlockedOnSortedSetKey(k); }
        else if data[k].Stream? { ServeClientsBlockedOnStreamKey(k); }
        ServeClientsBlockedOnKeyByModule(k);
      }
    }
  }

  // The client is still in the list of a key it has not left yet.
  lemma StillListed(ix: Index, c: ClientId, k: Key, keys: map<Key, nat>, todo: set<Key>)
    requires NodesInv(ix) && c in ix.clients && keys == ix.clients[c].keys && todo <= keys.Keys && k in todo
    ensures k in LeaveAll(ix.blocking, c, keys - todo)
  {
    assert Holds(ix, c, k, keys[k]);
    assert Listed(ix, k, Node(keys[k], c));
  }

  lemma LeaveOne(b: map<Key, seq<Node>>, c: ClientId, keys: map<Key, nat>, todo: set<Key>, k: Key)
    requires todo <= keys.Keys && k in todo && k in LeaveAll(b, c, keys - todo)
    ensures
      var before := LeaveAll(b, c, keys - todo);
      var rest := Drop(before[k], Node(keys[k], c));
      LeaveAll(b, c, keys - (todo - {k})) == if rest == [] then before - {k} else before[k := rest]
  {
    hide Drop;
    var before := LeaveAll(b, c, keys - todo);
    var rest := Drop(before[k], Node(keys[k], c));
    assert before[k] == b[k];
    var after := LeaveAll(b, c, keys - (todo - {k}));
    forall j
      ensures j in after <==> j in (if rest == [] then before - {k} else before[k := rest])
      ensures j in after ==> after[j] == (if rest == [] then before - {k} else before[k := rest])[j]
    {
      if j != k { assert j in keys - todo <==> j in keys - (todo - {k}); }
    }
  }

  lemma LoopEnds(s: State, k: Key)
    ensures ServeLoop(s, k, 0) == s && (k !in s.ix.blocking ==> ServeLoop(s, k, |Waiting(s.ix, k)|) == s)
  {
  }

  lemma LoopStops(s: State, k: Key, n: nat)
    requires !FrontWaitsElsewhere(s, k) && !Servable(s, k)
    ensures ServeLoop(s, k, n) == s
  {
  }

  lemma SortedLoopEnds(s: State, k: Key, n: nat)
    ensures n == 0 || MembersOf(s, k) == [] ==> ServeSorted(s, k, n) == s
    ensures k !in s.ix.blocking ==> ServeSorted(s, k, |Waiting(s.ix, k)|) == s
  {
  }

  lemma AllListed(ix: Index, k: Key)
    requires IndexInv(ix) && k in ix.blocking
    ensures
      var nodes := ix.blocking[k];
      && (forall i | 0 <= i < |nodes| :: Listed(ix, k, nodes[i]))
      && (forall i, j | 0 <= i < j < |nodes| :: nodes[i].client != nodes[j].client)
  {
    forall i, j | 0 <= i < j < |ix.blocking[k]|
      ensures ix.blocking[k][i].client != ix.blocking[k][j].client
    {
      OneNodeEach(ix, k, i, j);
    }
  }

  lemma ServedKeepsInv(s: State, k: Key)
    requires IndexInv(s.ix) && SortedServable(s, k)
    ensures IndexInv(ServeSortedFirst(s, k).ix)
  {
    hide IndexInv, Unblock;
    UnblockKeepsInv(s.ix, s.ix.blocking[k][0].client);
  }

  lemma NextKey(s: State, l: seq<Key>)
    requires l != []
    ensures HandleKeys(s, l) == HandleKeys(HandleKey(s, l[0]), l[1..])
  {
  }

  lemma NoKeys(s: State)
    ensures HandleKeys(s, []) == s
  {
  }

  lemma TakenOne(s: State, k: Key, l: seq<Key>)
    requires ServiceInv(s, [k] + l, AnyKey())
    ensures ServiceInv(s.(readySet := s.readySet - {k}), l, AnyKey() + iset{k})
  {
    hide IndexInv, ReadyInv;
    TakeReady(s, k, l);
  }
}
