/** The order in which clients blocked. Nodes get increasing identities, so of two waiters
    for a key the one with the smaller identity blocked first. Serving a list or a sorted
    set moves those that wait for another type to the end and can break their order:
    exactly when, and that it is kept otherwise. The type somebody waits for is w. */
module BlockedOrder {
  import opened BlockedModel
  import opened BlockedService

  // Those of the nodes that wait for w are in the order they were made.
  ghost predicate Ordered(ix: Index, nodes: seq<Node>, w: BlockType) {
    forall i, j | 0 <= i < j < |nodes| && Wants(ix, nodes[i], w) && Wants(ix, nodes[j], w) :: nodes[i].id < nodes[j].id
  }

  /** In the list of every key, who waits for w stands behind all who did so before. */
  ghost predicate OrderInv(ix: Index, w: BlockType) { forall k | k in ix.blocking :: Ordered(ix, ix.blocking[k], w) }

  ghost predicate OrderElsewhere(ix: Index, k: Key, w: BlockType) {
    forall j | j in ix.blocking && j != k :: Ordered(ix, ix.blocking[j], w)
  }

  ghost predicate Before(ix: Index, a: seq<Node>, b: seq<Node>, w: BlockType) {
    forall x, y | x in a && y in b && Wants(ix, x, w) && Wants(ix, y, w) :: x.id < y.id
  }

  ghost predicate Nobody(ix: Index, nodes: seq<Node>, w: BlockType) { forall n | n in nodes :: !Wants(ix, n, w) }

  lemma OrderedParts(ix: Index, a: seq<Node>, b: seq<Node>, w: BlockType)
    ensures Ordered(ix, a + b, w) <==> Ordered(ix, a, w) && Ordered(ix, b, w) && Before(ix, a, b, w)
  {
    hide Wants, Ordered, Before;
    if Ordered(ix, a + b, w) { PartsOrdered(ix, a, b, w); }
    if Ordered(ix, a, w) && Ordered(ix, b, w) && Before(ix, a, b, w) { BothOrdered(ix, a, b, w); }
  }

  lemma PartsOrdered(ix: Index, a: seq<Node>, b: seq<Node>, w: BlockType)
    requires Ordered(ix, a + b, w)
    ensures Ordered(ix, a, w) && Ordered(ix, b, w) && Before(ix, a, b, w)
  {
    hide Wants;
    var c := a + b;
    forall i, j | 0 <= i < j < |a| && Wants(ix, a[i], w) && Wants(ix, a[j], w)
      ensures a[i].id < a[j].id
    {
      assert c[i] == a[i] && c[j] == a[j];
    }
    forall i, j | 0 <= i < j < |b| && Wants(ix, b[i], w) && Wants(ix, b[j], w)
      ensures b[i].id < b[j].id
    {
      assert c[|a| + i] == b[i] && c[|a| + j] == b[j];
    }
    forall x, y | x in a && y in b && Wants(ix, x, w) && Wants(ix, y, w)
      ensures x.id < y.id
    {
      var i :| 0 <= i < |a| && a[i] == x;
      var j :| 0 <= j < |b| && b[j] == y;
      assert c[i] == x && c[|a| + j] == y;
    }
  }

  lemma BothOrdered(ix: Index, a: seq<Node>, b: seq<Node>, w: BlockType)
    requires Ordered(ix, a, w) && Ordered(ix, b, w) && Before(ix, a, b, w)
    ensures Ordered(ix, a + b, w)
  {
    hide Wants;
    var c := a + b;
    forall i, j | 0 <= i < j < |c| && Wants(ix, c[i], w) && Wants(ix, c[j], w)
      ensures c[i].id < c[j].id
    {
      if i >= |a| { assert b[i - |a|] == c[i] && b[j - |a|] == c[j]; }
      else if j < |a| { assert a[i] == c[i] && a[j] == c[j]; }
      else { assert c[i] == a[i] && c[j] == b[j - |a|]; }
    }
  }

  // Fewer wait for w, or the same.
  lemma OrderedStill(ix: Index, jx: Index, nodes: seq<Node>, w: BlockType)
    requires Ordered(ix, nodes, w) && forall n | n in nodes && Wants(jx, n, w) :: Wants(ix, n, w)
    ensures Ordered(jx, nodes, w)
  {
    hide Wants;
  }

  lemma {:induction false} DropOrdered(ix: Index, nodes: seq<Node>, n: Node, w: BlockType)
    requires Ordered(ix, nodes, w)
    ensures Ordered(ix, Drop(nodes, n), w) && forall m | m in Drop(nodes, n) :: m in nodes
  {
    hide Wants, Ordered;
    if nodes != [] {
      var first, rest := [nodes[0]], nodes[1..];
      assert nodes == first + rest;
      OrderedParts(ix, first, rest, w);
      DropOrdered(ix, rest, n, w);
      OrderedParts(ix, first, Drop(rest, n), w);
    }
  }

  // --------------------------------------------------------------- waiters that leave

  // Waiters leave, and no client waits for something else than before.
  ghost predicate Thins(ix: Index, jx: Index) {
    && IndexInv(jx) && jx.next == ix.next
    && forall k, n | Listed(jx, k, n) :: Listed(ix, k, n) && SameKind(ix, jx, n.client)
  }

  ghost predicate SameKind(ix: Index, jx: Index, c: ClientId) {
    c in ix.clients && c in jx.clients && jx.clients[c].btype == ix.clients[c].btype
  }

  lemma ThinsSelf(ix: Index)
    requires IndexInv(ix)
    ensures Thins(ix, ix)
  {
    forall k, n | Listed(ix, k, n) ensures n.client in ix.clients { Known(ix, k, n); }
  }

  lemma ThinsTwice(ix: Index, jx: Index, kx: Index)
    requires Thins(ix, jx) && Thins(jx, kx)
    ensures Thins(ix, kx)
  {
    hide IndexInv, Listed;
  }

  lemma RotateThins(ix: Index, k: Key)
    requires IndexInv(ix) && k in ix.blocking
    ensures Thins(ix, Rotate(ix, k))
  {
    hide IndexInv;
    RotateKeepsInv(ix, k);
    assert NodesInv(ix) by { NodesPart(ix); }
    forall j, n | Listed(Rotate(ix, k), j, n)
      ensures Listed(ix, j, n) && SameKind(ix, Rotate(ix, k), n.client)
    {
      assert Listed(ix, j, n);
      Known(ix, j, n);
    }
  }

  lemma UnblockThins(ix: Index, c: ClientId)
    requires IndexInv(ix) && c in ix.clients && !ix.clients[c].btype.BNone?
    ensures Thins(ix, Unblock(ix, c))
  {
    hide IndexInv, Unblock, Listed;
    var r := Unblock(ix, c);
    UnblockKeepsInv(ix, c);
    assert NodesInv(ix) by { NodesPart(ix); }
    ListedAfter(ix, c, r);
    assert r.next == ix.next by { UnblockNext(ix, c); }
    forall k, n | Listed(r, k, n)
      ensures SameKind(ix, r, n.client)
    {
      Known(ix, k, n);
    }
  }

  lemma UnblockNext(ix: Index, c: ClientId)
    requires c in ix.clients
    ensures Unblock(ix, c).next == ix.next
  {
  }

  lemma Known(ix: Index, k: Key, n: Node)
    requires NodesInv(ix) && Listed(ix, k, n)
    ensures n.client in ix.clients
  {
    assert Listed(ix, k, Node(n.id, n.client));
    assert Holds(ix, n.client, k, n.id);
  }

  lemma NodesPart(ix: Index)
    requires IndexInv(ix)
    ensures NodesInv(ix)
  {
  }

  // Who is still listed wants what it wanted.
  lemma ThinnedWants(ix: Index, jx: Index, k: Key, w: BlockType)
    requires Thins(ix, jx)
    ensures forall n | n in Waiting(jx, k) :: n in Waiting(ix, k) && (Wants(jx, n, w) <==> Wants(ix, n, w))
  {
    hide IndexInv;
    forall n | n in Waiting(jx, k)
      ensures n in Waiting(ix, k) && (Wants(jx, n, w) <==> Wants(ix, n, w))
    {
      assert Listed(jx, k, n);
    }
  }

  lemma ThinnedStill(ix: Index, jx: Index, k: Key, w: BlockType)
    requires Thins(ix, jx)
    ensures Ordered(jx, Waiting(jx, k), w) <==> Ordered(ix, Waiting(jx, k), w)
  {
    hide Thins, Ordered, Wants;
    ThinnedWants(ix, jx, k, w);
    OrderedStill2(ix, jx, Waiting(jx, k), w);
  }

  // ------------------------------------------------------------ one client or node

  // c, and nobody else, is no longer blocked.
  lemma UnblockKeepsOrder(ix: Index, c: ClientId, k: Key, w: BlockType)
    requires IndexInv(ix) && c in ix.clients && !ix.clients[c].btype.BNone? && OrderElsewhere(ix, k, w)
    ensures OrderElsewhere(Unblock(ix, c), k, w)
    ensures OrderInv(ix, w) ==> OrderInv(Unblock(ix, c), w)
  {
    hide IndexInv, Unblock, Ordered, Drop;
    var r := Unblock(ix, c);
    UnblockKeepsInv(ix, c);
    UnblockThins(ix, c);
    var keys := ix.clients[c].keys;
    forall j | j in r.blocking && Ordered(ix, ix.blocking[j], w)
      ensures Ordered(r, r.blocking[j], w)
    {
      if j in keys { DropOrdered(ix, ix.blocking[j], Node(keys[j], c), w); }
      ThinnedStill(ix, r, j, w);
    }
  }

  /** Putting the first client behind the others keeps the order exactly if it does not wait
      for w or nobody behind it does. */
  lemma RotateKeepsOrderIff(ix: Index, k: Key, w: BlockType)
    requires k in ix.blocking && ix.blocking[k] != [] && OrderInv(ix, w)
    ensures OrderInv(Rotate(ix, k), w) <==>
            !Wants(ix, ix.blocking[k][0], w) || Nobody(ix, ix.blocking[k][1..], w)
  {
    hide Ordered, Wants;
    var nodes, r := ix.blocking[k], Rotate(ix, k);
    var first, rest := [nodes[0]], nodes[1..];
    assert nodes == first + rest;
    OrderedParts(ix, first, rest, w);
    OrderedParts(ix, rest, first, w);
    forall n
      ensures Wants(r, n, w) <==> Wants(ix, n, w)
    {
      SameWants(ix, r, n, w);
    }
    OrderedStill2(ix, r, rest + first, w);
    RotatedBefore(ix, k, w);
    WholeOrder(r, k, w);
    forall j | j in r.blocking && j != k
      ensures Ordered(r, r.blocking[j], w)
    {
      OrderedStill2(ix, r, ix.blocking[j], w);
    }
  }

  lemma SameWants(ix: Index, jx: Index, n: Node, w: BlockType)
    requires ix.clients == jx.clients
    ensures Wants(jx, n, w) <==> Wants(ix, n, w)
  {
  }

  lemma OrderedStill2(ix: Index, jx: Index, nodes: seq<Node>, w: BlockType)
    requires forall n | n in nodes :: Wants(jx, n, w) <==> Wants(ix, n, w)
    ensures Ordered(jx, nodes, w) <==> Ordered(ix, nodes, w)
  {
    hide Wants;
  }

  lemma RotatedBefore(ix: Index, k: Key, w: BlockType)
    requires k in ix.blocking && ix.blocking[k] != [] && Ordered(ix, ix.blocking[k], w)
    ensures
      var nodes := ix.blocking[k];
      Before(ix, nodes[1..], [nodes[0]], w) <==> !Wants(ix, nodes[0], w) || Nobody(ix, nodes[1..], w)
  {
    var nodes := ix.blocking[k];
    assert nodes == [nodes[0]] + nodes[1..];
    OrderedParts(ix, [nodes[0]], nodes[1..], w);
    TurnedAround(ix, [nodes[0]], nodes[1..], w);
  }

  // Of two parts in order, the second can be put in front if nobody waits in one of them.
  lemma TurnedAround(ix: Index, a: seq<Node>, b: seq<Node>, w: BlockType)
    requires Before(ix, a, b, w)
    ensures Before(ix, b, a, w) <==> Nobody(ix, a, w) || Nobody(ix, b, w)
  {
    if !Nobody(ix, a, w) && !Nobody(ix, b, w) {
      var x :| x in a && Wants(ix, x, w);
      var y :| y in b && Wants(ix, y, w);
      assert x.id < y.id;
    }
  }

  lemma WholeOrder(ix: Index, k: Key, w: BlockType)
    ensures OrderInv(ix, w) <==> OrderElsewhere(ix, k, w) && Ordered(ix, Waiting(ix, k), w)
  {
    hide Ordered;
    assert Ordered(ix, [], w) by { NoneOrdered(ix, w); }
  }

  lemma NoneOrdered(ix: Index, w: BlockType)
    ensures Ordered(ix, [], w)
  {
  }

  // ------------------------------------------------- who is passed and who is taken

  // Those of the nodes that do not wait for v.
  ghost function Passed(ix: Index, nodes: seq<Node>, v: BlockType): seq<Node> {
    if nodes == [] then []
    else (if Wants(ix, nodes[0], v) then [] else [nodes[0]]) + Passed(ix, nodes[1..], v)
  }

  lemma {:induction false} PassedFacts(ix: Index, nodes: seq<Node>, v: BlockType)
    ensures forall n :: n in Passed(ix, nodes, v) <==> n in nodes && !Wants(ix, n, v)
  {
    hide Wants;
    if nodes != [] {
      PassedFacts(ix, nodes[1..], v);
      assert nodes == [nodes[0]] + nodes[1..];
    }
  }

  lemma {:induction false} PassedOrdered(ix: Index, nodes: seq<Node>, v: BlockType, w: BlockType)
    requires Ordered(ix, nodes, w)
    ensures Ordered(ix, Passed(ix, nodes, v), w)
  {
    hide Wants, Ordered;
    if nodes != [] {
      var first, rest := [nodes[0]], nodes[1..];
      assert nodes == first + rest;
      OrderedParts(ix, first, rest, w);
      PassedOrdered(ix, rest, v, w);
      PassedFacts(ix, rest, v);
      assert [] + Passed(ix, rest, v) == Passed(ix, rest, v);
      if !Wants(ix, nodes[0], v) { PassedBehind(ix, first, rest, v, w); }
    }
  }

  lemma PassedBehind(ix: Index, first: seq<Node>, rest: seq<Node>, v: BlockType, w: BlockType)
    requires Ordered(ix, first, w) && Ordered(ix, Passed(ix, rest, v), w) && Before(ix, first, rest, w)
    requires forall n :: n in Passed(ix, rest, v) <==> n in rest && !Wants(ix, n, v)
    ensures Ordered(ix, first + Passed(ix, rest, v), w)
  {
    hide Wants, Ordered, Passed;
    OrderedParts(ix, first, Passed(ix, rest, v), w);
  }

  /** Of the nodes a + b of a key those in a were looked at: who waits for v left, the others
      went to the end. The waiters for w are still in the order they blocked if and only if
      w is v, or nobody waits for w in one of the two parts. */
  lemma PassingKeepsOrderIff(ix: Index, jx: Index, k: Key, a: seq<Node>, b: seq<Node>, v: BlockType, w: BlockType)
    requires OrderInv(ix, w) && Thins(ix, jx) && OrderElsewhere(jx, k, w)
    requires Waiting(ix, k) == a + b && Waiting(jx, k) == b + Passed(ix, a, v)
    ensures OrderInv(jx, w) <==> w == v || Nobody(ix, a, w) || Nobody(ix, b, w)
  {
    hide Ordered, OrderInv, OrderElsewhere, Wants, Passed, Before, Nobody, Thins;
    WholeOrder(ix, k, w);
    WholeOrder(jx, k, w);
    ThinnedStill(ix, jx, k, w);
    OrderedParts(ix, a, b, w);
    OrderedParts(ix, b, Passed(ix, a, v), w);
    PassedOrdered(ix, a, v, w);
    PassedFacts(ix, a, v);
    BeforePassed(ix, a, b, v, w);
    TurnedAround(ix, a, b, w);
  }

  lemma BeforePassed(ix: Index, a: seq<Node>, b: seq<Node>, v: BlockType, w: BlockType)
    requires forall n :: n in Passed(ix, a, v) <==> n in a && !Wants(ix, n, v)
    ensures Before(ix, b, Passed(ix, a, v), w) <==> w == v || Before(ix, b, a, w)
  {
    hide Passed;
    if w == v { assert forall n | n in Passed(ix, a, v) :: !Wants(ix, n, w); }
  }

  // The clients of some nodes wait for what they waited for.
  ghost predicate SameKinds(ix: Index, jx: Index, nodes: seq<Node>) {
    forall n | n in nodes :: SameKind(ix, jx, n.client)
  }

  lemma {:induction false} SameParts(ix: Index, jx: Index, nodes: seq<Node>, v: BlockType)
    requires SameKinds(ix, jx, nodes)
    ensures Takers(jx, nodes, v) == Takers(ix, nodes, v) && Passed(jx, nodes, v) == Passed(ix, nodes, v)
  {
    if nodes != [] {
      assert nodes[0] in nodes;
      SameParts(ix, jx, nodes[1..], v);
    }
  }

  lemma PartsFirst(ix: Index, front: seq<Node>, p: nat, v: BlockType)
    requires p < |front|
    ensures
      var first, rest := front[0], front[1..][..p];
      && Takers(ix, front[..p + 1], v) == (if Wants(ix, first, v) then [first] else []) + Takers(ix, rest, v)
      && Passed(ix, front[..p + 1], v) == (if Wants(ix, first, v) then [] else [first]) + Passed(ix, rest, v)
  {
    assert front[..p + 1][1..] == front[1..][..p] && front[..p + 1][0] == front[0];
  }

  // The clients behind the first are known, and others.
  lemma FrontKnown(ix: Index, k: Key, front: seq<Node>, back: seq<Node>)
    requires IndexInv(ix) && Waiting(ix, k) == front + back && front != []
    ensures front[0].client in ix.clients
    ensures forall n | n in front[1..] :: n.client in ix.clients && n.client != front[0].client
  {
    var nodes := ix.blocking[k];
    forall i | 0 <= i < |front|
      ensures front[i].client in ix.clients && (i > 0 ==> front[i].client != front[0].client)
    {
      assert nodes[i] == front[i] && nodes[0] == front[0];
      assert Listed(ix, k, front[i]);
      Known(ix, k, front[i]);
      if i > 0 { OneNodeEach(ix, k, 0, i); }
    }
  }

  lemma RotateElsewhere(ix: Index, k: Key, w: BlockType)
    requires k in ix.blocking && ix.blocking[k] != [] && OrderElsewhere(ix, k, w)
    ensures OrderElsewhere(Rotate(ix, k), k, w)
  {
    var r := Rotate(ix, k);
    forall j | j in r.blocking && j != k
      ensures Ordered(r, r.blocking[j], w)
    {
      assert Ordered(ix, ix.blocking[j], w);
      OrderedStill(ix, r, ix.blocking[j], w);
    }
  }

  // ------------------------------------------------------------------ serving a list

lemma {:induction false} ServeLoopThins(s: State, k: Key, n: nat)
    requires IndexInv(s.ix)
    ensures Thins(s.ix, ServeLoop(s, k, n).ix)
    decreases n
  {
    hide IndexInv, Thins, Unblock, Rotate;
    if n > 0 && FrontWaitsElsewhere(s, k) {
      var t := s.(ix := Rotate(s.ix, k));
      RotateThins(s.ix, k);
      RotateKeepsInv(s.ix, k);
      ServeLoopThins(t, k, n - 1);
      ThinsTwice(s.ix, t.ix, ServeLoop(t, k, n - 1).ix);
    } else if n > 0 && Servable(s, k) {
      var c, t := s.ix.blocking[k][0].client, ServeFirst(s, k);
      assert t.ix == Unblock(s.ix, c);
      UnblockThins(s.ix, c);
      UnblockKeepsInv(s.ix, c);
      ServeLoopThins(t, k, n - 1);
      ThinsTwice(s.ix, t.ix, ServeLoop(t, k, n - 1).ix);
    } else {
      ThinsSelf(s.ix);
    }
  }

  lemma {:induction false} ServeSortedThins(s: State, k: Key, n: nat)
    requires IndexInv(s.ix)
    ensures Thins(s.ix, ServeSorted(s, k, n).ix)
    decreases n
  {
    hide IndexInv, Thins, Unblock, Rotate, MembersOf;
    if n == 0 || MembersOf(s, k) == [] {
      ThinsSelf(s.ix);
    } else if FrontWantsOther(s, k) {
      var t := s.(ix := Rotate(s.ix, k));
      RotateThins(s.ix, k);
      RotateKeepsInv(s.ix, k);
      ServeSortedThins(t, k, n - 1);
      ThinsTwice(s.ix, t.ix, ServeSorted(t, k, n - 1).ix);
    } else if SortedServable(s, k) {
      var c, t := s.ix.blocking[k][0].client, ServeSortedFirst(s, k);
      assert t.ix == Unblock(s.ix, c);
      UnblockThins(s.ix, c);
      UnblockKeepsInv(s.ix, c);
      ServeSortedThins(t, k, n - 1);
      ThinsTwice(s.ix, t.ix, ServeSorted(t, k, n - 1).ix);
    } else {
      ThinsSelf(s.ix);
    }
  }

  lemma {:induction false} ServeStreamThins(ix: Index, nodes: seq<Node>, due: set<ClientId>)
    requires IndexInv(ix)
    ensures Thins(ix, ServeStream(ix, nodes, due))
    decreases |nodes|
  {
    hide IndexInv, Thins, Unblock;
    if nodes == [] {
      ThinsSelf(ix);
    } else if ReadsStream(ix, nodes[0].client, due) {
      var t := Unblock(ix, nodes[0].client);
      UnblockThins(ix, nodes[0].client);
      UnblockKeepsInv(ix, nodes[0].client);
      ServeStreamThins(t, nodes[1..], due);
      ThinsTwice(ix, t, ServeStream(t, nodes[1..], due));
    } else {
      ServeStreamThins(ix, nodes[1..], due);
    }
  }

  // How many of the first n nodes the service of a list looks at.
  ghost function ListLooks(s: State, k: Key, n: nat): (p: nat)
    ensures p <= n
    decreases n
  {
    if n == 0 then 0
    else if FrontWaitsElsewhere(s, k) then 1 + ListLooks(s.(ix := Rotate(s.ix, k)), k, n - 1)
    else if Servable(s, k) then 1 + ListLooks(ServeFirst(s, k), k, n - 1)
    else 0
  }

  // What n nodes in front of others become when a list is served.
  ghost predicate Turns(s: State, r: State, k: Key, front: seq<Node>, back: seq<Node>) {
    var p := ListLooks(s, k, |front|);
    && Waiting(r.ix, k) == front[p..] + back + Passed(s.ix, front[..p], BList)
    && (p < |front| ==> ItemsOf(r, k) == [] && Wants(s.ix, front[p], BList))
  }

  /** The nodes looked at: those waiting for the list leave, the others go to the end, in
      their order. The first node left unseen waits for the list, and that ran empty. */
  lemma {:induction false} ListIs(s: State, k: Key, front: seq<Node>, back: seq<Node>)
    requires IndexInv(s.ix) && Waiting(s.ix, k) == front + back
    ensures Turns(s, ServeLoop(s, k, |front|), k, front, back)
    decreases |front|
  {
    hide IndexInv, Turns, Wants, Rotate, Unblock, ServeFirst;
    if front == [] {
      NothingTurns(s, k, front, back);
    } else {
      FrontLeaves(s.ix, k);
      assert s.ix.blocking[k] == front + back && (front + back)[0] == front[0];
      if FrontWaitsElsewhere(s, k) { ListPasses(s, k, front, back); }
      else if Servable(s, k) { ListTakes(s, k, front, back); }
      else { NothingTurns(s, k, front, back); }
    }
  }

  lemma NothingTurns(s: State, k: Key, front: seq<Node>, back: seq<Node>)
    requires Waiting(s.ix, k) == front + back
    requires front != [] ==> front[0].client in s.ix.clients && !FrontWaitsElsewhere(s, k) && !Servable(s, k)
    ensures Turns(s, ServeLoop(s, k, |front|), k, front, back)
  {
    assert ListLooks(s, k, |front|) == 0;
    assert front[0..] == front && front[..0] == [];
    if front != [] { assert s.ix.blocking[k][0] == front[0]; }
  }

  lemma {:induction false} ListPasses(s: State, k: Key, front: seq<Node>, back: seq<Node>)
    requires IndexInv(s.ix) && Waiting(s.ix, k) == front + back && front != [] && FrontWaitsElsewhere(s, k)
    ensures Turns(s, ServeLoop(s, k, |front|), k, front, back)
    decreases |front|, 0
  {
    hide IndexInv, Turns, ServeLoop, Servable, ServeFirst, Wants;
    var t := s.(ix := Rotate(s.ix, k));
    RotateKeepsInv(s.ix, k);
    assert (front + back)[1..] + [front[0]] == front[1..] + (back + [front[0]]);
    ListIs(t, k, front[1..], back + [front[0]]);
    LoopRotates(s, k, |front|);
    FrontKnown(s.ix, k, front, back);
    assert !Wants(s.ix, front[0], BList) by { FrontWantsNoList(s, k); }
    TurnsOneMore(s, t, ServeLoop(t, k, |front| - 1), k, front, back, [front[0]]);
  }

  lemma FrontWantsNoList(s: State, k: Key)
    requires FrontWaitsElsewhere(s, k)
    ensures !Wants(s.ix, s.ix.blocking[k][0], BList)
  {
  }

  lemma {:induction false} ListTakes(s: State, k: Key, front: seq<Node>, back: seq<Node>)
    requires IndexInv(s.ix) && Waiting(s.ix, k) == front + back && front != [] && Servable(s, k)
    ensures Turns(s, ServeLoop(s, k, |front|), k, front, back)
    decreases |front|, 0
  {
    hide IndexInv, Turns, ServeLoop, ServeFirst, Unblock, Wants;
    var c := front[0].client;
    var t := ServeFirst(s, k);
    assert t.ix == Unblock(s.ix, c) by { FirstUnblocks(s, k); }
    FrontLeaves(s.ix, k);
    UnblockKeepsInv(s.ix, c);
    assert (front + back)[1..] == front[1..] + back;
    ListIs(t, k, front[1..], back);
    LoopServes(s, k, |front|);
    FrontKnown(s.ix, k, front, back);
    assert Wants(s.ix, front[0], BList) by { ServableWantsList(s, k); }
    assert back + [] == back;
    TurnsOneMore(s, t, ServeLoop(t, k, |front| - 1), k, front, back, []);
  }

  lemma ServableWantsList(s: State, k: Key)
    requires Servable(s, k)
    ensures Wants(s.ix, s.ix.blocking[k][0], BList)
  {
  }

  lemma FirstUnblocks(s: State, k: Key)
    requires Servable(s, k)
    ensures ServeFirst(s, k).ix == Unblock(s.ix, s.ix.blocking[k][0].client)
  {
    hide Unblock;
  }

  lemma TurnsOneMore(s: State, t: State, e: State, k: Key, front: seq<Node>, back: seq<Node>, last: seq<Node>)
    requires front != [] && SameKinds(s.ix, t.ix, front[1..])
    requires last == if Wants(s.ix, front[0], BList) then [] else [front[0]]
    requires ListLooks(s, k, |front|) == 1 + ListLooks(t, k, |front| - 1)
    requires Turns(t, e, k, front[1..], back + last)
    ensures Turns(s, e, k, front, back)
  {
    hide ListLooks, Passed, Takers, Wants, Waiting, ItemsOf;
    var p, f := ListLooks(t, k, |front| - 1), front[1..];
    SameParts(s.ix, t.ix, f[..p], BList);
    PartsFirst(s.ix, front, p, BList);
    assert f[p..] + (back + last) + Passed(s.ix, f[..p], BList) == front[p + 1..] + back + (last + Passed(s.ix, f[..p], BList));
    if p < |f| {
      assert f[p] == front[p + 1] && f[p] in f;
      assert Wants(t.ix, f[p], BList) <==> Wants(s.ix, f[p], BList) by { KindWants(s.ix, t.ix, f[p], BList); }
    }
  }

  lemma KindWants(ix: Index, jx: Index, n: Node, w: BlockType)
    requires SameKind(ix, jx, n.client)
    ensures Wants(jx, n, w) <==> Wants(ix, n, w)
  {
  }

  lemma {:induction false} ListKeepsElsewhere(s: State, k: Key, n: nat, w: BlockType)
    requires IndexInv(s.ix) && OrderElsewhere(s.ix, k, w)
    ensures OrderElsewhere(ServeLoop(s, k, n).ix, k, w)
    decreases n
  {
    hide IndexInv, OrderElsewhere, Unblock, Rotate;
    if n > 0 {
      if FrontWaitsElsewhere(s, k) {
        RotateKeepsInv(s.ix, k);
        RotateElsewhere(s.ix, k, w);
        ListKeepsElsewhere(s.(ix := Rotate(s.ix, k)), k, n - 1, w);
      } else if Servable(s, k) {
        var c := s.ix.blocking[k][0].client;
        UnblockKeepsInv(s.ix, c);
        UnblockKeepsOrder(s.ix, c, k, w);
        assert ServeFirst(s, k).ix == Unblock(s.ix, c);
        ListKeepsElsewhere(ServeFirst(s, k), k, n - 1, w);
      }
    }
  }

  // ------------------------------------------------------------ serving a sorted set

  // How many of the nodes the service of a sorted set looks at.
  ghost function SortedLooks(ix: Index, nodes: seq<Node>, members: nat): (p: nat)
    ensures p <= |nodes|
  {
    if nodes == [] || members == 0 then 0
    else 1 + SortedLooks(ix, nodes[1..], if Wants(ix, nodes[0], BZset) then members - 1 else members)
  }

  lemma {:induction false} SortedLooksSame(ix: Index, jx: Index, nodes: seq<Node>, members: nat, p: nat)
    requires SameKinds(ix, jx, nodes) && p <= |nodes|
    ensures SortedLooks(jx, nodes, members) == SortedLooks(ix, nodes, members)
    ensures Takers(jx, nodes[..p], BZset) == Takers(ix, nodes[..p], BZset)
    ensures Passed(jx, nodes[..p], BZset) == Passed(ix, nodes[..p], BZset)
  {
    SameParts(ix, jx, nodes[..p], BZset);
    if nodes != [] {
      assert nodes[0] in nodes;
      SortedLooksSame(ix, jx, nodes[1..], if members > 0 && Wants(ix, nodes[0], BZset) then members - 1 else members, 0);
    }
  }

  // What n nodes in front of others become when a sorted set is served.
  ghost predicate Sorts(s: State, r: State, k: Key, front: seq<Node>, back: seq<Node>) {
    var p := SortedLooks(s.ix, front, |MembersOf(s, k)|);
    var takers := Takers(s.ix, front[..p], BZset);
    && Waiting(r.ix, k) == front[p..] + back + Passed(s.ix, front[..p], BZset)
    && |MembersOf(s, k)| == |MembersOf(r, k)| + |takers|
    && (p < |front| ==> MembersOf(r, k) == [])
    && |r.replies| == |s.replies| + |takers| && r.replies[..|s.replies|] == s.replies
    && forall i | 0 <= i < |takers| :: r.replies[|s.replies| + i].client == takers[i].client
  }

  /** The nodes looked at: those waiting for the sorted set leave, answered in their order;
      the others go to the end, in their order. Nodes are left unseen only when the sorted
      set ran empty. */
  lemma {:induction false} SortedIs(s: State, k: Key, front: seq<Node>, back: seq<Node>)
    requires IndexInv(s.ix) && Waiting(s.ix, k) == front + back
    ensures Sorts(s, ServeSorted(s, k, |front|), k, front, back)
    decreases |front|
  {
    hide IndexInv, Sorts, Wants, Rotate, Unblock;
    if front == [] || MembersOf(s, k) == [] {
      NothingSorted(s, k, front, back);
    } else {
      FrontLeaves(s.ix, k);
      assert s.ix.blocking[k] == front + back && (front + back)[0] == front[0];
      if FrontWantsOther(s, k) { SortedPasses(s, k, front, back); }
      else { SortedTakes(s, k, front, back); }
    }
  }

  lemma NothingSorted(s: State, k: Key, front: seq<Node>, back: seq<Node>)
    requires Waiting(s.ix, k) == front + back && (front == [] || MembersOf(s, k) == [])
    ensures Sorts(s, s, k, front, back)
  {
    assert SortedLooks(s.ix, front, |MembersOf(s, k)|) == 0;
    assert front[0..] == front && front[..0] == [];
  }

  lemma {:induction false} SortedPasses(s: State, k: Key, front: seq<Node>, back: seq<Node>)
    requires IndexInv(s.ix) && Waiting(s.ix, k) == front + back && front != [] && MembersOf(s, k) != []
    requires FrontWantsOther(s, k)
    ensures Sorts(s, ServeSorted(s, k, |front|), k, front, back)
    decreases |front|, 0
  {
    hide IndexInv, SortedLooks, Takers, Passed, ServeSorted;
    var t := s.(ix := Rotate(s.ix, k));
    RotateKeepsInv(s.ix, k);
    assert (front + back)[1..] + [front[0]] == front[1..] + (back + [front[0]]);
    SortedIs(t, k, front[1..], back + [front[0]]);
    SortedStep(s, k, |front|);
    FrontKnown(s.ix, k, front, back);
    var m := |MembersOf(s, k)|;
    var p := SortedLooks(t.ix, front[1..], m);
    SortedLooksSame(s.ix, t.ix, front[1..], m, p);
    SortedLooksFirst(s.ix, front, m);
    PartsFirst(s.ix, front, p, BZset);
    var f := front[1..];
    assert f[p..] + (back + [front[0]]) + Passed(s.ix, f[..p], BZset) == front[p + 1..] + back + ([front[0]] + Passed(s.ix, f[..p], BZset));
  }

  lemma {:induction false} SortedTakes(s: State, k: Key, front: seq<Node>, back: seq<Node>)
    requires IndexInv(s.ix) && Waiting(s.ix, k) == front + back && front != [] && MembersOf(s, k) != []
    requires SortedServable(s, k)
    ensures Sorts(s, ServeSorted(s, k, |front|), k, front, back)
    decreases |front|, 0
  {
    hide IndexInv, Sorts, ServeSorted, Unblock, ListsAlone, Wants;
    var c := front[0].client;
    var t := ServeSortedFirst(s, k);
    SortedServed(s, k);
    UnblockKeepsInv(s.ix, c);
    assert (front + back)[1..] == front[1..] + back;
    SortedIs(t, k, front[1..], back);
    SortedStep(s, k, |front|);
    FrontKnown(s.ix, k, front, back);
    assert SameKinds(s.ix, t.ix, front[1..]);
    FrontWants(s, k);
    SortsOneMore(s, t, ServeSorted(t, k, |front| - 1), k, front, back);
  }

  lemma FrontWants(s: State, k: Key)
    requires SortedServable(s, k)
    ensures Wants(s.ix, s.ix.blocking[k][0], BZset)
  {
  }

  lemma SortsOneMore(s: State, t: State, e: State, k: Key, front: seq<Node>, back: seq<Node>)
    requires front != [] && Wants(s.ix, front[0], BZset) && SameKinds(s.ix, t.ix, front[1..])
    requires |MembersOf(s, k)| == |MembersOf(t, k)| + 1
    requires |t.replies| == |s.replies| + 1 && t.replies[..|s.replies|] == s.replies
    requires t.replies[|s.replies|].client == front[0].client
    requires Sorts(t, e, k, front[1..], back)
    ensures Sorts(s, e, k, front, back)
  {
    hide SortedLooks, Takers, Passed, Wants, SameKinds, MembersOf, Waiting;
    var m := |MembersOf(s, k)|;
    var p := SortedLooks(t.ix, front[1..], m - 1);
    SortedLooksSame(s.ix, t.ix, front[1..], m - 1, p);
    SortedLooksFirst(s.ix, front, m);
    PartsFirst(s.ix, front, p, BZset);
    assert front[1..][p..] == front[p + 1..];
    var takers := Takers(s.ix, front[1..][..p], BZset);
    RepliesGrow(s.replies, t.replies, e.replies, front[0], takers, |takers|);
  }

  lemma SortedStep(s: State, k: Key, n: nat)
    requires n > 0 && MembersOf(s, k) != []
    ensures FrontWantsOther(s, k) ==> ServeSorted(s, k, n) == ServeSorted(s.(ix := Rotate(s.ix, k)), k, n - 1)
    ensures SortedServable(s, k) ==> ServeSorted(s, k, n) == ServeSorted(ServeSortedFirst(s, k), k, n - 1)
  {
  }

  lemma SortedLooksFirst(ix: Index, front: seq<Node>, m: nat)
    requires front != [] && m > 0
    ensures SortedLooks(ix, front, m) == 1 + SortedLooks(ix, front[1..], if Wants(ix, front[0], BZset) then m - 1 else m)
  {
  }

  /** After a sorted set was served nobody waits for it, or it is gone. */
  lemma SortedIsServed(s: State, k: Key, n: Node)
    requires IndexInv(s.ix)
    ensures
      var r := ServeSorted(s, k, |Waiting(s.ix, k)|);
      MembersOf(r, k) != [] && Listed(r.ix, k, n) ==> !Wants(s.ix, n, BZset)
  {
    hide Wants, ServeSorted;
    var nodes := Waiting(s.ix, k);
    assert nodes + [] == nodes && nodes[|nodes|..] == [] && nodes[..|nodes|] == nodes;
    SortedIs(s, k, nodes, []);
    PassedFacts(s.ix, nodes, BZset);
  }

  lemma {:induction false} SortedKeepsElsewhere(s: State, k: Key, n: nat, w: BlockType)
    requires IndexInv(s.ix) && OrderElsewhere(s.ix, k, w)
    ensures OrderElsewhere(ServeSorted(s, k, n).ix, k, w)
    decreases n
  {
    hide IndexInv, OrderElsewhere, Unblock, Rotate, MembersOf;
    if n > 0 && MembersOf(s, k) != [] {
      if FrontWantsOther(s, k) {
        RotateKeepsInv(s.ix, k);
        RotateElsewhere(s.ix, k, w);
        SortedKeepsElsewhere(s.(ix := Rotate(s.ix, k)), k, n - 1, w);
      } else if SortedServable(s, k) {
        var c := s.ix.blocking[k][0].client;
        UnblockKeepsInv(s.ix, c);
        UnblockKeepsOrder(s.ix, c, k, w);
        assert ServeSortedFirst(s, k).ix == Unblock(s.ix, c);
        SortedKeepsElsewhere(ServeSortedFirst(s, k), k, n - 1, w);
      }
    }
  }

  // ------------------------------------------------------------ exactly when order is kept

  // How many waiters for k the service of what is at k moves or answers.
  ghost function SeenCount(s: State, k: Key): (p: nat)
    ensures p <= |Waiting(s.ix, k)|
  {
    if IsList(s, k) then ListLooks(s, k, |Waiting(s.ix, k)|) else SortedLooks(s.ix, Waiting(s.ix, k), |MembersOf(s, k)|)
  }

  // The nodes looked at when a list or a sorted set is served, and the others.
  ghost function Seen(s: State, k: Key): seq<Node> { Waiting(s.ix, k)[..SeenCount(s, k)] }

  ghost function Unseen(s: State, k: Key): seq<Node> { Waiting(s.ix, k)[SeenCount(s, k)..] }

  /** Nobody that waits for w is among the nodes looked at, or all of them are. */
  ghost predicate Apart(s: State, k: Key, w: BlockType) {
    Nobody(s.ix, Seen(s, k), w) || Nobody(s.ix, Unseen(s, k), w)
  }

  /** Serving a list leaves the waiters for w in the order they blocked if and only if they
      wait for a list, or none of them is among the nodes looked at, or all of them are. */
  lemma ListKeepsOrderIff(s: State, k: Key, w: BlockType)
    requires IndexInv(s.ix) && OrderInv(s.ix, w) && IsList(s, k)
    ensures OrderInv(ServeLoop(s, k, |Waiting(s.ix, k)|).ix, w) <==> w == BList || Apart(s, k, w)
  {
    hide ServeLoop, IndexInv, OrderInv, OrderElsewhere, Nobody, Passed, ListLooks, Wants, Thins;
    var nodes, r := Waiting(s.ix, k), ServeLoop(s, k, |Waiting(s.ix, k)|);
    assert nodes == Seen(s, k) + Unseen(s, k) && nodes + [] == nodes && Unseen(s, k) + [] == Unseen(s, k);
    ListIs(s, k, nodes, []);
    WholeOrder(s.ix, k, w);
    ListKeepsElsewhere(s, k, |nodes|, w);
    ServeLoopThins(s, k, |nodes|);
    PassingKeepsOrderIff(s.ix, r.ix, k, Seen(s, k), Unseen(s, k), BList, w);
  }

  /** The same of a sorted set. */
  lemma SortedKeepsOrderIff(s: State, k: Key, w: BlockType)
    requires IndexInv(s.ix) && OrderInv(s.ix, w) && !IsList(s, k)
    ensures OrderInv(ServeSorted(s, k, |Waiting(s.ix, k)|).ix, w) <==> w == BZset || Apart(s, k, w)
  {
    hide ServeSorted, IndexInv, OrderInv, OrderElsewhere, Nobody, Passed, SortedLooks, Takers, Wants, Thins, MembersOf;
    var nodes, r := Waiting(s.ix, k), ServeSorted(s, k, |Waiting(s.ix, k)|);
    assert nodes == Seen(s, k) + Unseen(s, k) && nodes + [] == nodes && Unseen(s, k) + [] == Unseen(s, k);
    SortedIs(s, k, nodes, []);
    WholeOrder(s.ix, k, w);
    SortedKeepsElsewhere(s, k, |nodes|, w);
    ServeSortedThins(s, k, |nodes|);
    PassingKeepsOrderIff(s.ix, r.ix, k, Seen(s, k), Unseen(s, k), BZset, w);
  }

  lemma {:induction false} StreamKeepsOrder(ix: Index, nodes: seq<Node>, due: set<ClientId>, w: BlockType)
    requires IndexInv(ix) && OrderInv(ix, w)
    ensures OrderInv(ServeStream(ix, nodes, due), w)
    decreases |nodes|
  {
    hide IndexInv, OrderInv, Unblock;
    if nodes != [] {
      var c := nodes[0].client;
      if ReadsStream(ix, c, due) {
        UnblockKeepsInv(ix, c);
        WholeOrder(ix, "", w);
        UnblockKeepsOrder(ix, c, "", w);
        StreamKeepsOrder(Unblock(ix, c), nodes[1..], due, w);
      } else {
        StreamKeepsOrder(ix, nodes[1..], due, w);
      }
    }
  }

  // ---------------------------------------------------------------- first come first

  /** When a key that holds a list is served, the clients that wait for a list are answered
      in the order they blocked: by increasing node identities. Who is left waiting blocked
      after everybody who was answered, and then the list ran empty. */
  lemma ServedInBlockingOrder(s: State, k: Key, l: seq<Key>, skip: iset<Key>) returns (m: nat)
    requires ServiceInv(s, l, skip + iset{k}) && IsList(s, k) && OrderInv(s.ix, BList)
    ensures
      var r := Serve(s, k);
      var waiters := Takers(s.ix, Waiting(s.ix, k), BList);
      && InOrder(s, r, k, waiters, m)
      && Rising(waiters)
      && (forall n :: ListWaiter(s.ix, k, n) <==> n in waiters)
      && (forall n :: ListWaiter(r.ix, k, n) <==> n in waiters[m..])
      && (m < |waiters| ==> k !in r.data)
      && OrderInv(r.ix, BList)
  {
    hide ServiceInv, OrderInv, Less, Takers, ServeLoop, IndexInv, Apart, SeenCount;
    var r := Serve(s, k);
    m := ServeKeepsInv(s, k, l, skip);
    assert IndexInv(s.ix) by { InvParts(s, l, skip + iset{k}); }
    WholeOrder(s.ix, k, BList);
    TakersRise(s.ix, Waiting(s.ix, k), BList);
    ListTakersAre(s.ix, k);
    ListTakersAre(r.ix, k);
    ListKeepsOrderIff(s, k, BList);
  }

  /** When a sorted set is served, those that wait for one are answered in the order they
      blocked, and the others still wait; if there are any, the sorted set is gone. */
  lemma SortedServedInBlockingOrder(s: State, k: Key)
    requires IndexInv(s.ix) && OrderInv(s.ix, BZset) && !IsList(s, k)
    ensures
      var r := ServeSorted(s, k, |Waiting(s.ix, k)|);
      var waiters := Takers(s.ix, Waiting(s.ix, k), BZset);
      var m := |r.replies| - |s.replies|;
      && Rising(waiters)
      && 0 <= m <= |waiters| && r.replies[..|s.replies|] == s.replies
      && (forall i | 0 <= i < m :: r.replies[|s.replies| + i].client == waiters[i].client)
      && Takers(r.ix, Waiting(r.ix, k), BZset) == waiters[m..]
      && (m < |waiters| ==> MembersOf(r, k) == [])
      && OrderInv(r.ix, BZset)
  {
    hide ServeSorted, IndexInv, OrderInv, Thins, SortedLooks, Wants, Takers, MembersOf, Passed;
    var nodes, r := Waiting(s.ix, k), ServeSorted(s, k, |Waiting(s.ix, k)|);
    var a, b := Seen(s, k), Unseen(s, k);
    assert nodes == a + b && nodes + [] == nodes && b + [] == b;
    SortedIs(s, k, nodes, []);
    WholeOrder(s.ix, k, BZset);
    TakersRise(s.ix, nodes, BZset);
    TakersConcat(s.ix, a, b, BZset);
    TakersConcat(s.ix, b, Passed(s.ix, a, BZset), BZset);
    PassedTakeNothing(s.ix, a, BZset);
    ServeSortedThins(s, k, |nodes|);
    ThinnedTakers(s.ix, r.ix, k, BZset);
    assert Takers(s.ix, b, BZset) + [] == Takers(s.ix, b, BZset);
    if b == [] { assert Takers(s.ix, b, BZset) == [] by { TakersIn(s.ix, b, BZset); } }
    SortedKeepsOrderIff(s, k, BZset);
  }

  lemma ThinnedTakers(ix: Index, jx: Index, k: Key, w: BlockType)
    requires Thins(ix, jx)
    ensures Takers(jx, Waiting(jx, k), w) == Takers(ix, Waiting(jx, k), w)
  {
    hide IndexInv;
    forall n | n in Waiting(jx, k)
      ensures SameKind(ix, jx, n.client)
    {
      assert Listed(jx, k, n);
    }
    SameParts(ix, jx, Waiting(jx, k), w);
  }

  lemma {:induction false} PassedTakeNothing(ix: Index, nodes: seq<Node>, v: BlockType)
    ensures Takers(ix, Passed(ix, nodes, v), v) == []
  {
    if nodes != [] {
      var first, rest := [nodes[0]], Passed(ix, nodes[1..], v);
      PassedTakeNothing(ix, nodes[1..], v);
      assert (first + rest)[1..] == rest && [] + rest == rest;
    }
  }

  lemma {:induction false} TakersIn(ix: Index, nodes: seq<Node>, w: BlockType)
    ensures forall n :: n in Takers(ix, nodes, w) <==> n in nodes && Wants(ix, n, w)
  {
    hide Wants;
    if nodes != [] {
      TakersIn(ix, nodes[1..], w);
      assert nodes == [nodes[0]] + nodes[1..];
    }
  }

  lemma ListTakersAre(ix: Index, k: Key)
    ensures forall n :: ListWaiter(ix, k, n) <==> n in Takers(ix, Waiting(ix, k), BList)
  {
    TakersIn(ix, Waiting(ix, k), BList);
  }

  ghost predicate Rising(nodes: seq<Node>) { forall i, j | 0 <= i < j < |nodes| :: nodes[i].id < nodes[j].id }

  lemma RisingFirst(n: Node, rest: seq<Node>)
    requires Rising(rest) && forall m | m in rest :: n.id < m.id
    ensures Rising([n] + rest)
  {
  }

  lemma {:induction false} TakersRise(ix: Index, nodes: seq<Node>, w: BlockType)
    requires Ordered(ix, nodes, w)
    ensures Rising(Takers(ix, nodes, w))
  {
    hide Wants, Rising, Ordered;
    if nodes == [] {
      assert Rising([]) by { RisingNone(); }
    } else {
      assert nodes == [nodes[0]] + nodes[1..];
      OrderedParts(ix, [nodes[0]], nodes[1..], w);
      TakersRise(ix, nodes[1..], w);
      TakersIn(ix, nodes[1..], w);
      var rest := Takers(ix, nodes[1..], w);
      assert [] + rest == rest;
      if Wants(ix, nodes[0], w) {
        assert nodes[0] in [nodes[0]];
        RisingFirst(nodes[0], rest);
      }
    }
  }

  lemma RisingNone()
    ensures Rising([])
  {
  }

  // ---------------------------------------------------------- handling the queue

  /** Handling a key keeps the order of the waiters for w, if the key holds neither a list
      nor a sorted set that they do not wait for, or its service does. */
  ghost predicate Calm(s: State, k: Key, w: BlockType) {
    k in s.data && ((s.data[k].Items? && w != BList) || (s.data[k].Sorted? && w != BZset)) ==> Apart(s, k, w)
  }

  ghost predicate CalmKeys(s: State, l: seq<Key>, w: BlockType)
    decreases |l|
  {
    l == [] || (Calm(s, l[0], w) && CalmKeys(HandleKey(s, l[0]), l[1..], w))
  }

  /** All services, while the queue is handled until it is empty. */
  ghost predicate CalmAll(s: State, w: BlockType)
    requires ServiceInv(s, [], AnyKey())
    decreases |BlockedClients(s.ix)|, |s.ready|
  {
    s.ready == [] ||
    (var t := s.(ready := []);
     TakeAll(s, AnyKey());
     HandleKeysKeepsInv(t, s.ready, AnyKey());
     CalmKeys(t, s.ready, w) && CalmAll(HandleKeys(t, s.ready), w))
  }

  lemma HandleKeyOrderIff(s: State, k: Key, w: BlockType)
    requires IndexInv(s.ix) && OrderInv(s.ix, w)
    ensures OrderInv(HandleKey(s, k).ix, w) <==> Calm(s, k, w)
  {
    hide IndexInv, OrderInv, ServeLoop, ServeSorted, ServeStream, Apart;
    var t := s.(readySet := s.readySet - {k});
    SameApart(s, t, k, w);
    if k in s.data && s.data[k].Sorted? {
      SortedKeepsOrderIff(t, k, w);
    } else if IsList(s, k) {
      ListKeepsOrderIff(t, k, w);
    } else if k in s.data && s.data[k].Stream? {
      StreamKeepsOrder(t.ix, Waiting(t.ix, k), t.data[k].due, w);
    }
  }

  // Who is looked at does not depend on the queue.
  lemma {:induction false} SameLooks(s: State, t: State, k: Key, n: nat)
    requires t.ix == s.ix && t.data == s.data
    ensures ListLooks(t, k, n) == ListLooks(s, k, n)
    decreases n
  {
    hide Rotate, Unblock;
    if n > 0 {
      if FrontWaitsElsewhere(s, k) {
        SameLooks(s.(ix := Rotate(s.ix, k)), t.(ix := Rotate(t.ix, k)), k, n - 1);
      } else if Servable(s, k) {
        SameLooks(ServeFirst(s, k), ServeFirst(t, k), k, n - 1);
      }
    }
  }

  lemma SameApart(s: State, t: State, k: Key, w: BlockType)
    requires t.ix == s.ix && t.data == s.data
    ensures Apart(t, k, w) <==> Apart(s, k, w)
  {
    hide ListLooks, SortedLooks, Nobody;
    SameLooks(s, t, k, |Waiting(s.ix, k)|);
  }

  lemma {:induction false} HandleKeysKeepsOrder(s: State, l: seq<Key>, w: BlockType)
    requires ServiceInv(s, l, AnyKey()) && OrderInv(s.ix, w) && CalmKeys(s, l, w)
    ensures OrderInv(HandleKeys(s, l).ix, w)
    decreases |l|
  {
    hide ServiceInv, OrderInv, HandleKey, Calm, Less;
    if l != [] {
      assert l == [l[0]] + l[1..];
      InvParts(s, l, AnyKey());
      HandleKeyKeepsInv(s, l[0], l[1..], AnyKey());
      HandleKeyOrderIff(s, l[0], w);
      HandleKeysKeepsOrder(HandleKey(s, l[0]), l[1..], w);
    }
  }

  lemma {:induction false} HandleAllKeepsOrder(s: State, w: BlockType)
    requires ServiceInv(s, [], AnyKey()) && OrderInv(s.ix, w) && CalmAll(s, w)
    ensures OrderInv(HandleAll(s).ix, w)
    decreases |BlockedClients(s.ix)|, |s.ready|
  {
    hide IndexInv, OrderInv, HandleKeys, CalmKeys, Awake, DataOk, ReadyInv;
    if s.ready != [] {
      var t := s.(ready := []);
      TakeAll(s, AnyKey());
      HandleKeysKeepsInv(t, s.ready, AnyKey());
      HandleKeysKeepsOrder(t, s.ready, w);
      HandleAllKeepsOrder(HandleKeys(t, s.ready), w);
    }
  }
}
