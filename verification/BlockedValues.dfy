/** What blocked clients are given: from which end elements are taken, in which order, where
    they go, and what is left of the list or the sorted set. */
module BlockedValues {
  import opened Wrappers
  import opened BlockedModel
  import opened BlockedService
  import opened BlockedOrder

  // ------------------------------------------------------------------ one client

  // The client remembers from which end it wants the element, and where it is to go.
  lemma BlockedWith(ix: Index, c: ClientId, t: BlockType, keys: seq<Key>, target: Option<Key>, fromHead: bool)
    requires NodesInv(ix) && c in ix.clients
    ensures
      var cl := BlockForKeys(ix, c, t, keys, target, fromHead).clients[c];
      cl.btype == t && cl.target == target && cl.fromHead == fromHead
  {
    hide NodesInv, AddKeys;
    var p := Prepare(ix, c, target, fromHead);
    PrepareFrame(ix, c, target, fromHead);
    AddKeysFacts(p, c, keys, |keys|);
  }

  /** A client that is unblocked waits for nothing any more, wants nothing moved, and its input is
      taken up again, once; nobody else changes. */
  lemma UnblockedIs(ix: Index, c: ClientId)
    requires IndexInv(ix) && c in ix.clients && WaitsForData(ix.clients[c].btype)
    ensures
      var r, was := Unblock(ix, c), ix.clients[c];
      && r.clients == ix.clients[c := Client(BNone, map[], None, was.fromHead, true)]
      && r.unblocked == (if was.requeued then ix.unblocked else ix.unblocked + [c])
      && r.blocked == ix.blocked - 1 && r.next == ix.next
      && forall j, n :: Listed(r, j, n) <==> Listed(ix, j, n) && n.client != c
  {
    hide LeaveAll, IndexInv, Listed;
    UnblockKeepsInv(ix, c);
    assert NodesInv(ix) by { NodesPart(ix); }
    ListedAfter(ix, c, Unblock(ix, c));
  }

  /** The client in front takes the first element of the list, or the last one. It gets it, or
      it becomes the first element of the list it is to go to, which may be new, or be the same
      list; if something else is there nothing is taken. */
  lemma FirstServedIs(s: State, k: Key)
    requires Servable(s, k)
    ensures
      var c, items, r := s.ix.blocking[k][0].client, s.data[k].items, ServeFirst(s, k);
      var cl, n := s.ix.clients[c], |items|;
      var v, left := if cl.fromHead then items[0] else items[n - 1], if cl.fromHead then items[1..] else items[..n - 1];
      && r.ix == Unblock(s.ix, c)
      && match cl.target
         case None => r.data == s.data[k := Items(left)] && r.replies == s.replies + [Popped(c, k, v)]
         case Some(d) =>
           if d in s.data && !s.data[d].Items? then r.data == s.data && r.replies == s.replies + [WrongType(c, d)]
           else
             && r.replies == s.replies + [Moved(c, k, d, v)]
             && r.data == if d !in s.data then s.data[k := Items(left)][d := Items([v])]
                          else if d == k then s.data[k := Items([v] + left)]
                          else s.data[k := Items(left)][d := Items([v] + s.data[d].items)]
  {
    hide Unblock;
    var items := s.data[k].items;
    assert items == [items[0]] + items[1..];
    assert items == items[..|items| - 1] + [items[|items| - 1]];
    if s.ix.clients[s.ix.blocking[k][0].client].target.Some? {
      var d := s.ix.clients[s.ix.blocking[k][0].client].target.value;
      if d in s.data && !s.data[d].Items? { assert ServeFirst(s, k).data == s.data[k := Items(items)] == s.data; }
    }
  }

  // ----------------------------------------------------------------- a whole list

  // Those of the nodes that wait for a list want it from this end, and for themselves.
  ghost predicate Alike(ix: Index, nodes: seq<Node>, head: bool) {
    forall n | n in nodes && Wants(ix, n, BList) :: ix.clients[n.client].target.None? && ix.clients[n.client].fromHead == head
  }

  function Taken(items: seq<Elem>, head: bool, i: nat): Elem
    requires i < |items|
  {
    if head then items[i] else items[|items| - 1 - i]
  }

  function Kept(items: seq<Elem>, head: bool, m: nat): seq<Elem>
    requires m <= |items|
  {
    if head then items[m..] else items[..|items| - m]
  }

  // The first m of the waiters were answered, each with the next element from that end.
  ghost predicate Dealt(s: State, r: State, k: Key, items: seq<Elem>, head: bool, waiters: seq<Node>, m: nat) {
    && m <= |items| && m <= |waiters|
    && |r.replies| == |s.replies| + m && r.replies[..|s.replies|] == s.replies
    && forall i | 0 <= i < m :: r.replies[|s.replies| + i] == Popped(waiters[i].client, k, Taken(items, head, i))
  }

  lemma {:induction false} LoopDeals(s: State, k: Key, front: seq<Node>, back: seq<Node>, head: bool)
    requires IndexInv(s.ix) && Waiting(s.ix, k) == front + back && IsList(s, k) && Alike(s.ix, front, head)
    ensures
      var r, items, waiters := ServeLoop(s, k, |front|), s.data[k].items, Takers(s.ix, front, BList);
      var m := if |waiters| < |items| then |waiters| else |items|;
      Dealt(s, r, k, items, head, waiters, m) && r.data == s.data[k := Items(Kept(items, head, m))]
    decreases |front|
  {
    hide IndexInv, Alike, Dealt, Takers, ServeLoop, Kept, Taken;
    if front == [] {
      NothingDealt(s, k, front, head);
    } else {
      FrontLeaves(s.ix, k);
      assert s.ix.blocking[k] == front + back && (front + back)[0] == front[0];
      if FrontWaitsElsewhere(s, k) { PassedOver(s, k, front, back, head); }
      else if Servable(s, k) { DealtOne(s, k, front, back, head); }
      else { NothingDealt(s, k, front, head); }
    }
  }

  lemma NothingDealt(s: State, k: Key, front: seq<Node>, head: bool)
    requires IsList(s, k) && (front == [] || (!FrontWaitsElsewhere(s, k) && !Servable(s, k) && s.data[k].items == []))
    ensures ServeLoop(s, k, |front|) == s
    ensures Dealt(s, s, k, s.data[k].items, head, Takers(s.ix, front, BList), 0)
    ensures Takers(s.ix, front, BList) == [] || s.data[k].items == []
    ensures s.data == s.data[k := Items(Kept(s.data[k].items, head, 0))]
  {
    var items := s.data[k].items;
    assert items[0..] == items && items[..|items|] == items;
  }

  lemma {:induction false} PassedOver(s: State, k: Key, front: seq<Node>, back: seq<Node>, head: bool)
    requires IndexInv(s.ix) && Waiting(s.ix, k) == front + back && IsList(s, k) && Alike(s.ix, front, head)
    requires front != [] && FrontWaitsElsewhere(s, k)
    ensures
      var r, items, waiters := ServeLoop(s, k, |front|), s.data[k].items, Takers(s.ix, front, BList);
      var m := if |waiters| < |items| then |waiters| else |items|;
      Dealt(s, r, k, items, head, waiters, m) && r.data == s.data[k := Items(Kept(items, head, m))]
    decreases |front|, 0
  {
    hide IndexInv, Dealt, ServeLoop, Kept, Taken;
    var t := s.(ix := Rotate(s.ix, k));
    RotateKeepsInv(s.ix, k);
    assert (front + back)[1..] + [front[0]] == front[1..] + (back + [front[0]]);
    LoopDeals(t, k, front[1..], back + [front[0]], head);
    LoopRotates(s, k, |front|);
    FrontKnown(s.ix, k, front, back);
    SameParts(s.ix, t.ix, front[1..], BList);
    assert [] + Takers(s.ix, front[1..], BList) == Takers(s.ix, front[1..], BList);
    SameDealt(s, t, ServeLoop(s, k, |front|), k, s.data[k].items, head, Takers(s.ix, front, BList));
  }

  lemma SameDealt(s: State, t: State, r: State, k: Key, items: seq<Elem>, head: bool, waiters: seq<Node>)
    requires t.replies == s.replies
    ensures forall m: nat :: Dealt(t, r, k, items, head, waiters, m) <==> Dealt(s, r, k, items, head, waiters, m)
  {
  }

  lemma {:induction false} DealtOne(s: State, k: Key, front: seq<Node>, back: seq<Node>, head: bool)
    requires IndexInv(s.ix) && Waiting(s.ix, k) == front + back && IsList(s, k) && Alike(s.ix, front, head)
    requires front != [] && Servable(s, k)
    ensures
      var r, items, waiters := ServeLoop(s, k, |front|), s.data[k].items, Takers(s.ix, front, BList);
      var m := if |waiters| < |items| then |waiters| else |items|;
      Dealt(s, r, k, items, head, waiters, m) && r.data == s.data[k := Items(Kept(items, head, m))]
    decreases |front|, 0
  {
    hide IndexInv, Dealt, ServeLoop, ServeFirst, Unblock, Kept, Taken, Alike;
    var items, t := s.data[k].items, ServeFirst(s, k);
    FirstDealt(s, k, front, back, head);
    LoopDeals(t, k, front[1..], back, head);
    LoopServes(s, k, |front|);
    SameParts(s.ix, t.ix, front[1..], BList);
    OneMoreDealt(s, t, ServeLoop(s, k, |front|), k, items, head, front[0], Takers(s.ix, front[1..], BList));
  }

  lemma FirstDealt(s: State, k: Key, front: seq<Node>, back: seq<Node>, head: bool)
    requires IndexInv(s.ix) && Waiting(s.ix, k) == front + back && IsList(s, k) && Alike(s.ix, front, head)
    requires front != [] && Servable(s, k)
    ensures
      var items, t := s.data[k].items, ServeFirst(s, k);
      && IndexInv(t.ix) && Waiting(t.ix, k) == front[1..] + back
      && Alike(t.ix, front[1..], head) && SameKinds(s.ix, t.ix, front[1..]) && Wants(s.ix, front[0], BList)
      && t.data == s.data[k := Items(if head then items[1..] else items[..|items| - 1])]
      && t.replies == s.replies + [Popped(front[0].client, k, if head then items[0] else items[|items| - 1])]
  {
    hide IndexInv, ServeFirst, Unblock;
    FirstServedIs(s, k);
    FrontLeaves(s.ix, k);
    UnblockKeepsInv(s.ix, front[0].client) by { assert (front + back)[0] == front[0]; }
    assert (front + back)[1..] == front[1..] + back && (front + back)[0] == front[0];
    FrontKnown(s.ix, k, front, back);
    assert Wants(s.ix, front[0], BList) && front[0] in front;
  }

  lemma OneMoreDealt(s: State, t: State, r: State, k: Key, items: seq<Elem>, head: bool, n: Node, waiters: seq<Node>)
    requires items != [] && t.replies == s.replies + [Popped(n.client, k, if head then items[0] else items[|items| - 1])]
    ensures
      var left := if head then items[1..] else items[..|items| - 1];
      forall m: nat | Dealt(t, r, k, left, head, waiters, m) ::
        Dealt(s, r, k, items, head, [n] + waiters, m + 1) && Kept(left, head, m) == Kept(items, head, m + 1)
  {
    var left := if head then items[1..] else items[..|items| - 1];
    forall m: nat | Dealt(t, r, k, left, head, waiters, m)
      ensures Dealt(s, r, k, items, head, [n] + waiters, m + 1) && Kept(left, head, m) == Kept(items, head, m + 1)
    {
      assert r.replies[..|s.replies|] == r.replies[..|t.replies|][..|s.replies|] == s.replies;
      assert r.replies[|s.replies|] == t.replies[|s.replies|];
      forall i | 0 <= i < m + 1
        ensures r.replies[|s.replies| + i] == Popped(([n] + waiters)[i].client, k, Taken(items, head, i))
      {
        if i > 0 {
          assert r.replies[|t.replies| + (i - 1)] == Popped(waiters[i - 1].client, k, Taken(left, head, i - 1));
        }
      }
    }
  }

  /** A list is served to clients that all want it from the same end, for themselves: as many
      as there are elements get one each, the next one from that end, in the order in which
      they stand; the rest of the list is left, in its order, and an empty list deleted. */
  lemma ListIsDealt(s: State, k: Key, head: bool)
    requires IndexInv(s.ix) && IsList(s, k) && Alike(s.ix, Waiting(s.ix, k), head)
    ensures
      var r, items, waiters := Serve(s, k), s.data[k].items, Takers(s.ix, Waiting(s.ix, k), BList);
      var m := if |waiters| < |items| then |waiters| else |items|;
      && |r.replies| == |s.replies| + m && r.replies[..|s.replies|] == s.replies
      && (forall i | 0 <= i < m ::
            r.replies[|s.replies| + i] == Popped(waiters[i].client, k, if head then items[i] else items[|items| - 1 - i]))
      && r.data == if m == |items| then s.data - {k}
                   else s.data[k := Items(if head then items[m..] else items[..|items| - m])]
  {
    hide ServeLoop, Takers, Alike, IndexInv;
    var nodes := Waiting(s.ix, k);
    assert nodes + [] == nodes;
    LoopDeals(s, k, nodes, [], head);
  }

  // ------------------------------------------------------------------ a sorted set

  ghost predicate SortedAlike(ix: Index, nodes: seq<Node>, head: bool) {
    forall n | n in nodes && Wants(ix, n, BZset) :: ix.clients[n.client].fromHead == head
  }

  function WithMembers(data: map<Key, Value>, k: Key, members: seq<Elem>): map<Key, Value> {
    if members == [] then data - {k} else data[k := Sorted(members)]
  }

  lemma {:induction false} SortedDeals(s: State, k: Key, front: seq<Node>, back: seq<Node>, head: bool)
    requires IndexInv(s.ix) && Waiting(s.ix, k) == front + back && SortedAlike(s.ix, front, head)
    requires s.data == WithMembers(s.data, k, MembersOf(s, k))
    ensures
      var r, items, waiters := ServeSorted(s, k, |front|), MembersOf(s, k), Takers(s.ix, front, BZset);
      var m := if |waiters| < |items| then |waiters| else |items|;
      Dealt(s, r, k, items, head, waiters, m) && r.data == WithMembers(s.data, k, Kept(items, head, m))
    decreases |front|
  {
    hide IndexInv, SortedAlike, Dealt, Takers, ServeSorted, Kept, Taken;
    if front == [] || MembersOf(s, k) == [] {
      NoneSorted(s, k, front, head);
    } else {
      FrontLeaves(s.ix, k);
      assert s.ix.blocking[k] == front + back && (front + back)[0] == front[0];
      if FrontWantsOther(s, k) { SortedPassedOver(s, k, front, back, head); }
      else { SortedDealtOne(s, k, front, back, head); }
    }
  }

  lemma NoneSorted(s: State, k: Key, front: seq<Node>, head: bool)
    requires front == [] || MembersOf(s, k) == []
    ensures ServeSorted(s, k, |front|) == s
    ensures Dealt(s, s, k, MembersOf(s, k), head, Takers(s.ix, front, BZset), 0)
    ensures Takers(s.ix, front, BZset) == [] || MembersOf(s, k) == []
    ensures Kept(MembersOf(s, k), head, 0) == MembersOf(s, k)
  {
  }

  lemma {:induction false} SortedPassedOver(s: State, k: Key, front: seq<Node>, back: seq<Node>, head: bool)
    requires IndexInv(s.ix) && Waiting(s.ix, k) == front + back && SortedAlike(s.ix, front, head)
    requires front != [] && MembersOf(s, k) != [] && FrontWantsOther(s, k)
    ensures
      var r, items, waiters := ServeSorted(s, k, |front|), MembersOf(s, k), Takers(s.ix, front, BZset);
      var m := if |waiters| < |items| then |waiters| else |items|;
      Dealt(s, r, k, items, head, waiters, m) && r.data == WithMembers(s.data, k, Kept(items, head, m))
    decreases |front|, 0
  {
    hide IndexInv, Dealt, ServeSorted, Kept, Taken;
    var t := s.(ix := Rotate(s.ix, k));
    RotateKeepsInv(s.ix, k);
    assert (front + back)[1..] + [front[0]] == front[1..] + (back + [front[0]]);
    assert s.data == s.data[k := Sorted(MembersOf(s, k))];
    SortedDeals(t, k, front[1..], back + [front[0]], head);
    SortedStep(s, k, |front|);
    FrontKnown(s.ix, k, front, back);
    SameParts(s.ix, t.ix, front[1..], BZset);
    assert [] + Takers(s.ix, front[1..], BZset) == Takers(s.ix, front[1..], BZset);
    SameDealt(s, t, ServeSorted(s, k, |front|), k, MembersOf(s, k), head, Takers(s.ix, front, BZset));
  }

  lemma {:induction false} SortedDealtOne(s: State, k: Key, front: seq<Node>, back: seq<Node>, head: bool)
    requires IndexInv(s.ix) && Waiting(s.ix, k) == front + back && SortedAlike(s.ix, front, head)
    requires front != [] && SortedServable(s, k)
    ensures
      var r, items, waiters := ServeSorted(s, k, |front|), MembersOf(s, k), Takers(s.ix, front, BZset);
      var m := if |waiters| < |items| then |waiters| else |items|;
      Dealt(s, r, k, items, head, waiters, m) && r.data == WithMembers(s.data, k, Kept(items, head, m))
    decreases |front|, 0
  {
    hide IndexInv, Dealt, ServeSorted, ServeSortedFirst, Unblock, Kept, Taken, SortedAlike;
    var items, t := MembersOf(s, k), ServeSortedFirst(s, k);
    FirstSortedDealt(s, k, front, back, head);
    SortedDeals(t, k, front[1..], back, head);
    SortedStep(s, k, |front|);
    SameParts(s.ix, t.ix, front[1..], BZset);
    OneMoreDealt(s, t, ServeSorted(s, k, |front|), k, items, head, front[0], Takers(s.ix, front[1..], BZset));
  }

  lemma FirstSortedDealt(s: State, k: Key, front: seq<Node>, back: seq<Node>, head: bool)
    requires IndexInv(s.ix) && Waiting(s.ix, k) == front + back && SortedAlike(s.ix, front, head)
    requires front != [] && SortedServable(s, k)
    ensures
      var items, t := MembersOf(s, k), ServeSortedFirst(s, k);
      var left := if head then items[1..] else items[..|items| - 1];
      && IndexInv(t.ix) && Waiting(t.ix, k) == front[1..] + back
      && SortedAlike(t.ix, front[1..], head) && SameKinds(s.ix, t.ix, front[1..]) && Wants(s.ix, front[0], BZset)
      && MembersOf(t, k) == left && t.data == WithMembers(s.data, k, left)
      && (forall more :: WithMembers(t.data, k, more) == WithMembers(s.data, k, more))
      && t.replies == s.replies + [Popped(front[0].client, k, if head then items[0] else items[|items| - 1])]
  {
    hide IndexInv, Unblock;
    FrontLeaves(s.ix, k);
    assert (front + back)[1..] == front[1..] + back && (front + back)[0] == front[0];
    UnblockKeepsInv(s.ix, front[0].client);
    FrontKnown(s.ix, k, front, back);
    assert front[0] in front;
  }

  /** The same of a sorted set, served to clients that all want its least members, or all its
      greatest. */
  lemma SortedIsDealt(s: State, k: Key, head: bool)
    requires IndexInv(s.ix) && k in s.data && s.data[k].Sorted? && s.data[k].members != []
    requires SortedAlike(s.ix, Waiting(s.ix, k), head)
    ensures
      var r, items := ServeSorted(s, k, |Waiting(s.ix, k)|), s.data[k].members;
      var waiters := Takers(s.ix, Waiting(s.ix, k), BZset);
      var m := if |waiters| < |items| then |waiters| else |items|;
      && |r.replies| == |s.replies| + m && r.replies[..|s.replies|] == s.replies
      && (forall i | 0 <= i < m ::
            r.replies[|s.replies| + i] == Popped(waiters[i].client, k, if head then items[i] else items[|items| - 1 - i]))
      && r.data == if m == |items| then s.data - {k}
                   else s.data[k := Sorted(if head then items[m..] else items[..|items| - m])]
  {
    hide ServeSorted, Takers, SortedAlike, IndexInv;
    var nodes := Waiting(s.ix, k);
    assert nodes + [] == nodes;
    assert s.data == s.data[k := Sorted(s.data[k].members)];
    SortedDeals(s, k, nodes, [], head);
  }

  // ---------------------------------------------------------------------- a stream

  /** Serving a stream: those that wait for a stream and have entries to read are not blocked
      any more, nor in any list; all others are as before, in the same nodes. */
  lemma StreamIsServed(s: State, k: Key, due: set<ClientId>)
    requires IndexInv(s.ix)
    ensures
      var r := ServeStream(s.ix, Waiting(s.ix, k), due);
      && IndexInv(r) && r.clients.Keys == s.ix.clients.Keys
      && (forall c | c in s.ix.clients ::
            if c in due && s.ix.clients[c].btype.BStream? && k in s.ix.clients[c].keys
            then r.clients[c].btype.BNone? else r.clients[c] == s.ix.clients[c])
      && forall j, n :: Listed(r, j, n) <==>
           && Listed(s.ix, j, n)
           && !(n.client in due && s.ix.clients[n.client].btype.BStream? && k in s.ix.clients[n.client].keys)
  {
    hide IndexInv, ServeStream, Listed;
    var nodes := Waiting(s.ix, k);
    assert NodesInv(s.ix) by { NodesPart(s.ix); }
    StreamWalk(s.ix, nodes, due);
    forall c | c in s.ix.clients
      ensures k in s.ix.clients[c].keys <==> exists n :: n in nodes && n.client == c
    {
      HasNode(s.ix, k, c);
    }
    forall j, n | Listed(s.ix, j, n) ensures n.client in s.ix.clients { Known(s.ix, j, n); }
  }

  lemma HasNode(ix: Index, k: Key, c: ClientId)
    requires NodesInv(ix) && c in ix.clients
    ensures k in ix.clients[c].keys <==> exists n :: n in Waiting(ix, k) && n.client == c
  {
    if k in ix.clients[c].keys {
      assert Holds(ix, c, k, ix.clients[c].keys[k]);
      assert Listed(ix, k, Node(ix.clients[c].keys[k], c));
    }
    if n :| n in Waiting(ix, k) && n.client == c {
      assert Listed(ix, k, Node(n.id, n.client));
      assert Holds(ix, c, k, n.id);
    }
  }

  ghost predicate Due(ix: Index, nodes: seq<Node>, due: set<ClientId>, c: ClientId) {
    c in due && c in ix.clients && ix.clients[c].btype.BStream? && exists n :: n in nodes && n.client == c
  }

  lemma {:induction false} StreamWalk(ix: Index, nodes: seq<Node>, due: set<ClientId>)
    requires IndexInv(ix)
    ensures
      var r := ServeStream(ix, nodes, due);
      && IndexInv(r) && r.clients.Keys == ix.clients.Keys
      && (forall c | c in ix.clients ::
            if Due(ix, nodes, due, c) then r.clients[c].btype.BNone? else r.clients[c] == ix.clients[c])
      && forall j, n :: Listed(r, j, n) <==> Listed(ix, j, n) && !Due(ix, nodes, due, n.client)
    decreases |nodes|
  {
    hide IndexInv, Unblock, Listed;
    if nodes != [] {
      var c := nodes[0].client;
      if ReadsStream(ix, c, due) {
        var t := Unblock(ix, c);
        UnblockKeepsInv(ix, c);
        assert NodesInv(ix) by { NodesPart(ix); }
        ListedAfter(ix, c, t);
        StreamWalk(t, nodes[1..], due);
      } else {
        StreamWalk(ix, nodes[1..], due);
      }
      assert nodes == [nodes[0]] + nodes[1..];
    }
  }

  // --------------------------------------------------------------------- one key

  /** Handling a key that became ready serves what is there: a list, a sorted set or a stream as
      above; with anything else there, or nothing, only the key is not queued any more. */
  lemma KeyIsServed(s: State, k: Key)
    requires IndexInv(s.ix)
    ensures
      var r, t := HandleKey(s, k), s.(readySet := s.readySet - {k});
      if k !in s.data || s.data[k].Other? then r == t
      else
        match s.data[k]
        case Items(_) => r == Serve(t, k)
        case Sorted(_) => r == ServeSorted(t, k, |Waiting(s.ix, k)|)
        case Stream(due) =>
          && r == t.(ix := r.ix) && IndexInv(r.ix) && r.ix.clients.Keys == s.ix.clients.Keys
          && forall c | c in s.ix.clients ::
               if c in due && s.ix.clients[c].btype.BStream? && k in s.ix.clients[c].keys
               then r.ix.clients[c].btype.BNone? else r.ix.clients[c] == s.ix.clients[c]
  {
    hide IndexInv, Serve, ServeSorted, ServeStream;
    if k in s.data && s.data[k].Stream? { StreamIsServed(s, k, s.data[k].due); }
  }
}
