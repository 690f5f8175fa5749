/** The doubly linked list under the queues of the server. nodes is the list as a
    sequence of node objects: operations move and keep the very nodes, so that a pointer
    to a node stays good until that node is deleted. */
module Adlist {
  import opened Wrappers

  class ListNode<T> {
    var prev: ListNode?<T>
    var next: ListNode?<T>
    var value: T

    constructor (value: T)
      ensures this.value == value && prev == null && next == null
    {
      this.value, prev, next := value, null, null;
    }
  }

  // The i-th node, or nothing outside the list.
  ghost function At<T>(nodes: seq<ListNode<T>>, i: int): ListNode?<T> {
    if 0 <= i < |nodes| then nodes[i] else null
  }

  ghost predicate LinkedAt<T>(nodes: seq<ListNode<T>>, i: nat)
    requires i < |nodes|
    reads nodes[i]
  {
    nodes[i].prev == At(nodes, i - 1) && nodes[i].next == At(nodes, i + 1)
  }

  // Neighbours in the sequence point to each other, and the ends to nothing.
  ghost predicate Linked<T>(nodes: seq<ListNode<T>>)
    reads nodes
  {
    forall i: nat | i < |nodes| :: LinkedAt(nodes, i)
  }

  ghost function ValuesOf<T>(nodes: seq<ListNode<T>>): (r: seq<T>)
    reads nodes
    ensures |r| == |nodes| && forall i | 0 <= i < |nodes| :: r[i] == nodes[i].value
  {
    if nodes == [] then [] else [nodes[0].value] + ValuesOf(nodes[1..])
  }

  lemma NoDupJoined<T>(a: seq<T>, b: seq<T>)
    requires NoDup(a) && NoDup(b) && forall i, j | 0 <= i < |a| && 0 <= j < |b| :: a[i] != b[j]
    ensures NoDup(a + b)
  {
  }

  lemma NothingLinked<T>()
    ensures Linked<T>([]) && NoDup<ListNode<T>>([]) && At<T>([], 0) == null && At<T>([], -1) == null
  {
  }

  class List<T> {
    var head: ListNode?<T>
    var tail: ListNode?<T>
    var len: nat
    ghost var nodes: seq<ListNode<T>>

    ghost predicate Valid()
      reads this, nodes
    {
      && len == |nodes| && NoDup(nodes) && Linked(nodes)
      && head == At(nodes, 0) && tail == At(nodes, |nodes| - 1)
    }

    ghost function Values(): seq<T>
      reads this, nodes
    {
      ValuesOf(nodes)
    }

    constructor ()
      ensures Valid() && nodes == []
    {
      head, tail, len, nodes := null, null, 0, [];
    }

    method Empty()
      requires Valid()
      modifies this
      ensures Valid() && nodes == []
    {
      var current := head;
      var n := len;
      while n > 0
        invariant n <= |nodes| && current == At(nodes, |nodes| - n)
      {
        assert LinkedAt(nodes, |nodes| - n);
        current := current.next;
        n := n - 1;
      }
      head, tail, len, nodes := null, null, 0, [];
    }

    method AddNodeHead(value: T)
      requires Valid()
      modifies this, nodes
      ensures Valid() && nodes != [] && fresh(nodes[0]) && nodes == [nodes[0]] + old(nodes) && nodes[0].value == value
      ensures forall n | n in old(nodes) :: n.value == old(n.value)
    {
      var node := new ListNode(value);
      ghost var was := nodes;
      if len == 0 {
        head, tail := node, node;
      } else {
        assert LinkedAt(nodes, 0);
        node.next := head;
        head.prev := node;
        head := node;
      }
      len := len + 1;
      nodes := [node] + nodes;
      forall i: nat | i < |nodes| ensures LinkedAt(nodes, i) { if i > 0 { assert nodes[i] == was[i - 1] && old(LinkedAt(was, i - 1)); } }
    }

    method AddNodeTail(value: T)
      requires Valid()
      modifies this, nodes
      ensures Valid() && nodes != [] && nodes == old(nodes) + [nodes[|nodes| - 1]]
      ensures fresh(nodes[|nodes| - 1]) && nodes[|nodes| - 1].value == value
      ensures forall n | n in old(nodes) :: n.value == old(n.value)
    {
      var node := new ListNode(value);
      ghost var was := nodes;
      if len == 0 {
        head, tail := node, node;
      } else {
        assert LinkedAt(nodes, |nodes| - 1);
        node.prev := tail;
        tail.next := node;
        tail := node;
      }
      len := len + 1;
      nodes := nodes + [node];
      forall i: nat | i < |nodes| ensures LinkedAt(nodes, i) { if i < |was| { assert nodes[i] == was[i] && old(LinkedAt(was, i)); } }
    }

    /** Adds a value before or after the k-th node. */
    method InsertNode(node0: ListNode<T>, value: T, after: bool, ghost k: nat)
      requires Valid() && k < |nodes| && nodes[k] == node0
      modifies this, nodes
      ensures Valid()
      ensures
        var at := if after then k + 1 else k;
        && |nodes| == |old(nodes)| + 1 && nodes == old(nodes)[..at] + [nodes[at]] + old(nodes)[at..]
        && fresh(nodes[at]) && nodes[at].value == value
      ensures forall n | n in old(nodes) :: n.value == old(n.value)
    {
      var node := new ListNode(value);
      ghost var at := if after then k + 1 else k;
      assert LinkedAt(nodes, k);
      assert forall i | 0 <= i < |nodes| && i != k :: nodes[i] != nodes[k];
      if after {
        node.prev := node0;
        node.next := node0.next;
        if tail == node0 { tail := node; }
      } else {
        node.next := node0;
        node.prev := node0.prev;
        if head == node0 { head := node; }
      }
      LinkIn(node, at);
    }

    // The neighbours of a new node, which points to them, are made to point to it.
    method LinkIn(node: ListNode<T>, ghost at: nat)
      requires at <= |nodes| && len == |nodes| && NoDup(nodes) && Linked(nodes) && node !in nodes
      requires node.prev == At(nodes, at - 1) && node.next == At(nodes, at)
      requires head == (if at == 0 then node else At(nodes, 0))
      requires tail == (if at == |nodes| then node else At(nodes, |nodes| - 1))
      modifies this`len, this`nodes, nodes
      ensures Valid() && nodes == old(nodes)[..at] + [node] + old(nodes)[at..]
      ensures forall n | n in old(nodes) :: n.value == old(n.value)
    {
      ghost var was := nodes;
      assert (at > 0 ==> LinkedAt(was, at - 1)) && (at < |was| ==> LinkedAt(was, at));
      if node.prev != null { node.prev.next := node; }
      if node.next != null { node.next.prev := node; }
      len := len + 1;
      nodes := nodes[..at] + [node] + nodes[at..];
      forall i: nat | i < |nodes| ensures LinkedAt(nodes, i) {
        if i < at { assert nodes[i] == was[i] && old(LinkedAt(was, i)); }
        else if i > at { assert nodes[i] == was[i - 1] && old(LinkedAt(was, i - 1)); }
      }
    }

    /** Takes the k-th node out; the others stay the same nodes. */
    method DelNode(node: ListNode<T>, ghost k: nat)
      requires Valid() && k < |nodes| && nodes[k] == node
      modifies this, nodes
      ensures Valid() && nodes == old(nodes)[..k] + old(nodes)[k + 1..]
      ensures forall n | n in old(nodes) :: n.value == old(n.value)
    {
      ghost var was := nodes;
      assert LinkedAt(was, k) && (k > 0 ==> LinkedAt(was, k - 1)) && (k + 1 < |was| ==> LinkedAt(was, k + 1));
      if node.prev != null { node.prev.next := node.next; } else { head := node.next; }
      if node.next != null { node.next.prev := node.prev; } else { tail := node.prev; }
      len := len - 1;
      nodes := nodes[..k] + nodes[k + 1..];
      forall i: nat | i < |nodes| ensures LinkedAt(nodes, i) {
        if i < k { assert nodes[i] == was[i] && old(LinkedAt(was, i)); }
        else { assert nodes[i] == was[i + 1] && old(LinkedAt(was, i + 1)); }
      }
    }

    /** The first node with a matching value. */
    method SearchKey(matches: T -> bool) returns (found: ListNode?<T>)
      requires Valid()
      ensures found == null <==> forall v | v in Values() :: !matches(v)
      ensures found != null ==>
        exists k :: 0 <= k < |nodes| && nodes[k] == found && matches(nodes[k].value)
          && forall i | 0 <= i < k :: !matches(nodes[i].value)
    {
      var node := head;
      ghost var i := 0;
      while node != null
        invariant 0 <= i <= |nodes|
        invariant node == At(nodes, i)
        invariant forall j | 0 <= j < i :: !matches(nodes[j].value)
        decreases |nodes| - i
      {
        if matches(node.value) {
          assert Values()[i] == nodes[i].value;
          return node;
        }
        assert LinkedAt(nodes, i);
        node := node.next;
        i := i + 1;
      }
      return null;
    }

    /** The node at an index; negative ones count from the end, -1 being the last. */
    method Index(index: int) returns (n: ListNode?<T>)
      requires Valid()
      ensures
        var at := if index < 0 then |nodes| + index else index;
        n == At(nodes, at)
    {
      var i := if index < 0 then -index - 1 else index;
      var fromTail := index < 0;
      n := if fromTail then tail else head;
      ghost var steps := 0;
      while i > 0 && n != null
        invariant 0 <= i && 0 <= steps <= |nodes|
        invariant i + steps == if index < 0 then -index - 1 else index
        invariant n == At(nodes, if fromTail then |nodes| - 1 - steps else steps)
        decreases i
      {
        assert LinkedAt(nodes, if fromTail then |nodes| - 1 - steps else steps);
        n := if fromTail then n.prev else n.next;
        i := i - 1;
        steps := steps + 1;
      }
    }

    method RotateTailToHead()
      requires Valid()
      modifies this, nodes
      ensures Valid()
      ensures nodes == if |old(nodes)| <= 1 then old(nodes)
        else [old(nodes)[|old(nodes)| - 1]] + old(nodes)[..|old(nodes)| - 1]
      ensures forall n | n in old(nodes) :: n.value == old(n.value)
    {
      if len <= 1 { return; }
      ghost var was, n := nodes, |nodes|;
      assert LinkedAt(was, n - 1) && LinkedAt(was, n - 2) && LinkedAt(was, 0);
      var last := tail;
      tail := last.prev;
      tail.next := null;
      head.prev := last;
      last.prev := null;
      last.next := head;
      head := last;
      nodes := [nodes[|nodes| - 1]] + nodes[..|nodes| - 1];
      forall i: nat | i < |nodes| ensures LinkedAt(nodes, i) {
        if i > 0 { assert nodes[i] == was[i - 1] && old(LinkedAt(was, i - 1)); }
      }
    }

    /** The first node becomes the last one, and stays the same node. */
    method RotateHeadToTail()
      requires Valid()
      modifies this, nodes
      ensures Valid()
      ensures nodes == if |old(nodes)| <= 1 then old(nodes) else old(nodes)[1..] + [old(nodes)[0]]
      ensures forall n | n in old(nodes) :: n.value == old(n.value)
    {
      if len <= 1 { return; }
      ghost var was, n := nodes, |nodes|;
      assert LinkedAt(was, 0) && LinkedAt(was, 1) && LinkedAt(was, n - 1);
      var first := head;
      head := first.next;
      head.prev := null;
      tail.next := first;
      first.next := null;
      first.prev := tail;
      tail := first;
      nodes := nodes[1..] + [nodes[0]];
      forall i: nat | i < |nodes| ensures LinkedAt(nodes, i) {
        if i < n - 1 { assert nodes[i] == was[i + 1] && old(LinkedAt(was, i + 1)); }
      }
    }

    /** All nodes of the other list move to the end of this one. */
    method Join(o: List<T>)
      requires Valid() && o.Valid() && o != this
      requires forall i, j | 0 <= i < |nodes| && 0 <= j < |o.nodes| :: nodes[i] != o.nodes[j]
      modifies this, o, nodes, o.nodes
      ensures Valid() && o.Valid() && o.nodes == [] && nodes == old(nodes) + old(o.nodes)
      ensures forall n | n in old(nodes) + old(o.nodes) :: n.value == old(n.value)
    {
      hide Linked, NoDup, At;
      NoDupJoined(nodes, o.nodes);
      EndsJoined(nodes, o.nodes);
      LinkEnds(o);
      if tail == null { head := o.head; }
      if o.tail != null { tail := o.tail; }
      len := len + o.len;
      nodes := nodes + o.nodes;
      o.head, o.tail, o.len, o.nodes := null, null, 0, [];
      NothingLinked<T>();
    }

    lemma EndsJoined(a: seq<ListNode<T>>, b: seq<ListNode<T>>)
      ensures At(a + b, 0) == if a == [] then At(b, 0) else At(a, 0)
      ensures At(a + b, |a + b| - 1) == if b == [] then At(a, |a| - 1) else At(b, |b| - 1)
      ensures (At(a, |a| - 1) == null <==> a == []) && (At(b, |b| - 1) == null <==> b == [])
    {
    }

    // The last node here and the first one there point to each other.
    method LinkEnds(o: List<T>)
      requires Valid() && o.Valid() && NoDup(nodes + o.nodes)
      modifies nodes`next, o.nodes`prev
      ensures Linked(nodes + o.nodes)
    {
      ghost var was, more := nodes, o.nodes;
      ghost var both := was + more;
      assert forall i | 0 <= i < |was| :: both[i] == was[i];
      assert forall j | 0 <= j < |more| :: both[|was| + j] == more[j];
      assert (was != [] ==> LinkedAt(was, |was| - 1)) && (more != [] ==> LinkedAt(more, 0));
      if o.head != null { o.head.prev := tail; }
      if tail != null { tail.next := o.head; }
      forall i: nat | i < |both| ensures LinkedAt(both, i) {
        if i < |was| { assert old(LinkedAt(was, i)); } else { assert old(LinkedAt(more, i - |was|)); }
      }
    }

    lemma NodeAt(i: nat)
      requires Valid() && i < |nodes|
      ensures nodes[i].next == At(nodes, i + 1)
    {
      assert LinkedAt(nodes, i);
    }

    /** A new list of new nodes with the same values. */
    method Dup() returns (copy: List<T>)
      requires Valid()
      ensures copy.Valid() && fresh(copy) && fresh(set n | n in copy.nodes) && copy.Values() == Values()
      ensures Valid()
    {
      hide Linked, NoDup;
      copy := new List<T>();
      var node := head;
      ghost var i := 0;
      while node != null
        invariant copy.Valid() && fresh(copy) && fresh(set n | n in copy.nodes)
        invariant Valid() && 0 <= i <= |nodes| && i == |copy.nodes|
        invariant node == At(nodes, i)
        invariant forall j | 0 <= j < i :: copy.nodes[j].value == nodes[j].value
        decreases |nodes| - i
      {
        NodeAt(i);
        copy.AddNodeTail(node.value);
        node := node.next;
        i := i + 1;
      }
    }
  }
}
