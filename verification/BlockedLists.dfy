/** One list of clients waiting for a key, on the heap. A client keeps a pointer to its node
    and is taken out by it; that does to the clients in the list what the model does by
    their identities, and leaves all other nodes the very objects they were. */
module BlockedLists {
  import opened Wrappers
  import opened BlockedModel
  import opened Adlist

  // Node k of a list without repetitions is the one that is dropped.
  lemma {:induction false} DropAt(values: seq<Node>, k: nat)
    requires NoDup(values) && k < |values|
    ensures Drop(values, values[k]) == values[..k] + values[k + 1..]
  {
    if k > 0 {
      assert values[0] != values[k];
      assert values[1..][k - 1] == values[k];
      DropAt(values[1..], k - 1);
      assert values[1..][..k - 1] == values[1..k];
      assert [values[0]] + values[1..k] == values[..k];
    }
  }

  lemma ValuesAre(nodes: seq<ListNode<Node>>, values: seq<Node>)
    requires |values| == |nodes| && forall i | 0 <= i < |nodes| :: values[i] == nodes[i].value
    ensures ValuesOf(nodes) == values
  {
  }

  lemma OthersIn<T>(s: seq<T>, k: nat)
    requires NoDup(s) && k < |s|
    ensures forall m :: m in s[..k] + s[k + 1..] <==> m in s && m != s[k]
  {
    forall m
      ensures m in s[..k] + s[k + 1..] <==> m in s && m != s[k]
    {
      if m in s && m != s[k] {
        var i :| 0 <= i < |s| && s[i] == m;
        assert (s[..k] + s[k + 1..])[if i < k then i else i - 1] == m;
      }
    }
  }

  /** A client is added at the end; what it keeps is the node it is in. */
  method AddClient(l: List<Node>, n: Node) returns (node: ListNode<Node>)
    requires l.Valid()
    modifies l, l.nodes
    ensures l.Valid() && l.nodes == old(l.nodes) + [node] && fresh(node) && node.value == n
    ensures l.Values() == old(l.Values()) + [n]
  {
    ghost var was := l.Values();
    l.AddNodeTail(n);
    node := l.tail;
    ValuesAre(l.nodes, was + [n]);
  }

  /** The node a client kept is deleted: this client leaves, the others stay in their nodes. */
  method RemoveClient(l: List<Node>, node: ListNode<Node>)
    requires l.Valid() && node in l.nodes && NoDup(l.Values())
    modifies l, l.nodes
    ensures l.Valid() && l.Values() == Drop(old(l.Values()), old(node.value))
    ensures forall m :: m in l.nodes <==> m in old(l.nodes) && m != node
    ensures forall m | m in l.nodes :: m.value == old(m.value)
  {
    hide Drop, Linked, NoDup, ValuesOf;
    ghost var was, values := l.nodes, l.Values();
    ghost var k :| 0 <= k < |was| && was[k] == node;
    l.DelNode(node, k);
    ValuesAre(l.nodes, values[..k] + values[k + 1..]);
    DropAt(values, k);
    OthersIn(was, k);
  }

  /** The first client becomes the last one, in the node it keeps. */
  method RotateFirst(l: List<Node>)
    requires l.Valid() && l.nodes != []
    modifies l, l.nodes
    ensures l.Valid() && l.Values() == old(l.Values())[1..] + [old(l.Values())[0]]
    ensures forall m :: m in l.nodes <==> m in old(l.nodes)
    ensures forall m | m in l.nodes :: m.value == old(m.value)
  {
    ghost var was, values := l.nodes, l.Values();
    l.RotateHeadToTail();
    ValuesAre(l.nodes, values[1..] + [values[0]]);
    assert was == [was[0]] + was[1..];
  }
}
