/**
 Doubly linked lists (adns/dlist.h), as the queues of queries are made of. Module `AdnsQueues` uses the
 sequences that they are shown to be.
 */
module LinkedQueue {
  class Node {
    var next: Node?
    var back: Node?
    const id: nat

    constructor (id: nat)
      ensures this.id == id && next == null && back == null
    {
      this.id, next, back := id, null, null;
    }
  }

  function At(nodes: seq<Node>, i: int): Node? {
    if 0 <= i < |nodes| then nodes[i] else null
  }

  class Queue {
    var head: Node?
    var tail: Node?
    ghost var nodes: seq<Node>

    /** Each node is linked with the one before it and the one behind it. */
    ghost predicate Linked(i: nat)
      requires i < |nodes|
      reads this, nodes
    {
      nodes[i].next == At(nodes, i + 1) && nodes[i].back == At(nodes, i - 1)
    }

    ghost predicate Valid()
      reads this, nodes
    {
      && head == At(nodes, 0) && tail == At(nodes, |nodes| - 1)
      && (forall i: nat {:trigger Linked(i)} :: i < |nodes| ==> Linked(i))
      && (forall i, j :: 0 <= i < j < |nodes| ==> nodes[i] != nodes[j])
    }

    /** `LIST_INIT` */
    constructor ()
      ensures Valid() && nodes == []
    {
      head, tail, nodes := null, null, [];
    }

    /** `LIST_LINK_TAIL` */
    method LinkTail(node: Node)
      requires Valid() && node !in nodes
      modifies this, node, tail
      ensures Valid() && nodes == old(nodes) + [node]
    {
      node.next := null;
      node.back := tail;
      if tail != null {
        tail.next := node;
      } else {
        head := node;
      }
      tail := node;
      nodes := nodes + [node];
      forall i: nat | i < |nodes|
        ensures Linked(i)
      {
        if i < |nodes| - 1 {
          assert old(Linked(i));
        }
      }
    }

    /** `LIST_UNLINK`, for the node at place `k`. Its own links stay as they were. */
    method Unlink(node: Node, ghost k: nat)
      requires Valid() && k < |nodes| && nodes[k] == node
      modifies this, node.next, node.back
      ensures Valid() && nodes == old(nodes[..k] + nodes[k + 1..])
      ensures node.next == old(node.next) && node.back == old(node.back) && node !in nodes
    {
      assert Linked(k);
      if k > 0 {
        assert Linked(k - 1);
      }
      if k + 1 < |nodes| {
        assert Linked(k + 1);
      }
      if node.back != null {
        node.back.next := node.next;
      } else {
        head := node.next;
      }
      if node.next != null {
        node.next.back := node.back;
      } else {
        tail := node.back;
      }
      ghost var was := nodes;
      nodes := nodes[..k] + nodes[k + 1..];
      forall i: nat | i < |nodes|
        ensures Linked(i)
      {
        var j: nat := if i < k then i else i + 1;
        assert nodes[i] == was[j];
        assert old(Linked(j));
      }
    }

    /** The loop over a list: it meets each node once, in order, and links and their opposites agree
        (`DLIST_CHECK`, adns/check.c). */
    method Visit() returns (ids: seq<nat>)
      requires Valid()
      ensures |ids| == |nodes| && forall i :: 0 <= i < |nodes| ==> ids[i] == nodes[i].id
    {
      ids := [];
      var node, nodeback := head, null;
      ghost var i := 0;
      while node != null
        invariant 0 <= i <= |nodes| && node == At(nodes, i) && nodeback == At(nodes, i - 1)
        invariant |ids| == i && forall j :: 0 <= j < i ==> ids[j] == nodes[j].id
        decreases |nodes| - i
      {
        assert Linked(i);
        assert node.back == nodeback;
        ids := ids + [node.id];
        nodeback := node;
        node := node.next;
        i := i + 1;
      }
      assert tail == nodeback;
    }
  }

  /** A node that is unlinked and linked again is the last one. */
  method MoveToTail(q: Queue, node: Node, ghost k: nat)
    requires q.Valid() && k < |q.nodes| && q.nodes[k] == node
    modifies q, q.nodes
    ensures q.Valid() && q.nodes == old(q.nodes[..k] + q.nodes[k + 1..] + [node])
  {
    assert q.Linked(k);
    q.Unlink(node, k);
    assert q.tail == null || q.tail in q.nodes;
    q.LinkTail(node);
  }
}
