/** The doubly linked list of chunks, linked and unlinked in place. */
module ChunkList {

  /** Chunk sizes live in a 28-bit field. */
  const SIZE_LIMIT: nat := 0x1000_0000

  function Trunc(n: nat): nat { n % SIZE_LIMIT }

  class Chunk {
    var start: nat
    var size: nat
    var free: bool
    var prev: Chunk?
    var next: Chunk?

    constructor (start: nat, size: nat)
      ensures this.start == start && this.size == Trunc(size) && free && prev == null && next == null
    {
      this.start, this.size, this.free, this.prev, this.next := start, Trunc(size), true, null, null;
    }
  }

  class LinkedList {
    var first: Chunk?
    var last: Chunk?
    ghost var nodes: seq<Chunk>
    ghost var repr: set<Chunk>

    /** The links spell out exactly `nodes`, forwards and backwards. */
    ghost predicate Valid()
      reads this, repr
    {
      && (forall i :: 0 <= i < |nodes| ==> nodes[i] in repr)
      && (forall i, j :: 0 <= i < j < |nodes| ==> nodes[i] != nodes[j])
      && (nodes == [] ==> first == null && last == null)
      && (nodes != [] ==> first == nodes[0] && last == nodes[|nodes| - 1] && first.prev == null && last.next == null)
      && (forall i {:trigger nodes[i].prev} :: 1 <= i < |nodes| ==> nodes[i].prev == nodes[i - 1])
      && (forall i {:trigger nodes[i].next} :: 0 <= i < |nodes| - 1 ==> nodes[i].next == nodes[i + 1])
    }

    constructor ()
      ensures Valid() && nodes == [] && repr == {}
    {
      first, last, nodes, repr := null, null, [], {};
    }

    method InsertAfter(node: Chunk, newNode: Chunk, ghost k: nat)
      requires Valid() && k < |nodes| && nodes[k] == node && newNode !in repr
      modifies this, repr`next, repr`prev, newNode`next, newNode`prev
      ensures Valid() && nodes == old(nodes[..k + 1] + [newNode] + nodes[k + 1..]) && repr == old(repr) + {newNode}
    {
      assert nodes[k].next == null <==> k == |nodes| - 1;
      newNode.prev := node;
      newNode.next := node.next;
      if node.next == null {
        last := newNode;
      } else {
        node.next.prev := newNode;
      }
      node.next := newNode;
      nodes := nodes[..k + 1] + [newNode] + nodes[k + 1..];
      repr := repr + {newNode};
    }

    method InsertBefore(node: Chunk, newNode: Chunk, ghost k: nat)
      requires Valid() && k < |nodes| && nodes[k] == node && newNode !in repr
      modifies this, repr`next, repr`prev, newNode`next, newNode`prev
      ensures Valid() && nodes == old(nodes[..k] + [newNode] + nodes[k..]) && repr == old(repr) + {newNode}
    {
      assert nodes[k].prev == null <==> k == 0;
      newNode.prev := node.prev;
      newNode.next := node;
      if node.prev == null {
        first := newNode;
      } else {
        node.prev.next := newNode;
      }
      node.prev := newNode;
      nodes := nodes[..k] + [newNode] + nodes[k..];
      repr := repr + {newNode};
    }

    method InsertHead(newNode: Chunk)
      requires Valid() && newNode !in repr
      modifies this, repr`next, repr`prev, newNode`next, newNode`prev
      ensures Valid() && nodes == [newNode] + old(nodes) && repr == old(repr) + {newNode}
    {
      if first == null {
        first, last := newNode, newNode;
        newNode.prev, newNode.next := null, null;
      } else {
        newNode.prev := null;
        newNode.next := first;
        first.prev := newNode;
        first := newNode;
      }
      nodes := [newNode] + nodes;
      repr := repr + {newNode};
    }

    method Remove(node: Chunk, ghost k: nat)
      requires Valid() && k < |nodes| && nodes[k] == node
      modifies this, repr`next, repr`prev
      ensures Valid() && nodes == old(nodes[..k] + nodes[k + 1..]) && repr == old(repr)
    {
      assert nodes[k].prev == null <==> k == 0;
      assert nodes[k].next == null <==> k == |nodes| - 1;
      if node.prev == null {
        first := node.next;
      } else {
        node.prev.next := node.next;
      }
      if node.next == null {
        last := node.prev;
      } else {
        node.next.prev := node.prev;
      }
      nodes := nodes[..k] + nodes[k + 1..];
    }
  }
}
