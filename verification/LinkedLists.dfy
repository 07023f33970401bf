/** The linked list the program uses for its queues, for memory and for the index of holes. */
module LinkedLists {
  import opened Jobs
  import opened Sequences

  class Node<T> {
    var data: T
    var next: Node?<T>
    var prev: Node?<T>

    /** The list this node was made for; so no node is in two lists. */
    ghost const owner: List<T>

    constructor (data: T, next: Node?<T>, prev: Node?<T>, ghost owner: List<T>)
      ensures this.data == data && this.next == next && this.prev == prev && this.owner == owner
    {
      this.owner := owner;
      this.data := data;
      this.next := next;
      this.prev := prev;
    }
  }

  class List<T> {
    var head: Node?<T>
    var tail: Node?<T>
    var numItems: int

    /** The nodes from head to tail, and what they hold. */
    ghost var nodes: seq<Node<T>>
    ghost var contents: seq<T>

    /** Following `next` from the head visits exactly `nodes`.  Nothing is said about `prev`: taking the head off
        leaves a stale one behind. */
    ghost predicate Chain()
      reads this, nodes
    {
      && numItems == |nodes| == |contents|
      && Distinct(nodes)
      && head == (if nodes == [] then null else nodes[0])
      && tail == (if nodes == [] then null else nodes[|nodes| - 1])
      && (forall i {:trigger nodes[i].next} :: 0 <= i < |nodes| ==>
            nodes[i].next == if i + 1 < |nodes| then nodes[i + 1] else null)
      && (forall i :: 0 <= i < |nodes| ==> nodes[i].owner == this)
      && (forall i {:trigger nodes[i].data} {:trigger contents[i]} :: 0 <= i < |nodes| ==> nodes[i].data == contents[i])
    }

    /** The backward links agree with the forward ones. */
    ghost predicate Linked()
      reads this, nodes
    {
      && Chain()
      && (forall i {:trigger nodes[i].prev} :: 0 <= i < |nodes| ==>
            nodes[i].prev == if i > 0 then nodes[i - 1] else null)
    }

    constructor ()
      ensures Linked() && nodes == [] && contents == []
    {
      head, tail, numItems := null, null, 0;
      nodes, contents := [], [];
    }

    method Enqueue(data: T)
      requires Chain()
      modifies this, nodes
      ensures Chain() && contents == old(contents) + [data]
      ensures |nodes| == |old(nodes)| + 1 && old(nodes) == nodes[..|old(nodes)|] && fresh(nodes[|old(nodes)|])
      ensures old(Linked()) ==> Linked()
    {
      var node := new Node(data, null, tail, this);
      if head == null {
        head := node;
      } else {
        tail.next := node;
      }
      tail := node;
      numItems := numItems + 1;
      nodes, contents := nodes + [node], contents + [data];
    }

    /** Take the first element off.  The new head keeps its pointer to the removed node, so the list is no longer
        doubly linked unless it is empty. */
    method Dequeue() returns (data: Option<T>)
      requires Chain()
      modifies this
      ensures Chain()
      ensures old(contents) == [] ==> data == None && contents == [] && nodes == []
      ensures old(contents) != [] ==>
        data == Some(old(contents)[0]) && contents == old(contents)[1..] && nodes == old(nodes)[1..]
      ensures forall i :: 0 <= i < |nodes| ==> nodes[i] in old(nodes)
      ensures old(Linked()) ==> (Linked() <==> |old(nodes)| <= 1)
    {
      if head == null {
        return None;
      }
      assert nodes[0].data == contents[0];
      assert nodes[0].next == head.next;
      data := Some(head.data);
      head := head.next;
      if head == null {
        tail := null;
      }
      numItems := numItems - 1;
      nodes, contents := nodes[1..], contents[1..];
      assert old(Linked()) && nodes != [] ==> nodes[0].prev == old(nodes)[0];
    }

    /** Unlink a node; its own pointers still lead to its former neighbours. */
    method DeleteNode(node: Node?<T>, ghost k: nat)
      requires Linked()
      requires node != null ==> k < |nodes| && nodes[k] == node
      modifies this, nodes
      ensures Linked()
      ensures node == null ==> nodes == old(nodes) && contents == old(contents)
      ensures node != null ==> nodes == RemoveAt(old(nodes), k) && contents == RemoveAt(old(contents), k)
      ensures node != null ==> node.next == old(node.next) && node.prev == old(node.prev) && node.data == old(node.data)
    {
      if head == null || tail == null || node == null {
        return;
      }
      DistinctRemove(nodes, k);
      assert node.next == if k + 1 < |nodes| then nodes[k + 1] else null;
      assert node.prev == if k > 0 then nodes[k - 1] else null;
      if head == node {
        head := node.next;
      }
      if tail == node {
        tail := node.prev;
      }
      if node.next != null {
        node.next.prev := node.prev;
      }
      if node.prev != null {
        node.prev.next := node.next;
      }
      numItems := numItems - 1;
      nodes, contents := RemoveAt(nodes, k), RemoveAt(contents, k);
    }

    /** Put a new node between two neighbours. */
    method InsertNode(data: T, prev: Node?<T>, next: Node?<T>, ghost k: nat) returns (node: Node<T>)
      requires Linked() && k <= |nodes|
      requires prev == if k > 0 then nodes[k - 1] else null
      requires next == if k < |nodes| then nodes[k] else null
      modifies this, nodes
      ensures Linked() && fresh(node)
      ensures nodes == InsertAt(old(nodes), k, node) && contents == InsertAt(old(contents), k, data)
    {
      node := new Node(data, next, prev, this);
      DistinctInsert(nodes, k, node);
      if prev != null {
        prev.next := node;
      } else {
        head := node;
      }
      if next != null {
        next.prev := node;
      } else {
        tail := node;
      }
      numItems := numItems + 1;
      nodes, contents := InsertAt(nodes, k, node), InsertAt(contents, k, data);
      forall i | 0 <= i < |nodes|
        ensures nodes[i].next == if i + 1 < |nodes| then nodes[i + 1] else null
        ensures nodes[i].prev == if i > 0 then nodes[i - 1] else null
        ensures nodes[i].owner == this && nodes[i].data == contents[i]
      {
        if i < k { assert nodes[i] == old(nodes)[i]; }
        else if i > k { assert nodes[i] == old(nodes)[i - 1]; }
      }
    }

    /** The linking half of the sorted insertion, which tells the empty list and the two ends apart. */
    method LinkSorted(data: T, prev: Node?<T>, curr: Node?<T>, ghost k: nat)
      requires Linked() && k <= |nodes|
      requires prev == if k > 0 then nodes[k - 1] else null
      requires curr == if k < |nodes| then nodes[k] else null
      modifies this, nodes
      ensures Linked()
      ensures |nodes| == |old(nodes)| + 1 && fresh(nodes[k])
      ensures nodes == InsertAt(old(nodes), k, nodes[k]) && contents == InsertAt(old(contents), k, data)
    {
      var node := new Node(data, curr, prev, this);
      DistinctInsert(nodes, k, node);
      if numItems == 0 {
        head, tail := node, node;
      } else if prev == null {
        head := node;
        curr.prev := node;
      } else if curr == null {
        tail := node;
        prev.next := node;
      } else {
        prev.next := node;
        curr.prev := node;
      }
      numItems := numItems + 1;
      nodes, contents := InsertAt(nodes, k, node), InsertAt(contents, k, data);
      forall i | 0 <= i < |nodes|
        ensures nodes[i].next == if i + 1 < |nodes| then nodes[i + 1] else null
        ensures nodes[i].prev == if i > 0 then nodes[i - 1] else null
        ensures nodes[i].owner == this && nodes[i].data == contents[i]
      {
        if i < k { assert nodes[i] == old(nodes)[i]; }
        else if i > k { assert nodes[i] == old(nodes)[i - 1]; }
      }
    }
  }

  /** Two lists share no nodes. */
  lemma ListsApart<T>(a: List<T>, b: List<T>)
    requires a.Chain() && b.Chain() && a != b
    ensures forall i :: 0 <= i < |a.nodes| ==> a.nodes[i] !in b.nodes
    ensures forall i :: 0 <= i < |b.nodes| ==> b.nodes[i] !in a.nodes
  {}

  /** Delete the first node that holds `data`.  The search has no guard against the end of the list: it is safe
      exactly because the list holds `data`. */
  method DeleteNodeByData<T(==)>(list: List<T>, data: T)
    requires list.Linked() && data in list.contents
    modifies list, list.nodes
    ensures list.Linked()
    ensures list.nodes == RemoveAt(old(list.nodes), Find(old(list.contents), data))
    ensures list.contents == RemoveAt(old(list.contents), Find(old(list.contents), data))
  {
    var curr := list.head;
    ghost var i := 0;
    ghost var k := Find(list.contents, data);
    while curr.data != data
      invariant i <= k < |list.nodes| && curr == list.nodes[i]
      decreases k - i
    {
      assert list.nodes[i].data == list.contents[i];
      curr := curr.next;
      i := i + 1;
    }
    assert i == k by { assert list.nodes[i].data == list.contents[i]; }
    list.DeleteNode(curr, k);
  }
}
