/** Best-fit allocation and release on the two linked lists, proved equal to the operations on values. */
module Allocator {
  import opened Jobs
  import opened Sequences
  import opened LinkedLists
  import opened ProcessData
  import opened MemoryModel
  import opened MemoryLemmas

  /** Enter a block's node into the index, before the first block that is at least as large. */
  method InsertNodeSorted(list: List<Node<Block>>, blockNode: Node<Block>, ghost sizes: seq<Seg>)
    requires list.Linked() && |sizes| == |list.contents|
    requires forall j :: 0 <= j < |sizes| ==> list.contents[j].data.View() == sizes[j]
    modifies list, list.nodes
    ensures list.Linked()
    ensures list.contents == InsertAt(old(list.contents), FirstAtLeast(sizes, blockNode.data.size), blockNode)
    ensures forall i :: 0 <= i < |list.nodes| ==> list.nodes[i] in old(list.nodes) || fresh(list.nodes[i])
  {
    var curr, prev := list.head, null;
    ghost var i := 0;
    ghost var k := FirstAtLeast(sizes, blockNode.data.size);
    while curr != null && curr.data.data.size < blockNode.data.size
      invariant i <= k && curr == (if i < |list.nodes| then list.nodes[i] else null)
      invariant prev == (if i > 0 then list.nodes[i - 1] else null)
      decreases k - i
    {
      assert list.nodes[i].data == list.contents[i];
      prev, curr := curr, curr.next;
      i := i + 1;
    }
    assert i == k by { assert i < |list.nodes| ==> list.nodes[i].data == list.contents[i]; }
    list.LinkSorted(blockNode, prev, curr, k);
  }

  // ---------- what the two lists represent ----------

  /** The block list is well formed, and its blocks, one object each, are `segs`. */
  ghost predicate BlocksAre(memory: List<Block>, segs: seq<Seg>)
    reads memory, memory.nodes, memory.contents
  {
    && memory.Linked()
    && Distinct(memory.contents)
    && |segs| == |memory.contents|
    && (forall i :: 0 <= i < |segs| ==> memory.contents[i].View() == segs[i])
  }

  /** Node `n` of the block list holds block `h`. */
  ghost predicate NodeHolds(nodes: seq<Node<Block>>, segs: seq<Seg>, n: Node<Block>, h: Seg) {
    exists i :: 0 <= i < |nodes| == |segs| && nodes[i] == n && segs[i] == h
  }

  /** Each index entry is the node of the block it lists. */
  ghost predicate PointsTo(entries: seq<Node<Block>>, holes: seq<Seg>, nodes: seq<Node<Block>>, segs: seq<Seg>) {
    && |entries| == |holes| && |nodes| == |segs|
    && (forall j :: 0 <= j < |entries| ==> NodeHolds(nodes, segs, entries[j], holes[j]))
  }

  ghost predicate Represents(memory: List<Block>, holes: List<Node<Block>>, m: Mem)
    reads memory, memory.nodes, memory.contents, holes, holes.nodes
  {
    && BlocksAre(memory, m.segs)
    && holes.Linked()
    && PointsTo(holes.contents, m.holes, memory.nodes, m.segs)
  }

  /** The objects of both lists and the blocks are all in `R`. */
  ghost predicate Within(memory: List<Block>, holes: List<Node<Block>>, R: set<object>)
    reads memory, holes
  {
    && memory in R && holes in R
    && (forall i :: 0 <= i < |memory.nodes| ==> memory.nodes[i] in R)
    && (forall i :: 0 <= i < |holes.nodes| ==> holes.nodes[i] in R)
    && (forall i :: 0 <= i < |memory.contents| ==> memory.contents[i] in R)
  }

  // ---------- merging ----------

  method UnlinkBlock(memory: List<Block>, node: Node<Block>, ghost k: nat, ghost segs: seq<Seg>)
    requires BlocksAre(memory, segs) && k < |segs| && memory.nodes[k] == node
    modifies memory, memory.nodes
    ensures BlocksAre(memory, RemoveAt(segs, k))
    ensures memory.nodes == RemoveAt(old(memory.nodes), k) && memory.contents == RemoveAt(old(memory.contents), k)
    ensures node.next == old(node.next) && node.prev == old(node.prev)
  {
    memory.DeleteNode(node, k);
  }

  /** Let the block of `main` span that of its neighbour as well. */
  method Span(memory: List<Block>, main: Node<Block>, adj: Node<Block>, ghost k: nat, ghost a: nat,
              ghost segs: seq<Seg>)
    requires BlocksAre(memory, segs) && Tiled(segs)
    requires k < |segs| && a < |segs| && (a == k + 1 || k == a + 1)
    requires segs[k].Hole? && memory.nodes[k] == main && memory.nodes[a] == adj
    modifies main.data
    ensures BlocksAre(memory, segs[k := Hole(segs[if k < a then k else a].start, segs[k].size + segs[a].size)])
  {
    assert main.data == memory.contents[k] && adj.data == memory.contents[a];
    assert End(segs[if k < a then k else a]) == segs[if k < a then a else k].start;
    var adjBlock, mainBlock := adj.data, main.data;
    var adjStart, mainStart := adjBlock.start, mainBlock.start;
    mainBlock.start := if adjStart < mainStart then adjStart else mainStart;
    mainBlock.size := mainBlock.size + adjBlock.size;
  }

  lemma SpanIsMerge(segs: seq<Seg>, k: nat, a: nat)
    requires k < |segs| && a < |segs| && (a == k + 1 || k == a + 1)
    ensures var p := if k < a then k else a;
      RemoveAt(segs[k := Hole(segs[p].start, segs[k].size + segs[a].size)], a) == Merge(segs, p)
  {}

  /** Fold one free block into a free neighbour and take its node out of the block list. */
  method MergeBlocks(memory: List<Block>, main: Node<Block>, adj: Node<Block>, ghost k: nat, ghost a: nat,
                     ghost segs: seq<Seg>)
    requires BlocksAre(memory, segs) && Tiled(segs)
    requires k < |segs| && a < |segs| && (a == k + 1 || k == a + 1)
    requires segs[k].Hole? && segs[a].Hole? && memory.nodes[k] == main && memory.nodes[a] == adj
    modifies memory, memory.nodes, main.data
    ensures BlocksAre(memory, Merge(segs, if k < a then k else a))
    ensures memory.nodes == RemoveAt(old(memory.nodes), a) && memory.contents == RemoveAt(old(memory.contents), a)
  {
    hide BlocksAre, Tiled, Merge;
    SpanIsMerge(segs, k, a);
    Lengths(memory, segs);
    Span(memory, main, adj, k, a, segs);
    UnlinkBlock(memory, adj, a, segs[k := Hole(segs[if k < a then k else a].start, segs[k].size + segs[a].size)]);
  }

  /** The index entry of a free block is found exactly where the model finds the hole. */
  lemma EntryOf(entries: seq<Node<Block>>, nodes: seq<Node<Block>>, m: Mem, a: nat)
    requires PointsTo(entries, m.holes, nodes, m.segs) && Distinct(nodes) && Tiled(m.segs)
    requires a < |m.segs| && m.segs[a] in m.holes
    ensures nodes[a] in entries && Find(entries, nodes[a]) == Find(m.holes, m.segs[a])
  {
    var j := Find(m.holes, m.segs[a]);
    TiledDistinct(m.segs);
    assert NodeHolds(nodes, m.segs, entries[j], m.holes[j]);
    assert entries[j] == nodes[a];
    forall e | 0 <= e < j ensures entries[e] != nodes[a] {
      assert m.holes[e] in m.holes[..j];
      assert NodeHolds(nodes, m.segs, entries[e], m.holes[e]);
    }
    FirstFound(entries, nodes[a], j);
  }

  lemma HoldsAfterMerge(nodes: seq<Node<Block>>, segs: seq<Seg>, k: nat, a: nat, n: Node<Block>, h: Seg)
    requires Tiled(segs) && |nodes| == |segs| && k < |segs| && a < |segs| && (a == k + 1 || k == a + 1)
    requires NodeHolds(nodes, segs, n, h) && h != segs[k] && h != segs[a]
    ensures NodeHolds(RemoveAt(nodes, a), Merge(segs, if k < a then k else a), n, h)
  {
    var i :| 0 <= i < |nodes| && nodes[i] == n && segs[i] == h;
    var r := Merge(segs, if k < a then k else a);
    var i' := if i < a then i else i - 1;
    assert RemoveAt(nodes, a)[i'] == n && r[i'] == h;
  }

  lemma PointsToAfterMerge(entries: seq<Node<Block>>, nodes: seq<Node<Block>>, m: Mem, k: nat, a: nat)
    requires PointsTo(entries, m.holes, nodes, m.segs) && Tiled(m.segs)
    requires k < |m.segs| && a < |m.segs| && (a == k + 1 || k == a + 1)
    requires m.segs[k] !in m.holes && m.segs[a] in m.holes && Distinct(m.holes)
    ensures PointsTo(RemoveAt(entries, Find(m.holes, m.segs[a])), Drop(m.holes, m.segs[a]),
                     RemoveAt(nodes, a), Merge(m.segs, if k < a then k else a))
  {
    var f := Find(m.holes, m.segs[a]);
    var es, hs := RemoveAt(entries, f), RemoveAt(m.holes, f);
    forall j | 0 <= j < |es|
      ensures NodeHolds(RemoveAt(nodes, a), Merge(m.segs, if k < a then k else a), es[j], hs[j])
    {
      var j' := if j < f then j else j + 1;
      assert es[j] == entries[j'] && hs[j] == m.holes[j'];
      HoldsAfterMerge(nodes, m.segs, k, a, es[j], hs[j]);
    }
  }

  /** Every node of a used block is still in the list and still holds that block. */
  ghost predicate UsedKept(nodes: seq<Node<Block>>, segs: seq<Seg>, nodes': seq<Node<Block>>, segs': seq<Seg>) {
    |nodes| == |segs| &&
    forall i :: 0 <= i < |segs| && segs[i].Used? ==> NodeHolds(nodes', segs', nodes[i], segs[i])
  }

  lemma UsedKeptTransitive(n1: seq<Node<Block>>, s1: seq<Seg>, n2: seq<Node<Block>>, s2: seq<Seg>,
                           n3: seq<Node<Block>>, s3: seq<Seg>)
    requires UsedKept(n1, s1, n2, s2) && UsedKept(n2, s2, n3, s3)
    ensures UsedKept(n1, s1, n3, s3)
  {
    forall i | 0 <= i < |s1| && s1[i].Used? ensures NodeHolds(n3, s3, n1[i], s1[i]) {
      assert NodeHolds(n2, s2, n1[i], s1[i]);
      var j :| 0 <= j < |n2| && n2[j] == n1[i] && s2[j] == s1[i];
    }
  }

  lemma UsedKeptAfterMerge(nodes: seq<Node<Block>>, segs: seq<Seg>, k: nat, a: nat)
    requires Tiled(segs) && |nodes| == |segs| && k < |segs| && a < |segs| && (a == k + 1 || k == a + 1)
    requires segs[k].Hole? && segs[a].Hole?
    ensures UsedKept(nodes, segs, RemoveAt(nodes, a), Merge(segs, if k < a then k else a))
  {
    forall i | 0 <= i < |segs| && segs[i].Used?
      ensures NodeHolds(RemoveAt(nodes, a), Merge(segs, if k < a then k else a), nodes[i], segs[i])
    {
      assert NodeHolds(nodes, segs, nodes[i], segs[i]);
      HoldsAfterMerge(nodes, segs, k, a, nodes[i], segs[i]);
    }
  }

  lemma MergeReady(memory: List<Block>, holes: List<Node<Block>>, m: Mem, k: nat, a: nat)
    requires Represents(memory, holes, m) && Opened(m, k)
    requires a < |m.segs| && (a == k + 1 || k == a + 1) && m.segs[a].Hole?
    ensures |memory.nodes| == |memory.contents| == |m.segs| && memory.nodes[k].data == memory.contents[k]
    ensures BlocksAre(memory, m.segs) && Tiled(m.segs) && holes.Linked()
    ensures memory.nodes[a] in holes.contents
    ensures PointsTo(RemoveAt(holes.contents, Find(holes.contents, memory.nodes[a])), Drop(m.holes, m.segs[a]),
                     RemoveAt(memory.nodes, a), Merge(m.segs, if k < a then k else a))
    ensures UsedKept(memory.nodes, m.segs, RemoveAt(memory.nodes, a), Merge(m.segs, if k < a then k else a))
  {
    EntryOf(holes.contents, memory.nodes, m, a);
    PointsToAfterMerge(holes.contents, memory.nodes, m, k, a);
    UsedKeptAfterMerge(memory.nodes, m.segs, k, a);
  }

  /** Fold the free block of `adj` into that of `main`, and take `adj` out of both lists. */
  method UpdateMemory(memory: List<Block>, holes: List<Node<Block>>, main: Node<Block>, adj: Node<Block>,
                      ghost k: nat, ghost a: nat, ghost m: Mem, ghost R: set<object>)
    requires Represents(memory, holes, m) && Within(memory, holes, R) && Opened(m, k)
    requires a < |m.segs| && (a == k + 1 || k == a + 1) && m.segs[a].Hole?
    requires memory.nodes[k] == main && memory.nodes[a] == adj
    modifies R
    ensures Represents(memory, holes, if a == k + 1 then AbsorbNext(m, k) else AbsorbPrev(m, k))
    ensures Within(memory, holes, R)
    ensures memory.nodes == RemoveAt(old(memory.nodes), a)
    ensures memory.contents == RemoveAt(old(memory.contents), a)
    ensures UsedKept(old(memory.nodes), m.segs, memory.nodes,
                     if a == k + 1 then AbsorbNext(m, k).segs else AbsorbPrev(m, k).segs)
  {
    hide UsedKept, List.Linked, List.Chain, ValidExcept, Tiled, PointsTo, Merge, BlocksAre, Find, Drop, Distinct;
    MergeReady(memory, holes, m, k, a);
    assert main.data == memory.contents[k] && main.data in R;
    MergeBlocks(memory, main, adj, k, a, m.segs);
    DeleteNodeByData(holes, adj);
  }

  /** What the links and data of a node of the block list are. */
  lemma NodeFacts(memory: List<Block>, segs: seq<Seg>, i: nat)
    requires BlocksAre(memory, segs) && i < |segs|
    ensures |memory.nodes| == |memory.contents| == |segs|
    ensures memory.nodes[i].next == if i + 1 < |segs| then memory.nodes[i + 1] else null
    ensures memory.nodes[i].prev == if i > 0 then memory.nodes[i - 1] else null
    ensures memory.nodes[i].data == memory.contents[i] && memory.contents[i].View() == segs[i]
  {}

  lemma UsedKeptAtFirst(memory: List<Block>, segs: seq<Seg>)
    requires BlocksAre(memory, segs)
    ensures UsedKept(memory.nodes, segs, memory.nodes, segs)
  {
    forall i | 0 <= i < |segs| ensures NodeHolds(memory.nodes, segs, memory.nodes[i], segs[i]) {}
  }

  datatype Direction = Next | Prev

  function Neighbour(node: Node<Block>, dir: Direction): Node?<Block>
    reads node
  {
    if dir.Next? then node.next else node.prev
  }

  /** The model's merging in one direction: the memory and where the merged block ends up. */
  function Coalesce(dir: Direction, m: Mem, k: nat): (Mem, nat)
    requires k < |m.segs|
  {
    if dir.Next? then (CoalesceRight(m, k), k) else CoalesceLeft(m, k)
  }

  function Adjacent(dir: Direction, k: nat): int {
    if dir.Next? then k + 1 else k - 1
  }

  lemma CoalesceOnce(dir: Direction, m: Mem, k: nat)
    requires Opened(m, k) && 0 <= Adjacent(dir, k) < |m.segs| && m.segs[Adjacent(dir, k)].Hole?
    ensures var r := if dir.Next? then AbsorbNext(m, k) else AbsorbPrev(m, k);
      var j: nat := if dir.Next? then k else k - 1;
      Opened(r, j) && Coalesce(dir, m, k) == Coalesce(dir, r, j)
  {
    AbsorbKeeps(m, if dir.Next? then k else k - 1, k);
  }

  lemma CoalesceStops(dir: Direction, m: Mem, k: nat)
    requires k < |m.segs|
    requires 0 <= Adjacent(dir, k) < |m.segs| ==> m.segs[Adjacent(dir, k)].Used?
    ensures Coalesce(dir, m, k) == (m, k)
  {}

  /** Merge with free neighbours in one direction until a used block or the end is reached. */
  method CheckDirection(memory: List<Block>, holes: List<Node<Block>>, blockNode: Node<Block>, dir: Direction,
                        ghost k: nat, ghost m: Mem, ghost R: set<object>)
    requires Represents(memory, holes, m) && Within(memory, holes, R) && Opened(m, k)
    requires 0 <= Adjacent(dir, k) < |m.segs| && memory.nodes[k] == blockNode
    modifies R
    ensures Represents(memory, holes, Coalesce(dir, m, k).0) && Within(memory, holes, R)
    ensures Coalesce(dir, m, k).1 < |memory.nodes| && memory.nodes[Coalesce(dir, m, k).1] == blockNode
    ensures UsedKept(old(memory.nodes), m.segs, memory.nodes, Coalesce(dir, m, k).0.segs)
  {
    hide List.Linked, List.Chain, ValidExcept, PointsTo, BlocksAre, UsedKept, Within, Find, Merge, Distinct, Coalesce;
    NodeFacts(memory, m.segs, k);
    NodeFacts(memory, m.segs, Adjacent(dir, k));
    UsedKeptAtFirst(memory, m.segs);
    var curr := Neighbour(blockNode, dir);
    ghost var v, j: nat := m, k;
    while curr.data.kind == HOLE
      invariant Represents(memory, holes, v) && Within(memory, holes, R) && Opened(v, j)
      invariant Coalesce(dir, v, j) == Coalesce(dir, m, k)
      invariant |v.segs| == |memory.nodes| && memory.nodes[j] == blockNode
      invariant 0 <= Adjacent(dir, j) < |v.segs| && curr == memory.nodes[Adjacent(dir, j)]
      invariant UsedKept(old(memory.nodes), m.segs, memory.nodes, v.segs)
      decreases |v.segs|
    {
      NodeFacts(memory, v.segs, Adjacent(dir, j));
      var next := Neighbour(curr, dir);
      CoalesceOnce(dir, v, j);
      ghost var before, w := memory.nodes, if dir.Next? then AbsorbNext(v, j) else AbsorbPrev(v, j);
      UpdateMemory(memory, holes, blockNode, curr, j, Adjacent(dir, j), v, R);
      UsedKeptTransitive(old(memory.nodes), m.segs, before, v.segs, memory.nodes, w.segs);
      v, j := w, if dir.Next? then j else j - 1;
      curr := next;
      if curr == null {
        break;
      }
    }
    NodeFacts(memory, v.segs, j);
    if curr != null { NodeFacts(memory, v.segs, Adjacent(dir, j)); }
    CoalesceStops(dir, v, j);
  }

  // ---------- releasing ----------

  /** Turn the used block at `k` into a free one. */
  method MarkFree(memory: List<Block>, blockNode: Node<Block>, ghost k: nat, ghost segs: seq<Seg>)
    requires BlocksAre(memory, segs) && k < |segs| && memory.nodes[k] == blockNode
    modifies blockNode.data
    ensures BlocksAre(memory, segs[k := Hole(segs[k].start, segs[k].size)])
  {
    assert blockNode.data == memory.contents[k];
    blockNode.data.kind := HOLE;
  }

  lemma PointsToAfterOpen(entries: seq<Node<Block>>, nodes: seq<Node<Block>>, m: Mem, k: nat)
    requires PointsTo(entries, m.holes, nodes, m.segs) && Valid(m) && k < |m.segs| && m.segs[k].Used?
    ensures PointsTo(entries, m.holes, nodes, Open(m, k).segs)
  {
    forall j | 0 <= j < |entries| ensures NodeHolds(nodes, Open(m, k).segs, entries[j], m.holes[j]) {
      assert NodeHolds(nodes, m.segs, entries[j], m.holes[j]);
      var i :| 0 <= i < |nodes| && nodes[i] == entries[j] && m.segs[i] == m.holes[j];
      assert m.holes[j] in m.holes;
      assert Open(m, k).segs[i] == m.holes[j];
    }
  }

  /** What the index entries show when they are followed. */
  lemma IndexViews(memory: List<Block>, holes: List<Node<Block>>, m: Mem)
    requires Represents(memory, holes, m)
    ensures |m.holes| == |holes.contents|
    ensures forall j :: 0 <= j < |m.holes| ==>
      holes.contents[j] in memory.nodes && holes.contents[j].data.View() == m.holes[j]
  {
    forall j | 0 <= j < |m.holes|
      ensures holes.contents[j] in memory.nodes && holes.contents[j].data.View() == m.holes[j]
    {
      assert NodeHolds(memory.nodes, m.segs, holes.contents[j], m.holes[j]);
      var i :| 0 <= i < |memory.nodes| && memory.nodes[i] == holes.contents[j] && m.segs[i] == m.holes[j];
      NodeFacts(memory, m.segs, i);
    }
  }

  lemma PointsToAfterInsert(entries: seq<Node<Block>>, holes: seq<Seg>, nodes: seq<Node<Block>>, segs: seq<Seg>,
                            j: nat, k: nat)
    requires PointsTo(entries, holes, nodes, segs) && j <= |holes| && k < |segs|
    ensures PointsTo(InsertAt(entries, j, nodes[k]), InsertAt(holes, j, segs[k]), nodes, segs)
  {
    var es, hs := InsertAt(entries, j, nodes[k]), InsertAt(holes, j, segs[k]);
    forall i | 0 <= i < |es| ensures NodeHolds(nodes, segs, es[i], hs[i]) {
      if i < j { assert es[i] == entries[i] && hs[i] == holes[i]; }
      else if i > j { assert es[i] == entries[i - 1] && hs[i] == holes[i - 1]; }
    }
  }

  /** Enter the block at `k` into the index. */
  method EnterHole(memory: List<Block>, holes: List<Node<Block>>, blockNode: Node<Block>,
                   ghost k: nat, ghost m: Mem, ghost R: set<object>) returns (ghost R': set<object>)
    requires Represents(memory, holes, m) && Within(memory, holes, R)
    requires k < |m.segs| && memory.nodes[k] == blockNode
    modifies holes, holes.nodes
    ensures Represents(memory, holes, Close(m, k))
    ensures R <= R' && fresh(R' - R) && Within(memory, holes, R')
  {
    hide List.Linked, List.Chain, PointsTo, BlocksAre, FirstAtLeast;
    IndexViews(memory, holes, m);
    NodeFacts(memory, m.segs, k);
    PointsToAfterInsert(holes.contents, m.holes, memory.nodes, m.segs, FirstAtLeast(m.holes, m.segs[k].size), k);
    InsertNodeSorted(holes, blockNode, m.holes);
    R' := R + set i | 0 <= i < |holes.nodes| :: holes.nodes[i];
  }

  lemma ReleaseSteps(m: Mem, k: nat)
    requires Valid(m) && k < |m.segs| && m.segs[k].Used?
    ensures Opened(Open(m, k), k) && Coalesce(Next, Open(m, k), k).1 == k
    ensures var r := Coalesce(Next, Open(m, k), k).0;
      && k < |r.segs| && Opened(r, k)
      && var (e, j) := Coalesce(Prev, r, k); j < |e.segs| && ReleaseAt(m, k) == Close(e, j)
  {
    OpenKeeps(m, k);
    CoalesceRightKeeps(Open(m, k), k);
  }

  /** Give the block at `k` back: merge to the right, then to the left, then index what results. */
  method Deallocate(process: Process, memory: List<Block>, holes: List<Node<Block>>,
                    ghost k: nat, ghost m: Mem, ghost R: set<object>) returns (ghost R': set<object>)
    requires Represents(memory, holes, m) && Within(memory, holes, R) && Valid(m)
    requires k < |m.segs| && m.segs[k].Used? && process.blockNode == memory.nodes[k]
    modifies R, process`blockNode
    ensures Represents(memory, holes, ReleaseAt(m, k)) && process.blockNode == null
    ensures R <= R' && fresh(R' - R) && Within(memory, holes, R')
    ensures UsedKept(old(memory.nodes), Open(m, k).segs, memory.nodes, ReleaseAt(m, k).segs)
  {
    hide List.Linked, List.Chain, PointsTo, BlocksAre, Valid, Within, UsedKept, Coalesce, ReleaseAt, Opened;
    var blockNode := process.blockNode;
    NodeFacts(memory, m.segs, k);
    ReleaseSteps(m, k);
    PointsToAfterOpen(holes.contents, memory.nodes, m, k);
    InR(memory, holes, R, k);
    MarkFree(memory, blockNode, k, m.segs);
    ghost var v := Open(m, k);
    NodeFacts(memory, v.segs, k);
    UsedKeptAtFirst(memory, v.segs);
    ghost var start := memory.nodes;
    if blockNode.next != null {
      CheckDirection(memory, holes, blockNode, Next, k, v, R);
    } else {
      CoalesceStops(Next, v, k);
    }
    ghost var w := Coalesce(Next, v, k).0;
    NodeFacts(memory, w.segs, k);
    ghost var middle := memory.nodes;
    UsedKeptAtFirst(memory, w.segs);
    if blockNode.prev != null {
      CheckDirection(memory, holes, blockNode, Prev, k, w, R);
    } else {
      CoalesceStops(Prev, w, k);
    }
    ghost var e, j: nat := Coalesce(Prev, w, k).0, Coalesce(Prev, w, k).1;
    UsedKeptTransitive(start, v.segs, middle, w.segs, memory.nodes, e.segs);
    NodeFacts(memory, e.segs, j);
    InR(memory, holes, R, j);
    R' := EnterHole(memory, holes, blockNode, j, e, R);
    process.blockNode := null;
  }

  lemma InR(memory: List<Block>, holes: List<Node<Block>>, R: set<object>, k: nat)
    requires Within(memory, holes, R) && k < |memory.contents|
    ensures memory.contents[k] in R && memory in R && holes in R && forall n :: n in holes.nodes ==> n in R
  {}

  // ---------- allocating ----------

  /** Take the first `need` units off the block of `node`. */
  method Shrink(memory: List<Block>, node: Node<Block>, need: nat, ghost k: nat, ghost segs: seq<Seg>)
    requires BlocksAre(memory, segs) && k < |segs| && memory.nodes[k] == node && need <= segs[k].size
    modifies node.data
    ensures BlocksAre(memory, segs[k := Hole(segs[k].start + need, segs[k].size - need)])
  {
    assert node.data == memory.contents[k];
    var oldBlock := node.data;
    var prevSize, startAddress := oldBlock.size, oldBlock.start;
    oldBlock.kind := HOLE;
    oldBlock.start := startAddress + need;
    oldBlock.size := prevSize - need;
  }

  method LinkBlock(memory: List<Block>, block: Block, prev: Node?<Block>, next: Node?<Block>,
                   ghost k: nat, ghost segs: seq<Seg>, holes: List<Node<Block>>, ghost R: set<object>)
    returns (node: Node<Block>)
    requires Within(memory, holes, R)
    requires BlocksAre(memory, segs) && k <= |segs| == |memory.nodes| && block !in memory.contents
    requires prev == if k > 0 then memory.nodes[k - 1] else null
    requires next == if k < |segs| then memory.nodes[k] else null
    modifies memory, memory.nodes
    ensures BlocksAre(memory, InsertAt(segs, k, block.View()))
    ensures memory.nodes == InsertAt(old(memory.nodes), k, node)
    ensures memory.contents == InsertAt(old(memory.contents), k, block)
    ensures fresh(node) && Within(memory, holes, R + {block, node})
  {
    node := memory.InsertNode(block, prev, next, k);
  }

  /** The model's split seen as the two list edits that make it up. */
  lemma SplitIsEdits(segs: seq<Seg>, holes: seq<Seg>, k: nat, job: Job)
    requires k < |segs| && segs[k].Hole? && job.mem <= segs[k].size
    ensures var h := segs[k];
      var left, used := Hole(h.start + job.mem, h.size - job.mem), Used(h.start, job.mem, job);
      MemoryModel.Split(segs, holes, k, job) ==
        if left.size == 0 then Mem(InsertAt(RemoveAt(segs[k := left], k), k, used), holes)
        else Mem(InsertAt(segs[k := left], k, used), InsertSorted(holes, left))
  {
    var h := segs[k];
    var left, used := Hole(h.start + job.mem, h.size - job.mem), Used(h.start, job.mem, job);
    if left.size == 0 {
      assert InsertAt(RemoveAt(segs[k := left], k), k, used) == segs[k := used];
    } else {
      assert InsertAt(segs[k := left], k, used) == Carve(segs, k, used, left);
    }
  }

  /** A block may change or leave without disturbing entries that lead elsewhere. */
  lemma PointsToAfterChange(entries: seq<Node<Block>>, holes: seq<Seg>, nodes: seq<Node<Block>>, segs: seq<Seg>,
                            k: nat, x: Seg)
    requires PointsTo(entries, holes, nodes, segs) && k < |segs| && segs[k] !in holes
    ensures PointsTo(entries, holes, nodes, segs[k := x])
    ensures PointsTo(entries, holes, RemoveAt(nodes, k), RemoveAt(segs[k := x], k))
  {
    var s := segs[k := x];
    forall j | 0 <= j < |entries|
      ensures NodeHolds(nodes, s, entries[j], holes[j])
      ensures NodeHolds(RemoveAt(nodes, k), RemoveAt(s, k), entries[j], holes[j])
    {
      assert holes[j] in holes;
      assert NodeHolds(nodes, segs, entries[j], holes[j]);
      var i :| 0 <= i < |nodes| && nodes[i] == entries[j] && segs[i] == holes[j];
      var d := if i < k then i else i - 1;
      assert s[i] == segs[i];
      assert RemoveAt(nodes, k)[d] == nodes[i] && RemoveAt(s, k)[d] == segs[i];
    }
  }

  lemma HoldsAfterLink(nodes: seq<Node<Block>>, segs: seq<Seg>, k: nat, n: Node<Block>, y: Seg,
                       e: Node<Block>, h: Seg)
    requires NodeHolds(nodes, segs, e, h) && k <= |segs|
    ensures NodeHolds(InsertAt(nodes, k, n), InsertAt(segs, k, y), e, h)
  {
    var i :| 0 <= i < |nodes| && nodes[i] == e && segs[i] == h;
    var u := if i < k then i else i + 1;
    assert InsertAt(nodes, k, n)[u] == nodes[i] && InsertAt(segs, k, y)[u] == segs[i];
  }

  /** A block may arrive anywhere. */
  lemma PointsToAfterLink(entries: seq<Node<Block>>, holes: seq<Seg>, nodes: seq<Node<Block>>, segs: seq<Seg>,
                          k: nat, n: Node<Block>, y: Seg)
    requires PointsTo(entries, holes, nodes, segs) && k <= |segs|
    ensures PointsTo(entries, holes, InsertAt(nodes, k, n), InsertAt(segs, k, y))
    ensures NodeHolds(InsertAt(nodes, k, n), InsertAt(segs, k, y), n, y)
  {
    forall j | 0 <= j < |entries| ensures NodeHolds(InsertAt(nodes, k, n), InsertAt(segs, k, y), entries[j], holes[j]) {
      HoldsAfterLink(nodes, segs, k, n, y, entries[j], holes[j]);
    }
  }

  lemma UsedKeptAfterLink(nodes: seq<Node<Block>>, segs: seq<Seg>, k: nat, n: Node<Block>, y: Seg)
    requires |nodes| == |segs| && k <= |segs|
    ensures UsedKept(nodes, segs, InsertAt(nodes, k, n), InsertAt(segs, k, y))
  {
    forall i | 0 <= i < |segs| ensures NodeHolds(InsertAt(nodes, k, n), InsertAt(segs, k, y), nodes[i], segs[i]) {
      assert NodeHolds(nodes, segs, nodes[i], segs[i]);
      HoldsAfterLink(nodes, segs, k, n, y, nodes[i], segs[i]);
    }
  }

  lemma UsedKeptAfterChange(nodes: seq<Node<Block>>, segs: seq<Seg>, k: nat, x: Seg)
    requires |nodes| == |segs| && k < |segs| && segs[k].Hole?
    ensures UsedKept(nodes, segs, nodes, segs[k := x])
    ensures UsedKept(nodes, segs, RemoveAt(nodes, k), RemoveAt(segs[k := x], k))
  {
    var s := segs[k := x];
    forall i | 0 <= i < |segs| && segs[i].Used?
      ensures NodeHolds(nodes, s, nodes[i], segs[i])
      ensures NodeHolds(RemoveAt(nodes, k), RemoveAt(s, k), nodes[i], segs[i])
    {
      var d := if i < k then i else i - 1;
      assert s[i] == segs[i];
      assert RemoveAt(nodes, k)[d] == nodes[i] && RemoveAt(s, k)[d] == segs[i];
    }
  }

  /** The model of trimming: the blocks once the front of block `k` is gone, and the index. */
  ghost function Trimmed(m: Mem, k: nat, need: nat): Mem
    requires k < |m.segs| && need <= m.segs[k].size
  {
    var left := Hole(m.segs[k].start + need, m.segs[k].size - need);
    if left.size == 0 then Mem(RemoveAt(m.segs[k := left], k), m.holes)
    else Mem(m.segs[k := left], InsertSorted(m.holes, left))
  }

  lemma SplitIsTrimAndLink(m: Mem, k: nat, job: Job)
    requires k < |m.segs| && m.segs[k].Hole? && job.mem <= m.segs[k].size
    ensures var t := Trimmed(m, k, job.mem);
      MemoryModel.Split(m.segs, m.holes, k, job) ==
        Mem(InsertAt(t.segs, k, Used(m.segs[k].start, job.mem, job)), t.holes)
  {
    SplitIsEdits(m.segs, m.holes, k, job);
  }

  /** Cut the front off the hole at `k` and index what is left of it, if anything; yield the neighbours between which
      the new block belongs. */
  method TrimHole(node: Node<Block>, need: nat, memory: List<Block>, holes: List<Node<Block>>,
                  ghost k: nat, ghost m: Mem, ghost R: set<object>)
    returns (prevNode: Node?<Block>, next: Node?<Block>, ghost R': set<object>)
    requires Represents(memory, holes, m) && Within(memory, holes, R)
    requires k < |m.segs| && memory.nodes[k] == node && m.segs[k].Hole? && m.segs[k] !in m.holes
    requires need <= m.segs[k].size
    modifies R
    ensures Represents(memory, holes, Trimmed(m, k, need))
    ensures UsedKept(old(memory.nodes), m.segs, memory.nodes, Trimmed(m, k, need).segs)
    ensures k <= |memory.nodes|
    ensures prevNode == if k > 0 then memory.nodes[k - 1] else null
    ensures next == if k < |memory.nodes| then memory.nodes[k] else null
    ensures forall b :: b in memory.contents ==> b in old(memory.contents)
    ensures R <= R' && fresh(R' - R) && Within(memory, holes, R')
  {
    hide List.Linked, List.Chain, PointsTo, BlocksAre, UsedKept, NodeHolds, InsertSorted;
    NodeFacts(memory, m.segs, k);
    ghost var left, nodes := Hole(m.segs[k].start + need, m.segs[k].size - need), memory.nodes;
    PointsToAfterChange(holes.contents, m.holes, nodes, m.segs, k, left);
    UsedKeptAfterChange(nodes, m.segs, k, left);
    Shrink(memory, node, need, k, m.segs);
    NodeFacts(memory, m.segs[k := left], k);
    prevNode := node.prev;
    if node.data.size == 0 {
      UnlinkBlock(memory, node, k, m.segs[k := left]);
      next, R' := node.next, R;
    } else {
      R' := EnterHole(memory, holes, node, k, Mem(m.segs[k := left], m.holes), R);
      next := node;
    }
  }

  /** After a split: the lists represent the model's split, the process has its node, and no used block moved. */
  ghost predicate HasSplit(memory: List<Block>, holes: List<Node<Block>>, r: Mem, process: Process, used: Seg,
                           nodes: seq<Node<Block>>, segs: seq<Seg>)
    reads memory, memory.nodes, memory.contents, holes, holes.nodes, process
  {
    && Represents(memory, holes, r)
    && process.blockNode != null && NodeHolds(memory.nodes, r.segs, process.blockNode, used)
    && UsedKept(nodes, segs, memory.nodes, r.segs)
  }

  /** Cut the process's block off the front of the hole at `k`, which has left the index already. */
  method Split(process: Process, node: Node<Block>, memory: List<Block>, holes: List<Node<Block>>,
               ghost k: nat, ghost m: Mem, ghost R: set<object>) returns (ghost R': set<object>)
    requires Represents(memory, holes, m) && Within(memory, holes, R)
    requires k < |m.segs| && memory.nodes[k] == node && m.segs[k].Hole? && m.segs[k] !in m.holes
    requires 0 < process.job.mem <= m.segs[k].size
    modifies R, process`blockNode
    ensures HasSplit(memory, holes, MemoryModel.Split(m.segs, m.holes, k, process.job), process,
                     Used(m.segs[k].start, process.job.mem, process.job), old(memory.nodes), m.segs)
    ensures R <= R' && fresh(R' - R) && Within(memory, holes, R')
  {
    hide List.Linked, List.Chain, PointsTo, BlocksAre, UsedKept, NodeHolds, MemoryModel.Split, Trimmed, Within;
    NodeFacts(memory, m.segs, k);
    ghost var nodes, t := memory.nodes, Trimmed(m, k, process.job.mem);
    ghost var used := Used(m.segs[k].start, process.job.mem, process.job);
    SplitIsTrimAndLink(m, k, process.job);
    var newBlock := new Block(PROCESS, node.data.start, process.job.mem, process.job);
    var prevNode, next;
    prevNode, next, R' := TrimHole(node, process.job.mem, memory, holes, k, m, R);
    ghost var before := memory.nodes;
    Lengths(memory, t.segs);
    NodesInR(memory, holes, R');
    var newNode := LinkBlock(memory, newBlock, prevNode, next, k, t.segs, holes, R');
    process.blockNode := newNode;
    PointsToAfterLink(holes.contents, t.holes, before, t.segs, k, newNode, used);
    UsedKeptAfterLink(before, t.segs, k, newNode, used);
    UsedKeptTransitive(nodes, m.segs, before, t.segs, memory.nodes, InsertAt(t.segs, k, used));
    R' := R' + {newBlock, newNode};
  }

  lemma NodesInR(memory: List<Block>, holes: List<Node<Block>>, R: set<object>)
    requires Within(memory, holes, R)
    ensures memory in R && forall n :: n in memory.nodes ==> n in R
  {}

  lemma Lengths(memory: List<Block>, segs: seq<Seg>)
    requires BlocksAre(memory, segs)
    ensures |memory.nodes| == |memory.contents| == |segs|
  {}

  lemma PointsToAfterRemove(entries: seq<Node<Block>>, holes: seq<Seg>, nodes: seq<Node<Block>>, segs: seq<Seg>, j: nat)
    requires PointsTo(entries, holes, nodes, segs) && j < |holes|
    ensures PointsTo(RemoveAt(entries, j), RemoveAt(holes, j), nodes, segs)
  {
    var es, hs := RemoveAt(entries, j), RemoveAt(holes, j);
    forall i | 0 <= i < |es| ensures NodeHolds(nodes, segs, es[i], hs[i]) {
      var i' := if i < j then i else i + 1;
      assert es[i] == entries[i'] && hs[i] == holes[i'];
    }
  }

  /** The entry best fit stops at leads to the node of the hole the model takes. */
  lemma BestFitReady(memory: List<Block>, holes: List<Node<Block>>, m: Mem, job: Job)
    requires Represents(memory, holes, m) && Valid(m)
    requires FirstAtLeast(m.holes, job.mem) < |m.holes|
    ensures var j := FirstAtLeast(m.holes, job.mem);
      var k := Find(m.segs, m.holes[j]);
      var rest := RemoveAt(m.holes, j);
      && k < |m.segs| == |memory.nodes| && memory.nodes[k] == holes.contents[j]
      && m.segs[k].Hole? && m.segs[k] !in rest && job.mem <= m.segs[k].size
      && PointsTo(RemoveAt(holes.contents, j), rest, memory.nodes, m.segs)
      && Allocate(m, job) == Some(MemoryModel.Split(m.segs, rest, k, job))
      && Placement(m, job) == Used(m.segs[k].start, job.mem, job)
  {
    var j := FirstAtLeast(m.holes, job.mem);
    assert m.holes[j] in m.holes;
    RemoveAtMembers(m.holes, j);
    TiledDistinct(m.segs);
    assert NodeHolds(memory.nodes, m.segs, holes.contents[j], m.holes[j]);
    PointsToAfterRemove(holes.contents, m.holes, memory.nodes, m.segs, j);
  }

  /** The first index entry, from the head on, of at least the needed size. */
  method Search(holes: List<Node<Block>>, need: nat, ghost sizes: seq<Seg>) returns (curr: Node?<Node<Block>>)
    requires holes.Linked() && |sizes| == |holes.contents|
    requires forall j :: 0 <= j < |sizes| ==> holes.contents[j].data.View() == sizes[j]
    ensures |holes.nodes| == |sizes|
    ensures var j := FirstAtLeast(sizes, need);
      if j < |sizes| then curr == holes.nodes[j] && curr.data == holes.contents[j] else curr == null
  {
    curr := holes.head;
    ghost var i := 0;
    while curr != null
      invariant i <= FirstAtLeast(sizes, need) && i <= |sizes|
      invariant curr == if i < |sizes| then holes.nodes[i] else null
      decreases |sizes| - i
    {
      assert curr.data == holes.contents[i];
      if curr.data.data.size >= need {
        break;
      }
      curr := curr.next;
      i := i + 1;
    }
  }

  /** Give the process a block in the smallest hole that is large enough, if there is one. */
  method BestFit(holes: List<Node<Block>>, memory: List<Block>, process: Process, ghost m: Mem, ghost R: set<object>)
    returns (isSpace: bool, ghost R': set<object>)
    requires Represents(memory, holes, m) && Within(memory, holes, R) && Valid(m)
    requires 0 < process.job.mem
    modifies R, process`blockNode
    ensures isSpace <==> Allocate(m, process.job).Some?
    ensures isSpace ==> FirstAtLeast(m.holes, process.job.mem) < |m.holes|
    ensures isSpace ==> HasSplit(memory, holes, Allocate(m, process.job).value, process, Placement(m, process.job),
                                 old(memory.nodes), m.segs)
    ensures !isSpace ==> Represents(memory, holes, m) && memory.nodes == old(memory.nodes)
    ensures !isSpace ==> process.blockNode == old(process.blockNode)
    ensures R <= R' && fresh(R' - R) && Within(memory, holes, R')
  {
    hide List.Linked, List.Chain, PointsTo, BlocksAre, Valid, Placement, Allocate, MemoryModel.Split, HasSplit;
    AllocateSucceeds(m, process.job);
    IndexViews(memory, holes, m);
    ghost var j := FirstAtLeast(m.holes, process.job.mem);
    var bestFit := Search(holes, process.job.mem, m.holes);
    isSpace, R' := bestFit != null, R;
    if isSpace {
      BestFitReady(memory, holes, m, process.job);
      holes.DeleteNode(bestFit, j);
      var memNode := bestFit.data;
      R' := Split(process, memNode, memory, holes, Find(m.segs, m.holes[j]), Mem(m.segs, RemoveAt(m.holes, j)), R);
    }
  }

  // ---------- the empty memory ----------

  lemma InitialRepresented(memory: List<Block>, holes: List<Node<Block>>, node: Node<Block>, block: Block)
    requires memory.Linked() && holes.Linked()
    requires memory.nodes == [node] && memory.contents == [block] && holes.contents == [node]
    requires block.View() == Hole(0, CAPACITY)
    ensures Represents(memory, holes, INITIAL)
  {
    assert memory.nodes[0] == node && INITIAL.segs[0] == Hole(0, CAPACITY);
    assert NodeHolds(memory.nodes, INITIAL.segs, node, Hole(0, CAPACITY));
  }

  /** One block, which is a hole, and its entry in the index. */
  method InitialiseMemory(memory: List<Block>, holes: List<Node<Block>>) returns (ghost R: set<object>)
    requires memory.Linked() && holes.Linked() && memory.nodes == [] && holes.nodes == []
    requires memory.contents == [] && holes.contents == []
    modifies memory, holes
    ensures Represents(memory, holes, INITIAL) && Within(memory, holes, R)
    ensures fresh(R - {memory, holes})
  {
    hide Represents, List.Linked, List.Chain;
    var block := new Block(HOLE, 0, CAPACITY, Job(0, 0, "", 0, 0));
    Forward(memory);
    memory.Enqueue(block);
    var node := memory.head;
    Forward(holes);
    holes.Enqueue(node);
    assert memory.nodes == [node] && memory.contents == [block] && holes.contents == [node];
    InitialRepresented(memory, holes, node, block);
    R := {memory, holes, block, node, holes.nodes[0]};
  }

  lemma Forward<T>(list: List<T>)
    requires list.Linked()
    ensures list.Chain()
  {}
}
