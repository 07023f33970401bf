/** The ready heap of SJF in a growing array. */
module MinHeaps {
  import opened Jobs
  import opened ProcessData
  import HeapModel
  import Sequences

  const INIT_SIZE: nat := 2

  lemma OneMore(a: seq<Process>, b: seq<Process>, x: Process)
    requires multiset(a) == multiset(b) + multiset{x}
    ensures forall p :: p in a ==> p in b || p == x
    ensures forall p :: p in b ==> p in a
  {
    forall p | p in a ensures p in b || p == x { assert p in multiset(a); }
    forall p | p in b ensures p in a { assert p in multiset(b); assert p in multiset(a); }
  }

  class MinHeap {
    var data: array<Process?>
    var numItems: nat
    var capacity: nat

    /** The processes in the array's used part. */
    ghost var items: seq<Process>

    ghost predicate Valid()
      reads this, data
    {
      && data.Length == capacity && numItems <= capacity && capacity > 0
      && numItems == |items|
      && (forall i :: 0 <= i < numItems ==> data[i] == items[i])
    }

    constructor ()
      ensures Valid() && items == [] && fresh(data)
    {
      data := new Process?[INIT_SIZE](_ => null);
      numItems := 0;
      capacity := INIT_SIZE;
      items := [];
    }

    /** Double the array, keeping its cells. */
    method Grow()
      requires Valid()
      modifies this`data, this`capacity
      ensures Valid() && capacity == 2 * old(capacity) && fresh(data)
    {
      capacity := capacity * 2;
      var bigger := new Process?[capacity](_ => null);
      for i := 0 to data.Length
        invariant forall j :: 0 <= j < i ==> bigger[j] == data[j]
        modifies bigger
      {
        bigger[i] := data[i];
      }
      data := bigger;
    }

    method InsertData(process: Process)
      requires Valid()
      modifies this, data
      ensures Valid() && (data == old(data) || fresh(data))
      ensures JobsOf(items) == HeapModel.Insert(old(JobsOf(items)), process.job)
      ensures multiset(items) == old(multiset(items)) + multiset{process}
      ensures forall p :: p in items ==> p in old(items) || p == process
    {
      if numItems >= capacity {
        Grow();
      }
      data[numItems] := process;
      numItems := numItems + 1;
      items := items + [process];
      assert JobsOf(items) == old(JobsOf(items)) + [process.job];
      UpHeap(numItems - 1);
      OneMore(items, old(items), process);
    }

    /** Exchange two cells. */
    method Swap(i: nat, j: nat)
      requires Valid() && i < numItems && j < numItems
      modifies data, this`items
      ensures Valid()
      ensures JobsOf(items) == HeapModel.Swap(old(JobsOf(items)), i, j)
      ensures multiset(items) == old(multiset(items))
    {
      var temp := data[i];
      data[i] := data[j];
      data[j] := temp;
      items := items[i := items[j]][j := items[i]];
      assert JobsOf(items) == HeapModel.Swap(old(JobsOf(items)), i, j);
    }

    method UpHeap(index: nat)
      requires Valid() && index < numItems
      modifies data, this`items
      ensures Valid()
      ensures JobsOf(items) == HeapModel.SiftUp(old(JobsOf(items)), index)
      ensures multiset(items) == old(multiset(items))
      decreases index
    {
      var parent := if index == 0 then 0 else (index - 1) / 2;
      if index > 0 && Compare(data[parent].job, data[index].job) > 0 {
        Swap(index, parent);
        UpHeap(parent);
      }
    }

    /** Drop the root of a heap with more than one element: the last element takes its place and sinks. */
    method DropRoot()
      requires Valid() && numItems > 1
      modifies this, data
      ensures Valid() && data == old(data)
      ensures JobsOf(items) == HeapModel.Rest(old(JobsOf(items)))
      ensures old(multiset(items)) == multiset(items) + multiset{old(items)[0]}
      ensures forall p :: p in items ==> p in old(items)
    {
      numItems := numItems - 1;
      data[0] := data[numItems];
      ghost var moved := items[..numItems][0 := items[numItems]];
      LastToRoot(items, moved);
      items := moved;
      DownHeap(0);
      OneMore(old(items), items, old(items)[0]);
    }

    /** Take the least process out, if there is one. */
    method ExtractMin() returns (min: Option<Process>)
      requires Valid()
      modifies this, data
      ensures Valid() && data == old(data)
      ensures old(items) == [] ==> min == None && items == []
      ensures old(items) != [] ==> min == Some(old(items)[0])
      ensures old(items) != [] ==> JobsOf(items) == HeapModel.Rest(old(JobsOf(items)))
      ensures old(items) != [] ==> old(multiset(items)) == multiset(items) + multiset{old(items)[0]}
      ensures forall p :: p in items ==> p in old(items)
    {
      if numItems == 0 {
        return None;
      }
      min := Some(data[0]);
      if numItems == 1 {
        assert items == [items[0]];
        numItems := 0;
        data[0] := null;
        items := [];
      } else {
        DropRoot();
      }
    }

    lemma LastToRoot(items: seq<Process>, moved: seq<Process>)
      requires |items| > 1 && moved == items[..|items| - 1][0 := items[|items| - 1]]
      ensures var h := JobsOf(items); JobsOf(moved) == h[..|h| - 1][0 := h[|h| - 1]]
      ensures multiset(items) == multiset(moved) + multiset{items[0]}
    {
      Sequences.LastToFront(items, moved);
    }

    method DownHeap(index: nat)
      requires Valid() && index < numItems
      modifies data, this`items
      ensures Valid()
      ensures JobsOf(items) == HeapModel.SiftDown(old(JobsOf(items)), index)
      ensures multiset(items) == old(multiset(items))
      decreases numItems - index
    {
      var smallest, left, right := index, 2 * index + 1, 2 * index + 2;
      if left < numItems && Compare(data[smallest].job, data[left].job) > 0 {
        smallest := left;
      }
      if right < numItems && Compare(data[smallest].job, data[right].job) > 0 {
        smallest := right;
      }
      assert smallest == HeapModel.Smallest(JobsOf(items), index);
      if smallest != index {
        Swap(index, smallest);
        DownHeap(smallest);
      }
    }
  }
}
