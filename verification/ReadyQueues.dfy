/** The ready queue behind the two schedulers' common interface, and the queue of arrivals. */
module ReadyQueues {
  import opened Jobs
  import opened LinkedLists
  import opened ProcessData
  import opened MinHeaps
  import opened SchedulerModel

  /** A heap under SJF and a linked list under RR. */
  class ReadyQueue {
    const scheduler: Scheduler
    const queue: List<Process>
    const heap: MinHeap
    ghost var procs: seq<Process>

    ghost predicate Valid()
      reads this, queue, queue.nodes, heap, heap.data
    {
      if scheduler.SJF? then heap.Valid() && procs == heap.items && queue.nodes == []
      else queue.Chain() && procs == queue.contents
    }

    constructor (scheduler: Scheduler)
      ensures Valid() && procs == [] && this.scheduler == scheduler
      ensures fresh(queue) && fresh(heap) && fresh(heap.data) && queue.nodes == []
    {
      this.scheduler := scheduler;
      queue := new List();
      heap := new MinHeap();
      procs := [];
    }

    method Insert(process: Process)
      requires Valid()
      modifies this, queue, queue.nodes, heap, heap.data
      ensures Valid() && (heap.data == old(heap.data) || fresh(heap.data))
      ensures forall i :: 0 <= i < |queue.nodes| ==> queue.nodes[i] in old(queue.nodes) || fresh(queue.nodes[i])
      ensures JobsOf(procs) == AddReady(scheduler, old(JobsOf(procs)), process.job)
      ensures forall p :: p in procs ==> p in old(procs) || p == process
    {
      hide List.Chain, List.Linked, MinHeap.Valid, JobsOf;
      if scheduler.SJF? {
        heap.InsertData(process);
        procs := heap.items;
      } else {
        LastOf(procs, process);
        queue.Enqueue(process);
        procs := queue.contents;
      }
    }

    method IsEmpty() returns (empty: bool)
      requires Valid()
      ensures empty <==> procs == []
    {
      empty := if scheduler.SJF? then heap.numItems == 0 else queue.numItems == 0;
    }

    method Size() returns (n: nat)
      requires Valid()
      ensures n == |procs|
    {
      n := if scheduler.SJF? then heap.numItems else queue.numItems;
    }

    /** Take out whoever runs next. */
    method Extract() returns (process: Process)
      requires Valid() && procs != []
      modifies this, queue, heap, heap.data
      ensures Valid() && heap.data == old(heap.data)
      ensures forall i :: 0 <= i < |queue.nodes| ==> queue.nodes[i] in old(queue.nodes)
      ensures process == old(procs)[0]
      ensures JobsOf(procs) == WithoutNext(scheduler, old(JobsOf(procs)))
      ensures forall p :: p in procs ==> p in old(procs)
    {
      hide List.Chain, List.Linked, MinHeap.Valid, JobsOf;
      if scheduler.SJF? {
        var min := heap.ExtractMin();
        process := min.value;
        procs := heap.items;
      } else {
        FirstOf(procs);
        var first := queue.Dequeue();
        process := first.value;
        procs := queue.contents;
      }
    }
  }

  lemma ArrivalsUnique(pending: seq<Job>, time: nat, k: nat)
    requires k <= |pending| && (forall i :: 0 <= i < k ==> pending[i].arrival <= time)
    requires k < |pending| ==> pending[k].arrival > time
    ensures Arrivals(pending, time) == k
  {
    var a := Arrivals(pending, time);
    assert a < |pending| ==> pending[a].arrival > time;
  }

  /** Move everybody at the head of the unarrived list who has arrived by `time` to the input queue. */
  method UpdateInput(input: List<Process>, processes: List<Process>, time: nat)
    requires input.Chain() && processes.Chain() && input != processes
    modifies input, input.nodes, processes
    ensures input.Chain() && processes.Chain() && (old(input.Linked()) ==> input.Linked())
    ensures var k := Arrivals(JobsOf(old(processes.contents)), time);
      && processes.contents == old(processes.contents)[k..]
      && input.contents == old(input.contents) + old(processes.contents)[..k]
    ensures forall i :: 0 <= i < |input.nodes| ==> input.nodes[i] in old(input.nodes) || fresh(input.nodes[i])
    ensures forall i :: 0 <= i < |processes.nodes| ==> processes.nodes[i] in old(processes.nodes)
  {
    hide List.Chain, List.Linked, Arrivals, JobsOf;
    ghost var pending, before := processes.contents, input.contents;
    ghost var k := 0;
    Front(processes);
    if processes.head == null {
      assert before + pending[..0] == before;
      ArrivalsUnique(JobsOf(pending), time, 0);
      return;
    }
    while processes.head.data.job.arrival <= time
      invariant input.Chain() && processes.Chain() && (old(input.Linked()) ==> input.Linked())
      invariant k < |pending| && processes.contents == pending[k..] && input.contents == before + pending[..k]
      invariant processes.head != null && processes.head.data == pending[k]
      invariant forall i :: 0 <= i < k ==> pending[i].job.arrival <= time
      invariant forall i :: 0 <= i < |input.nodes| ==> input.nodes[i] in old(input.nodes) || fresh(input.nodes[i])
      invariant forall i :: 0 <= i < |processes.nodes| ==> processes.nodes[i] in old(processes.nodes)
      decreases |pending| - k
    {
      MoveFirst(input, processes);
      k := k + 1;
      assert pending[..k] == pending[..k - 1] + [pending[k - 1]];
      Front(processes);
      if processes.numItems == 0 {
        break;
      }
    }
    ArrivalsUnique(JobsOf(pending), time, k);
  }

  method MoveFirst(input: List<Process>, processes: List<Process>)
    requires input.Chain() && processes.Chain() && input != processes && processes.contents != []
    modifies input, input.nodes, processes
    ensures input.Chain() && processes.Chain() && (old(input.Linked()) ==> input.Linked())
    ensures processes.contents == old(processes.contents)[1..]
    ensures input.contents == old(input.contents) + [old(processes.contents)[0]]
    ensures forall i :: 0 <= i < |input.nodes| ==> input.nodes[i] in old(input.nodes) || fresh(input.nodes[i])
    ensures forall i :: 0 <= i < |processes.nodes| ==> processes.nodes[i] in old(processes.nodes)
  {
    hide List.Chain, List.Linked;
    Front(processes);
    var first := processes.Dequeue();
    ListsApart(input, processes);
    input.Enqueue(first.value);
  }

  lemma Front(list: List<Process>)
    requires list.Chain()
    ensures list.head == null <==> list.contents == []
    ensures list.head == null <==> list.nodes == []
    ensures list.numItems == |list.contents|
    ensures list.contents != [] ==> list.head.data == list.contents[0] && list.head == list.nodes[0]
  {
    assert list.nodes != [] ==> list.nodes[0].data == list.contents[0];
  }
}
