/** The scheduling loop on the real queues, heap and memory lists, proved equal to the cycle on values. */
module Simulation {
  import opened Jobs
  import opened LinkedLists
  import opened ProcessData
  import opened MemoryModel
  import opened SchedulerModel
  import opened SchedulerInvariants
  import opened SchedulerAccounting
  import opened SchedulerClock
  import opened SchedulerRuns
  import SchedulerReports
  import opened AdmissionLemmas
  import opened Allocator
  import opened ReadyQueues
  import opened AdmissionPass

  /** The objects that the queues consist of when only the unarrived list has elements. */
  ghost function QueueObjects(processes: List<Process>, input: List<Process>, finished: List<Process>,
                              ready: ReadyQueue): set<object>
    reads processes, ready.heap
  {
    {processes, input, finished, ready, ready.queue, ready.heap, ready.heap.data} + set n | n in processes.nodes
  }

  class Simulator {
    const scheduler: Scheduler
    const strategy: Strategy
    const quantum: nat
    const numProcesses: int

    var simTime: nat
    var current: Process?
    var noneRunning: bool

    const processes: List<Process>
    const input: List<Process>
    const finished: List<Process>
    const ready: ReadyQueue
    const memory: List<Block>
    const holes: List<Node<Block>>

    /** Everybody who was loaded, and who holds memory by now. */
    ghost const all: seq<Process>
    ghost var held: set<Process>

    /** Who occupied each elapsed quantum, and the remaining counts that were printed at each finish. */
    ghost var occupied: seq<Option<Job>>
    ghost var reported: seq<nat>

    /** The objects that the queues consist of, and those that memory consists of. */
    ghost var N: set<object>
    ghost var R: set<object>

    /** The four queues are well formed and share nothing. */
    ghost predicate Lists()
      reads processes, processes.nodes, input, input.nodes, finished, finished.nodes
      reads ready, ready.queue, ready.queue.nodes, ready.heap, ready.heap.data
    {
      && processes.Chain() && input.Chain() && finished.Chain() && ready.Valid()
      && (strategy.BestFit? ==> input.Linked())
      && processes != input && processes != finished && input != finished
      && ready.queue != processes && ready.queue != input && ready.queue != finished
      && ready.scheduler == scheduler
    }

    /** The queue objects lie in `N`, which the process records and this object do not. */
    ghost predicate Placed()
      reads this`N, processes, input, finished, ready.queue, ready.heap
    {
      && {processes, input, finished, ready, ready.queue, ready.heap, ready.heap.data} <= N && this !in N
      && (forall i :: 0 <= i < |processes.nodes| ==> processes.nodes[i] in N)
      && (forall i :: 0 <= i < |input.nodes| ==> input.nodes[i] in N)
      && (forall i :: 0 <= i < |finished.nodes| ==> finished.nodes[i] in N)
      && (forall i :: 0 <= i < |ready.queue.nodes| ==> ready.queue.nodes[i] in N)
      && (forall i :: 0 <= i < |all| ==> all[i] !in N)
    }

    ghost predicate Inside()
      reads this`N, this`R, processes, input, finished, ready.queue, ready.heap, memory, holes
    {
      && Placed() && N !! R && this !in R && Within(memory, holes, R)
      && (forall i :: 0 <= i < |all| ==> all[i] !in R)
    }

    /** Whoever is in a queue was loaded. */
    ghost predicate Known()
      reads processes, input, finished, ready
    {
      && (forall p :: p in processes.contents ==> p in all)
      && (forall p :: p in input.contents ==> p in all)
      && (forall p :: p in finished.contents ==> p in all)
      && (forall p :: p in ready.procs ==> p in all)
    }

    /** The process records show the remaining service of every job. */
    ghost predicate LeftShows(left: map<Job, nat>)
      reads all`left
    {
      forall i :: 0 <= i < |all| ==> all[i].job in left && all[i].left == left[all[i].job]
    }

    static ghost predicate Recorded(p: Process, remaining: nat, d: Completion)
      reads p`finishTime, p`turnaround
    {
      p.job == d.job && p.finishTime == d.time && p.turnaround == d.turnaround && remaining == d.remaining
    }

    /** The finished queue and the printed counts show the completions. */
    ghost predicate FinishedShows(f: seq<Completion>)
      reads this`reported, finished, finished.contents`finishTime, finished.contents`turnaround
    {
      && |finished.contents| == |f| == |reported|
      && (forall k :: 0 <= k < |f| ==> Recorded(finished.contents[k], reported[k], f[k]))
    }

    ghost predicate QueuesShow(s: State)
      reads this`simTime, this`current, this`noneRunning, this`occupied, processes, input, ready
    {
      && simTime == s.time && noneRunning == s.noneRunning && occupied == s.history
      && (current != null ==> current in all)
      && s.current == (if current == null || noneRunning then None else Some(current.job))
      && JobsOf(processes.contents) == s.pending
      && JobsOf(input.contents) == s.input
      && JobsOf(ready.procs) == s.ready
    }

    ghost predicate MemoryShows(s: State)
      reads this`held, this`current, this`noneRunning, held`blockNode
      reads ready, memory, memory.nodes, memory.contents, holes, holes.nodes
    {
      && Represents(memory, holes, s.mem)
      && (forall p :: p in held ==> p in all)
      && (strategy.BestFit? ==>
            && AllHold(held, memory.nodes, s.mem.segs)
            && (forall p :: p in ready.procs ==> p in held)
            && (current != null && !noneRunning ==> current in held))
    }

    ghost predicate Setup(c: Config) {
      && scheduler == c.scheduler && strategy == c.strategy && quantum == c.quantum
      && numProcesses == |c.jobs| && JobsOf(all) == c.jobs
    }

    /** The simulator's objects show the state `s` of a run of `c`. */
    ghost predicate Shows(c: Config, s: State)
      reads this, processes, processes.nodes, input, input.nodes, finished, finished.nodes
      reads ready, ready.queue, ready.queue.nodes, ready.heap, ready.heap.data
      reads memory, memory.nodes, memory.contents, holes, holes.nodes, held`blockNode
      reads all`left, finished.contents`finishTime, finished.contents`turnaround
    {
      && Setup(c) && Lists() && Inside() && Known()
      && LeftShows(s.left) && FinishedShows(s.finished) && QueuesShow(s) && MemoryShows(s)
    }

    /** Empty queues and empty memory lists around the loaded processes. */
    ghost predicate Blank()
      reads this, processes, processes.nodes, input, input.nodes, finished, finished.nodes
      reads ready, ready.queue, ready.queue.nodes, ready.heap, ready.heap.data
      reads memory, memory.nodes, holes, holes.nodes
    {
      && Lists() && Placed() && all == processes.contents && numProcesses == |all|
      && simTime == 0 && current == null && !noneRunning
      && input.contents == [] && finished.contents == [] && ready.procs == []
      && memory.Linked() && holes.Linked() && memory.nodes == [] && holes.nodes == []
      && memory.contents == [] && holes.contents == [] && held == {} && occupied == [] && reported == []
      && memory !in N && holes !in N
    }

    lemma BlankFacts()
      requires Blank()
      ensures all == processes.contents && numProcesses == |all| && memory !in N && holes !in N
    {}

    lemma EndShown(c: Config, s: State)
      requires Shows(c, s) && s.pending == [] && s.input == [] && s.ready == []
      ensures processes.contents == [] && input.contents == [] && ready.procs == []
      ensures Represents(memory, holes, s.mem) && simTime == s.time
    {}

    constructor (scheduler: Scheduler, strategy: Strategy, quantum: nat, processes: List<Process>, input: List<Process>,
                 finished: List<Process>, ready: ReadyQueue, memory: List<Block>, holes: List<Node<Block>>)
      requires processes.Chain() && input.Linked() && finished.Linked() && ready.Valid() && ready.scheduler == scheduler
      requires input.nodes == [] && finished.nodes == [] && ready.queue.nodes == []
      requires input.contents == [] && finished.contents == [] && ready.procs == []
      requires memory.Linked() && holes.Linked() && memory.nodes == [] && holes.nodes == []
      requires memory.contents == [] && holes.contents == []
      requires processes != input && processes != finished && input != finished
      requires ready.queue != processes && ready.queue != input && ready.queue != finished
      requires memory !in QueueObjects(processes, input, finished, ready)
      requires holes !in QueueObjects(processes, input, finished, ready)
      ensures Blank() && N == QueueObjects(processes, input, finished, ready)
      ensures this.scheduler == scheduler && this.strategy == strategy && this.quantum == quantum
      ensures this.processes == processes && this.memory == memory && this.holes == holes
    {
      hide List.Chain, List.Linked, ReadyQueue.Valid;
      Front(processes);
      Forward(input);
      Forward(finished);
      this.scheduler, this.strategy, this.quantum := scheduler, strategy, quantum;
      this.processes, this.input, this.finished, this.ready := processes, input, finished, ready;
      this.memory, this.holes, numProcesses := memory, holes, processes.numItems;
      simTime, current, noneRunning := 0, null, false;
      all, held, occupied, reported := processes.contents, {}, [], [];
      N, R := QueueObjects(processes, input, finished, ready), {};
    }

    /** Make the whole memory one hole. */
    method Initialise(ghost c: Config)
      requires Blank() && Setup(c)
      requires forall i :: 0 <= i < |all| ==> all[i].left == all[i].job.service
      modifies this`R, memory, holes
      ensures Shows(c, Start(c)) && N == old(N) && fresh(R - {memory, holes})
    {
      hide List.Chain, List.Linked, ReadyQueue.Valid, Represents, HoldsBlock;
      R := InitialiseMemory(memory, holes);
    }

    /** Settle one elapsed quantum with the process that ran. */
    method UpdateTime(process: Process?) returns (expired: bool)
      modifies if process == null then {} else {process}
      ensures expired <==> process != null && old(process.left) <= quantum
      ensures process != null ==>
        && process.left == (if expired then 0 else old(process.left) - quantum)
        && process.blockNode == old(process.blockNode)
        && process.finishTime == old(process.finishTime) && process.turnaround == old(process.turnaround)
    {
      if process == null {
        return false;
      }
      if process.left <= quantum {
        process.left := 0;
        return true;
      } else {
        process.left := process.left - quantum;
        return false;
      }
    }
  
    lemma AllDistinct(c: Config)
      requires Setup(c) && Loaded(c)
      ensures forall i, j :: 0 <= i < |all| && 0 <= j < |all| && all[i].job == all[j].job ==> i == j
    {
      assert forall i :: 0 <= i < |all| ==> all[i].job == c.jobs[i];
    }

    /** Charge the elapsed quantum to whoever ran. */
    method ChargePhase(ghost c: Config, ghost s: State) returns (expired: bool)
      requires Shows(c, s) && Loaded(c) && (noneRunning ==> current == null)
      modifies this`occupied, if current == null then {} else {current}
      ensures Shows(c, Charge(c, s)) && (expired <==> Expires(c, s))
    {
      hide List.Chain, List.Linked, ReadyQueue.Valid, Represents, Within, HoldsBlock;
      AllDistinct(c);
      occupied := occupied + [if current == null then None else Some(current.job)];
      expired := UpdateTime(current);
    }

    lemma RunnerIsUnfinished(c: Config, s: State)
      requires Shows(c, s) && Loaded(c) && Core(c, s) && s.current.Some?
      ensures current != null && !noneRunning && s.current == Some(current.job)
      ensures current !in finished.contents
    {
      PlacesApart(c, s);
      assert Bag(s.current)[current.job] == 1;
      forall k | 0 <= k < |finished.contents| ensures finished.contents[k] != current {
        assert Recorded(finished.contents[k], reported[k], s.finished[k]);
        SchedulerReports.RetiredMember(s.finished, k);
      }
    }

    /** Where the objects lie. */
    lemma Regions()
      requires Lists() && Inside() && Known() && forall p :: p in held ==> p in all
      ensures N !! R && Within(memory, holes, R) && memory in R && holes in R && this !in N && this !in R
      ensures {processes, input, finished, ready, ready.queue, ready.heap, ready.heap.data} <= N
      ensures forall i :: 0 <= i < |processes.nodes| ==> processes.nodes[i] in N
      ensures forall i :: 0 <= i < |input.nodes| ==> input.nodes[i] in N
      ensures forall i :: 0 <= i < |finished.nodes| ==> finished.nodes[i] in N
      ensures forall i :: 0 <= i < |ready.queue.nodes| ==> ready.queue.nodes[i] in N
      ensures forall i :: 0 <= i < |memory.nodes| ==> memory.nodes[i] in R
      ensures forall i :: 0 <= i < |memory.contents| ==> memory.contents[i] in R
      ensures forall i :: 0 <= i < |holes.nodes| ==> holes.nodes[i] in R
      ensures forall i :: 0 <= i < |all| ==> all[i] !in N && all[i] !in R
      ensures forall i :: 0 <= i < |finished.contents| ==> finished.contents[i] !in N && finished.contents[i] !in R
      ensures forall p :: p in held ==> p !in N && p !in R
      ensures processes != input && processes != finished && input != finished
      ensures ready.queue != processes && ready.queue != input && ready.queue != finished
    {
      forall i | 0 <= i < |finished.contents| ensures finished.contents[i] !in N && finished.contents[i] !in R {
        assert finished.contents[i] in finished.contents;
      }
    }

    lemma QueueForward()
      requires ready.Valid()
      ensures if ready.scheduler.RR? then ready.queue.Chain() else ready.queue.nodes == []
    {
      hide List.Chain;
    }

    lemma ListApart(list: List<Process>)
      requires list.Chain() && ready.Valid() && list != ready.queue
      ensures forall i :: 0 <= i < |list.nodes| ==> list.nodes[i] !in ready.queue.nodes
      ensures forall i :: 0 <= i < |ready.queue.nodes| ==> ready.queue.nodes[i] !in list.nodes
    {
      hide List.Chain, ReadyQueue.Valid;
      QueueForward();
      if ready.scheduler.RR? { ListsApart(list, ready.queue); }
    }

    /** No node is in two of the queues. */
    lemma NodesApart()
      requires Lists()
      ensures input.Chain() && processes.Chain() && finished.Chain() && ready.Valid() && input != ready.queue
      ensures strategy.BestFit? ==> input.Linked()
      ensures forall i :: 0 <= i < |finished.nodes| ==>
        && finished.nodes[i] !in processes.nodes && finished.nodes[i] !in input.nodes
        && finished.nodes[i] !in ready.queue.nodes
      ensures forall i :: 0 <= i < |processes.nodes| ==>
        && processes.nodes[i] !in finished.nodes && processes.nodes[i] !in input.nodes
        && processes.nodes[i] !in ready.queue.nodes
      ensures forall i :: 0 <= i < |input.nodes| ==> input.nodes[i] !in finished.nodes
      ensures forall i :: 0 <= i < |ready.queue.nodes| ==>
        ready.queue.nodes[i] !in finished.nodes && ready.queue.nodes[i] !in input.nodes
    {
      hide List.Chain, List.Linked, ReadyQueue.Valid;
      ListsApart(input, finished);
      ListsApart(processes, finished);
      ListsApart(input, processes);
      ListApart(input);
      ListApart(processes);
      ListApart(finished);
    }

    /** Put the running process at the back of the finished queue, leaving the rest alone. */
    method Append(ghost s: State, process: Process)
      requires Lists() && Inside() && Known()
      requires LeftShows(s.left) && QueuesShow(s) && MemoryShows(s)
      modifies finished, finished.nodes
      ensures Lists() && LeftShows(s.left) && QueuesShow(s) && MemoryShows(s)
      ensures finished.contents == old(finished.contents) + [process]
      ensures |finished.nodes| == |old(finished.nodes)| + 1
      ensures old(finished.nodes) == finished.nodes[..|old(finished.nodes)|]
      ensures fresh(finished.nodes[|old(finished.nodes)|])
      ensures input.contents == old(input.contents) && processes.contents == old(processes.contents)
    {
      hide List.Chain, List.Linked, ReadyQueue.Valid, Represents, Within, HoldsBlock, AllHold;
      NodesApart();
      Regions();
      finished.Enqueue(process);
    }

    /** Put the running process at the back of the finished queue. */
    method Enter(ghost c: Config, ghost s: State, process: Process)
      requires Shows(c, s) && process in all
      modifies this`N, finished, finished.nodes
      ensures Setup(c) && Lists() && Inside() && Known()
      ensures LeftShows(s.left) && QueuesShow(s) && MemoryShows(s)
      ensures finished.contents == old(finished.contents) + [process]
      ensures N >= old(N) && fresh(N - old(N))
    {
      hide List.Chain, List.Linked, ReadyQueue.Valid, Represents, Within, HoldsBlock, AllHold, Lists, LeftShows,
        QueuesShow, MemoryShows, FinishedShows;
      Append(s, process);
      N := N + {finished.nodes[|finished.nodes| - 1]};
    }

    /** Record when the last of the finished queue ended and how long it took. */
    method Stamp(process: Process, remaining: nat, ghost f: seq<Completion>)
      requires |finished.contents| == |f| + 1 == |reported| + 1 && finished.contents[|f|] == process
      requires forall k :: 0 <= k < |f| ==> finished.contents[k] != process
      requires forall k :: 0 <= k < |f| ==> Recorded(finished.contents[k], reported[k], f[k])
      modifies this`reported, process`finishTime, process`turnaround
      ensures FinishedShows(f + [Completion(process.job, simTime, remaining, (simTime - process.job.arrival) % WORD)])
    {
      reported := reported + [remaining];
      process.finishTime := simTime;
      process.turnaround := (simTime - process.job.arrival) % WORD;
    }

    lemma ShownSoFar(f: seq<Completion>)
      requires FinishedShows(f)
      ensures |finished.contents| == |f| == |reported|
      ensures forall k :: 0 <= k < |f| ==> Recorded(finished.contents[k], reported[k], f[k])
    {}

    /** Enter the running process into the finished queue with its times. */
    method Record(ghost c: Config, ghost s: State, process: Process, remaining: nat)
      requires Shows(c, s) && process in all && process !in finished.contents
      modifies this`N, this`reported, finished, finished.nodes, process`finishTime, process`turnaround
      ensures Shows(c, s.(finished := s.finished +
        [Completion(process.job, s.time, remaining, (s.time - process.job.arrival) % WORD)]))
      ensures N >= old(N) && fresh(N - old(N)) && ready.procs == old(ready.procs)
    {
      hide List.Chain, List.Linked, ReadyQueue.Valid, Represents, Within, HoldsBlock, AllHold, Recorded,
        FinishedShows, Lists, Inside, Known, LeftShows, QueuesShow, MemoryShows;
      ShownSoFar(s.finished);
      QueueFacts(s);
      Enter(c, s, process);
      Stamp(process, remaining, s.finished);
      OtherFinished(s, s.finished +
        [Completion(process.job, s.time, remaining, (s.time - process.job.arrival) % WORD)]);
    }

    lemma OtherFinished(s: State, f: seq<Completion>)
      requires QueuesShow(s) && MemoryShows(s)
      ensures QueuesShow(s.(finished := f)) && MemoryShows(s.(finished := f))
    {
      hide Represents, AllHold, JobsOf;
    }

    lemma HoldersApart(c: Config, s: State)
      requires Shows(c, s) && Loaded(c)
      ensures Represents(memory, holes, s.mem) && Within(memory, holes, R) && N !! R
      ensures forall p :: p in held ==> p in all && p !in R
      ensures forall p, q :: p in held && q in held && p.job == q.job ==> p == q
      ensures strategy.BestFit? ==> AllHold(held, memory.nodes, s.mem.segs)
      ensures strategy.BestFit? && s.current.Some? ==> current in held
      ensures strategy.BestFit? ==> forall p :: p in ready.procs ==> p in held
    {
      hide List.Chain, List.Linked, ReadyQueue.Valid, Represents, Within, HoldsBlock, AllHold, FinishedShows;
      AllDistinct(c);
      forall p | p in held ensures p in all && p !in R {}
    }

    /** Give back the block of the running process. */
    method FreeBlock(ghost c: Config, ghost s: State, process: Process)
      requires Shows(c, s) && Loaded(c) && s.current.Some? && process == current
      requires strategy.BestFit? && Valid(s.mem)
      modifies this`R, this`held, R, process`blockNode
      ensures Setup(c) && Lists() && Inside() && Known()
      ensures LeftShows(s.left) && FinishedShows(s.finished) && QueuesShow(s)
      ensures Represents(memory, holes, MemoryModel.Release(s.mem, process.job)) && held == old(held) - {process}
      ensures AllHold(held, memory.nodes, MemoryModel.Release(s.mem, process.job).segs)
      ensures fresh(R - old(R)) && R >= old(R)
    {
      hide List.Chain, List.Linked, ReadyQueue.Valid, Represents, Within, HoldsBlock, AllHold, Recorded, Valid,
        MemoryModel.Release;
      HoldersApart(c, s);
      Regions();
      R := GiveBack(memory, holes, process, s.mem, R, held);
      held := held - {process};
    }

    function MemoryAfter(s: State, job: Job): Mem {
      if strategy.BestFit? then MemoryModel.Release(s.mem, job) else s.mem
    }

    /** Give back the memory of the running process, if memory is limited. */
    method FreeMemory(ghost c: Config, ghost s: State, process: Process)
      requires Shows(c, s) && Loaded(c) && s.current.Some? && process == current
      requires strategy.BestFit? ==> Valid(s.mem)
      requires process !in ready.procs
      modifies this`R, this`held, R, process`blockNode
      ensures Setup(c) && Lists() && Inside() && Known()
      ensures LeftShows(s.left) && FinishedShows(s.finished) && QueuesShow(s)
      ensures Represents(memory, holes, MemoryAfter(s, process.job)) && forall p :: p in held ==> p in all
      ensures strategy.BestFit? ==> AllHold(held, memory.nodes, MemoryAfter(s, process.job).segs)
      ensures strategy.BestFit? ==> forall p :: p in ready.procs ==> p in held
      ensures fresh(R - old(R)) && R >= old(R)
    {
      hide List.Chain, List.Linked, ReadyQueue.Valid, Represents, HoldsBlock, AllHold, FinishedShows, Valid,
        MemoryModel.Release, Inside, Lists, LeftShows;
      HoldersApart(c, s);
      if strategy.BestFit? {
        FreeBlock(c, s, process);
      }
    }

    lemma VacatedShown(c: Config, s: State, job: Job)
      requires Setup(c) && Lists() && Inside() && Known() && LeftShows(s.left) && FinishedShows(s.finished)
      requires JobsOf(processes.contents) == s.pending && JobsOf(input.contents) == s.input
      requires JobsOf(ready.procs) == s.ready && simTime == s.time && occupied == s.history
      requires noneRunning && (current != null ==> current in all)
      requires Represents(memory, holes, MemoryAfter(s, job)) && forall p :: p in held ==> p in all
      requires strategy.BestFit? ==>
        AllHold(held, memory.nodes, MemoryAfter(s, job).segs) && forall p :: p in ready.procs ==> p in held
      ensures Shows(c, s.(mem := MemoryAfter(s, job), current := None, noneRunning := true))
    {
      hide Represents, AllHold, JobsOf, MemoryAfter, Lists, Inside, Known, LeftShows, FinishedShows;
    }

    /** Give back the running process's memory and leave the processor free. */
    method Release(ghost c: Config, ghost s: State, process: Process)
      requires Shows(c, s) && Loaded(c) && s.current.Some? && process == current
      requires strategy.BestFit? ==> Valid(s.mem)
      requires process !in ready.procs
      modifies this`R, this`held, this`noneRunning, this`current, R, process`blockNode
      ensures Shows(c, s.(mem := MemoryAfter(s, process.job), current := None, noneRunning := true))
      ensures fresh(R - old(R)) && R >= old(R) && noneRunning && (scheduler.SJF? ==> current == null)
    {
      hide List.Chain, List.Linked, ReadyQueue.Valid, Represents, HoldsBlock, AllHold, FinishedShows, Valid,
        MemoryModel.Release, MemoryAfter, Inside, Lists, LeftShows, QueuesShow, Known, JobsOf;
      FreeMemory(c, s, process);
      QueueFacts(s);
      if scheduler.SJF? {
        current := null;
      }
      noneRunning := true;
      VacatedShown(c, s, process.job);
    }

    lemma RunnerIsNotReady(c: Config, s: State)
      requires Shows(c, s) && Loaded(c) && Core(c, s) && s.current.Some?
      ensures current != null && current !in ready.procs && current in all
      ensures strategy.BestFit? ==> Valid(s.mem)
      ensures input.numItems == |s.input| && |ready.procs| == |s.ready| && ready.Valid()
      ensures simTime == s.time && current.job == s.current.value
      ensures finished in N && (forall n :: n in finished.nodes ==> n in N) && N !! R && Setup(c)
      ensures this !in N && this !in R && current !in N && current !in R
    {
      hide List.Linked, ReadyQueue.Valid, Represents, HoldsBlock, AllHold, FinishedShows, Valid, LeftShows;
      PlacesApart(c, s);
      assert Bag(s.current)[current.job] == 1;
      assert multiset(s.ready)[current.job] == 0;
      forall i | 0 <= i < |ready.procs| ensures ready.procs[i] != current {
        assert s.ready[i] == ready.procs[i].job && s.ready[i] in multiset(s.ready);
      }
    }

    /** Finish the running process. */
    method RetirePhase(ghost c: Config, ghost s: State)
      requires Shows(c, s) && Loaded(c) && Core(c, s) && s.current.Some?
      modifies this, N, R, all
      ensures Shows(c, Retire(c, s)) && noneRunning && (scheduler.SJF? ==> current == null)
      ensures N >= old(N) && fresh(N - old(N)) && fresh(R - old(R)) && R >= old(R)
    {
      hide Shows, Core, MemoryModel.Release, ReadyQueue.Valid;
      RunnerIsNotReady(c, s);
      RunnerIsUnfinished(c, s);
      var process := current;
      var size := ready.Size();
      var remaining := input.numItems + size;
      Record(c, s, process, remaining);
      ghost var t := s.(finished := s.finished +
        [Completion(process.job, s.time, remaining, (s.time - process.job.arrival) % WORD)]);
      Release(c, t, process);
      assert Retire(c, s) == t.(mem := MemoryAfter(t, process.job), current := None, noneRunning := true);
    }

    lemma ArrivedJobs(pending: seq<Process>, waiting: seq<Process>, k: nat)
      requires k <= |pending|
      ensures JobsOf(pending[k..]) == JobsOf(pending)[k..]
      ensures JobsOf(waiting + pending[..k]) == JobsOf(waiting) + JobsOf(pending)[..k]
      ensures forall p :: p in pending[k..] || p in pending[..k] ==> p in pending
    {}

    ghost function Arrived(s: State): State {
      var k := Arrivals(s.pending, s.time);
      s.(pending := s.pending[k..], input := s.input + s.pending[..k])
    }

    /** Move the processes that have arrived to the input queue. */
    method MoveArrivals()
      requires Lists() && Inside()
      modifies input, input.nodes, processes
      ensures Lists()
      ensures var k := Arrivals(JobsOf(old(processes.contents)), simTime);
        && processes.contents == old(processes.contents)[k..]
        && input.contents == old(input.contents) + old(processes.contents)[..k]
      ensures forall i :: 0 <= i < |input.nodes| ==> input.nodes[i] in old(input.nodes) || fresh(input.nodes[i])
      ensures forall i :: 0 <= i < |processes.nodes| ==> processes.nodes[i] in old(processes.nodes)
    {
      hide List.Chain, List.Linked, ReadyQueue.Valid, Within, Arrivals, JobsOf, Inside;
      NodesApart();
      UpdateInput(input, processes, simTime);
    }

    /** The same, leaving the records and memory alone. */
    method TakeArrivals(ghost s: State)
      requires Lists() && Inside() && Known()
      requires LeftShows(s.left) && FinishedShows(s.finished) && MemoryShows(s)
      modifies input, input.nodes, processes
      ensures Lists() && LeftShows(s.left) && FinishedShows(s.finished) && MemoryShows(s)
      ensures var k := Arrivals(JobsOf(old(processes.contents)), simTime);
        && processes.contents == old(processes.contents)[k..]
        && input.contents == old(input.contents) + old(processes.contents)[..k]
      ensures forall i :: 0 <= i < |input.nodes| ==> input.nodes[i] in old(input.nodes) || fresh(input.nodes[i])
      ensures forall i :: 0 <= i < |processes.nodes| ==> processes.nodes[i] in old(processes.nodes)
    {
      hide List.Chain, List.Linked, ReadyQueue.Valid, Represents, Within, HoldsBlock, AllHold, Recorded, Arrivals,
        JobsOf, Lists, Inside, Known;
      Regions();
      MoveArrivals();
    }

    lemma ArrivedShown(s: State, pending: seq<Process>, waiting: seq<Process>)
      requires JobsOf(pending) == s.pending && JobsOf(waiting) == s.input
      requires var k := Arrivals(s.pending, s.time);
        processes.contents == pending[k..] && input.contents == waiting + pending[..k]
      requires QueuesShow(s.(pending := JobsOf(processes.contents), input := JobsOf(input.contents)))
      ensures QueuesShow(Arrived(s))
      ensures forall p :: p in processes.contents || p in input.contents ==> p in pending || p in waiting
    {
      hide JobsOf, Arrivals;
      ArrivedJobs(pending, waiting, Arrivals(s.pending, s.time));
    }

    lemma QueueFacts(s: State)
      requires QueuesShow(s)
      ensures JobsOf(processes.contents) == s.pending && JobsOf(input.contents) == s.input && simTime == s.time
      ensures JobsOf(ready.procs) == s.ready && noneRunning == s.noneRunning && occupied == s.history
      ensures current != null ==> current in all
      ensures s.current == if current == null || noneRunning then None else Some(current.job)
    {}

    /** Take in the processes that have arrived. */
    method Arrive(ghost c: Config, ghost s: State)
      requires Shows(c, s)
      modifies this`N, input, input.nodes, processes
      ensures Setup(c) && Lists() && Inside() && Known()
      ensures LeftShows(s.left) && FinishedShows(s.finished) && QueuesShow(Arrived(s)) && MemoryShows(s)
      ensures N >= old(N) && fresh(N - old(N))
    {
      hide List.Chain, List.Linked, ReadyQueue.Valid, Represents, Within, HoldsBlock, AllHold, Recorded, Arrivals,
        JobsOf, Lists, Arrived, LeftShows, FinishedShows;
      Regions();
      QueueFacts(s);
      ghost var pending, waiting := processes.contents, input.contents;
      TakeArrivals(s);
      ArrivedShown(s, pending, waiting);
      N := N + set n | n in input.nodes;
    }

    lemma HeldFacts(s: State)
      requires MemoryShows(s)
      ensures Represents(memory, holes, s.mem) && forall p :: p in held ==> p in all
      ensures strategy.BestFit? ==>
        AllHold(held, memory.nodes, s.mem.segs) && forall p :: p in ready.procs ==> p in held
      ensures strategy.BestFit? && current != null && !noneRunning ==> current in held
    {}

    lemma OutsideMemory()
      requires Lists() && Inside() && Known() && forall p :: p in held ==> p in all
      ensures Outside(input, ready, R) && forall p :: p in held ==> p !in R
    {
      hide List.Chain, List.Linked, ReadyQueue.Valid, Within;
      Regions();
      forall i | 0 <= i < |input.contents| ensures input.contents[i] !in R {
        assert input.contents[i] in input.contents;
      }
    }

    /** The pass under best fit, with what it leaves alone. */
    method ServeBestFit(ghost s: State)
      requires Lists() && Inside() && Known() && QueuesShow(s) && MemoryShows(s)
      requires strategy.BestFit? && Valid(s.mem) && Askers(s.input, s.mem)
      modifies this`R, this`held, R, (set p | p in input.contents)`blockNode, input, input.nodes
      modifies ready, ready.queue, ready.queue.nodes, ready.heap, ready.heap.data
      ensures Lists() && Outside(input, ready, R) && Within(memory, holes, R)
      ensures R >= old(R) && fresh(R - old(R))
      ensures var a := Admit(strategy, s.input, s.mem);
        && JobsOf(input.contents) == a.kept
        && JobsOf(ready.procs) == AddAll(scheduler, s.ready, a.admitted)
        && Represents(memory, holes, a.mem)
        && AllHold(held, memory.nodes, a.mem.segs)
      ensures forall p :: p in ready.procs ==> p in held
      ensures forall p :: p in held ==> p in all && p !in R
      ensures held >= old(held)
      ensures forall p :: p in input.contents ==> p in old(input.contents)
      ensures forall p :: p in ready.procs ==> p in old(ready.procs) || p in old(input.contents)
      ensures forall j :: 0 <= j < |ready.queue.nodes| ==>
        ready.queue.nodes[j] in old(ready.queue.nodes) || fresh(ready.queue.nodes[j])
      ensures ready.heap.data == old(ready.heap.data) || fresh(ready.heap.data)
      ensures forall j :: 0 <= j < |input.nodes| ==> input.nodes[j] in old(input.nodes)
    {
      hide List.Chain, List.Linked, ReadyQueue.Valid, Represents, Within, HoldsBlock, AllHold, JobsOf, Admit, AddAll,
        Askers, Valid, Outside, MemoryShows, QueuesShow;
      HeldFacts(s);
      QueueFacts(s);
      OutsideMemory();
      NodesApart();
      Regions();
      R, held := AllocateBestFit(memory, holes, input, ready, s.mem, R, held);
      Forward(input);
    }

    /** The state after the allocation pass. */
    ghost function Served(s: State): State {
      var a := Admit(strategy, s.input, s.mem);
      s.(input := a.kept, mem := a.mem, ready := AddAll(scheduler, s.ready, a.admitted))
    }

    lemma ServedLeaves(s: State)
      ensures Served(s).left == s.left && Served(s).finished == s.finished
    {}

    lemma ServedShown(s: State)
      requires var a := Admit(strategy, s.input, s.mem);
        && JobsOf(input.contents) == a.kept
        && JobsOf(ready.procs) == AddAll(scheduler, s.ready, a.admitted)
        && Represents(memory, holes, a.mem)
        && (strategy.BestFit? ==> AllHold(held, memory.nodes, a.mem.segs))
      requires JobsOf(processes.contents) == s.pending
      requires simTime == s.time && noneRunning == s.noneRunning && occupied == s.history
      requires current != null ==> current in all
      requires s.current == if current == null || noneRunning then None else Some(current.job)
      requires strategy.BestFit? ==> forall p :: p in ready.procs ==> p in held
      requires forall p :: p in held ==> p in all
      requires strategy.BestFit? && current != null && !noneRunning ==> current in held
      ensures QueuesShow(Served(s)) && MemoryShows(Served(s))
    {
      hide Represents, AllHold, Admit, AddAll, JobsOf;
    }

    /** The pass under best fit leaves the records alone. */
    method RecordsStay(ghost s: State)
      requires Lists() && Inside() && Known() && QueuesShow(s) && MemoryShows(s)
      requires LeftShows(s.left) && FinishedShows(s.finished)
      requires strategy.BestFit? && Valid(s.mem) && Askers(s.input, s.mem)
      modifies this`R, this`held, R, (set p | p in input.contents)`blockNode, input, input.nodes
      modifies ready, ready.queue, ready.queue.nodes, ready.heap, ready.heap.data
      ensures Lists() && Outside(input, ready, R) && Within(memory, holes, R)
      ensures R >= old(R) && fresh(R - old(R))
      ensures QueuesShow(Served(s)) && MemoryShows(Served(s)) && Known()
      ensures LeftShows(s.left) && FinishedShows(s.finished)
      ensures processes.nodes == old(processes.nodes) && finished.nodes == old(finished.nodes)
      ensures forall j :: 0 <= j < |ready.queue.nodes| ==>
        ready.queue.nodes[j] in old(ready.queue.nodes) || fresh(ready.queue.nodes[j])
      ensures ready.heap.data == old(ready.heap.data) || fresh(ready.heap.data)
      ensures forall j :: 0 <= j < |input.nodes| ==> input.nodes[j] in old(input.nodes)
    {
      hide List.Chain, List.Linked, ReadyQueue.Valid, Represents, Within, HoldsBlock, AllHold, JobsOf, Admit, AddAll,
        Askers, Valid, Outside, MemoryShows, Lists, Inside, Recorded, Served;
      HeldFacts(s);
      Regions();
      ServeBestFit(s);
      ServedShown(s);
    }

    /** The ready queue's new objects join those of the other queues. */
    lemma InsideAgain(N0: set<object>)
      requires N == N0 + {ready.heap.data} + set n | n in ready.queue.nodes
      requires {processes, input, finished, ready, ready.queue, ready.heap} <= N0 && N0 !! R
      requires forall i :: 0 <= i < |processes.nodes| ==> processes.nodes[i] in N0
      requires forall i :: 0 <= i < |input.nodes| ==> input.nodes[i] in N0
      requires forall i :: 0 <= i < |finished.nodes| ==> finished.nodes[i] in N0
      requires this !in N && this !in R && forall i :: 0 <= i < |all| ==> all[i] !in N && all[i] !in R
      requires Outside(input, ready, R) && Within(memory, holes, R)
      ensures Inside()
    {
      hide Within;
    }

    /** Where the queues' objects lie before the pass. */
    lemma InsideFacts()
      requires Inside()
      ensures {processes, input, finished, ready, ready.queue, ready.heap, ready.heap.data} <= N
      ensures N !! R && this !in N && this !in R
      ensures forall i :: 0 <= i < |ready.queue.nodes| ==> ready.queue.nodes[i] in N
      ensures forall i :: 0 <= i < |processes.nodes| ==> processes.nodes[i] in N
      ensures forall i :: 0 <= i < |input.nodes| ==> input.nodes[i] in N
      ensures forall i :: 0 <= i < |finished.nodes| ==> finished.nodes[i] in N
      ensures forall i :: 0 <= i < |all| ==> all[i] !in N && all[i] !in R
    {}

    /** The pass under best fit, as the whole simulator sees it. */
    method AdmitBestFit(ghost c: Config, ghost s: State)
      requires Shows(c, s) && strategy.BestFit? && Valid(s.mem) && Askers(s.input, s.mem)
      modifies this`N, this`R, this`held, R, (set p | p in input.contents)`blockNode, input, input.nodes
      modifies ready, ready.queue, ready.queue.nodes, ready.heap, ready.heap.data
      ensures Shows(c, Served(s))
      ensures R >= old(R) && fresh(R - old(R)) && N >= old(N) && fresh(N - old(N))
    {
      hide List.Chain, List.Linked, ReadyQueue.Valid, Represents, Within, HoldsBlock, AllHold, JobsOf, Admit, AddAll,
        Askers, Valid, MemoryShows, Lists, Recorded, Known, LeftShows, FinishedShows, QueuesShow, Inside, Placed,
        Outside, Served;
      InsideFacts();
      ghost var before := N;
      RecordsStay(s);
      N := N + {ready.heap.data} + set n | n in ready.queue.nodes;
      InsideAgain(before);
      ServedLeaves(s);
    }

    /** The pass without a memory limit, with what it leaves alone. */
    method ServeInfinite(ghost s: State)
      requires Lists() && Inside() && Known() && QueuesShow(s) && MemoryShows(s)
      requires LeftShows(s.left) && FinishedShows(s.finished) && strategy.Infinite?
      modifies input, ready, ready.queue, ready.queue.nodes, ready.heap, ready.heap.data
      ensures Lists() && LeftShows(s.left) && FinishedShows(s.finished) && Represents(memory, holes, s.mem)
      ensures Within(memory, holes, R)
      ensures input.contents == []
      ensures JobsOf(ready.procs) == AddAll(scheduler, s.ready, s.input)
      ensures forall p :: p in ready.procs ==> p in old(ready.procs) || p in old(input.contents)
      ensures forall j :: 0 <= j < |ready.queue.nodes| ==>
        ready.queue.nodes[j] in old(ready.queue.nodes) || fresh(ready.queue.nodes[j])
      ensures ready.heap.data == old(ready.heap.data) || fresh(ready.heap.data)
      ensures forall j :: 0 <= j < |input.nodes| ==> input.nodes[j] in old(input.nodes)
    {
      hide List.Chain, List.Linked, ReadyQueue.Valid, Represents, Within, HoldsBlock, AllHold, JobsOf, AddAll,
        Recorded, MemoryShows, QueuesShow;
      HeldFacts(s);
      QueueFacts(s);
      NodesApart();
      Regions();
      AllocateInfinite(input, ready);
    }

    /** The pass without a memory limit, in terms of states. */
    method PassInfinite(ghost s: State)
      requires Lists() && Inside() && Known() && QueuesShow(s) && MemoryShows(s)
      requires LeftShows(s.left) && FinishedShows(s.finished) && strategy.Infinite?
      modifies input, ready, ready.queue, ready.queue.nodes, ready.heap, ready.heap.data
      ensures Lists() && LeftShows(s.left) && FinishedShows(s.finished) && Known()
      ensures QueuesShow(Served(s)) && MemoryShows(Served(s)) && Within(memory, holes, R)
      ensures processes.nodes == old(processes.nodes) && finished.nodes == old(finished.nodes)
      ensures forall j :: 0 <= j < |ready.queue.nodes| ==>
        ready.queue.nodes[j] in old(ready.queue.nodes) || fresh(ready.queue.nodes[j])
      ensures ready.heap.data == old(ready.heap.data) || fresh(ready.heap.data)
      ensures forall j :: 0 <= j < |input.nodes| ==> input.nodes[j] in old(input.nodes)
    {
      hide List.Chain, List.Linked, ReadyQueue.Valid, Represents, Within, HoldsBlock, AllHold, JobsOf, Admit, AddAll,
        Lists, Recorded, LeftShows, FinishedShows, QueuesShow, MemoryShows, Served;
      HeldFacts(s);
      QueueFacts(s);
      AdmitAllWithoutLimit(s.input, s.mem);
      Regions();
      ServeInfinite(s);
      ServedShown(s);
    }

    /** The pass without a memory limit, as the whole simulator sees it. */
    method AdmitInfinite(ghost c: Config, ghost s: State)
      requires Shows(c, s) && strategy.Infinite?
      modifies this`N, input, ready, ready.queue, ready.queue.nodes, ready.heap, ready.heap.data
      ensures Shows(c, Served(s))
      ensures N >= old(N) && fresh(N - old(N))
    {
      hide List.Chain, List.Linked, ReadyQueue.Valid, Represents, Within, HoldsBlock, AllHold, JobsOf, Admit, AddAll,
        Lists, Recorded, LeftShows, FinishedShows, QueuesShow, MemoryShows, Known;
      PassInfinite(s);
      N := N + {ready.heap.data} + set n | n in ready.queue.nodes;
    }

    /** What intake finds: the memory is valid and whoever asks is a newcomer. */
    lemma IntakeReady(c: Config, s: State)
      requires Shows(c, s) && Loaded(c) && Core(c, s)
      ensures strategy.BestFit? ==> Valid(Arrived(s).mem) && Askers(Arrived(s).input, Arrived(s).mem)
      ensures Served(Arrived(s)) == Intake(c, s)
    {
      hide Valid, Askers, Admit, AddAll, Arrivals, Lists, Inside, LeftShows, FinishedShows, QueuesShow, MemoryShows,
        Known;
      if strategy.BestFit? { AskersReady(c, s, Arrivals(s.pending, s.time)); }
    }

    /** What intake may touch. */
    lemma Touched(c: Config, s: State)
      requires Shows(c, s)
      ensures {processes, input, ready, ready.queue, ready.heap, ready.heap.data} <= N && this !in N && this !in R
      ensures forall i :: 0 <= i < |input.nodes| ==> input.nodes[i] in N
      ensures forall i :: 0 <= i < |ready.queue.nodes| ==> ready.queue.nodes[i] in N
      ensures forall p :: p in input.contents ==> p in all
    {}

    /** Take in arrivals and hand out memory. */
    method IntakePhase(ghost c: Config, ghost s: State)
      requires Shows(c, s) && Loaded(c) && Core(c, s)
      modifies this`N, this`R, this`held, N, R, all`blockNode
      ensures Shows(c, Intake(c, s))
      ensures R >= old(R) && fresh(R - old(R)) && N >= old(N) && fresh(N - old(N))
    {
      hide Core, Valid, Askers, Intake, Arrived, Served, Lists, Inside, LeftShows, FinishedShows, QueuesShow,
        MemoryShows, Known;
      IntakeReady(c, s);
      Touched(c, s);
      Arrive(c, s);
      ArrivedShows(c, s);
      Touched(c, Arrived(s));
      if strategy.BestFit? {
        AdmitBestFit(c, Arrived(s));
      } else {
        AdmitInfinite(c, Arrived(s));
      }
    }

    lemma ArrivedShows(c: Config, s: State)
      requires Setup(c) && Lists() && Inside() && Known()
      requires LeftShows(s.left) && FinishedShows(s.finished) && QueuesShow(Arrived(s)) && MemoryShows(s)
      ensures Shows(c, Arrived(s))
    {
      hide Lists, Inside, LeftShows, FinishedShows, QueuesShow, Known, Represents, AllHold;
    }

    /** Take the next process out of the ready queue. */
    method TakeNext(ghost s: State) returns (process: Process)
      requires Lists() && Inside() && Known() && MemoryShows(s)
      requires LeftShows(s.left) && FinishedShows(s.finished) && ready.procs != []
      modifies ready, ready.queue, ready.heap, ready.heap.data
      ensures Lists() && Inside() && Known()
      ensures LeftShows(s.left) && FinishedShows(s.finished) && MemoryShows(s)
      ensures process == old(ready.procs)[0]
      ensures JobsOf(ready.procs) == WithoutNext(scheduler, old(JobsOf(ready.procs)))
      ensures forall p :: p in ready.procs ==> p in old(ready.procs)
      ensures input.contents == old(input.contents) && processes.contents == old(processes.contents)
      ensures finished.contents == old(finished.contents)
    {
      hide List.Chain, List.Linked, ReadyQueue.Valid, Represents, Within, HoldsBlock, AllHold, JobsOf, WithoutNext,
        Recorded;
      NodesApart();
      Regions();
      process := ready.Extract();
    }

    lemma FirstInLine(s: State)
      requires QueuesShow(s) && MemoryShows(s) && Known()
      ensures ready.procs == [] <==> s.ready == []
      ensures ready.procs != [] ==> ready.procs[0].job == s.ready[0] && ready.procs[0] in all
      ensures ready.procs != [] && strategy.BestFit? ==> ready.procs[0] in held
    {}

    /** The first in the ready queue leaves it, to become the running process. */
    lemma DispatchShown(c: Config, s: State, process: Process)
      requires Setup(c) && Lists() && Inside() && Known() && LeftShows(s.left) && FinishedShows(s.finished)
      requires s.ready != [] && process.job == s.ready[0] && current == process && process in all && !noneRunning
      requires JobsOf(processes.contents) == s.pending && JobsOf(input.contents) == s.input
      requires JobsOf(ready.procs) == WithoutNext(scheduler, s.ready)
      requires simTime == s.time && occupied == s.history
      requires Represents(memory, holes, s.mem) && forall p :: p in held ==> p in all
      requires strategy.BestFit? ==>
        AllHold(held, memory.nodes, s.mem.segs) && process in held && forall p :: p in ready.procs ==> p in held
      ensures Shows(c, Dispatch(c, s))
    {
      hide Represents, AllHold, JobsOf, WithoutNext, Lists, Inside, Known, LeftShows, FinishedShows;
    }

    method RunFirst(ghost c: Config, ghost s: State) returns (process: Process)
      requires Shows(c, s) && s.ready != []
      modifies ready, ready.queue, ready.heap, ready.heap.data, this`current, this`noneRunning
      ensures process == current && !noneRunning && Shows(c, Dispatch(c, s))
    {
      hide List.Chain, List.Linked, ReadyQueue.Valid, Represents, Within, HoldsBlock, AllHold, JobsOf, WithoutNext,
        Lists, Inside, FinishedShows, LeftShows, QueuesShow, MemoryShows, Known;
      FirstInLine(s);
      QueueFacts(s);
      process := TakeNext(s);
      HeldFacts(s);
      current, noneRunning := process, false;
      DispatchShown(c, s, process);
    }

    /** Run the next process of the ready queue, if there is one. */
    method RunNextProcess(ghost c: Config, ghost s: State) returns (process: Process?)
      requires Shows(c, s)
      modifies ready, ready.queue, ready.heap, ready.heap.data, this`current, this`noneRunning
      ensures s.ready == [] ==> process == null && Shows(c, s)
      ensures s.ready != [] ==> process == current && !noneRunning && Shows(c, Dispatch(c, s))
    {
      hide Lists, Inside, FinishedShows, LeftShows, QueuesShow, MemoryShows, ReadyQueue.Valid, List.Chain;
      FirstInLine(s);
      NodesApart();
      var empty := ready.IsEmpty();
      if empty {
        return null;
      }
      process := RunFirst(c, s);
    }

    lemma RunnerFacts(s: State)
      requires QueuesShow(s) && MemoryShows(s) && Known() && s.current.Some?
      ensures current != null && !noneRunning && current in all && s.current == Some(current.job)
      ensures strategy.BestFit? ==> current in held
    {}

    ghost function Requeued(s: State): State {
      if s.current.Some? then s.(ready := s.ready + [s.current.value]) else s
    }

    lemma RequeueShown(s: State)
      requires s.current.Some? && JobsOf(ready.procs) == s.ready + [s.current.value]
      requires JobsOf(processes.contents) == s.pending && JobsOf(input.contents) == s.input
      requires simTime == s.time && noneRunning == s.noneRunning && occupied == s.history
      requires current != null ==> current in all
      requires s.current == if current == null || noneRunning then None else Some(current.job)
      requires MemoryShows(s)
      ensures QueuesShow(Requeued(s)) && MemoryShows(Requeued(s))
    {
      hide JobsOf, Represents, AllHold;
    }

    /** Put the running process at the back of the ready queue, leaving the rest alone. */
    method PutBack(ghost s: State)
      requires Lists() && Inside() && Known() && MemoryShows(s) && QueuesShow(s)
      requires LeftShows(s.left) && FinishedShows(s.finished) && scheduler.RR? && s.current.Some?
      modifies ready, ready.queue, ready.queue.nodes, ready.heap, ready.heap.data
      ensures Lists() && LeftShows(s.left) && FinishedShows(s.finished) && Known()
      ensures QueuesShow(Requeued(s)) && MemoryShows(Requeued(s))
      ensures forall j :: 0 <= j < |ready.queue.nodes| ==>
        ready.queue.nodes[j] in old(ready.queue.nodes) || fresh(ready.queue.nodes[j])
      ensures ready.heap.data == old(ready.heap.data) || fresh(ready.heap.data)
      ensures input.nodes == old(input.nodes) && processes.nodes == old(processes.nodes)
      ensures finished.nodes == old(finished.nodes) && Within(memory, holes, R)
    {
      hide List.Chain, List.Linked, ReadyQueue.Valid, Represents, Within, HoldsBlock, AllHold, JobsOf, Recorded,
        QueuesShow, Requeued;
      NodesApart();
      Regions();
      RunnerFacts(s);
      QueueFacts(s);
      ready.Insert(current);
      RequeueShown(s);
    }

    /** Put the running process at the back of the ready queue. */
    method Requeue(ghost c: Config, ghost s: State)
      requires Shows(c, s) && scheduler.RR? && s.current.Some?
      modifies this`N, ready, ready.queue, ready.queue.nodes, ready.heap, ready.heap.data
      ensures Shows(c, Requeued(s))
      ensures N >= old(N) && fresh(N - old(N))
    {
      hide List.Chain, List.Linked, ReadyQueue.Valid, Represents, Within, HoldsBlock, AllHold, JobsOf, Recorded,
        Lists, LeftShows, FinishedShows, QueuesShow, Known, MemoryShows;
      PutBack(s);
      N := N + {ready.heap.data} + set n | n in ready.queue.nodes;
    }

    lemma ReadyFacts(c: Config, s: State)
      requires Shows(c, s)
      ensures ready.Valid() && (ready.procs == [] <==> s.ready == []) && noneRunning == s.noneRunning
      ensures s.current == (if current == null || noneRunning then None else Some(current.job)) && Setup(c)
    {}

    /** Nobody is ready, so nobody runs. */
    method Idle(ghost c: Config, ghost s: State)
      requires Shows(c, s) && noneRunning
      modifies this`current
      ensures Shows(c, s.(current := None)) && current == null
    {
      hide Lists, Inside, LeftShows, FinishedShows, Represents, AllHold, JobsOf;
      current := null;
    }

    /** Choose who runs in the quantum that starts now.  False means that the program goes on with a process that
        does not exist. */
    method SchedulePhase(ghost c: Config, ghost s: State) returns (goesOn: bool)
      requires Shows(c, s)
      modifies this`N, this`current, this`noneRunning, N
      ensures if goesOn then Schedule(c, s).Running? else Schedule(c, s).Crashed?
      ensures goesOn ==> Shows(c, Schedule(c, s).state) && (noneRunning ==> current == null)
      ensures N >= old(N) && fresh(N - old(N))
    {
      hide Lists, Inside, LeftShows, FinishedShows, QueuesShow, MemoryShows, Known, ReadyQueue.Valid, WithoutNext;
      ReadyFacts(c, s);
      Touched(c, s);
      var empty := ready.IsEmpty();
      if noneRunning {
        if empty {
          Idle(c, s);
        } else {
          var process := RunNextProcess(c, s);
        }
      } else if current == null {
        return false;
      } else if scheduler.RR? && !empty {
        Requeue(c, s);
        ghost var t := Requeued(s);
        Touched(c, t);
        var process := RunNextProcess(c, t);
      }
      return true;
    }

    /** Let the quantum elapse. */
    method Tick(ghost c: Config, ghost s: State)
      requires Shows(c, s)
      modifies this`simTime
      ensures Shows(c, s.(time := (s.time + c.quantum) % WORD))
    {
      hide Lists, Inside, LeftShows, FinishedShows, Known, JobsOf, Represents, AllHold;
      simTime := (simTime + quantum) % WORD;
    }

    /** The first cycle. */
    method FirstTurn(ghost c: Config)
      requires Shows(c, Start(c)) && Loaded(c)
      modifies this, N, R, all
      ensures Shows(c, SchedulerModel.First(c)) && (noneRunning ==> current == null)
      ensures R >= old(R) && fresh(R - old(R)) && N >= old(N) && fresh(N - old(N))
    {
      hide Shows, Intake, WithoutNext;
      StartBooks(c);
      IntakePhase(c, Start(c));
      ghost var s := Intake(c, Start(c));
      IntakeLeaves(c, Start(c));
      TouchedNow(c, s);
      var process := RunNextProcess(c, s);
      ghost var d := if s.ready == [] then s else Dispatch(c, s);
      TouchedNow(c, d);
      Tick(c, d);
    }

    lemma TouchedNow(c: Config, s: State)
      requires Shows(c, s)
      ensures {ready, ready.queue, ready.heap, ready.heap.data} <= N && noneRunning == s.noneRunning
    {}

    lemma SizesShown(c: Config, s: State)
      requires Shows(c, s)
      ensures finished.numItems == |s.finished| && numProcesses == |c.jobs|
    {}

    /** Where a process may be changed in place. */
    lemma RunnerIsLoaded(c: Config, s: State)
      requires Shows(c, s)
      ensures (current != null ==> current in all) && this !in N && this !in R && N !! R
      ensures noneRunning ==> s.current.None? && s.noneRunning
    {}

    /** Settle the elapsed quantum; true when that retires the last process. */
    method SettlePhase(ghost c: Config, ghost s: State) returns (allDone: bool)
      requires Shows(c, s) && Loaded(c) && Core(c, s) && (noneRunning ==> current == null)
      modifies this, N, R, all
      ensures Shows(c, Settle(c, s))
      ensures allDone <==> Expires(c, s) && |Settle(c, s).finished| == |c.jobs|
      ensures R >= old(R) && fresh(R - old(R)) && N >= old(N) && fresh(N - old(N))
    {
      hide Shows, Retire, Core;
      RunnerIsLoaded(c, s);
      ChargeKeepsCore(c, s);
      var expired := ChargePhase(c, s);
      if expired {
        RetirePhase(c, Charge(c, s));
        SizesShown(c, Retire(c, Charge(c, s)));
        allDone := finished.numItems == numProcesses;
      } else {
        allDone := false;
      }
    }

    lemma ChargeKeepsCore(c: Config, s: State)
      requires Core(c, s)
      ensures Core(c, Charge(c, s)) && (Expires(c, s) ==> Charge(c, s).current.Some?)
    {}

    /** Every cycle but the first. */
    method Turn(ghost c: Config, ghost s: State) returns (v: Verdict)
      requires Shows(c, s) && Loaded(c) && Core(c, s) && (noneRunning ==> current == null)
      modifies this, N, R, all
      ensures v.AllDone? <==> Step(c, s).Finished?
      ensures v.Fault? <==> Step(c, s).Crashed?
      ensures !v.Fault? ==> Shows(c, Step(c, s).state)
      ensures v.GoOn? ==> noneRunning ==> current == null
      ensures R >= old(R) && fresh(R - old(R)) && N >= old(N) && fresh(N - old(N))
    {
      hide Shows, Settle, Core, Intake, Schedule;
      SettleKeeps(c, s);
      ghost var t := Settle(c, s);
      var allDone := SettlePhase(c, s);
      if allDone {
        return AllDone;
      }
      IntakePhase(c, t);
      RunnerIsLoaded(c, Intake(c, t));
      var goesOn := SchedulePhase(c, Intake(c, t));
      if !goesOn {
        return Fault;
      }
      Tick(c, Schedule(c, Intake(c, t)).state);
      return GoOn;
    }

    /** All cycles, from loaded processes to the last finish. */
    method RunToEnd(ghost c: Config) returns (ghost n: nat)
      requires Blank() && Setup(c) && Loaded(c) && Runnable(c) && Reachable(c)
      requires forall i :: 0 <= i < |all| ==> all[i].left == all[i].job.service
      modifies this, N, memory, holes, all
      ensures Run(c, n).Finished? && Shows(c, Run(c, n).state)
    {
      hide Shows, Blank, Step, SchedulerModel.First, LiveAt, Core, Runnable, Reachable, Length, Run, AtBoundary,
        Setup;
      Initialise(c);
      FirstTurn(c);
      n := 0;
      FirstBoundary(c);
      var v := GoOn;
      while v.GoOn?
        invariant !v.Fault? && fresh(R - {memory, holes}) && fresh(N - old(N))
        invariant if v.GoOn? then AtBoundary(c, n) && (noneRunning ==> current == null) else Run(c, n).Finished?
        invariant Run(c, n).Running? || Run(c, n).Finished?
        invariant Shows(c, Run(c, n).state)
        decreases Length(c) - n, v.GoOn?
      {
        NextBoundary(c, n);
        v := Turn(c, Run(c, n).state);
        n := n + 1;
      }
    }
  }

  /** What becomes of the loop after a cycle: another cycle, the end, or the use of a process that does not exist. */
  datatype Verdict = GoOn | AllDone | Fault

  /** A cycle boundary of the run that is not the last. */
  ghost predicate AtBoundary(c: Config, n: nat)
    requires c.quantum > 0
  {
    Run(c, n).Running? && LiveAt(c, n)
  }

  lemma FirstBoundary(c: Config)
    requires Loaded(c) && Runnable(c) && Reachable(c)
    ensures AtBoundary(c, 0) && Run(c, 0).Running? && Run(c, 0).state == SchedulerModel.First(c)
  {
    hide LiveAt, SchedulerModel.First;
    FirstLiveAt(c);
  }

  lemma NextBoundary(c: Config, n: nat)
    requires Loaded(c) && Runnable(c) && Reachable(c) && AtBoundary(c, n)
    ensures Core(c, Run(c, n).state) && n < Length(c)
    ensures Run(c, n + 1) == Step(c, Run(c, n).state)
    ensures !Run(c, n + 1).Crashed? && (Run(c, n + 1).Running? ==> AtBoundary(c, n + 1))
  {
    hide Core, Books, Paced, Step, Runnable, Reachable, Length;
    NextLive(c, n);
    var s := Run(c, n).state;
    CoreConserves(c, s);
    LiveBound(c, s);
  }

  /** Empty queues and empty memory lists around the loaded processes. */
  method Create(scheduler: Scheduler, strategy: Strategy, quantum: nat, processes: List<Process>)
    returns (sim: Simulator)
    requires processes.Chain()
    ensures sim.Blank() && fresh(sim) && fresh(sim.memory) && fresh(sim.holes)
    ensures sim.scheduler == scheduler && sim.strategy == strategy && sim.quantum == quantum
    ensures sim.processes == processes
    ensures forall o :: o in sim.N ==> fresh(o) || o == processes || o in processes.nodes
  {
    hide List.Chain, List.Linked, ReadyQueue.Valid, Simulator.Blank;
    var memory := new List<Block>();
    var holes := new List<Node<Block>>();
    var input := new List<Process>();
    var finished := new List<Process>();
    var ready := new ReadyQueue(scheduler);
    sim := new Simulator(scheduler, strategy, quantum, processes, input, finished, ready, memory, holes);
  }

  /** The whole simulation of a workload that can end at all. It ends, and then the records show the final state of the
      run: when each process finished, that every queue is empty and that memory is one hole again. */
  method Cycle(scheduler: Scheduler, strategy: Strategy, quantum: nat, processes: List<Process>)
    returns (sim: Simulator, ghost n: nat)
    requires processes.Chain()
    requires forall i :: 0 <= i < |processes.contents| ==>
      processes.contents[i].left == processes.contents[i].job.service
    requires var c := Config(JobsOf(processes.contents), quantum, scheduler, strategy);
      Loaded(c) && Runnable(c) && Reachable(c)
    modifies processes, processes.nodes, processes.contents
    ensures var c := Config(JobsOf(old(processes.contents)), quantum, scheduler, strategy);
      && Run(c, n).Finished? && sim.Shows(c, Run(c, n).state)
      && sim.simTime == quantum * Length(c) % WORD && (Fits(c) ==> sim.simTime == quantum * Length(c))
      && Length(c) == Work(quantum, c.jobs) + IdleQuanta(Run(c, n).state)
      && sim.processes.contents == [] && sim.input.contents == [] && sim.ready.procs == []
      && (strategy.BestFit? ==> Represents(sim.memory, sim.holes, INITIAL))
  {
    hide Simulator.Shows, Simulator.Blank, Runnable, Reachable, Fits, Run, Represents, Loaded, List.Chain;
    ghost var c := Config(JobsOf(processes.contents), quantum, scheduler, strategy);
    sim := Create(scheduler, strategy, quantum, processes);
    sim.BlankFacts();
    n := sim.RunToEnd(c);
    Makespan(c, n);
    EndsEmpty(c, n);
    sim.EndShown(c, Run(c, n).state);
  }
}
