# Verified model of the process scheduler and memory allocator

The program simulates the scheduling of processes from a file: quantum by quantum it takes in arrivals, gives out
memory, chooses who runs, and retires whoever is done. It schedules by shortest job first (SJF) or round robin (RR),
with unlimited memory or with best fit over 2048 units, and each simulated process hashes the messages it was sent.
This project models five parts of it and proves what they are for.

1. **Best-fit allocator** (`MemoryModel`, `MemoryLemmas`, `MemoryTheorems`, `MemoryHistory` on values; `LinkedLists`,
   `ProcessData`, `Allocator` on linked nodes). The block list tiles `[0, 2048)`, the size-ordered index of holes is a
   second linked list whose entries are nodes of the first, and every operation on the two lists is proved equal to the
   operation on values.
2. **Scheduling loop** (`SchedulerModel`, `AdmissionLemmas`, `SchedulerInvariants`, `SchedulerAccounting`,
   `ClockArithmetic`, `SchedulerClock`, `SchedulerRuns`, `SchedulerService`, `SchedulerReports`, `SchedulerMemory` on
   states; `ReadyQueues`, `AdmissionPass`, `Simulation` on the real queues). A cycle is a function `Step` on states, a
   run is its iteration `Run`, and the methods of `Simulation.Simulator` are proved to keep the objects showing exactly
   the state that `Step` computes.
3. **Ready heap of SJF** (`Jobs`, `HeapModel`, `MinHeaps`).
4. **SHA-256** (`Sha256`) as the fold of section 6.2 of RFC 6234 over the padding of its section 4.1; where its constants
   come from (`Sha256Constants`) and a published digest (`Sha256Example`).
5. **The XOR store** of the child processes (`HashStore`).

Each imperative part has two layers. A functional model defines what every operation computes, and the theorems are
about that model. Classes with the program's fields and loops are then proved to compute it, object by object: links,
index entries, array cells, who holds which block node. `Simulation.Cycle` joins all of it: from a list of loaded
processes, the class-level simulation ends, in a state that the theorems describe.

The main results: a loaded workload finishes if and only if its first process arrives at time 0, everybody fits into
empty memory, and every arrival is at most 2^32 - gcd(quantum, 2^32), the latest time that the 32-bit clock ever shows
(`FinishesIff`, `EverShown`); it crashes if and only if nobody who fits is there at time 0 (`CrashesIffNobodyStarts`);
otherwise it runs for ever (`RunsForeverIff`). The processor is never idle while an arrived process is unfinished
(`NeverStalls`); a run that ends takes exactly as many cycles as its arrivals, service times and quantum determine,
whatever the scheduler and the memory strategy (`Terminates`, `Makespan`, `SameMakespan`). RR dispatches position `k`
exactly `k + 1` cycles later (`RoundRobinExact`); SJF dispatches whoever needs the least service and lets it run for
exactly ceil(service / quantum) cycles (`ShortestJobFirst`, `ShortestStarts`). A recorded finish time is the end of the
last quantum in which the process ran (`FinishTimes`). Any sequence of allocations and releases keeps tiling, coalescing
and the index (`AnySequence`), an allocation followed by its release changes nothing (`ReleaseUndoesAllocate`), and of
equally good holes the newest is taken, in any history and at every request of every run (`NewestOfEqualsWins`,
`SchedulerTakesNewest`). The hash has the standard's constants and digest (`ConstantsAreCubeRoots`, `AbcDigest`), and
every byte that a child stores goes into exactly one cell (`OneByteStored`).

## Reading guide

- `Loaded`: the processes are distinct records, the quantum is positive, and with best fit everybody asks for some
  memory. Conservation, service accounting and the reports are proved for every loaded workload; the guarantees of the
  two schedulers for every loaded workload that starts, that is, in whose first cycle somebody is dispatched.
- `Runnable`: the list is nonempty, its first process arrives at time 0, and with best fit everybody fits into 2048
  units.
- `Reachable`: every arrival is at most `LatestShown`, the latest time that the clock ever shows. The clock is the
  program's 32-bit `sim_time`: after `k` quanta it shows `quantum * k % 2^32`.
- `Length`: the number of cycles of a run that ends; it depends on arrivals, service times and the quantum alone. While
  the first quantum boundary after every arrival is below 2^32 (`Unwrapped`), it is the plain recursion `SimpleSpan`.
  `Fits`: the quantum times `Length`, which is then the final time, is below 2^32. Otherwise the final time shows reduced
  modulo 2^32; `WrappedFinishExample` is such a run, and `WrappedClockExample` is one whose clock steps over the last
  arrival for ever. A service time of 0 is allowed: it takes one quantum, as in the program.
- A `Job` is the immutable part of a process record; `id` stands for the record's identity.
- `State.current` is the running process. The program keeps a stale pointer after an RR process has finished, until the
  next dispatch; no branch reads it, and the classes keep it too (`noneRunning` tells them apart).
- `State.history` and `Simulator.occupied` record who occupied each elapsed quantum; `Simulator.reported` records the
  printed counts of remaining processes.
- `Crashed` is what the program does when it goes on with a process that does not exist: it dereferences NULL.
- The loop body is written twice in the source, once per scheduler; `Simulator.Turn` is one body whose branches on the
  scheduler are the differences between the two.
- `List.Chain` speaks of the forward links only and `List.Linked` of both. `Dequeue` leaves the new head with a stale
  backward link, so it promises `Linked` only for a list that becomes empty; the lists that see deletions are never
  dequeued.

Two details where the code is followed although one might expect otherwise. Best fit does not prefer low addresses: among
equally large holes it takes the newest, because the sorted insertion stops at the first entry that is at least as large
(`NewestOfEqualsWins`). And `deallocate_memory` tests for a strategy named `infinity` while the program's is named
`infinite`; neither branch then applies and nothing is released, which is what the model does.

## Model

| member | source | states |
|---|---|---|
| `Jobs.CompareTotalPreorder` | src/process_data.c:219-233 | the order of the ready heap (service, arrival, name) is a total preorder and its ties are exactly equal service, arrival and name |
| `Jobs.RankedByFields` | src/process_data.c:219-233 | less service ranks strictly first, with equal service the earlier arrival, with equal arrival too the name that stands first in a dictionary |
| `Jobs.CompareNamesExact` | src/process_data.c:231 | a name compares less exactly if after a common beginning it ends or goes on with a smaller character |
| `HeapModel.SiftUpRestores` | src/min_heap.c:107-115 | sifting up repairs a heap whose only fault is one cell that may be too small for its parent |
| `HeapModel.SiftDownRestores` | src/min_heap.c:124-143 | sifting down repairs a heap whose only fault is one cell that may be too large for its children |
| `HeapModel.InsertKeepsHeap` | src/min_heap.c:53-67 | insertion keeps heap order |
| `HeapModel.ExtractCorrect` | src/min_heap.c:75-98 | the extracted root is a minimum; what is left is a heap of the other elements |
| `HeapModel.DrainSorts` | src/min_heap.c:53-143 | extracting until empty yields every element once, in order |
| `HeapModel.EqualsStay` | src/min_heap.c:53-143 | among processes that compare equal nothing is exchanged: a new one stays last, and the last takes the place of the root that leaves |
| `MinHeaps.MinHeap.constructor` | src/min_heap.c:33-45 | an empty heap with an array behind it |
| `MinHeaps.MinHeap.Grow` | src/min_heap.c:55-59 | doubling the array keeps the contents and the bound on their number |
| `MinHeaps.MinHeap.InsertData` | src/min_heap.c:53-67 | the array holds the model's insertion of the process, whatever its capacity was |
| `MinHeaps.MinHeap.UpHeap` | src/min_heap.c:107-115 | the swaps in the array are the model's sift up and lose nobody |
| `MinHeaps.MinHeap.DownHeap` | src/min_heap.c:124-143 | the swaps in the array are the model's sift down and lose nobody |
| `MinHeaps.MinHeap.ExtractMin` | src/min_heap.c:75-98 | nothing from an empty heap, otherwise the root, leaving the model's rest and exactly one process fewer |
| `LinkedLists.List.constructor` | src/linked_list.c:32-43 | an empty, well-formed list |
| `LinkedLists.List.Enqueue` | src/linked_list.c:52-78 | the element is last, all earlier nodes stay, and both kinds of links stay right |
| `LinkedLists.List.Dequeue` | src/linked_list.c:86-102 | the first element comes off; the forward chain stays right, and the backward links only if the list had at most one node |
| `LinkedLists.List.DeleteNode` | src/linked_list.c:211-238 | exactly the given node leaves a doubly linked list, and it keeps its own pointers, which the caller follows afterwards |
| `LinkedLists.List.InsertNode` | src/linked_list.c:285-303 | a new node stands between the two given neighbours and nothing else moves |
| `LinkedLists.List.LinkSorted` | src/linked_list.c:145-167 | the four linking cases of the sorted insertion all put the node at the searched position |
| `LinkedLists.DeleteNodeByData` | src/linked_list.c:247-261 | the search without an end guard never leaves a list that holds the datum, and the first such node is deleted |
| `Allocator.InsertNodeSorted` | src/linked_list.c:131-167 | the entry goes before the first entry whose block is at least as large |
| `Allocator.EntryOf` | src/memory_allocation.c:255 | a free block's node is in the index, at the place of its hole in the model |
| `Allocator.MergeBlocks` | src/memory_allocation.c:245-254 | one block object spans both neighbours and the other's node has left the block list |
| `Allocator.UpdateMemory` | src/memory_allocation.c:243-257 | both lists represent the model's merge, in either direction, and every used block keeps its node |
| `Allocator.CheckDirection` | src/memory_allocation.c:213-233 | the walk merges exactly the free neighbours on that side |
| `Allocator.EnterHole` | src/memory_allocation.c:198 | the merged block enters the index where the model puts it |
| `Allocator.Deallocate` | src/memory_allocation.c:175-203 | both lists represent the model's release, the process has no block node any more, and all other processes' block nodes still hold their blocks |
| `Allocator.Split` | src/memory_allocation.c:132-165 | both lists represent the model's split, exact fit or not, and the process's block node holds its new block |
| `Allocator.Search` | src/memory_allocation.c:101-109 | the loop stops at the first entry of adequate size, or at the end if there is none |
| `Allocator.BestFit` | src/memory_allocation.c:94-122 | it succeeds exactly when the model does, and then both lists represent the model's allocation; a failure changes nothing |
| `Allocator.InitialiseMemory` | src/memory_allocation.c:266-271 | both lists represent one hole of 2048 units |
| `MemoryLemmas.TiledDistinct` | src/memory_allocation.c:132-165 | the blocks of a tiled memory are distinct, disjoint and in address order |
| `MemoryLemmas.CoalesceRightKeeps` | src/memory_allocation.c:186-189 | merging to the right keeps tiling and index, ends before a used block or the end, and touches no used block |
| `MemoryLemmas.CoalesceLeftKeeps` | src/memory_allocation.c:191-194 | the same to the left |
| `MemoryLemmas.ReleaseKeeps` | src/memory_allocation.c:175-203 | a release keeps tiling, coalescing and index, and frees exactly the owner's block |
| `MemoryLemmas.AllocateSucceeds` | src/memory_allocation.c:94-122 | allocation succeeds if and only if some hole is large enough |
| `MemoryLemmas.AllocateKeeps` | src/memory_allocation.c:94-165 | an allocation keeps tiling, coalescing and index, and adds exactly one block, of the requested size |
| `MemoryTheorems.BestFitIsLeastAdequate` | src/memory_allocation.c:101-109 | the hole taken has the smallest adequate size |
| `MemoryTheorems.EnteredLastIsFound` | src/linked_list.c:138-142 | a hole that has just entered the index, and is a least adequate one, is where best fit stops, and the older ones keep their order |
| `MemoryHistory.TakeEntries` | src/memory_allocation.c:113-160 | an allocation takes one hole out of the index and enters at most one, the remainder |
| `MemoryHistory.GiveKeepsAge` | src/memory_allocation.c:175-203 | a release, with all its merging, keeps equally large holes newest first |
| `MemoryHistory.HistoryKeepsAge` | src/linked_list.c:138-142 | after any sequence of allocations and releases equally large holes stand newest first |
| `MemoryHistory.NewestOfEqualsWins` | src/linked_list.c:138-142 | after any history from the empty memory, an allocation takes a hole of least adequate size, and of those the one that entered the index last |
| `SchedulerMemory.PassIsTakes` | src/memory_allocation.c:59-81 | the allocation pass is one request for each waiting process, in order |
| `SchedulerMemory.RunIsOps` | src/main.c:147-280 | the memory of every state of a best-fit run is the result of the requests and releases that its cycles make, which are proper |
| `SchedulerMemory.SchedulerTakesNewest` | src/memory_allocation.c:101-109 | every successful request of every run takes a hole of least adequate size, and of those the one that entered the index last |
| `SchedulerMemory.ServedInTurn` | src/memory_allocation.c:59-81 | a process in the input queue is admitted if and only if best fit finds room for it in the memory that those ahead of it in the queue leave |
| `SchedulerMemory.WaitersInOrder` | src/main.c:307-325 | at every point of every run those who wait for memory, followed by those who have not arrived, stand in the order of the list |
| `MemoryTheorems.InitialValid` | src/memory_allocation.c:266-271 | the initial memory meets the invariant and nobody owns any of it |
| `MemoryTheorems.AllFreeIsInitial` | src/memory_allocation.c:183-198 | when nobody holds memory it is the single hole (0, 2048) with one index entry |
| `MemoryTheorems.AnySequence` | src/memory_allocation.c:94-203 | any sequence of allocations and releases keeps the invariant, keeps every block whose owner does not release it at its address, and ends in the initial memory when all is released |
| `MemoryTheorems.ReleaseUndoesAllocate` | src/memory_allocation.c:94-203 | releasing straight after allocating restores the whole memory, the order of the index included |
| `AdmissionLemmas.AdmitInterleaves` | src/memory_allocation.c:59-81 | the pass splits the input queue into two subsequences that keep their order |
| `AdmissionLemmas.AdmitAllWithoutLimit` | src/memory_allocation.c:52-57 | without a memory limit the pass empties the input queue |
| `AdmissionLemmas.AdmitKeepsMemory` | src/memory_allocation.c:59-81 | the pass keeps memory valid, gives blocks to exactly the admitted processes, moves no block, and never enlarges the largest hole |
| `AdmissionLemmas.AdmitIsFixpoint` | src/memory_allocation.c:59-81 | one pass is enough: whoever it leaves asks for more than every remaining hole has |
| `AdmissionLemmas.AddAllContents` | src/memory_allocation.c:302-311 | the ready queue gains exactly the admitted processes and stays a heap under SJF |
| `AdmissionPass.FindRoom` | src/memory_allocation.c:66 | a process gets a block of its own exactly when the model gives one, and all other holders keep theirs |
| `AdmissionPass.GiveBack` | src/memory_allocation.c:175-203 | releasing one holder's block leaves every other holder with its own block |
| `AdmissionPass.ServeOne` | src/memory_allocation.c:63-77 | one turn: the process moves from its place in the input queue to the ready queue if and only if there was room, and the loop goes on at its successor |
| `AdmissionPass.AllocateBestFit` | src/memory_allocation.c:59-81 | the loop over the linked queue computes the model's pass, and every ready process holds its own block |
| `AdmissionPass.AllocateInfinite` | src/memory_allocation.c:52-57 | the loop moves the whole input queue to the ready queue in order |
| `ReadyQueues.ReadyQueue.Insert` | src/memory_allocation.c:302-311 | the queue behind either scheduler gains the process where the model puts it |
| `ReadyQueues.ReadyQueue.Extract` | src/main.c:416-421 | the queue behind either scheduler gives up the model's next process |
| `ReadyQueues.UpdateInput` | src/main.c:307-325 | exactly the processes that have arrived move, in order, to the end of the input queue |
| `SchedulerInvariants.IntakeKeeps` | src/main.c:181-185 | taking in arrivals and handing out memory loses nobody, keeps memory and heap, and leaves nothing in input that fits |
| `SchedulerInvariants.StepKeepsCore` | src/main.c:164-202 | a cycle keeps everybody in exactly one place, the heap order, and memory held by exactly the ready and running processes |
| `SchedulerInvariants.RunKeepsCore` | src/main.c:147-280 | the same in every reachable state, for every workload |
| `SchedulerAccounting.ExpiresExactly` | src/process_data.c:146-161 | the running process expires exactly in its ceil(service / quantum)th quantum |
| `SchedulerClock.NobodyWaits` | src/main.c:188-202 | when nobody is ready or running, nobody who could fit is left waiting for memory |
| `SchedulerAccounting.QuantaPartition` | src/main.c:147-280 | elapsed quanta are those spent on jobs plus the idle ones |
| `SchedulerClock.IdleBound` | src/main.c:147-280 | if the clock does not wrap before the last arrival, there have been at most ceil(last arrival / quantum) idle quanta at any point of a run |
| `SchedulerAccounting.StepBooks` | src/main.c:164-280 | a cycle keeps the service accounts of every process and the 32-bit clock, wrapped or not |
| `SchedulerAccounting.RunBooks` | src/main.c:147-280 | the same in every reachable state of every loaded workload |
| `ClockArithmetic.EverShown` | src/main.c:278 | a clock that advances by the quantum modulo 2^32 ever reaches a time if and only if that is at most 2^32 - gcd(quantum, 2^32) |
| `SchedulerClock.LengthBound` | src/main.c:147-280 | the length of a run is at least all jobs' quanta; if the clock does not wrap before the last arrival it is the plain recursion and exceeds them by at most ceil(last arrival / quantum) |
| `SchedulerClock.IntakePaced` | src/main.c:181-185 | taking arrivals in does not change when the run will end, wrapped clock or not |
| `SchedulerClock.LiveBound` | src/main.c:147-280 | while somebody is unfinished, fewer cycles have passed than the length of the run |
| `SchedulerClock.EndedLength` | src/main.c:175-178 | when everybody has finished, exactly the length has passed: all jobs' quanta and the idle ones |
| `SchedulerClock.StepNoStall` | src/main.c:164-272 | a cycle from a state without a stall leads to one without a stall or to the end, whatever the clock shows |
| `SchedulerClock.StepLive` | src/main.c:164-280 | the whole loop invariant (conservation, memory, accounting, 32-bit clock, pace, no stall) survives a cycle |
| `SchedulerRuns.RunLive` | src/main.c:147-280 | every cycle boundary of every workload that can end meets the loop invariant; none crashes |
| `SchedulerRuns.NeverStalls` | src/main.c:181-272 | at every cycle boundary of every runnable workload, if nobody runs then ready and input are empty, even when the clock wraps |
| `SchedulerRuns.NobodyIsLost` | src/main.c:147-280 | every loaded process is in exactly one of unarrived, input, ready, current, finished, and the sizes add up |
| `SchedulerRuns.Terminates` | src/main.c:147-280 | a workload that can end leaves the loop in exactly the cycle that its length says |
| `SchedulerRuns.Makespan` | src/main.c:147-283 | every run that ends has taken its length in cycles, all jobs' quanta plus the idle ones; the final time is the quantum times the length, modulo 2^32 |
| `SchedulerRuns.SameMakespan` | src/main.c:147-283 | both schedulers and both memory strategies end in the same cycle and at the same time |
| `SchedulerRuns.EndsEmpty` | src/main.c:175-178 | the loop is left only with every queue empty, everybody finished once, and memory one hole again |
| `SchedulerRuns.FinishesIff` | src/main.c:147-280 | a loaded workload finishes if and only if its first process arrives at time 0, under best fit everybody fits into empty memory, and the clock ever reaches every arrival |
| `SchedulerRuns.FinishesIffRunnable` | src/main.c:147-280 | if the first quantum boundary after every arrival fits in 32 bits, the first two conditions decide |
| `SchedulerRuns.RunsForeverIff` | src/main.c:147-280 | the loop never ends if and only if somebody starts and one of those conditions fails |
| `SchedulerRuns.CrashesIffNobodyStarts` | src/main.c:153-164 | a run goes on with a missing process if and only if nobody at the head of the list is there at time 0 and fits |
| `SchedulerRuns.LateArrivalExample` | src/main.c:161 | a single process that arrives at time 1 makes the program go on with a missing process |
| `SchedulerRuns.OversizedExample` | src/memory_allocation.c:59-81 | one process of 2049 units beside a small one keeps the loop going for ever |
| `SchedulerRuns.WholeMemoryExample` | src/memory_allocation.h:10 | a single process of exactly 2048 units finishes |
| `SchedulerRuns.DocumentedExample` | README.md:16-20 | the documented three-process workload ends at 120 at its quantum of 3, under every scheduler and strategy |
| `SchedulerRuns.LatestArrivalExample` | cases/extra/skip.txt:1-2 | the supplied workload that arrives last at 4294967294 ends at 4294967295, under every scheduler and strategy |
| `SchedulerRuns.WrappedClockExample` | src/main.c:278 | with a quantum of 2 a process that arrives at 4294967295 keeps the loop going for ever |
| `SchedulerRuns.WrappedFinishExample` | src/main.c:278 | with a quantum of 3 a process that arrives at 4294967293 lets the run end, at a final time that shows as 2 |
| `SchedulerRuns.RunFlagExact` | src/main.c:160-202 | once somebody starts, no run crashes and the flag is set exactly when nobody runs |
| `SchedulerService.RoundRobinStep` | src/main.c:221-272 | an RR cycle lines up the ready queue, the new admissions and the preempted process, in this order, dispatches the head if there is one and leaves the rest; a process that is alone goes on |
| `SchedulerService.RoundRobinStarts` | src/main.c:208-219 | the first RR cycle dispatches the first process that it admits and leaves the others in order, or nobody |
| `SchedulerService.RoundRobinExact` | src/main.c:236-272 | position `k` of the ready queue is dispatched exactly `k + 1` cycles later, whatever happens in between |
| `SchedulerService.ShortestIsDispatched` | src/main.c:188-197 | whoever SJF dispatches needs the least service among the ready; of equals in that it arrived first; of equals in that too its name stands first |
| `SchedulerService.HoldsProcessor` | src/main.c:166-202 | in every run that starts, a running SJF process stays current until its quanta are used up and has then finished |
| `SchedulerService.ShortestJobFirst` | src/main.c:166-202 | over every whole run that starts, whoever is dispatched is least in service, then arrival, then name, and is then current for exactly ceil(service / quantum) consecutive cycles |
| `SchedulerService.ShortestStarts` | src/main.c:153-164 | the same for the process that the first cycle dispatches |
| `SchedulerReports.ServiceIsExact` | src/process_data.c:146-161 | in every state of every loaded workload what is left is max(0, service - quantum x cycles run), and a process has finished exactly when it has run at all and the cycles it has run cover its service; it never runs one more |
| `SchedulerReports.CompletionsGrow` | src/main.c:167-173 | a cycle records nothing, or, exactly when the elapsed quantum was the last one needed, the running process with the time at which the cycle began, the number of those waiting, and the 32-bit turnaround |
| `SchedulerReports.CompletionsStay` | src/main.c:386 | what has been recorded is never changed nor removed |
| `SchedulerReports.HistoryIsCurrent` | src/main.c:164-280 | the trace of a run says who was current at each cycle boundary |
| `SchedulerReports.FinishTimes` | src/main.c:401-402 | in every state of every run a recorded finish time is the end of the last quantum in which that process ran, modulo 2^32, and the turnaround is from its arrival until then, modulo 2^32 |
| `SchedulerReports.LastCompletion` | src/main.c:175-178 | when a run ends, the last recorded finish time is the final time |
| `SchedulerReports.TurnaroundsAreExact` | src/process_data.c:133-137 | as long as the elapsed time fits in 32 bits, finish times end a quantum and are at least arrival + service, so the turnaround is exact and at least the service time |
| `SchedulerReports.RemainingIsExact` | src/main.c:169-170 | as long as the elapsed time fits in 32 bits, the reported count is the number of other unfinished processes that had arrived a quantum before the finish, where a process counts as arrived with the last of those up to its place in the list |
| `SchedulerReports.RemainingWhenSorted` | src/main.c:169-170 | in a list in order of arrival that is each process's own arrival |
| `SchedulerReports.BlocksStay` | src/main.c:147-280 | between any two states of a run a process that has not finished by the second keeps its block at its address |
| `SchedulerReports.MemoryOfEveryState` | src/main.c:147-280 | in every reachable state memory meets its invariant, and a process holds a block, of exactly its size, if and only if it is ready or running |
| `Simulation.Create` | src/main.c:135-144 | a simulator with empty queues and memory lists, none of them shared, around the loaded processes |
| `Simulation.Simulator.Initialise` | src/main.c:143 | with memory set up the objects show the model's initial state |
| `Simulation.Simulator.UpdateTime` | src/process_data.c:146-161 | the time left drops by the quantum or to zero, and the result tells which |
| `Simulation.Simulator.ChargePhase` | src/main.c:167 | the objects show the state with the elapsed quantum charged |
| `Simulation.Simulator.Record` | src/main.c:380-402 | the finished queue gains the process with its exact finish time, 32-bit turnaround and the printed count |
| `Simulation.Simulator.RetirePhase` | src/main.c:169-173 | the objects show the model's retirement, blocks of all others included |
| `Simulation.Simulator.IntakePhase` | src/main.c:181-185 | the objects show the state after arrivals and the allocation pass |
| `Simulation.Simulator.RunNextProcess` | src/main.c:416-437 | the next process leaves the ready queue and runs, or nothing happens to an empty queue |
| `Simulation.Simulator.SchedulePhase` | src/main.c:188-272 | the objects show the model's choice, or the program goes on with a missing process exactly when the model crashes |
| `Simulation.Simulator.FirstTurn` | src/main.c:153-164 | after the first cycle the objects show the run's first state |
| `Simulation.Simulator.Turn` | src/main.c:166-280 | one cycle of the class-level simulation is one step of the model, for either scheduler and either memory strategy |
| `Simulation.Simulator.RunToEnd` | src/main.c:147-280 | the loop terminates and the objects show the final state of the run |
| `Simulation.Cycle` | src/main.c:133-283 | from loaded processes the simulation ends at the stated makespan with every queue empty and memory represented by one hole |
| `Sha256.ShiftsRotate` | src/process.c:241-254 | the shift-and-join macros are rotations |
| `Sha256Constants.ChSelects` | src/process.c:238 | `Ch` has the bits of `y` where `x` has ones and those of `z` elsewhere |
| `Sha256Constants.MajAgrees` | src/process.c:239 | `Maj` has every bit that two of its arguments agree on |
| `Sha256Constants.WordIsBigEndian` | src/process.c:341-343 | four bytes of a block become the word with that big-endian value |
| `Sha256Constants.ConstantsAreCubeRoots` | src/process.c:262-273 | round constant `t` is the first 32 bits of the fraction of the cube root of prime number `t` (section 5.1 of RFC 6234), and the primes are all the primes in order |
| `Sha256Constants.InitialAreSquareRoots` | src/process.c:257-259 | the initial hash words are the same for the square roots of the first eight primes (section 6.1 of RFC 6234) |
| `Sha256Example.ScheduleRecurs` | src/process.c:339-348 | every word of a message schedule, in terms of the block or of earlier words of the same schedule |
| `Sha256.BigEndianValue` | src/process.c:400-407 | the eight length bytes are the 64-bit big-endian length |
| `Sha256.PaddingDecodes` | src/process.c:388-410 | the padded message is the message, a 1 bit, zeros and the bit length modulo 2^64, in the least number of whole blocks (section 4.1 of RFC 6234) |
| `Sha256.PadInjective` | src/process.c:388-410 | different messages of less than 2^61 bytes have different padded messages |
| `Sha256.FoldAppend` | src/process.c:305-307 | hashing block by block may be stopped and resumed at any block boundary |
| `Sha256.Prepare` | src/process.c:339-348 | the loop fills the array with the message schedule of section 6.2 of RFC 6234 |
| `Sha256.MainLoop` | src/process.c:350-374 | the 64 turns over eight variables are the 64 rounds of section 6.2 of RFC 6234 |
| `Sha256.Process` | src/process.c:332-383 | the hash is updated in place to its compression with the block |
| `Sha256.ProcessFinal` | src/process.c:388-410 | what is left of the message is folded with its padding, in one block or, when more than 55 bytes are left, two |
| `Sha256.Hash` | src/process.c:284-314 | the result is the fold of the compression over all blocks of the padded message, for a message of any length |
| `Sha256Example.AbcDigest` | src/process.c:284-383 | the digest of "abc" is the one that section 8.5 of RFC 6234 gives |
| `HashStore.EndsAt` | src/process.c:154-160 | a store of n > 0 bytes ends n(n - 1)/2 cells further on, modulo 119; an empty one stays |
| `HashStore.OneByteStored` | src/process.c:154-160 | replacing byte `i` changes exactly the cell i(i + 1)/2 places behind the start, modulo 119, by the XOR of the old byte and the new one |
| `HashStore.StoreZeros` | src/process.c:154-160 | storing zero bytes, or none, changes nothing |
| `HashStore.TailStays` | src/process.c:157 | cells 119 to 127 are never written |
| `HashStore.StoreTwice` | src/process.c:154-160 | storing the same bytes from the same start again restores the buffer |
| `HashStore.StoresCommute` | src/process.c:154-160 | stores from fixed starts may be exchanged |
| `HashStore.Store` | src/process.c:154-160 | each cell gets the XOR of exactly the bytes whose triangular index lands there, cells 119 to 127 are untouched, and the index ends where the last byte went |
| `HashStore.HashCoversAll` | src/process.c:109 | whatever a child stores, the bytes behind the 119 that it hashes stay zero |
| `HashStore.Child.constructor` | src/process.c:77-79 | a child starts with its name stored from cell 0 of 128 cleared cells |
| `HashStore.Child.Terminate` | src/process.c:107-110 | the last message is stored from where the one before ended, and the reported hash is the digest of the first 119 cells |

## Left out

- Processes, pipes and signals (`fork`, `execv`, `kill`, `waitpid`, `signalfd`, the echo check): dispatching,
  suspending, continuing and finishing are changes of state only, and a child is its stored bytes.
- Reading arguments and the process file: the simulation starts from a loaded list. Other scheduler and strategy names
  than SJF, RR, infinite and best-fit are not represented.
- Printing, including the hexadecimal form of the hash. The printed counts of remaining processes are kept as ghost
  data, the rest of the log is not.
- `malloc`, `realloc` and `free`: allocation succeeds, growth copies the array, and nothing is freed.
- The statistics at the end, which are floating point; the overhead is stated as turnaround at least service.
- The `state` field of a process, which the program writes and never reads.
- `num_cycles` is an unbounded counter in the model. The program tests it for 0 in every cycle, and as an `int` it
  overflows after 2^31 cycles; where it wraps, it is 0 again after 2^32 cycles and the first cycle's branch would run
  once more. What is said of later cycles, above all that a run goes on for ever, is about the unbounded counter.
- Process names are taken to be NUL-free and are compared character by character.
- `uint64_t` arithmetic in the hash is on unbounded integers with the reduction modulo 2^64 and the shifts written as
  divisions.
- Simulation.Cycle: is stated for exactly the workloads that finish, because the others crash or stay in the loop; `Turn`
  covers each cycle of those as well.
- Simulation.Simulator.SchedulePhase: stops where the program would continue, suspend or enqueue a process that does not
  exist.
- LinkedLists.List.Dequeue: of a list with more than one node it promises the forward chain only, because the program
  leaves a stale backward link.
