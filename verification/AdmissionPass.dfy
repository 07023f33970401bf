/** The allocation pass over the input queue, under both memory strategies. */
module AdmissionPass {
  import opened Jobs
  import opened Sequences
  import opened LinkedLists
  import opened ProcessData
  import opened MemoryModel
  import opened MemoryLemmas
  import MemoryTheorems
  import opened SchedulerModel
  import opened AdmissionLemmas
  import opened ReadyQueues
  import opened Allocator

  /** The process's block node is in the block list and holds a block of its own. */
  ghost predicate HoldsBlock(p: Process, nodes: seq<Node<Block>>, segs: seq<Seg>)
    reads p`blockNode
  {
    p.blockNode != null &&
    exists s: Seg :: s.Used? && s.owner == p.job && NodeHolds(nodes, segs, p.blockNode, s)
  }

  /** No object of the process queues is among those of memory. */
  ghost predicate Outside(input: List<Process>, ready: ReadyQueue, R: set<object>)
    reads input, ready.queue, ready.heap
  {
    && input !in R && ready !in R && ready.queue !in R && ready.heap !in R && ready.heap.data !in R
    && (forall i :: 0 <= i < |input.nodes| ==> input.nodes[i] !in R)
    && (forall i :: 0 <= i < |ready.queue.nodes| ==> ready.queue.nodes[i] !in R)
    && (forall i :: 0 <= i < |input.contents| ==> input.contents[i] !in R)
  }

  lemma ListFacts(list: List<Process>, i: nat)
    requires list.Linked() && i < |list.nodes|
    ensures |list.nodes| == |list.contents| && list.nodes[i].data == list.contents[i]
    ensures list.nodes[i].next == if i + 1 < |list.nodes| then list.nodes[i + 1] else null
    ensures list.Chain()
  {}

  lemma HoldsAfter(p: Process, n1: seq<Node<Block>>, s1: seq<Seg>, n2: seq<Node<Block>>, s2: seq<Seg>)
    requires HoldsBlock(p, n1, s1) && UsedKept(n1, s1, n2, s2)
    ensures HoldsBlock(p, n2, s2)
  {
    var s: Seg :| s.Used? && s.owner == p.job && NodeHolds(n1, s1, p.blockNode, s);
    var i :| 0 <= i < |n1| && n1[i] == p.blockNode && s1[i] == s;
    assert NodeHolds(n2, s2, n1[i], s1[i]);
  }

  lemma HoldersOwn(p: Process, nodes: seq<Node<Block>>, segs: seq<Seg>)
    requires HoldsBlock(p, nodes, segs)
    ensures p.job in Owners(segs)
  {
    var s: Seg :| s.Used? && s.owner == p.job && NodeHolds(nodes, segs, p.blockNode, s);
    assert s in segs;
  }

  lemma QueuesApart(input: List<Process>, ready: ReadyQueue)
    requires input.Linked() && ready.Valid() && input != ready.queue
    ensures input.Chain()
    ensures forall i :: 0 <= i < |input.nodes| ==> input.nodes[i] !in ready.queue.nodes
  {}

  /** Move a process from its node in the input queue to the ready queue. */
  method Transfer(input: List<Process>, ready: ReadyQueue, curr: Node<Process>, process: Process,
                  ghost i: nat, ghost R: set<object>)
    requires input.Linked() && ready.Valid() && input != ready.queue && Outside(input, ready, R)
    requires i < |input.nodes| == |input.contents| && input.nodes[i] == curr && input.contents[i] == process
    modifies input, input.nodes, ready, ready.queue, ready.queue.nodes, ready.heap, ready.heap.data
    ensures input.Linked() && ready.Valid() && Outside(input, ready, R)
    ensures input.nodes == RemoveAt(old(input.nodes), i) && input.contents == RemoveAt(old(input.contents), i)
    ensures JobsOf(ready.procs) == AddReady(ready.scheduler, old(JobsOf(ready.procs)), process.job)
    ensures forall p :: p in ready.procs ==> p in old(ready.procs) || p == process
    ensures curr.next == old(curr.next)
    ensures forall j :: 0 <= j < |ready.queue.nodes| ==>
      ready.queue.nodes[j] in old(ready.queue.nodes) || fresh(ready.queue.nodes[j])
    ensures ready.heap.data == old(ready.heap.data) || fresh(ready.heap.data)
  {
    hide List.Linked, List.Chain, ReadyQueue.Valid, JobsOf, Distinct;
    QueuesApart(input, ready);
    ready.Insert(process);
    QueuesApart(input, ready);
    input.DeleteNode(curr, i);
  }

  /** Everyone in `ps` holds a block of its own. */
  ghost predicate AllHold(ps: set<Process>, nodes: seq<Node<Block>>, segs: seq<Seg>)
    reads ps`blockNode
  {
    forall p :: p in ps ==> HoldsBlock(p, nodes, segs)
  }

  lemma HoldsToo(held: set<Process>, p: Process, nodes: seq<Node<Block>>, segs: seq<Seg>)
    requires AllHold(held, nodes, segs) && HoldsBlock(p, nodes, segs)
    ensures AllHold(held + {p}, nodes, segs)
  {}

  lemma AllHoldAfter(held: set<Process>, n1: seq<Node<Block>>, s1: seq<Seg>, n2: seq<Node<Block>>, s2: seq<Seg>)
    requires AllHold(held, n1, s1) && UsedKept(n1, s1, n2, s2)
    ensures AllHold(held, n2, s2)
  {
    forall p | p in held ensures HoldsBlock(p, n2, s2) { HoldsAfter(p, n1, s1, n2, s2); }
  }

  /** Best fit for one process, while everyone in `held` keeps its block. */
  method FindRoom(memory: List<Block>, holes: List<Node<Block>>, process: Process, ghost m: Mem, ghost R: set<object>,
                  ghost held: set<Process>)
    returns (isSpace: bool, ghost R': set<object>)
    requires Represents(memory, holes, m) && Within(memory, holes, R) && Valid(m) && 0 < process.job.mem
    requires AllHold(held, memory.nodes, m.segs) && process !in held && forall p :: p in held ==> p !in R
    modifies R, process`blockNode
    ensures R <= R' && fresh(R' - R) && Within(memory, holes, R')
    ensures isSpace <==> Allocate(m, process.job).Some?
    ensures isSpace ==> Represents(memory, holes, Allocate(m, process.job).value)
    ensures isSpace ==> AllHold(held + {process}, memory.nodes, Allocate(m, process.job).value.segs)
    ensures !isSpace ==> Represents(memory, holes, m) && AllHold(held, memory.nodes, m.segs)
  {
    hide Represents, Within, Valid, Allocate, UsedKept, HoldsBlock, HasSplit, AllHold;
    ghost var nodes := memory.nodes;
    isSpace, R' := Allocator.BestFit(holes, memory, process, m, R);
    if isSpace {
      SplitFacts(memory, holes, m, process, nodes);
      AllHoldAfter(held, nodes, m.segs, memory.nodes, Allocate(m, process.job).value.segs);
      HoldsToo(held, process, memory.nodes, Allocate(m, process.job).value.segs);
    }
  }

  lemma BlockOfHolder(p: Process, nodes: seq<Node<Block>>, m: Mem) returns (k: nat)
    requires HoldsBlock(p, nodes, m.segs) && Valid(m)
    ensures k < |nodes| == |m.segs| && p.blockNode == nodes[k]
    ensures m.segs[k].Used? && m.segs[k].owner == p.job
    ensures ReleaseAt(m, k) == Release(m, p.job)
  {
    var s: Seg :| s.Used? && s.owner == p.job && NodeHolds(nodes, m.segs, p.blockNode, s);
    k :| 0 <= k < |nodes| && nodes[k] == p.blockNode && m.segs[k] == s;
    MemoryTheorems.BlockOfUnique(m.segs, k);
  }

  lemma HoldsAfterOpen(p: Process, nodes: seq<Node<Block>>, m: Mem, k: nat)
    requires HoldsBlock(p, nodes, m.segs) && k < |m.segs| && m.segs[k].Used? && m.segs[k].owner != p.job
    ensures HoldsBlock(p, nodes, Open(m, k).segs)
  {
    var s: Seg :| s.Used? && s.owner == p.job && NodeHolds(nodes, m.segs, p.blockNode, s);
    var i :| 0 <= i < |nodes| && nodes[i] == p.blockNode && m.segs[i] == s;
    assert Open(m, k).segs[i] == s;
  }

  /** The other holders keep their blocks when the block at `k` is released. */
  lemma OthersHold(held: set<Process>, process: Process, m: Mem, k: nat, nodes: seq<Node<Block>>,
                   nodes': seq<Node<Block>>)
    requires AllHold(held, nodes, m.segs) && k < |m.segs| && m.segs[k].Used? && m.segs[k].owner == process.job
    requires forall p :: p in held && p.job == process.job ==> p == process
    requires UsedKept(nodes, Open(m, k).segs, nodes', ReleaseAt(m, k).segs)
    ensures AllHold(held - {process}, nodes', ReleaseAt(m, k).segs)
  {
    hide ReleaseAt, UsedKept, HoldsBlock, Open;
    forall p | p in held - {process} ensures HoldsBlock(p, nodes', ReleaseAt(m, k).segs) {
      HoldsAfterOpen(p, nodes, m, k);
      HoldsAfter(p, nodes, Open(m, k).segs, nodes', ReleaseAt(m, k).segs);
    }
  }

  /** Give the block of one holder back. */
  method GiveBack(memory: List<Block>, holes: List<Node<Block>>, process: Process, ghost m: Mem, ghost R: set<object>,
                  ghost held: set<Process>)
    returns (ghost R': set<object>)
    requires Represents(memory, holes, m) && Within(memory, holes, R) && Valid(m)
    requires AllHold(held, memory.nodes, m.segs) && process in held && forall p :: p in held ==> p !in R
    requires forall p :: p in held && p.job == process.job ==> p == process
    modifies R, process`blockNode
    ensures Represents(memory, holes, Release(m, process.job)) && process.blockNode == null
    ensures R <= R' && fresh(R' - R) && Within(memory, holes, R')
    ensures AllHold(held - {process}, memory.nodes, Release(m, process.job).segs)
  {
    hide Represents, Within, Valid, UsedKept, HoldsBlock, Open, ReleaseAt, Release;
    ghost var nodes := memory.nodes;
    ghost var k := BlockOfHolder(process, nodes, m);
    R' := Deallocate(process, memory, holes, k, m, R);
    OthersHold(held - {process}, process, m, k, nodes, memory.nodes);
  }

  /** One process of the input queue: give it memory if some hole is large enough, and move it to the ready queue. */
  method ServeOne(memory: List<Block>, holes: List<Node<Block>>, input: List<Process>, ready: ReadyQueue,
                  curr: Node<Process>, ghost target: Process, ghost i: nat, ghost m: Mem, ghost R: set<object>,
                  ghost held: set<Process>)
    returns (isSpace: bool, next: Node?<Process>, ghost R': set<object>)
    requires Represents(memory, holes, m) && Within(memory, holes, R) && Valid(m)
    requires input.Linked() && ready.Valid() && input != ready.queue && Outside(input, ready, R)
    requires i < |input.nodes| == |input.contents| && input.nodes[i] == curr && input.contents[i] == target
    requires 0 < target.job.mem && AllHold(held, memory.nodes, m.segs) && target !in held
    requires forall p :: p in held ==> p !in R
    modifies R, target`blockNode, input, input.nodes
    modifies ready, ready.queue, ready.queue.nodes, ready.heap, ready.heap.data
    ensures input.Linked() && ready.Valid() && Outside(input, ready, R')
    ensures R <= R' && fresh(R' - R) && Within(memory, holes, R')
    ensures isSpace <==> Allocate(m, target.job).Some?
    ensures
      if isSpace then
        && Represents(memory, holes, Allocate(m, target.job).value)
        && AllHold(held + {target}, memory.nodes, Allocate(m, target.job).value.segs)
        && input.nodes == RemoveAt(old(input.nodes), i) && input.contents == RemoveAt(old(input.contents), i)
        && JobsOf(ready.procs) == AddReady(ready.scheduler, old(JobsOf(ready.procs)), target.job)
      else
        && Represents(memory, holes, m) && AllHold(held, memory.nodes, m.segs)
        && input.nodes == old(input.nodes) && input.contents == old(input.contents)
        && ready.procs == old(ready.procs)
    ensures |input.nodes| == |input.contents|
    ensures forall j :: 0 <= j < |input.nodes| ==> input.nodes[j] in old(input.nodes)
    ensures forall p :: p in input.contents ==> p in old(input.contents)
    ensures forall p :: p in ready.procs ==> p in old(ready.procs) || p == target
    ensures forall j :: 0 <= j < |ready.queue.nodes| ==>
      ready.queue.nodes[j] in old(ready.queue.nodes) || fresh(ready.queue.nodes[j])
    ensures ready.heap.data == old(ready.heap.data) || fresh(ready.heap.data)
    ensures next == if isSpace then (if i < |input.nodes| then input.nodes[i] else null)
                    else (if i + 1 < |input.nodes| then input.nodes[i + 1] else null)
  {
    hide List.Linked, List.Chain, Represents, Within, Valid, Allocate, UsedKept, HoldsBlock, ReadyQueue.Valid, JobsOf,
      HasSplit, AllHold;
    ListFacts(input, i);
    JobsOfSlices(input.contents, i);
    var process := curr.data;
    isSpace, R' := FindRoom(memory, holes, process, m, R, held);
    if isSpace {
      Transfer(input, ready, curr, process, i, R');
    }
    next := curr.next;
  }

  lemma SplitFacts(memory: List<Block>, holes: List<Node<Block>>, m: Mem, process: Process, nodes: seq<Node<Block>>)
    requires Allocate(m, process.job).Some? && FirstAtLeast(m.holes, process.job.mem) < |m.holes|
    requires HasSplit(memory, holes, Allocate(m, process.job).value, process, Placement(m, process.job), nodes, m.segs)
    ensures Represents(memory, holes, Allocate(m, process.job).value)
    ensures UsedKept(nodes, m.segs, memory.nodes, Allocate(m, process.job).value.segs)
    ensures HoldsBlock(process, memory.nodes, Allocate(m, process.job).value.segs)
  {
    hide Represents, NodeHolds, UsedKept, Allocate;
  }

  /** A pass under way: `kept` stays, `ready` is what the ready queue holds by now, and going on with `rest` from
      memory `v` leads to the same result as the whole pass. */
  ghost predicate PassAt(sched: Scheduler, whole: Admission, ready0: seq<Job>, kept: seq<Job>, ready: seq<Job>,
                         rest: seq<Job>, v: Mem)
  {
    var a := Admit(BestFit, rest, v);
    && whole.kept == kept + a.kept
    && whole.mem == a.mem
    && AddAll(sched, ready0, whole.admitted) == AddAll(sched, ready, a.admitted)
  }

  lemma PassServes(sched: Scheduler, whole: Admission, ready0: seq<Job>, kept: seq<Job>, ready: seq<Job>,
                   rest: seq<Job>, v: Mem)
    requires PassAt(sched, whole, ready0, kept, ready, rest, v) && rest != [] && Allocate(v, rest[0]).Some?
    requires Valid(v) && Askers(rest, v)
    ensures PassAt(sched, whole, ready0, kept, AddReady(sched, ready, rest[0]), rest[1..], Allocate(v, rest[0]).value)
    ensures Valid(Allocate(v, rest[0]).value) && Askers(rest[1..], Allocate(v, rest[0]).value)
  {
    ServeFirst(rest, v);
    var b := Admit(BestFit, rest[1..], Allocate(v, rest[0]).value);
    assert ([rest[0]] + b.admitted)[1..] == b.admitted;
  }

  lemma PassSkips(sched: Scheduler, whole: Admission, ready0: seq<Job>, kept: seq<Job>, ready: seq<Job>,
                  rest: seq<Job>, v: Mem)
    requires PassAt(sched, whole, ready0, kept, ready, rest, v) && rest != [] && Allocate(v, rest[0]).None?
    requires Valid(v) && Askers(rest, v)
    ensures PassAt(sched, whole, ready0, kept + [rest[0]], ready, rest[1..], v)
    ensures Askers(rest[1..], v)
  {
    ServeFirst(rest, v);
    var b := Admit(BestFit, rest[1..], v);
    assert kept + ([rest[0]] + b.kept) == kept + [rest[0]] + b.kept;
  }

  /** The part of the pass that has been done, and what it leaves to do. */
  ghost predicate PassSoFar(memory: List<Block>, holes: List<Node<Block>>, input: List<Process>, ready: ReadyQueue,
                            R: set<object>, whole: Admission, ready0: seq<Job>, i: nat, v: Mem)
    reads memory, memory.nodes, memory.contents, holes, holes.nodes, input, input.nodes
    reads ready, ready.queue, ready.queue.nodes, ready.heap, ready.heap.data
  {
    && Represents(memory, holes, v) && Within(memory, holes, R) && Valid(v)
    && input.Linked() && ready.Valid() && input != ready.queue && Outside(input, ready, R)
    && i <= |input.contents|
    && PassAt(ready.scheduler, whole, ready0, JobsOf(input.contents[..i]), JobsOf(ready.procs),
              JobsOf(input.contents[i..]), v)
    && Askers(JobsOf(input.contents[i..]), v)
  }

  lemma JobsOfSlices(ps: seq<Process>, i: nat)
    requires i < |ps|
    ensures JobsOf(ps[i..]) != [] && JobsOf(ps[i..])[0] == ps[i].job && JobsOf(ps[i..])[1..] == JobsOf(ps[i + 1..])
    ensures JobsOf(ps[..i + 1]) == JobsOf(ps[..i]) + [ps[i].job]
    ensures RemoveAt(ps, i)[..i] == ps[..i] && RemoveAt(ps, i)[i..] == ps[i + 1..]
    ensures forall p :: p in RemoveAt(ps, i) ==> p in ps
  {
    assert ps == ps[..i] + [ps[i]] + ps[i + 1..];
    assert RemoveAt(ps, i) == ps[..i] + ps[i + 1..];
  }

  /** One turn of the pass. */
  method PassStep(memory: List<Block>, holes: List<Node<Block>>, input: List<Process>, ready: ReadyQueue,
                  curr: Node<Process>, ghost target: Process, ghost i: nat, ghost v: Mem, ghost R: set<object>,
                  ghost whole: Admission, ghost ready0: seq<Job>, ghost held: set<Process>)
    returns (next: Node?<Process>, ghost i': nat, ghost v': Mem, ghost R': set<object>, ghost held': set<Process>)
    requires PassSoFar(memory, holes, input, ready, R, whole, ready0, i, v)
    requires i < |input.nodes| == |input.contents| && input.nodes[i] == curr && input.contents[i] == target
    requires AllHold(held, memory.nodes, v.segs) && forall p :: p in ready.procs ==> p in held
    requires forall p :: p in held ==> p !in R
    modifies R, target`blockNode, input, input.nodes
    modifies ready, ready.queue, ready.queue.nodes, ready.heap, ready.heap.data
    ensures PassSoFar(memory, holes, input, ready, R', whole, ready0, i', v')
    ensures R <= R' && fresh(R' - R)
    ensures AllHold(held', memory.nodes, v'.segs) && forall p :: p in ready.procs ==> p in held'
    ensures forall p :: p in held' ==> p !in R'
    ensures held <= held' <= held + {target}
    ensures i' <= |input.nodes| == |input.contents| && |input.contents| - i' < |old(input.contents)| - i
    ensures next == if i' < |input.nodes| then input.nodes[i'] else null
    ensures forall j :: 0 <= j < |input.nodes| ==> input.nodes[j] in old(input.nodes)
    ensures forall p :: p in ready.procs ==> p in old(ready.procs) || p == target
    ensures forall p :: p in input.contents ==> p in old(input.contents)
    ensures forall j :: 0 <= j < |ready.queue.nodes| ==>
      ready.queue.nodes[j] in old(ready.queue.nodes) || fresh(ready.queue.nodes[j])
    ensures ready.heap.data == old(ready.heap.data) || fresh(ready.heap.data)
  {
    hide List.Linked, List.Chain, ReadyQueue.Valid, Represents, Within, Valid, Allocate, UsedKept, HoldsBlock, JobsOf,
         PassAt, Askers, Outside, AllHold, Admit, AddAll, AddReady;
    ghost var r1, c1 := ready.procs, input.contents;
    AskerFirst(JobsOf(c1[i..]), v);
    JobsOfSlices(c1, i);
    NotHeld(held, memory.nodes, v.segs, target);
    NotInside(input, ready, R, i);
    var isSpace;
    isSpace, next, R' := ServeOne(memory, holes, input, ready, curr, target, i, v, R, held);
    if isSpace {
      PassServes(ready.scheduler, whole, ready0, JobsOf(c1[..i]), JobsOf(r1), JobsOf(c1[i..]), v);
      i', v', held' := i, Allocate(v, target.job).value, held + {target};
    } else {
      PassSkips(ready.scheduler, whole, ready0, JobsOf(c1[..i]), JobsOf(r1), JobsOf(c1[i..]), v);
      i', v', held' := i + 1, v, held;
    }
  }

  lemma AskerFirst(rest: seq<Job>, v: Mem)
    requires Askers(rest, v)
    ensures rest != [] ==> 0 < rest[0].mem && rest[0] !in Owners(v.segs)
  {}

  lemma NotInside(input: List<Process>, ready: ReadyQueue, R: set<object>, i: nat)
    requires Outside(input, ready, R) && i < |input.contents|
    ensures input.contents[i] !in R
  {}

  lemma NotHeld(held: set<Process>, nodes: seq<Node<Block>>, segs: seq<Seg>, target: Process)
    requires AllHold(held, nodes, segs)
    ensures target.job !in Owners(segs) ==> target !in held
  {
    forall p | p in held ensures p.job in Owners(segs) { HoldersOwn(p, nodes, segs); }
  }

  /** The pass under best fit. */
  method AllocateBestFit(memory: List<Block>, holes: List<Node<Block>>, input: List<Process>, ready: ReadyQueue,
                         ghost m: Mem, ghost R: set<object>, ghost held: set<Process>)
    returns (ghost R': set<object>, ghost held': set<Process>)
    requires Represents(memory, holes, m) && Within(memory, holes, R) && Valid(m)
    requires input.Linked() && ready.Valid() && input != ready.queue && Outside(input, ready, R)
    requires Askers(JobsOf(input.contents), m)
    requires AllHold(held, memory.nodes, m.segs) && forall p :: p in ready.procs ==> p in held
    requires forall p :: p in held ==> p !in R
    modifies R, (set p | p in input.contents)`blockNode, input, input.nodes
    modifies ready, ready.queue, ready.queue.nodes, ready.heap, ready.heap.data
    ensures input.Linked() && ready.Valid() && Outside(input, ready, R')
    ensures R <= R' && fresh(R' - R) && Within(memory, holes, R')
    ensures var a := Admit(BestFit, old(JobsOf(input.contents)), m);
      && JobsOf(input.contents) == a.kept
      && JobsOf(ready.procs) == AddAll(ready.scheduler, old(JobsOf(ready.procs)), a.admitted)
      && Represents(memory, holes, a.mem)
      && AllHold(held', memory.nodes, a.mem.segs)
    ensures forall p :: p in ready.procs ==> p in held'
    ensures forall p :: p in held' ==> p !in R' && (p in held || p in old(input.contents))
    ensures held <= held'
    ensures forall p :: p in input.contents ==> p in old(input.contents)
    ensures forall p :: p in ready.procs ==> p in old(ready.procs) || p in old(input.contents)
    ensures forall j :: 0 <= j < |ready.queue.nodes| ==>
      ready.queue.nodes[j] in old(ready.queue.nodes) || fresh(ready.queue.nodes[j])
    ensures ready.heap.data == old(ready.heap.data) || fresh(ready.heap.data)
    ensures forall j :: 0 <= j < |input.nodes| ==> input.nodes[j] in old(input.nodes)
  {
    hide List.Linked, List.Chain, ReadyQueue.Valid, Represents, Within, Valid, UsedKept, HoldsBlock, JobsOf,
         PassSoFar, Askers, Outside, AllHold, Admit, AddAll;
    ghost var whole, ready0 := Admit(BestFit, JobsOf(input.contents), m), JobsOf(ready.procs);
    PassStarts(memory, holes, input, ready, R, m);
    var curr := input.head;
    ghost var i: nat, v: Mem := 0, m;
    R', held' := R, held;
    while curr != null
      invariant PassSoFar(memory, holes, input, ready, R', whole, ready0, i, v)
      invariant R <= R' && fresh(R' - R)
      invariant AllHold(held', memory.nodes, v.segs) && forall p :: p in ready.procs ==> p in held'
      invariant forall p :: p in held' ==> p !in R' && (p in held || p in old(input.contents))
      invariant held <= held'
      invariant i <= |input.nodes| == |input.contents| && curr == if i < |input.nodes| then input.nodes[i] else null
      invariant forall p :: p in ready.procs ==> p in old(ready.procs) || p in old(input.contents)
      invariant forall j :: 0 <= j < |ready.queue.nodes| ==>
        ready.queue.nodes[j] in old(ready.queue.nodes) || fresh(ready.queue.nodes[j])
      invariant ready.heap.data == old(ready.heap.data) || fresh(ready.heap.data)
      invariant forall j :: 0 <= j < |input.nodes| ==> input.nodes[j] in old(input.nodes)
      invariant forall p :: p in input.contents ==> p in old(input.contents)
      decreases |input.contents| - i
    {
      curr, i, v, R', held' :=
        PassStep(memory, holes, input, ready, curr, input.contents[i], i, v, R', whole, ready0, held');
    }
    PassEnds(memory, holes, input, ready, R', whole, ready0, v);
  }

  lemma PassStarts(memory: List<Block>, holes: List<Node<Block>>, input: List<Process>, ready: ReadyQueue,
                   R: set<object>, m: Mem)
    requires Represents(memory, holes, m) && Within(memory, holes, R) && Valid(m)
    requires input.Linked() && ready.Valid() && input != ready.queue && Outside(input, ready, R)
    requires Askers(JobsOf(input.contents), m)
    ensures PassSoFar(memory, holes, input, ready, R, Admit(BestFit, JobsOf(input.contents), m),
                      JobsOf(ready.procs), 0, m)
    ensures |input.nodes| == |input.contents|
    ensures input.head == if input.nodes == [] then null else input.nodes[0]
  {
    assert input.contents[0..] == input.contents && input.contents[..0] == [];
  }

  lemma PassEnds(memory: List<Block>, holes: List<Node<Block>>, input: List<Process>, ready: ReadyQueue,
                 R: set<object>, whole: Admission, ready0: seq<Job>, v: Mem)
    requires PassSoFar(memory, holes, input, ready, R, whole, ready0, |input.contents|, v)
    ensures input.Linked() && ready.Valid() && Outside(input, ready, R) && Within(memory, holes, R)
    ensures Represents(memory, holes, v) && v == whole.mem
    ensures JobsOf(input.contents) == whole.kept
    ensures JobsOf(ready.procs) == AddAll(ready.scheduler, ready0, whole.admitted)
  {
    assert input.contents[|input.contents|..] == [] && input.contents[..|input.contents|] == input.contents;
  }

  /** Move the head of the input queue, if there is one, to the ready queue. */
  method MoveOne(input: List<Process>, ready: ReadyQueue) returns (moved: bool)
    requires input.Chain() && ready.Valid() && input != ready.queue
    modifies input, ready, ready.queue, ready.queue.nodes, ready.heap, ready.heap.data
    ensures input.Chain() && ready.Valid()
    ensures moved <==> old(input.contents) != []
    ensures if moved then
        && input.contents == old(input.contents)[1..]
        && JobsOf(ready.procs) == AddReady(ready.scheduler, old(JobsOf(ready.procs)), old(input.contents)[0].job)
      else input.contents == [] && ready.procs == old(ready.procs)
    ensures forall p :: p in input.contents ==> p in old(input.contents)
    ensures forall p :: p in ready.procs ==> p in old(ready.procs) || p in old(input.contents)
    ensures forall j :: 0 <= j < |ready.queue.nodes| ==>
      ready.queue.nodes[j] in old(ready.queue.nodes) || fresh(ready.queue.nodes[j])
    ensures ready.heap.data == old(ready.heap.data) || fresh(ready.heap.data)
    ensures forall j :: 0 <= j < |input.nodes| ==> input.nodes[j] in old(input.nodes)
  {
    hide List.Linked, List.Chain, ReadyQueue.Valid, JobsOf, AddReady;
    ForwardApart(input, ready);
    var process := input.Dequeue();
    moved := process.Some?;
    if moved {
      ForwardApart(input, ready);
      ready.Insert(process.value);
    }
  }

  /** The pass without a memory limit: everybody becomes ready. */
  method AllocateInfinite(input: List<Process>, ready: ReadyQueue)
    requires input.Chain() && ready.Valid() && input != ready.queue
    modifies input, ready, ready.queue, ready.queue.nodes, ready.heap, ready.heap.data
    ensures input.Chain() && ready.Valid() && input.contents == []
    ensures JobsOf(ready.procs) == AddAll(ready.scheduler, old(JobsOf(ready.procs)), old(JobsOf(input.contents)))
    ensures forall p :: p in ready.procs ==> p in old(ready.procs) || p in old(input.contents)
    ensures forall j :: 0 <= j < |ready.queue.nodes| ==>
      ready.queue.nodes[j] in old(ready.queue.nodes) || fresh(ready.queue.nodes[j])
    ensures ready.heap.data == old(ready.heap.data) || fresh(ready.heap.data)
    ensures forall j :: 0 <= j < |input.nodes| ==> input.nodes[j] in old(input.nodes)
  {
    hide List.Linked, List.Chain, ReadyQueue.Valid, JobsOf, AddReady;
    var moved := true;
    while moved
      invariant input.Chain() && ready.Valid() && (!moved ==> input.contents == [])
      invariant AddAll(ready.scheduler, JobsOf(ready.procs), JobsOf(input.contents))
             == AddAll(ready.scheduler, old(JobsOf(ready.procs)), old(JobsOf(input.contents)))
      invariant forall p :: p in input.contents ==> p in old(input.contents)
      invariant forall p :: p in ready.procs ==> p in old(ready.procs) || p in old(input.contents)
      invariant forall j :: 0 <= j < |ready.queue.nodes| ==>
        ready.queue.nodes[j] in old(ready.queue.nodes) || fresh(ready.queue.nodes[j])
      invariant ready.heap.data == old(ready.heap.data) || fresh(ready.heap.data)
      invariant forall j :: 0 <= j < |input.nodes| ==> input.nodes[j] in old(input.nodes)
      decreases |input.contents|, moved
    {
      FirstOf(input.contents);
      moved := MoveOne(input, ready);
    }
    FirstOf(input.contents);
  }

  lemma ForwardApart(input: List<Process>, ready: ReadyQueue)
    requires input.Chain() && ready.Valid() && input != ready.queue
    ensures forall i :: 0 <= i < |input.nodes| ==> input.nodes[i] !in ready.queue.nodes
  {}
}
