/** One allocation pass over the input queue. */
module AdmissionLemmas {
  import opened Jobs
  import opened Sequences
  import opened MemoryModel
  import opened MemoryLemmas
  import opened SchedulerModel
  import HeapModel

  /** `s` is an order-preserving interleaving of `a` and `b`. */
  ghost predicate Interleaves(s: seq<Job>, a: seq<Job>, b: seq<Job>)
    decreases |s|
  {
    if s == [] then a == [] && b == []
    else
      || (a != [] && a[0] == s[0] && Interleaves(s[1..], a[1..], b))
      || (b != [] && b[0] == s[0] && Interleaves(s[1..], a, b[1..]))
  }

  lemma {:induction false} InterleavesContents(s: seq<Job>, a: seq<Job>, b: seq<Job>)
    requires Interleaves(s, a, b)
    ensures multiset(s) == multiset(a) + multiset(b)
    decreases |s|
  {
    if s != [] {
      assert s == [s[0]] + s[1..];
      if a != [] && a[0] == s[0] && Interleaves(s[1..], a[1..], b) {
        InterleavesContents(s[1..], a[1..], b);
        assert a == [a[0]] + a[1..];
      } else {
        InterleavesContents(s[1..], a, b[1..]);
        assert b == [b[0]] + b[1..];
      }
    }
  }

  /** The pass splits the input queue into two order-preserving parts. */
  lemma {:induction false} AdmitInterleaves(strategy: Strategy, input: seq<Job>, mem: Mem)
    ensures var a := Admit(strategy, input, mem); Interleaves(input, a.kept, a.admitted)
    decreases |input|
  {
    if input != [] {
      var m := TryAllocate(strategy, mem, input[0]);
      AdmitInterleaves(strategy, input[1..], if m.Some? then m.value else mem);
      var a := Admit(strategy, input[1..], if m.Some? then m.value else mem);
      assert ([input[0]] + a.kept)[1..] == a.kept && ([input[0]] + a.admitted)[1..] == a.admitted;
    }
  }

  lemma {:induction false} AdmitAllWithoutLimit(input: seq<Job>, mem: Mem)
    ensures Admit(Infinite, input, mem) == Admission([], input, mem)
    decreases |input|
  {
    if input != [] { AdmitAllWithoutLimit(input[1..], mem); }
  }

  /** No job of `kept` fits into any hole. */
  ghost predicate NothingFits(kept: seq<Job>, mem: Mem) {
    forall job, h :: job in kept && h in mem.holes ==> job.mem > h.size
  }

  /** Jobs that may ask for memory: they have none yet, and there are no duplicates. */
  ghost predicate Askers(input: seq<Job>, mem: Mem) {
    && Distinct(input)
    && forall job :: job in input ==> 0 < job.mem && job !in Owners(mem.segs)
  }

  lemma {:induction false} ShrinkTransitive(a: Mem, b: Mem, c: Mem)
    requires HolesShrink(a, b) && HolesShrink(b, c)
    ensures HolesShrink(a, c)
  {
    forall h | h in c.holes ensures exists g :: g in a.holes && h.size <= g.size {
      var f :| f in b.holes && h.size <= f.size;
      var g :| g in a.holes && f.size <= g.size;
      assert h.size <= g.size;
    }
  }

  /** Every used block of `a` is a block of `b`, at the same address. */
  ghost predicate Stays(a: seq<Seg>, b: seq<Seg>) {
    forall s: Seg :: s.Used? && s in a ==> s in b
  }

  function Elements(jobs: seq<Job>): set<Job> {
    set job | job in jobs
  }

  lemma ElementsCons(x: Job, xs: seq<Job>)
    ensures Elements([]) == {}
    ensures Elements([x] + xs) == {x} + Elements(xs)
  {}

  /** Serving or skipping the first job leaves the others entitled to ask. */
  lemma ServeFirst(input: seq<Job>, mem: Mem)
    requires Valid(mem) && Askers(input, mem) && input != []
    ensures Askers(input[1..], mem)
    ensures 0 < input[0].mem && input[0] !in Owners(mem.segs)
    ensures Allocate(mem, input[0]).Some? ==>
      var m := Allocate(mem, input[0]).value;
      && Valid(m) && Askers(input[1..], m) && HolesShrink(mem, m) && Stays(mem.segs, m.segs)
      && Owners(m.segs) == Owners(mem.segs) + {input[0]}
  {
    var job, rest := input[0], input[1..];
    assert input == [job] + rest;
    assert job in input && job !in rest;
    assert forall j :: j in rest ==> j in input;
    if Allocate(mem, job).Some? { AllocateKeeps(mem, job); }
  }

  /** The pass keeps memory valid, gives memory to exactly the admitted jobs, moves no earlier block, and never
      enlarges the largest hole. */
  lemma {:induction false} AdmitKeepsMemory(input: seq<Job>, mem: Mem)
    requires Valid(mem) && Askers(input, mem)
    ensures var a := Admit(BestFit, input, mem);
      && Valid(a.mem)
      && HolesShrink(mem, a.mem)
      && Owners(a.mem.segs) == Owners(mem.segs) + Elements(a.admitted)
      && Stays(mem.segs, a.mem.segs)
    decreases |input|
  {
    hide Valid, Owners, Elements;
    if input == [] {
      ElementsCons(Job(0, 0, "", 0, 0), []);
    } else {
      ServeFirst(input, mem);
      if Allocate(mem, input[0]).Some? {
        var m := Allocate(mem, input[0]).value;
        var r := Admit(BestFit, input[1..], m);
        AdmitKeepsMemory(input[1..], m);
        ShrinkTransitive(mem, m, r.mem);
        ElementsCons(input[0], r.admitted);
      } else {
        AdmitKeepsMemory(input[1..], mem);
      }
    }
  }

  /** One pass is enough: whatever it leaves behind is larger than every hole it leaves. */
  lemma {:induction false} AdmitIsFixpoint(input: seq<Job>, mem: Mem)
    requires Valid(mem) && Askers(input, mem)
    ensures var a := Admit(BestFit, input, mem); NothingFits(a.kept, a.mem)
    decreases |input|
  {
    if input != [] {
      ServeFirst(input, mem);
      if Allocate(mem, input[0]).Some? {
        AdmitIsFixpoint(input[1..], Allocate(mem, input[0]).value);
      } else {
        AllocateSucceeds(mem, input[0]);
        AdmitIsFixpoint(input[1..], mem);
        AdmitKeepsMemory(input[1..], mem);
        var a := Admit(BestFit, input[1..], mem);
        forall h | h in a.mem.holes ensures input[0].mem > h.size {
          var g :| g in mem.holes && h.size <= g.size;
        }
      }
    }
  }

  lemma AddReadyContents(sched: Scheduler, ready: seq<Job>, job: Job)
    ensures multiset(AddReady(sched, ready, job)) == multiset(ready) + multiset{job}
    ensures sched.SJF? && HeapModel.IsHeap(ready) ==> HeapModel.IsHeap(AddReady(sched, ready, job))
  {
    if sched.SJF? && HeapModel.IsHeap(ready) { HeapModel.InsertKeepsHeap(ready, job); }
  }

  lemma {:induction false} AddAllContents(sched: Scheduler, ready: seq<Job>, jobs: seq<Job>)
    ensures multiset(AddAll(sched, ready, jobs)) == multiset(ready) + multiset(jobs)
    ensures sched.SJF? && HeapModel.IsHeap(ready) ==> HeapModel.IsHeap(AddAll(sched, ready, jobs))
    decreases |jobs|
  {
    hide AddReady, HeapModel.IsHeap;
    if jobs != [] {
      assert jobs == [jobs[0]] + jobs[1..];
      AddReadyContents(sched, ready, jobs[0]);
      AddAllContents(sched, AddReady(sched, ready, jobs[0]), jobs[1..]);
      assert multiset(jobs) == multiset{jobs[0]} + multiset(jobs[1..]);
    }
  }

  lemma {:induction false} QueueAll(ready: seq<Job>, jobs: seq<Job>)
    ensures AddAll(RR, ready, jobs) == ready + jobs
    decreases |jobs|
  {
    if jobs != [] {
      QueueAll(ready + [jobs[0]], jobs[1..]);
      assert ready + [jobs[0]] + jobs[1..] == ready + jobs;
    }
  }
}
