/** Whole runs: who finishes, when, and which workloads finish at all. */
module SchedulerRuns {
  import opened Jobs
  import opened MemoryModel
  import opened MemoryLemmas
  import MemoryTheorems
  import HeapModel
  import opened SchedulerModel
  import opened AdmissionLemmas
  import opened SchedulerInvariants
  import opened SchedulerAccounting
  import opened SchedulerClock
  import opened ClockArithmetic

  // ---------- the first cycle ----------

  /** Somebody arrives in the first cycle and gets the processor. */
  lemma FirstDispatches(c: Config)
    requires Loaded(c) && Runnable(c)
    ensures Intake(c, Start(c)).ready != []
  {
    var s := Start(c);
    var u := Intake(c, s);
    StartBooks(c);
    IntakeKeeps(c, s);
    IntakeServes(c, s);
    IntakeLeaves(c, s);
    assert Arrivals(s.pending, 0) > 0;
    PlacesSize(c, u);
  }

  lemma StartPaced(c: Config)
    requires c.quantum > 0
    ensures Paced(c, Start(c))
  {
    assert c.jobs[0..] == c.jobs && c.jobs[..0] == [];
  }

  lemma FirstLive(c: Config)
    requires Loaded(c) && Runnable(c)
    ensures Live(c, First(c)) && First(c).history == []
  {
    hide Core, Books, Paced, Intake, HeapModel.Rest, Length;
    var s := Start(c);
    var u := Intake(c, s);
    StartBooks(c);
    StartPaced(c);
    FirstDispatches(c);
    IntakeLeaves(c, s);
    IntakeSettled(c, s);
    DispatchKeeps(c, u);
    DispatchBooks(c, u);
    var d := Dispatch(c, u);
    SamePace(c, u, d);
    TickSettled(c, d);
  }

  // ---------- every cycle of every run ----------

  /** What holds when the loop is left. */
  ghost predicate Ended(c: Config, s: State)
    requires c.quantum > 0
  {
    && Core(c, s) && Books(c, s) && Paced(c, s)
    && |s.finished| == |c.jobs|
    && s.time == c.quantum * |s.history| % WORD
  }

  ghost predicate LiveAt(c: Config, n: nat)
    requires c.quantum > 0
  {
    match Run(c, n)
    case Running(s) => Live(c, s) && |s.history| == n
    case Finished(s) => Ended(c, s)
    case Crashed => false
  }

  lemma FirstLiveAt(c: Config)
    requires Loaded(c) && Runnable(c)
    ensures LiveAt(c, 0)
  {
    hide Live, First;
    FirstLive(c);
  }

  lemma NextLive(c: Config, n: nat)
    requires Loaded(c) && Runnable(c) && Reachable(c) && LiveAt(c, n)
    ensures LiveAt(c, n + 1)
  {
    hide Live, Core, Books, Paced, Step, First, Runnable, Reachable;
    if Run(c, n).Running? { StepLive(c, Run(c, n).state); }
  }

  /** A runnable workload whose arrivals the clock reaches never crashes, and every loop boundary is live. */
  lemma {:induction false} RunLive(c: Config, n: nat)
    requires Loaded(c) && Runnable(c) && Reachable(c)
    ensures LiveAt(c, n)
  {
    hide LiveAt, Runnable, Reachable, Loaded;
    if n == 0 {
      FirstLiveAt(c);
    } else {
      RunLive(c, n - 1);
      NextLive(c, n - 1);
    }
  }

  ghost predicate UnstalledAt(c: Config, n: nat) {
    match Run(c, n)
    case Running(s) => Core(c, s) && NoStall(s)
    case Finished(s) => true
    case Crashed => false
  }

  lemma FirstUnstalled(c: Config)
    requires Loaded(c) && Runnable(c)
    ensures UnstalledAt(c, 0)
  {
    FirstKeepsCore(c);
    FirstDispatches(c);
    hide Intake, Core, HeapModel.Rest;
  }

  lemma NextUnstalled(c: Config, n: nat)
    requires Loaded(c) && Runnable(c) && UnstalledAt(c, n)
    ensures UnstalledAt(c, n + 1)
  {
    RunKeepsCore(c, n + 1);
    hide Core, NoStall, Step, First, Runnable;
    if Run(c, n).Running? { StepNoStall(c, Run(c, n).state); }
  }

  lemma {:induction false} RunUnstalled(c: Config, n: nat)
    requires Loaded(c) && Runnable(c)
    ensures UnstalledAt(c, n)
  {
    hide UnstalledAt, Runnable, Loaded;
    if n == 0 {
      FirstUnstalled(c);
    } else {
      RunUnstalled(c, n - 1);
      NextUnstalled(c, n - 1);
    }
  }

  /** At the end of every cycle an idle processor means that nobody is ready and nobody waits for memory.  This does not
      depend on the clock: it holds even when the 32-bit time wraps. */
  lemma NeverStalls(c: Config, n: nat)
    requires Loaded(c) && Runnable(c)
    ensures !Run(c, n).Crashed?
    ensures Run(c, n).Running? && Run(c, n).state.current.None? ==>
      Run(c, n).state.ready == [] && Run(c, n).state.input == []
  {
    RunUnstalled(c, n);
  }

  /** Every loaded process is in exactly one of the five places, and the sizes add up. */
  lemma NobodyIsLost(c: Config, n: nat, job: Job)
    requires Loaded(c) && !Run(c, n).Crashed? && job in c.jobs
    ensures var s := Run(c, n).state;
      && multiset(s.pending)[job] + multiset(s.input)[job] + multiset(s.ready)[job] + Bag(s.current)[job]
         + Retired(s.finished)[job] == 1
      && |s.pending| + |s.input| + |s.ready| + |Bag(s.current)| + |s.finished| == |c.jobs|
  {
    RunKeepsCore(c, n);
    var s := Run(c, n).state;
    PlacesApart(c, s);
    PlacesSize(c, s);
    assert job in multiset(c.jobs);
  }

  // ---------- termination and makespan ----------

  lemma {:induction false} FinishedStays(c: Config, n: nat, m: nat)
    requires n <= m && !Run(c, n).Running?
    ensures Run(c, m) == Run(c, n)
    decreases m
  {
    if n < m { FinishedStays(c, n, m - 1); }
  }

  /** A runnable workload whose arrivals the clock reaches leaves the loop in the cycle that its length says, not before
      and not after. */
  lemma Terminates(c: Config, n: nat)
    requires Loaded(c) && Runnable(c) && Reachable(c)
    ensures Run(c, n).Finished? <==> n >= Length(c)
  {
    RunLive(c, n);
    RunBooks(c, n);
    var o := Run(c, n);
    hide Run, Core, Books, Paced, Runnable, Reachable, Length;
    CoreConserves(c, o.state);
    if o.Running? { LiveBound(c, o.state); } else { EndedLength(c, o.state); }
  }

  /** When the loop is left every queue is empty, everybody is in the finished queue once, and all memory has come
      back as the single hole it started as. */
  lemma EndsEmpty(c: Config, n: nat)
    requires Loaded(c) && Run(c, n).Finished?
    ensures var s := Run(c, n).state;
      && s.pending == [] && s.input == [] && s.ready == [] && s.current == None
      && Retired(s.finished) == multiset(c.jobs)
      && (c.strategy.BestFit? ==> s.mem == INITIAL)
  {
    RunBooks(c, n);
    var s := Run(c, n).state;
    PlacesSize(c, s);
    SomeoneUnfinished(c, s);
    if c.strategy.BestFit? {
      assert Holders(s) == {};
      MemoryTheorems.AllFreeIsInitial(s.mem);
    }
  }

  // ---------- who can finish ----------

  lemma OwnerFits(m: Mem, job: Job)
    requires Valid(m) && job in Owners(m.segs)
    ensures job.mem <= CAPACITY
  {
    var s :| s in m.segs && s.Used? && s.owner == job;
    var i :| 0 <= i < |m.segs| && m.segs[i] == s;
    if i < |m.segs| - 1 { EarlierEndsFirst(m.segs, i, |m.segs| - 1); }
  }

  /** Whoever ran to completion fitted into memory. */
  ghost predicate RetiredFit(c: Config, s: State) {
    c.strategy.BestFit? ==> forall job :: job in Retired(s.finished) ==> job.mem <= CAPACITY
  }

  lemma RunnerFits(c: Config, s: State)
    requires Core(c, s) && c.strategy.BestFit? && s.current.Some?
    ensures s.current.value.mem <= CAPACITY
  {
    OwnerFits(s.mem, s.current.value);
  }

  lemma SettleRetiredFit(c: Config, s: State)
    requires Core(c, s) && RetiredFit(c, s)
    ensures RetiredFit(c, Settle(c, s))
  {
    if c.strategy.BestFit? && s.current.Some? { RunnerFits(c, s); }
    hide Core;
    var t := Settle(c, s);
    assert Expires(c, s) ==> t.finished[..|t.finished| - 1] == s.finished;
  }

  lemma StepRetiredFit(c: Config, s: State)
    requires Core(c, s) && RetiredFit(c, s)
    ensures !Step(c, s).Crashed? ==> RetiredFit(c, Step(c, s).state)
  {
    hide Core;
    SettleRetiredFit(c, s);
    if Step(c, s).Running? { StepResumes(c, s); }
  }

  ghost predicate RetiredFitAt(c: Config, n: nat) {
    !Run(c, n).Crashed? ==> RetiredFit(c, Run(c, n).state)
  }

  lemma FirstRetiredFit(c: Config)
    ensures RetiredFitAt(c, 0)
  {
    hide Intake;
    IntakeLeaves(c, Start(c));
  }

  lemma NextRetiredFit(c: Config, n: nat)
    requires Loaded(c) && RetiredFitAt(c, n)
    ensures RetiredFitAt(c, n + 1)
  {
    RunKeepsCore(c, n);
    hide Core, RetiredFit, Step, First;
    if Run(c, n).Running? { StepRetiredFit(c, Run(c, n).state); }
  }

  lemma {:induction false} RunRetiredFit(c: Config, n: nat)
    requires Loaded(c)
    ensures RetiredFitAt(c, n)
  {
    hide RetiredFitAt, Loaded;
    if n == 0 {
      FirstRetiredFit(c);
    } else {
      RunRetiredFit(c, n - 1);
      NextRetiredFit(c, n - 1);
    }
  }

  /** A run that dispatches nobody in its first cycle crashes in its second. */
  lemma NobodyFirstCrashes(c: Config)
    requires First(c).current.None?
    ensures Run(c, 1).Crashed?
  {}

  lemma LateFirstArrival(c: Config)
    requires c.jobs == [] || c.jobs[0].arrival > 0
    ensures First(c).current.None?
  {
    assert Arrivals(c.jobs, 0) == 0;
    assert c.jobs[..0] == [];
  }

  lemma {:induction false} FinishedWasRunning(c: Config, n: nat)
    requires Run(c, n).Finished?
    ensures First(c).current.Some? && |Run(c, n).state.finished| == |c.jobs|
    decreases n
  {
    if First(c).current.None? {
      NobodyFirstCrashes(c);
      if n > 0 { FinishedStays(c, 1, n); }
    } else if !Run(c, n - 1).Running? {
      FinishedWasRunning(c, n - 1);
    }
  }

  lemma FinishedOnlyIfRunnable(c: Config, n: nat)
    requires Loaded(c) && Run(c, n).Finished?
    ensures Runnable(c)
  {
    FinishedWasRunning(c, n);
    if c.jobs == [] || c.jobs[0].arrival > 0 { LateFirstArrival(c); }
    RunRetiredFit(c, n);
    RunKeepsCore(c, n);
    SomeoneUnfinished(c, Run(c, n).state);
    assert forall job :: job in c.jobs ==> job in multiset(c.jobs);
  }

  /** Whoever has entered did so when the clock had reached its arrival. */
  ghost predicate Entered(c: Config, s: State) {
    forall job :: job in c.jobs && job !in s.pending ==> job.arrival <= LatestShown(c.quantum)
  }

  lemma LeftPending(c: Config, s: State, job: Job)
    requires c.quantum > 0 && s.time == c.quantum * |s.history| % WORD && job in s.pending
    ensures job !in s.pending[Arrivals(s.pending, s.time)..] ==> job.arrival <= LatestShown(c.quantum)
  {
    var k := Arrivals(s.pending, s.time);
    var i :| 0 <= i < |s.pending| && s.pending[i] == job;
    if k <= i {
      assert s.pending[k..][i - k] == job;
    } else {
      ShowsMultiples(c.quantum, |s.history|);
    }
  }

  lemma FirstEntered(c: Config)
    requires Loaded(c)
    ensures Entered(c, First(c))
  {
    hide Admit, AddAll, HeapModel.Rest, LatestShown;
    forall job | job in c.jobs && job !in First(c).pending ensures job.arrival <= LatestShown(c.quantum) {
      LeftPending(c, Start(c), job);
    }
  }

  lemma JobEntered(c: Config, s: State, job: Job)
    requires Loaded(c) && Booked(c, s) && job in c.jobs && !Step(c, s).Crashed?
    requires job !in s.pending ==> job.arrival <= LatestShown(c.quantum)
    ensures job !in Step(c, s).state.pending ==> job.arrival <= LatestShown(c.quantum)
  {
    hide Core, Books, Intake, LatestShown;
    SettleBooks(c, s);
    if Step(c, s).Running? && job in s.pending {
      StepResumes(c, s);
      LeftPending(c, Settle(c, s), job);
    }
  }

  lemma StepEntered(c: Config, s: State)
    requires Loaded(c) && Booked(c, s) && Entered(c, s) && !Step(c, s).Crashed?
    ensures Entered(c, Step(c, s).state)
  {
    hide Booked, Step, LatestShown, Loaded;
    forall job | job in c.jobs && job !in Step(c, s).state.pending ensures job.arrival <= LatestShown(c.quantum) {
      JobEntered(c, s, job);
    }
  }

  lemma {:induction false} RunEntered(c: Config, n: nat)
    requires Loaded(c) && !Run(c, n).Crashed?
    ensures Entered(c, Run(c, n).state)
  {
    hide Entered, Loaded, Booked, Closed, Step, First;
    if n == 0 {
      FirstEntered(c);
    } else {
      RunEntered(c, n - 1);
      RunBooks(c, n - 1);
      if Run(c, n - 1).Running? { StepEntered(c, Run(c, n - 1).state); }
    }
  }

  lemma FinishedOnlyIfReachable(c: Config, n: nat)
    requires Loaded(c) && Run(c, n).Finished?
    ensures Reachable(c)
  {
    RunEntered(c, n);
    EndsEmpty(c, n);
  }

  /** A workload finishes if and only if its first process arrives at time 0, with limited memory every process fits
      into empty memory, and the clock ever reaches every arrival. */
  lemma FinishesIff(c: Config)
    requires Loaded(c)
    ensures (exists n :: Run(c, n).Finished?) <==> Runnable(c) && Reachable(c)
  {
    if Runnable(c) && Reachable(c) { Terminates(c, Length(c)); }
    if n :| Run(c, n).Finished? {
      FinishedOnlyIfRunnable(c, n);
      FinishedOnlyIfReachable(c, n);
    }
  }

  /** If no boundary after an arrival is beyond 32 bits, the first two conditions decide. */
  lemma FinishesIffRunnable(c: Config)
    requires Loaded(c) && Unwrapped(c)
    ensures (exists n :: Run(c, n).Finished?) <==> Runnable(c)
  {
    FinishesIff(c);
    UnwrappedIsReachable(c);
  }

  // ---------- the makespan ----------

  /** Every run that ends does so after as many cycles as its length, whatever the scheduler and the memory strategy;
      the clock then shows the quantum times the length. The length is made up of the quanta that all jobs need and the
      idle ones, of which there are at most ceil(last arrival / quantum) if the clock does not wrap before the last
      arrival. */
  lemma Makespan(c: Config, n: nat)
    requires Loaded(c) && Run(c, n).Finished?
    ensures var s := Run(c, n).state;
      && s.time == c.quantum * Length(c) % WORD
      && (Fits(c) ==> s.time == c.quantum * Length(c))
      && n >= Length(c) == |s.history| == Work(c.quantum, c.jobs) + IdleQuanta(s)
      && (Unwrapped(c) ==> IdleQuanta(s) <= CeilDiv(Horizon(c.jobs), c.quantum))
  {
    hide Run, Core, Books, Paced, Runnable, Reachable, Length;
    FinishedOnlyIfRunnable(c, n);
    FinishedOnlyIfReachable(c, n);
    RunLive(c, n);
    RunBooks(c, n);
    var s := Run(c, n).state;
    CoreConserves(c, s);
    EndedLength(c, s);
    if Unwrapped(c) { IdleBound(c, s); }
  }

  /** Shortest job first and round robin, with and without a memory limit, all end in the same cycle and at the same
      time. */
  lemma SameMakespan(c: Config, d: Config, n: nat)
    requires Loaded(c) && Runnable(c) && Reachable(c) && Loaded(d) && Runnable(d)
    requires c.jobs == d.jobs && c.quantum == d.quantum
    ensures Run(c, n).Finished? <==> Run(d, n).Finished?
    ensures Run(c, n).Finished? ==> Run(c, n).state.time == Run(d, n).state.time
  {
    Terminates(c, n);
    Terminates(d, n);
    if Run(c, n).Finished? {
      Makespan(c, n);
      Makespan(d, n);
    }
  }

  // ---------- exactly which workloads crash ----------

  /** Nobody runs exactly when the flag says so. */
  ghost predicate FlagExact(s: State) {
    s.noneRunning <==> s.current.None?
  }

  lemma StepFlagExact(c: Config, s: State)
    requires FlagExact(s)
    ensures !Step(c, s).Crashed? && (Step(c, s).Running? ==> FlagExact(Step(c, s).state))
  {
    hide HeapModel.Rest, Intake;
    IntakeLeaves(c, Settle(c, s));
  }

  lemma {:induction false} RunFlagExact(c: Config, n: nat)
    requires First(c).current.Some?
    ensures !Run(c, n).Crashed? && (Run(c, n).Running? ==> FlagExact(Run(c, n).state))
  {
    if n > 0 {
      RunFlagExact(c, n - 1);
      if Run(c, n - 1).Running? { StepFlagExact(c, Run(c, n - 1).state); }
    }
  }

  /** Somebody who arrives at time 0, ahead of any later arrival, fits into empty memory. */
  ghost predicate SomebodyStarts(c: Config) {
    exists i :: 0 <= i < Arrivals(c.jobs, 0) && (c.strategy.BestFit? ==> c.jobs[i].mem <= CAPACITY)
  }

  lemma NobodyAdmitted(input: seq<Job>, mem: Mem)
    requires Valid(mem) && forall i :: 0 <= i < |input| ==> input[i].mem > CAPACITY
    requires forall h :: h in mem.holes ==> h.size <= CAPACITY
    ensures Admit(BestFit, input, mem) == Admission(input, [], mem)
  {
    if input != [] {
      AllocateSucceeds(mem, input[0]);
      NobodyAdmitted(input[1..], mem);
    }
  }

  lemma FirstIntake(c: Config)
    ensures var k := Arrivals(c.jobs, 0);
      var a := Admit(c.strategy, c.jobs[..k], INITIAL);
      && Intake(c, Start(c)).input == a.kept
      && Intake(c, Start(c)).ready == AddAll(c.scheduler, [], a.admitted)
      && Intake(c, Start(c)).mem == a.mem
      && multiset(c.jobs[..k]) == multiset(a.kept) + multiset(Intake(c, Start(c)).ready)
  {
    var k := Arrivals(c.jobs, 0);
    var a := Admit(c.strategy, c.jobs[..k], INITIAL);
    assert [] + c.jobs[..k] == c.jobs[..k];
    AdmitInterleaves(c.strategy, c.jobs[..k], INITIAL);
    InterleavesContents(c.jobs[..k], a.kept, a.admitted);
    AddAllContents(c.scheduler, [], a.admitted);
  }

  lemma NobodyStarts(c: Config)
    requires !SomebodyStarts(c)
    ensures Intake(c, Start(c)).ready == []
  {
    var k := Arrivals(c.jobs, 0);
    FirstIntake(c);
    MemoryTheorems.InitialValid();
    if c.strategy.BestFit? {
      NobodyAdmitted(c.jobs[..k], INITIAL);
    } else {
      assert k > 0 ==> SomebodyStarts(c);
    }
  }

  lemma SomebodyAdmitted(c: Config)
    requires Loaded(c) && SomebodyStarts(c)
    ensures Intake(c, Start(c)).ready != []
  {
    var u := Intake(c, Start(c));
    var k := Arrivals(c.jobs, 0);
    var i :| 0 <= i < k && (c.strategy.BestFit? ==> c.jobs[i].mem <= CAPACITY);
    FirstIntake(c);
    StartBooks(c);
    IntakeKeeps(c, Start(c));
    assert c.jobs[..k][i] in multiset(c.jobs[..k]);
    IntakeLeaves(c, Start(c));
    hide Core, Intake, Admit, AddAll, Arrivals, NothingFits;
    if u.ready == [] {
      assert multiset(u.input)[c.jobs[i]] > 0;
      if c.strategy.BestFit? {
        IdleMemoryIsFree(c, u);
        TooBig(u.input, u.mem, c.jobs[i]);
      }
    }
  }

  lemma TooBig(input: seq<Job>, mem: Mem, job: Job)
    requires NothingFits(input, mem) && multiset(input)[job] > 0 && Hole(0, CAPACITY) in mem.holes
    ensures job.mem > CAPACITY
  {
    assert job in input;
  }

  /** The program continues a process that does not exist if and only if nobody fitting is there at time 0. */
  lemma CrashesIffNobodyStarts(c: Config)
    requires Loaded(c)
    ensures (exists n :: Run(c, n).Crashed?) <==> !SomebodyStarts(c)
  {
    if SomebodyStarts(c) {
      SomebodyAdmitted(c);
      forall n ensures !Run(c, n).Crashed? { RunFlagExact(c, n); }
    } else {
      NobodyStarts(c);
      NobodyFirstCrashes(c);
    }
  }

  /** Every loaded workload crashes, finishes or runs for ever; it runs for ever if and only if somebody starts, but
      somebody does not fit, or the first process is late, or the clock never reaches some arrival. */
  lemma RunsForeverIff(c: Config)
    requires Loaded(c)
    ensures (forall n :: Run(c, n).Running?) <==> SomebodyStarts(c) && !(Runnable(c) && Reachable(c))
  {
    CrashesIffNobodyStarts(c);
    FinishesIff(c);
  }

  /** A first process that arrives at time 1 is enough to crash. */
  lemma LateArrivalExample()
    ensures Run(Config([Job(0, 1, "A", 1, 16)], 1, RR, Infinite), 1).Crashed?
  {
    var c := Config([Job(0, 1, "A", 1, 16)], 1, RR, Infinite);
    LateFirstArrival(c);
    NobodyFirstCrashes(c);
  }

  /** A process of 2049 units beside one that fits is enough for the loop never to end. */
  lemma OversizedExample(n: nat)
    ensures Run(Config([Job(0, 0, "A", 1, 16), Job(1, 0, "B", 1, 2049)], 1, SJF, BestFit), n).Running?
  {
    var c := Config([Job(0, 0, "A", 1, 16), Job(1, 0, "B", 1, 2049)], 1, SJF, BestFit);
    assert c.jobs[1] in c.jobs;
    assert c.jobs[0].arrival == 0;
    assert 0 < Arrivals(c.jobs, 0) && c.jobs[0].mem <= CAPACITY;
    assert !Runnable(c);
    CrashesIffNobodyStarts(c);
    if Run(c, n).Finished? { FinishedOnlyIfRunnable(c, n); }
  }

  /** A process of exactly 2048 units finishes. */
  lemma WholeMemoryExample(scheduler: Scheduler)
    ensures exists n :: Run(Config([Job(0, 0, "A", 5, 2048)], 3, scheduler, BestFit), n).Finished?
  {
    var c := Config([Job(0, 0, "A", 5, 2048)], 3, scheduler, BestFit);
    assert c.jobs[0].arrival == 0;
    hide Run, LatestShown;
    FinishesIff(c);
  }

  /** The workload that the program's documentation gives as its example, with its quantum of 3, ends at 120 under every
      scheduler and memory strategy: 31 busy quanta and 9 idle ones. */
  lemma DocumentedExample(scheduler: Scheduler, strategy: Strategy)
    ensures var jobs := [Job(0, 0, "P4", 30, 16), Job(1, 29, "P2", 40, 64), Job(2, 99, "P1", 20, 32)];
      var c := Config(jobs, 3, scheduler, strategy);
      && Loaded(c) && Runnable(c) && Fits(c) && Run(c, 40).Finished?
      && Run(c, 40).state.time == 120 && IdleQuanta(Run(c, 40).state) == 9
  {
    var jobs := [Job(0, 0, "P4", 30, 16), Job(1, 29, "P2", 40, 64), Job(2, 99, "P1", 20, 32)];
    var c := Config(jobs, 3, scheduler, strategy);
    ExampleSizes(jobs);
    hide Run, Length, Work;
    SimpleFits(c);
    UnwrappedIsReachable(c);
    Terminates(c, 40);
    Makespan(c, 40);
  }

  lemma ExampleSizes(jobs: seq<Job>)
    requires jobs == [Job(0, 0, "P4", 30, 16), Job(1, 29, "P2", 40, 64), Job(2, 99, "P1", 20, 32)]
    ensures Work(3, jobs) == 31 && SimpleSpan(3, jobs, 0) == 40
  {
    var two, one := jobs[1..], jobs[2..];
    assert two[1..] == one && one[1..] == [];
    assert Work(3, one) == 7 && Work(3, two) == 21;
    assert SimpleSpan(3, one, 24) == 40;
    assert SimpleSpan(3, two, 10) == 40;
  }

  /** A workload whose last arrival is the last but one 32-bit value still finishes, at the last 32-bit value. */
  lemma LatestArrivalExample(scheduler: Scheduler, strategy: Strategy)
    ensures var c := Config([Job(0, 0, "P", 1, 1), Job(1, 4294967294, "P0", 1, 1)], 1, scheduler, strategy);
      && Loaded(c) && Runnable(c) && Fits(c) && Run(c, 4294967295).Finished?
      && Run(c, 4294967295).state.time == 4294967295
  {
    var jobs := [Job(0, 0, "P", 1, 1), Job(1, 4294967294, "P0", 1, 1)];
    var c := Config(jobs, 1, scheduler, strategy);
    LatestSizes(jobs);
    hide Run, Length, Work;
    SimpleFits(c);
    UnwrappedIsReachable(c);
    Terminates(c, 4294967295);
    Makespan(c, 4294967295);
  }

  lemma LatestSizes(jobs: seq<Job>)
    requires jobs == [Job(0, 0, "P", 1, 1), Job(1, 4294967294, "P0", 1, 1)]
    ensures SimpleSpan(1, jobs, 0) == 4294967295
  {
    var one := jobs[1..];
    assert one[1..] == [];
    assert SimpleSpan(1, one, 1) == 4294967295;
  }

  /** With a quantum of 2 the clock is always even, so a process that arrives at the last 32-bit value, which is odd,
      never gets in, and the loop never ends. */
  lemma WrappedClockExample(scheduler: Scheduler, n: nat)
    ensures var c := Config([Job(0, 0, "A", 1, 1), Job(1, 4294967295, "B", 1, 1)], 2, scheduler, Infinite);
      Run(c, n).Running?
  {
    var c := Config([Job(0, 0, "A", 1, 1), Job(1, 4294967295, "B", 1, 1)], 2, scheduler, Infinite);
    assert c.jobs[0].arrival == 0 && c.jobs[1] in c.jobs && c.jobs[1].arrival == 4294967295;
    assert Loaded(c) && 0 < Arrivals(c.jobs, 0);
    assert SomebodyStarts(c);
    LatestEven();
    hide Run;
    RunsForeverIff(c);
  }

  lemma LatestEven()
    ensures LatestShown(2) < 4294967295
  {
    var k := ShowsLatest(2);
  }

  /** With a quantum of 3 a process that arrives at 4294967293 enters at 4294967295; the clock wraps while it runs, and
      the run ends after 1431655766 cycles with a final time that shows as 2. */
  lemma WrappedFinishExample(scheduler: Scheduler, strategy: Strategy)
    ensures var c := Config([Job(0, 0, "A", 1, 1), Job(1, 4294967293, "B", 1, 1)], 3, scheduler, strategy);
      Run(c, 1431655766).Finished? && Run(c, 1431655766).state.time == 2
  {
    var jobs := [Job(0, 0, "A", 1, 1), Job(1, 4294967293, "B", 1, 1)];
    var c := Config(jobs, 3, scheduler, strategy);
    WrappedFinishSizes(c);
    hide Run, Length, Unwrapped, SimpleSpan;
    LengthBound(c);
    UnwrappedIsReachable(c);
    Terminates(c, 1431655766);
    Makespan(c, 1431655766);
  }

  lemma WrappedFinishSizes(c: Config)
    requires c.jobs == [Job(0, 0, "A", 1, 1), Job(1, 4294967293, "B", 1, 1)] && c.quantum == 3
    ensures Unwrapped(c) && SimpleSpan(3, c.jobs, 0) == 1431655766
  {
    var one := c.jobs[1..];
    ShownUnwrapped(3, 4294967293, 1431655765);
    assert one[1..] == [];
    assert SimpleSpan(3, one, 1) == 1431655766;
    forall job | job in c.jobs ensures 3 * CeilDiv(job.arrival, 3) < WORD {
      assert job == c.jobs[0] || job == c.jobs[1];
    }
  }
}
