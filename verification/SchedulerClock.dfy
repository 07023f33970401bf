/** The absence of stalls, and the exact length of a run, for workloads that can be run at all. */
module SchedulerClock {
  import opened Jobs
  import opened Sequences
  import opened MemoryModel
  import opened MemoryTheorems
  import opened SchedulerModel
  import opened AdmissionLemmas
  import opened SchedulerInvariants
  import opened SchedulerAccounting
  import opened ClockArithmetic

  // ---------- measures of a workload ----------

  /** The last arrival. */
  function Horizon(jobs: seq<Job>): (h: nat)
    ensures forall job :: job in jobs ==> job.arrival <= h
  {
    if jobs == [] then 0
    else
      assert jobs == [jobs[0]] + jobs[1..];
      var h := Horizon(jobs[1..]);
      if jobs[0].arrival > h then jobs[0].arrival else h
  }

  function Max(a: nat, b: nat): nat {
    if a > b then a else b
  }

  /** When `jobs` are done, in quanta, if the processor is busy until `t` and the last intake was after `e` quanta: the
      jobs enter in the order of the list, each in the first intake in which the clock has reached its arrival, and the
      processor works off whoever is there without a pause. */
  ghost function Span(q: nat, jobs: seq<Job>, e: nat, t: nat): nat
    requires q > 0
    decreases |jobs|
  {
    if jobs == [] then t
    else
      var k := Entry(q, jobs[0].arrival, e);
      Span(q, jobs[1..], k, Max(t, k) + Quanta(q, jobs[0]))
  }

  /** The number of cycles of a run; it depends on arrivals, service times and the quantum alone. */
  ghost function Length(c: Config): nat
    requires c.quantum > 0
  {
    Span(c.quantum, c.jobs, 0, 0)
  }

  /** The same while the clock does not wrap: each job enters at the first quantum boundary after its arrival. */
  function SimpleSpan(q: nat, jobs: seq<Job>, t: nat): nat
    requires q > 0
    decreases |jobs|
  {
    if jobs == [] then t else SimpleSpan(q, jobs[1..], Max(t, CeilDiv(jobs[0].arrival, q)) + Quanta(q, jobs[0]))
  }

  /** The final time fits in 32 bits. */
  ghost predicate Fits(c: Config)
    requires c.quantum > 0
  {
    c.quantum * Length(c) < WORD
  }

  /** The first quantum boundary after every arrival fits in 32 bits. */
  predicate Unwrapped(c: Config)
    requires c.quantum > 0
  {
    forall job :: job in c.jobs ==> c.quantum * CeilDiv(job.arrival, c.quantum) < WORD
  }

  /** The clock ever reaches every arrival. */
  predicate Reachable(c: Config) {
    forall job :: job in c.jobs ==> job.arrival <= LatestShown(c.quantum)
  }

  /** A workload that can be run: somebody arrives at time 0 first, and everybody fits into empty memory. */
  ghost predicate Runnable(c: Config) {
    && c.jobs != [] && c.jobs[0].arrival == 0
    && (c.strategy.BestFit? ==> forall job :: job in c.jobs ==> job.mem <= CAPACITY)
  }

  // ---------- arithmetic of spans ----------

  /** The first quantum boundary after an arrival. */
  lemma CeilDivAtMost(a: nat, q: nat, t: nat)
    requires q > 0
    ensures CeilDiv(a, q) <= t <==> a <= q * t
  {
    CeilDivExact(a, q);
    if CeilDiv(a, q) <= t { MulMonotone(q, CeilDiv(a, q), t); }
    if t < CeilDiv(a, q) { MulMonotone(q, t, CeilDiv(a, q) - 1); }
  }

  lemma QuantaPositive(q: nat, job: Job)
    requires q > 0
    ensures Quanta(q, job) > 0
  {
    CeilDivExact(job.service, q);
  }

  lemma {:induction false} SpanAtLeast(q: nat, jobs: seq<Job>, e: nat, t: nat)
    requires q > 0
    ensures Span(q, jobs, e, t) >= t + Work(q, jobs) >= t + |jobs|
    decreases |jobs|
  {
    hide Entry;
    if jobs != [] {
      var k := Entry(q, jobs[0].arrival, e);
      QuantaPositive(q, jobs[0]);
      SpanAtLeast(q, jobs[1..], k, Max(t, k) + Quanta(q, jobs[0]));
    }
  }

  lemma {:induction false} SimpleSpanAtMost(q: nat, jobs: seq<Job>, t: nat, h: nat, w: nat)
    requires q > 0 && t <= h + w && forall job :: job in jobs ==> CeilDiv(job.arrival, q) <= h
    ensures SimpleSpan(q, jobs, t) <= h + w + Work(q, jobs)
    decreases |jobs|
  {
    if jobs != [] {
      var n := Quanta(q, jobs[0]);
      SimpleSpanAtMost(q, jobs[1..], Max(t, CeilDiv(jobs[0].arrival, q)) + n, h, w + n);
    }
  }

  lemma {:induction false} SimpleSpanReaches(q: nat, jobs: seq<Job>, t: nat)
    requires q > 0
    ensures t <= SimpleSpan(q, jobs, t)
    ensures forall job :: job in jobs ==> CeilDiv(job.arrival, q) <= SimpleSpan(q, jobs, t)
    decreases |jobs|
  {
    if jobs != [] {
      assert jobs == [jobs[0]] + jobs[1..];
      SimpleSpanReaches(q, jobs[1..], Max(t, CeilDiv(jobs[0].arrival, q)) + Quanta(q, jobs[0]));
    }
  }

  /** While the clock has not wrapped, it reaches a time exactly from the first boundary after it on. */
  lemma ShownUnwrapped(q: nat, a: nat, k: nat)
    requires q > 0 && q * k < WORD
    ensures Shown(q, a, k) <==> CeilDiv(a, q) <= k
  {
    CeilDivAtMost(a, q, k);
  }

  lemma EntryUnwrapped(q: nat, a: nat, e: nat)
    requires q > 0 && q * e < WORD && q * CeilDiv(a, q) < WORD
    ensures Entry(q, a, e) == Max(e, CeilDiv(a, q)) && q * Entry(q, a, e) < WORD
  {
    var k := Max(e, CeilDiv(a, q));
    ShownUnwrapped(q, a, k);
    EverShown(q, a);
    forall j | e <= j < k ensures !Shown(q, a, j) {
      MulMonotone(q, j, k);
      ShownUnwrapped(q, a, j);
    }
    EntryIs(q, a, e, k);
  }

  lemma {:induction false} SpanUnwrapped(q: nat, jobs: seq<Job>, e: nat, t: nat)
    requires q > 0 && q * e < WORD && e <= t
    requires forall job :: job in jobs ==> q * CeilDiv(job.arrival, q) < WORD
    ensures Span(q, jobs, e, t) == SimpleSpan(q, jobs, t)
    decreases |jobs|
  {
    hide Entry;
    if jobs != [] {
      EntryUnwrapped(q, jobs[0].arrival, e);
      var k := Entry(q, jobs[0].arrival, e);
      SpanUnwrapped(q, jobs[1..], k, Max(t, k) + Quanta(q, jobs[0]));
    }
  }

  /** The jobs need their quanta; and while the clock does not wrap the length is the simple one, in which at most
      ceil(last arrival / quantum) quanta are spent waiting. */
  lemma LengthBound(c: Config)
    requires c.quantum > 0
    ensures Work(c.quantum, c.jobs) <= Length(c)
    ensures Unwrapped(c) ==>
      && Length(c) == SimpleSpan(c.quantum, c.jobs, 0)
      && Length(c) <= Work(c.quantum, c.jobs) + CeilDiv(Horizon(c.jobs), c.quantum)
  {
    var q, h := c.quantum, CeilDiv(Horizon(c.jobs), c.quantum);
    SpanAtLeast(q, c.jobs, 0, 0);
    if Unwrapped(c) {
      forall job | job in c.jobs ensures CeilDiv(job.arrival, q) <= h {
        CeilDivAtMost(Horizon(c.jobs), q, h);
        CeilDivAtMost(job.arrival, q, h);
      }
      SimpleSpanAtMost(q, c.jobs, 0, h, 0);
      SpanUnwrapped(q, c.jobs, 0, 0);
    }
  }

  /** If the simple length fits in 32 bits, nothing wraps. */
  lemma SimpleFits(c: Config)
    requires c.quantum > 0 && c.quantum * SimpleSpan(c.quantum, c.jobs, 0) < WORD
    ensures Unwrapped(c) && Fits(c) && Length(c) == SimpleSpan(c.quantum, c.jobs, 0)
  {
    SimpleSpanReaches(c.quantum, c.jobs, 0);
    forall job | job in c.jobs ensures c.quantum * CeilDiv(job.arrival, c.quantum) < WORD {
      MulMonotone(c.quantum, CeilDiv(job.arrival, c.quantum), SimpleSpan(c.quantum, c.jobs, 0));
    }
    LengthBound(c);
  }

  /** An arrival whose next boundary fits in 32 bits is reached. */
  lemma UnwrappedIsReachable(c: Config)
    requires c.quantum > 0 && Unwrapped(c)
    ensures Reachable(c)
  {
    forall job | job in c.jobs ensures job.arrival <= LatestShown(c.quantum) {
      ShownUnwrapped(c.quantum, job.arrival, CeilDiv(job.arrival, c.quantum));
      EverShown(c.quantum, job.arrival);
    }
  }

  /** A time that the clock has not reached yet is reached later. */
  lemma EntryLater(q: nat, a: nat, e: nat)
    requires a <= LatestShown(q) && !Shown(q, a, e)
    ensures Entry(q, a, e) == Entry(q, a, e + 1) >= e + 1
  {
    EntryIs(q, a, e + 1, Entry(q, a, e));
  }

  /** While the next job has not arrived the end stays the same, whether the processor is busy or waits for it. */
  lemma SpanWaits(q: nat, jobs: seq<Job>, e: nat, t: nat)
    requires q > 0 && (jobs != [] ==> jobs[0].arrival <= LatestShown(q) && !Shown(q, jobs[0].arrival, e))
    ensures Span(q, jobs, e, t) == Span(q, jobs, e + 1, t)
    ensures jobs != [] && t == e ==> Span(q, jobs, e, t) == Span(q, jobs, e + 1, t + 1)
  {
    if jobs != [] { EntryLater(q, jobs[0].arrival, e); }
  }

  lemma {:induction false} WorkSplits(q: nat, jobs: seq<Job>, k: nat)
    requires q > 0 && k <= |jobs|
    ensures Work(q, jobs) == Work(q, jobs[..k]) + Work(q, jobs[k..])
  {
    if k > 0 {
      WorkSplits(q, jobs[1..], k - 1);
      assert jobs[..k][1..] == jobs[1..][..k - 1] && jobs[1..][k - 1..] == jobs[k..];
    } else {
      assert jobs[..0] == [] && jobs[0..] == jobs;
    }
  }

  /** Jobs that enter now, while the processor is busy or just becomes free, are worked off next. */
  lemma {:induction false} SpanTakesIn(q: nat, jobs: seq<Job>, k: nat, e: nat, t: nat)
    requires q > 0 && k <= |jobs| && e <= t
    requires forall i :: 0 <= i < k ==> Shown(q, jobs[i].arrival, e)
    ensures Span(q, jobs, e, t) == Span(q, jobs[k..], e, t + Work(q, jobs[..k]))
    decreases k
  {
    if k > 0 {
      var rest := jobs[1..];
      assert rest[k - 1..] == jobs[k..] && rest[..k - 1] == jobs[..k][1..];
      assert forall i :: 0 <= i < k - 1 ==> rest[i] == jobs[i + 1];
      EverShown(q, jobs[0].arrival);
      EntryIs(q, jobs[0].arrival, e, e);
      SpanTakesIn(q, rest, k - 1, e, t + Quanta(q, jobs[0]));
    } else {
      assert jobs[0..] == jobs && jobs[..0] == [];
    }
  }

  // ---------- the invariant ----------

  /** Who is still unarrived arrives after the given time. */
  ghost predicate Waiting(s: State, time: nat) {
    s.pending != [] ==> s.pending[0].arrival > time
  }

  /** The processor is idle only if nobody is ready and nobody waits for memory. */
  ghost predicate NoStall(s: State) {
    && (s.noneRunning <==> s.current.None?)
    && (s.current.None? ==> s.ready == [] && s.input == [])
  }

  /** When all jobs will be done, in quanta, if those before position `a` have entered, the last intake was after `e`
      quanta, the processor is busy for all the quanta of the entered ones and has been idle for `idle` ones. */
  ghost function Reach(q: nat, jobs: seq<Job>, a: nat, e: nat, idle: nat): nat
    requires q > 0 && a <= |jobs|
  {
    Span(q, jobs[a..], e, Work(q, jobs[..a]) + idle)
  }

  /** The unarrived jobs are the end of the list; and if the processor were busy for all the quanta of the others and
      was idle as long as it has been, the unarrived ones would be done at the end of the run. */
  ghost predicate Paced(c: Config, s: State)
    requires c.quantum > 0
  {
    && |s.pending| <= |c.jobs|
    && var a := |c.jobs| - |s.pending|;
    && s.pending == c.jobs[a..]
    && Reach(c.quantum, c.jobs, a, |s.history|, IdleQuanta(s)) == Length(c)
  }

  /** Holds at every loop boundary of a run. */
  ghost predicate Live(c: Config, s: State)
    requires c.quantum > 0
  {
    && Core(c, s)
    && Books(c, s)
    && Paced(c, s)
    && Waiting(s, c.quantum * |s.history| % WORD)
    && NoStall(s)
    && |s.finished| < |c.jobs|
    && s.time == c.quantum * (|s.history| + 1) % WORD
  }

  // ---------- nobody stalls ----------

  lemma IdleMemoryIsFree(c: Config, s: State)
    requires Core(c, s) && s.ready == [] && s.current.None? && c.strategy.BestFit?
    ensures Hole(0, CAPACITY) in s.mem.holes
  {
    assert Holders(s) == {};
    AllFreeIsInitial(s.mem);
    assert s.mem.holes[0] in s.mem.holes;
  }

  lemma Waiter(c: Config, s: State, i: nat)
    requires Runnable(c) && Conserved(c, s) && c.strategy.BestFit?
    requires NothingFits(s.input, s.mem) && Hole(0, CAPACITY) in s.mem.holes
    ensures i < |s.input| ==> CAPACITY < s.input[i].mem <= CAPACITY
  {
    forall job | job in s.input ensures job in c.jobs {
      assert job in multiset(s.input);
      assert job in multiset(c.jobs);
    }
  }

  /** If nobody holds memory and everybody could fit, then nobody is left waiting for it. */
  lemma NobodyWaits(c: Config, s: State)
    requires Loaded(c) && Runnable(c) && Core(c, s) && s.ready == [] && s.current.None?
    requires c.strategy.BestFit? ==> NothingFits(s.input, s.mem)
    requires c.strategy.Infinite? ==> s.input == []
    ensures s.input == []
  {
    if c.strategy.BestFit? {
      IdleMemoryIsFree(c, s);
      Waiter(c, s, 0);
    }
  }

  /** Intake leaves nobody waiting beside a processor that stays idle. */
  lemma IntakeServes(c: Config, t: State)
    requires Loaded(c) && Runnable(c) && Core(c, t)
    ensures t.current.None? && Intake(c, t).ready == [] ==> Intake(c, t).input == []
  {
    hide Core, Runnable, NothingFits;
    var u := Intake(c, t);
    IntakeKeeps(c, t);
    IntakeLeaves(c, t);
    if u.ready == [] && u.current.None? { NobodyWaits(c, u); }
  }

  lemma ScheduleNoStall(c: Config, s: State)
    requires s.noneRunning <==> s.current.None?
    requires s.current.None? && s.ready == [] ==> s.input == []
    ensures Schedule(c, s).Running? && NoStall(Schedule(c, s).state)
  {}

  /** From a state without a stall a cycle leads to one without a stall, or to the end; whatever the clock shows. */
  lemma StepNoStall(c: Config, s: State)
    requires Loaded(c) && Runnable(c) && Core(c, s) && NoStall(s)
    ensures !Step(c, s).Crashed? && (Step(c, s).Running? ==> NoStall(Step(c, s).state))
  {
    var t := Settle(c, s);
    SettleKeeps(c, s);
    IntakeServes(c, t);
    IntakeLeaves(c, t);
    hide Core, Intake, Loaded, Runnable;
    ScheduleNoStall(c, Intake(c, t));
  }

  // ---------- the pace ----------

  lemma {:induction false} SpentSplits(h: seq<Option<Job>>, jobs: seq<Job>, k: nat)
    requires k <= |jobs|
    ensures Spent(h, jobs) == Spent(h, jobs[..k]) + Spent(h, jobs[k..])
  {
    if k > 0 {
      SpentSplits(h, jobs[1..], k - 1);
      assert jobs[..k][1..] == jobs[1..][..k - 1] && jobs[1..][k - 1..] == jobs[k..];
    } else {
      assert jobs[..0] == [] && jobs[0..] == jobs;
    }
  }

  lemma {:induction false} NotSpentOn(h: seq<Option<Job>>, jobs: seq<Job>)
    requires forall job :: job in jobs ==> multiset(h)[Some(job)] == 0
    ensures Spent(h, jobs) == 0
  {
    if jobs != [] { NotSpentOn(h, jobs[1..]); }
  }

  /** A history splits into the quanta of the first `a` jobs and the idle ones if the others have not run. */
  lemma SpentBefore(q: nat, h: seq<Option<Job>>, jobs: seq<Job>, a: nat)
    requires q > 0 && a <= |jobs| && Distinct(jobs) && forall x :: x in h && x.Some? ==> x.value in jobs
    requires forall job :: job in jobs[a..] ==> multiset(h)[Some(job)] == 0
    ensures |h| == Spent(h, jobs[..a]) + multiset(h)[None]
  {
    QuantaPartition(h, jobs);
    SpentSplits(h, jobs, a);
    NotSpentOn(h, jobs[a..]);
  }

  lemma ArrivedRan(c: Config, s: State, job: Job)
    requires c.quantum > 0 && Progress(c, s) && |s.pending| <= |c.jobs| && job in c.jobs[..|c.jobs| - |s.pending|]
    ensures Ran(s, job) <= Quanta(c.quantum, job)
    ensures Ran(s, job) < Quanta(c.quantum, job) <==> job !in Retired(s.finished)
  {}

  /** The elapsed quanta are those of the arrived jobs, as far as they have been served, and the idle ones. */
  lemma ElapsedIs(c: Config, s: State)
    requires Loaded(c) && Books(c, s) && Paced(c, s)
    ensures var pre := c.jobs[..|c.jobs| - |s.pending|];
      && |s.history| == Spent(s.history, pre) + IdleQuanta(s)
      && Spent(s.history, pre) <= Work(c.quantum, pre)
      && ((forall job :: job in pre ==> job in Retired(s.finished)) ==> Spent(s.history, pre) == Work(c.quantum, pre))
      && ((exists job :: job in pre && job !in Retired(s.finished)) ==> Spent(s.history, pre) < Work(c.quantum, pre))
  {
    var a := |c.jobs| - |s.pending|;
    var pre := c.jobs[..a];
    SpentBefore(c.quantum, s.history, c.jobs, a);
    hide Books, Loaded, Paced, Work, Spent, Quanta;
    forall job | job in pre
      ensures Ran(s, job) <= Quanta(c.quantum, job)
      ensures Ran(s, job) < Quanta(c.quantum, job) <==> job !in Retired(s.finished)
    {
      ArrivedRan(c, s, job);
    }
    SpentAtMostWork(c.quantum, s.history, pre);
  }

  /** A run that has somebody unfinished has used fewer cycles than its length. */
  lemma LiveBound(c: Config, s: State)
    requires Loaded(c) && Conserved(c, s) && Books(c, s) && Paced(c, s) && |s.finished| < |c.jobs|
    ensures |s.history| < Length(c)
  {
    hide Books, Conserved, IdleQuanta, Retired;
    var a := |c.jobs| - |s.pending|;
    ElapsedIs(c, s);
    SpanAtLeast(c.quantum, s.pending, |s.history|, Work(c.quantum, c.jobs[..a]) + IdleQuanta(s));
    if s.pending == [] {
      assert c.jobs[..a] == c.jobs;
      SomeoneUnfinished(c, s);
    }
  }

  /** A run that is over has used exactly its length. */
  lemma EndedLength(c: Config, s: State)
    requires Loaded(c) && Conserved(c, s) && Books(c, s) && Paced(c, s) && |s.finished| == |c.jobs|
    ensures |s.history| == Length(c) == Work(c.quantum, c.jobs) + IdleQuanta(s)
  {
    hide Books, Conserved, IdleQuanta, Retired;
    PlacesSize(c, s);
    ElapsedIs(c, s);
    SomeoneUnfinished(c, s);
    assert c.jobs[..|c.jobs|] == c.jobs;
    assert forall job :: job in c.jobs ==> job in multiset(c.jobs);
  }

  /** At any time, if the clock does not wrap before the last arrival, there have been at most
      ceil(last arrival / quantum) idle quanta. */
  lemma IdleBound(c: Config, s: State)
    requires c.quantum > 0 && Paced(c, s) && Unwrapped(c)
    ensures IdleQuanta(s) <= CeilDiv(Horizon(c.jobs), c.quantum)
  {
    var a := |c.jobs| - |s.pending|;
    LengthBound(c);
    WorkSplits(c.quantum, c.jobs, a);
    SpanAtLeast(c.quantum, s.pending, |s.history|, Work(c.quantum, c.jobs[..a]) + IdleQuanta(s));
  }

  /** Who is neither unarrived nor anywhere in the queues has finished. */
  lemma OthersFinished(c: Config, s: State, job: Job)
    requires Loaded(c) && Conserved(c, s) && Paced(c, s) && s.input == [] && s.ready == [] && s.current.None?
    ensures job in c.jobs[..|c.jobs| - |s.pending|] ==> job in Retired(s.finished)
  {
    var a := |c.jobs| - |s.pending|;
    if job in c.jobs[..a] {
      var i :| 0 <= i < a && c.jobs[i] == job;
      assert job !in s.pending;
      assert job in multiset(c.jobs);
      assert multiset(s.pending)[job] == 0;
    }
  }

  lemma IdlePaced(c: Config, s: State)
    requires Loaded(c) && Live(c, s) && s.current.None?
    ensures s.pending != [] && |s.pending| <= |c.jobs|
    ensures |s.history| == Work(c.quantum, c.jobs[..|c.jobs| - |s.pending|]) + IdleQuanta(s)
  {
    ElapsedIs(c, s);
    PlacesSize(c, s);
    forall job | job in c.jobs[..|c.jobs| - |s.pending|] ensures job in Retired(s.finished) {
      OthersFinished(c, s, job);
    }
  }

  /** The pace depends on the state through the unarrived jobs and the history only. */
  lemma SamePace(c: Config, s: State, t: State)
    requires c.quantum > 0 && Paced(c, s) && t.pending == s.pending && t.history == s.history
    ensures Paced(c, t)
  {}

  /** One more quantum, busy or idle, in which nobody has arrived yet. */
  lemma OneMoreQuantum(c: Config, s: State, t: State, idle: bool)
    requires c.quantum > 0 && Paced(c, s) && Waiting(s, c.quantum * |s.history| % WORD) && Reachable(c)
    requires t.pending == s.pending && |t.history| == |s.history| + 1
    requires IdleQuanta(t) == IdleQuanta(s) + if idle then 1 else 0
    requires idle ==>
      s.pending != [] && |s.history| == Work(c.quantum, c.jobs[..|c.jobs| - |s.pending|]) + IdleQuanta(s)
    ensures Paced(c, t)
  {
    hide LatestShown;
    var a := |c.jobs| - |s.pending|;
    if s.pending != [] { assert s.pending[0] == c.jobs[a]; }
    SpanWaits(c.quantum, s.pending, |s.history|, Work(c.quantum, c.jobs[..a]) + IdleQuanta(s));
  }

  lemma SettleIdle(c: Config, s: State)
    ensures Settle(c, s).pending == s.pending && |Settle(c, s).history| == |s.history| + 1
    ensures IdleQuanta(Settle(c, s)) == IdleQuanta(s) + if s.current.None? then 1 else 0
  {
    ChargeRan(c, s, Job(0, 0, "", 0, 0));
  }

  lemma LivePaced(c: Config, s: State)
    requires c.quantum > 0 && Live(c, s)
    ensures Paced(c, s) && Waiting(s, c.quantum * |s.history| % WORD)
  {}

  lemma SettlePaced(c: Config, s: State)
    requires Loaded(c) && Reachable(c) && Live(c, s)
    ensures Paced(c, Settle(c, s))
  {
    hide Live, Paced, Waiting, Reachable, Settle, IdleQuanta;
    LivePaced(c, s);
    SettleIdle(c, s);
    if s.current.None? { IdlePaced(c, s); }
    OneMoreQuantum(c, s, Settle(c, s), s.current.None?);
  }

  /** Taking in `k` jobs that the clock has reached. */
  lemma SpanShifts(q: nat, jobs: seq<Job>, a: nat, k: nat, e: nat, idle: nat)
    requires q > 0 && a + k <= |jobs| && e <= Work(q, jobs[..a]) + idle
    requires forall i :: 0 <= i < k ==> Shown(q, jobs[a..][i].arrival, e)
    ensures Reach(q, jobs, a, e, idle) == Reach(q, jobs, a + k, e, idle)
  {
    SpanTakesIn(q, jobs[a..], k, e, Work(q, jobs[..a]) + idle);
    WorkSplits(q, jobs[..a + k], a);
    assert jobs[..a + k][..a] == jobs[..a] && jobs[..a + k][a..] == jobs[a..][..k] && jobs[a..][k..] == jobs[a + k..];
  }

  lemma TakenInPaced(c: Config, t: State, u: State, k: nat)
    requires c.quantum > 0 && Paced(c, t) && k <= |t.pending| && u.pending == t.pending[k..] && u.history == t.history
    requires |t.history| <= Work(c.quantum, c.jobs[..|c.jobs| - |t.pending|]) + IdleQuanta(t)
    requires forall i :: 0 <= i < k ==> Shown(c.quantum, t.pending[i].arrival, |t.history|)
    ensures Paced(c, u)
  {
    hide Reach, Length, Shown;
    var a := |c.jobs| - |t.pending|;
    SpanShifts(c.quantum, c.jobs, a, k, |t.history|, IdleQuanta(t));
    assert c.jobs[a..][k..] == c.jobs[a + k..];
  }

  /** Taking arrivals in does not change when the run will end. */
  lemma IntakePaced(c: Config, t: State)
    requires Loaded(c) && Books(c, t) && Paced(c, t) && t.time == c.quantum * |t.history| % WORD
    ensures Paced(c, Intake(c, t))
  {
    hide Admit, AddAll, Span, Work;
    ElapsedIs(c, t);
    TakenInPaced(c, t, Intake(c, t), Arrivals(t.pending, t.time));
  }

  // ---------- one cycle ----------

  /** Intake on settled books. */
  lemma IntakeSettled(c: Config, t: State)
    requires Loaded(c) && Runnable(c) && Core(c, t) && Books(c, t) && Paced(c, t)
    requires t.time == c.quantum * |t.history| % WORD
    ensures Core(c, Intake(c, t)) && Books(c, Intake(c, t)) && Paced(c, Intake(c, t))
    ensures Waiting(Intake(c, t), c.quantum * |t.history| % WORD)
    ensures t.current.None? && Intake(c, t).ready == [] ==> Intake(c, t).input == []
  {
    hide Core, Books, Runnable, NothingFits, Intake, Paced;
    IntakeKeeps(c, t);
    IntakeBooks(c, t);
    IntakePaced(c, t);
    IntakePending(c, t);
    IntakeServes(c, t);
  }

  /** Dispatch after intake. */
  lemma ScheduleSettled(c: Config, u: State)
    requires Loaded(c) && Core(c, u) && Books(c, u) && Paced(c, u)
    requires u.noneRunning <==> u.current.None?
    requires u.current.None? && u.ready == [] ==> u.input == []
    ensures Schedule(c, u).Running?
    ensures Core(c, Schedule(c, u).state) && Books(c, Schedule(c, u).state) && Paced(c, Schedule(c, u).state)
    ensures NoStall(Schedule(c, u).state)
  {
    hide Core, Books, Paced;
    ScheduleKeeps(c, u);
    ScheduleBooks(c, u);
    ScheduleNoStall(c, u);
    ScheduleLeaves(c, u);
    SamePace(c, u, Schedule(c, u).state);
  }

  lemma TickSettled(c: Config, v: State)
    requires Loaded(c) && Core(c, v) && Books(c, v) && Paced(c, v) && NoStall(v)
    requires v.time == c.quantum * |v.history| % WORD && |v.finished| < |c.jobs|
    requires Waiting(v, c.quantum * |v.history| % WORD)
    ensures Live(c, v.(time := (v.time + c.quantum) % WORD))
  {
    hide Core, Books, Paced;
    MulMonotone(c.quantum, |v.history|, |v.history|);
    ModStep(c.quantum * |v.history|, c.quantum);
    TimeKeeps(c, v, (v.time + c.quantum) % WORD);
    BooksIgnoreTime(c, v, (v.time + c.quantum) % WORD);
    SamePace(c, v, v.(time := (v.time + c.quantum) % WORD));
  }

  /** From settled books to the next loop boundary. */
  lemma ResumeLive(c: Config, t: State)
    requires Loaded(c) && Runnable(c) && Core(c, t) && Books(c, t) && Paced(c, t)
    requires t.time == c.quantum * |t.history| % WORD && (t.noneRunning <==> t.current.None?)
    requires |t.finished| < |c.jobs|
    ensures Tick(c, Schedule(c, Intake(c, t))).Running?
    ensures Live(c, Tick(c, Schedule(c, Intake(c, t))).state)
  {
    hide Core, Books, Paced, Runnable, NoStall, Live;
    IntakeLeaves(c, t);
    IntakeSettled(c, t);
    ScheduleSettled(c, Intake(c, t));
    ScheduleLeaves(c, Intake(c, t));
    TickSettled(c, Schedule(c, Intake(c, t)).state);
  }

  /** A live state steps to a live state or finishes with its books settled; it never crashes. */
  lemma StepLive(c: Config, s: State)
    requires Loaded(c) && Runnable(c) && Reachable(c) && Live(c, s)
    ensures Step(c, s).Running? ==> Live(c, Step(c, s).state)
    ensures !Step(c, s).Crashed?
    ensures Step(c, s).Finished? ==>
      var t := Step(c, s).state;
      Core(c, t) && Books(c, t) && Paced(c, t) && |t.finished| == |c.jobs| && t.time == c.quantum * |t.history| % WORD
    ensures !Step(c, s).Crashed? ==> Step(c, s).state.history == s.history + [s.current]
  {
    hide Books, Core, Paced, Reachable;
    var t := Settle(c, s);
    SettleBooks(c, s);
    SettleKeeps(c, s);
    SettlePaced(c, s);
    if Expires(c, s) && |t.finished| == |c.jobs| {
    } else {
      ResumeLive(c, t);
      IntakeLeaves(c, t);
      ScheduleLeaves(c, Intake(c, t));
    }
  }
}
