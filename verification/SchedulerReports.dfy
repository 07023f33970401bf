/** What a finished run reports: finish times, turnarounds, how many others remained; and where blocks stay. */
module SchedulerReports {
  import opened Jobs
  import opened Sequences
  import opened MemoryModel
  import opened MemoryLemmas
  import opened SchedulerModel
  import opened AdmissionLemmas
  import opened SchedulerInvariants
  import opened SchedulerAccounting
  import opened SchedulerClock
  import HeapModel

  // ---------- finish times ----------

  /** Time `t` is the end of the `m`th quantum. */
  ghost predicate OnClock(q: nat, t: nat, m: nat) {
    t == q * m
  }

  /** The process finished at the end of some quantum, not before it had arrived and had all its own quanta, and its
      turnaround is the exact difference. */
  ghost predicate Exact(c: Config, d: Completion)
    requires c.quantum > 0
  {
    && d.job in c.jobs
    && (exists m: nat :: OnClock(c.quantum, d.time, m))
    && d.job.arrival + c.quantum * Quanta(c.quantum, d.job) <= d.time
    && d.turnaround == d.time - d.job.arrival
  }

  ghost predicate Timely(c: Config, f: seq<Completion>)
    requires c.quantum > 0
  {
    forall k :: 0 <= k < |f| ==> Exact(c, f[k])
  }

  lemma TurnaroundFits(q: nat, h: nat, arrival: nat, ran: nat)
    requires arrival + q * ran <= q * h && q * (h + 1) < WORD
    ensures arrival + q * (ran + 1) <= q * (h + 1)
    ensures (q * (h + 1) - arrival) % WORD == q * (h + 1) - arrival
  {
    MulMonotone(q, ran, ran);
    MulMonotone(q, h, h);
  }

  lemma RetireExact(c: Config, s: State)
    requires Loaded(c) && Booked(c, s) && Expires(c, s) && c.quantum * (|s.history| + 1) < WORD
    ensures var f := Settle(c, s).finished; f != [] && Exact(c, f[|f| - 1])
  {
    hide Core, Accounted, Occupied;
    var job := s.current.value;
    CoreConserves(c, s);
    RunningIsAlive(c, s);
    ExpiresExactly(c, s);
    TurnaroundFits(c.quantum, |s.history|, job.arrival, Ran(s, job));
    assert OnClock(c.quantum, s.time, |s.history| + 1);
  }

  // ---------- the number of processes reported as remaining ----------

  /** The arrival that counts for a job: nobody enters before those ahead of it in the list, so it is the latest arrival
      up to its place.  In a list in order of arrival it is the job's own. */
  function EffectiveArrival(jobs: seq<Job>, job: Job): nat {
    var i := Find(jobs, job);
    if i < |jobs| then Horizon(jobs[..i + 1]) else 0
  }

  ghost predicate SortedByArrival(jobs: seq<Job>) {
    forall i, j :: 0 <= i < j < |jobs| ==> jobs[i].arrival <= jobs[j].arrival
  }

  lemma {:induction false} HorizonIsSomebodys(jobs: seq<Job>)
    requires jobs != []
    ensures exists i :: 0 <= i < |jobs| && jobs[i].arrival == Horizon(jobs)
  {
    if |jobs| > 1 {
      HorizonIsSomebodys(jobs[1..]);
      var i :| 0 <= i < |jobs[1..]| && jobs[1..][i].arrival == Horizon(jobs[1..]);
      assert jobs[i + 1].arrival == Horizon(jobs[1..]);
    } else {
      assert jobs[1..] == [];
      assert jobs[0].arrival == Horizon(jobs);
    }
  }

  lemma EffectiveWhenSorted(jobs: seq<Job>, job: Job)
    requires SortedByArrival(jobs) && job in jobs
    ensures EffectiveArrival(jobs, job) == job.arrival
  {
    var i := Find(jobs, job);
    var pre := jobs[..i + 1];
    assert pre[i] == job && job in pre;
    HorizonIsSomebodys(pre);
    var k :| 0 <= k < |pre| && pre[k].arrival == Horizon(pre);
    assert jobs[k].arrival <= jobs[i].arrival;
  }

  /** The others that had arrived a quantum before the `k`th completion and had not finished by then. */
  ghost function Others(c: Config, f: seq<Completion>, k: nat): set<Job>
    requires k < |f|
  {
    set job | job in c.jobs && EffectiveArrival(c.jobs, job) + c.quantum <= f[k].time && job !in Retired(f[..k + 1])
  }

  ghost predicate CountsOthers(c: Config, f: seq<Completion>) {
    forall k :: 0 <= k < |f| ==> f[k].remaining == |Others(c, f, k)|
  }

  lemma {:induction false} DistinctSize(jobs: seq<Job>)
    requires Distinct(jobs)
    ensures |Elements(jobs)| == |jobs|
  {
    if jobs != [] {
      assert jobs == [jobs[0]] + jobs[1..];
      DistinctSize(jobs[1..]);
      ElementsCons(jobs[0], jobs[1..]);
      assert jobs[0] !in jobs[1..];
    }
  }

  lemma WaitersSize(c: Config, s: State)
    requires Loaded(c) && Conserved(c, s)
    ensures |Elements(s.input + s.ready)| == |s.input| + |s.ready|
  {
    PlacesApart(c, s);
    var xs := s.input + s.ready;
    forall x ensures multiset(xs)[x] <= 1 {
      assert multiset(xs)[x] == multiset(s.input)[x] + multiset(s.ready)[x];
    }
    CountDistinct(xs);
    DistinctSize(xs);
  }

  lemma QueuedIff(c: Config, s: State, job: Job)
    requires Loaded(c) && Conserved(c, s)
    ensures job in s.input + s.ready <==>
      job in c.jobs && job !in s.pending && job !in Retired(s.finished) && s.current != Some(job)
  {
    PlacesApart(c, s);
    assert job in c.jobs <==> job in multiset(c.jobs);
    assert job in s.input <==> job in multiset(s.input);
    assert job in s.ready <==> job in multiset(s.ready);
    assert job in s.pending <==> job in multiset(s.pending);
    assert s.current == Some(job) <==> Bag(s.current)[job] > 0;
  }

  /** The unarrived jobs are the end of the list. */
  ghost predicate Suffix(c: Config, pending: seq<Job>) {
    |pending| <= |c.jobs| && pending == c.jobs[|c.jobs| - |pending|..]
  }

  lemma ArrivedIff(c: Config, s: State, job: Job)
    requires Loaded(c) && Aged(c, s) && Waiting(s, c.quantum * |s.history|) && Suffix(c, s.pending)
    requires job in c.jobs
    ensures EffectiveArrival(c.jobs, job) <= c.quantum * |s.history| <==> job !in s.pending
  {
    var a, i := |c.jobs| - |s.pending|, Find(c.jobs, job);
    var pre := c.jobs[..i + 1];
    if i < a {
      HorizonIsSomebodys(pre);
      var k :| 0 <= k < |pre| && pre[k].arrival == Horizon(pre);
      assert c.jobs[k] !in s.pending && job !in s.pending;
      MulMonotone(c.quantum, 0, Ran(s, c.jobs[k]));
    } else {
      assert s.pending[i - a] == job && s.pending[0] == c.jobs[a] == pre[a] && pre[a] in pre;
    }
  }

  lemma ExactTime(c: Config, s: State)
    requires c.quantum > 0 && Booked(c, s) && c.quantum * (|s.history| + 1) < WORD
    ensures s.time == c.quantum * (|s.history| + 1)
  {}

  lemma BookedParts(c: Config, s: State)
    requires c.quantum > 0 && Booked(c, s)
    ensures Conserved(c, s) && Aged(c, s)
  {}

  lemma LastRetired(f: seq<Completion>, d: Completion)
    ensures Retired(f + [d]) == Retired(f) + multiset{d.job}
  {
    assert (f + [d])[..|f|] == f;
  }

  /** At a retirement the others are exactly those in the input and ready queues. */
  lemma OthersAreQueued(c: Config, s: State)
    requires Loaded(c) && Booked(c, s) && Waiting(s, c.quantum * |s.history|) && c.quantum * (|s.history| + 1) < WORD
    requires Expires(c, s) && Suffix(c, s.pending)
    ensures var f := Settle(c, s).finished; f != [] && Others(c, f, |f| - 1) == Elements(s.input + s.ready)
  {
    hide Booked, Waiting, Suffix, EffectiveArrival, Retired, Release;
    BookedParts(c, s);
    ExactTime(c, s);
    var f := Settle(c, s).finished;
    assert f[..|f| - 1 + 1] == f;
    LastRetired(s.finished, f[|f| - 1]);
    MulMonotone(c.quantum, |s.history|, |s.history|);
    forall job ensures job in Others(c, f, |f| - 1) <==> job in s.input + s.ready {
      QueuedIff(c, s, job);
      if job in c.jobs { ArrivedIff(c, s, job); }
    }
  }

  lemma CountsExtend(c: Config, f: seq<Completion>, d: Completion)
    requires CountsOthers(c, f) && d.remaining == |Others(c, f + [d], |f|)|
    ensures CountsOthers(c, f + [d])
  {
    var g := f + [d];
    forall k | 0 <= k < |f| ensures g[k].remaining == |Others(c, g, k)| {
      assert g[..k + 1] == f[..k + 1];
      assert Others(c, g, k) == Others(c, f, k);
    }
  }

  lemma SettleCounts(c: Config, s: State)
    requires Loaded(c) && Booked(c, s) && Waiting(s, c.quantum * |s.history|) && c.quantum * (|s.history| + 1) < WORD
    requires Suffix(c, s.pending) && CountsOthers(c, s.finished)
    ensures CountsOthers(c, Settle(c, s).finished)
  {
    hide Others, CountsOthers, Core, Books, Release;
    if Expires(c, s) {
      OthersAreQueued(c, s);
      CoreConserves(c, s);
      WaitersSize(c, s);
      var f := Settle(c, s).finished;
      CountsExtend(c, s.finished, f[|f| - 1]);
    }
  }

  // ---------- when a process is recorded as finished ----------

  lemma StepRecords(c: Config, s: State)
    requires Loaded(c) && Core(c, s) && Books(c, s) && !Step(c, s).Crashed?
    ensures var f := Step(c, s).state.finished;
      if s.current.Some? && Ran(s, s.current.value) + 1 == Quanta(c.quantum, s.current.value) then
        var job := s.current.value;
        f == s.finished + [Completion(job, s.time, |s.input| + |s.ready|, (s.time - job.arrival) % 0x1_0000_0000)]
      else f == s.finished
  {
    hide Intake, Core, Books, Ran, Quanta, Release, Loaded, Schedule;
    if s.current.Some? { ExpiresExactly(c, s); }
    if Step(c, s).Running? { StepResumes(c, s); } else { EndsReported(c, s); }
  }

  /** What a cycle records: nothing, unless the elapsed quantum was the last that the running process needed; then that
      process with the time at which the cycle began, the number of those waiting, and the turnaround in 32 bits. */
  lemma CompletionsGrow(c: Config, n: nat)
    requires Loaded(c) && Run(c, n).Running? && !Run(c, n + 1).Crashed?
    ensures var s, f := Run(c, n).state, Run(c, n + 1).state.finished;
      if s.current.Some? && Ran(s, s.current.value) + 1 == Quanta(c.quantum, s.current.value) then
        var job := s.current.value;
        f == s.finished + [Completion(job, s.time, |s.input| + |s.ready|, (s.time - job.arrival) % 0x1_0000_0000)]
      else f == s.finished
  {
    hide Loaded, Step, First, Core, Books, Ran, Quanta;
    RunBooks(c, n);
    StepRecords(c, Run(c, n).state);
  }

  /** Nothing recorded is ever changed. */
  lemma {:induction false} CompletionsStay(c: Config, n: nat, m: nat)
    requires Loaded(c) && n <= m && !Run(c, m).Crashed?
    ensures !Run(c, n).Crashed? && Run(c, n).state.finished <= Run(c, m).state.finished
    decreases m
  {
    hide Step, First, Loaded;
    if n < m {
      CompletionsStay(c, n, m - 1);
      if Run(c, m - 1).Running? { CompletionsGrow(c, m - 1); }
    }
  }

  /** The history of a run says who was current at each cycle boundary. */
  ghost predicate Traced(c: Config, n: nat) {
    !Run(c, n).Crashed? ==>
      forall i :: 0 <= i < |Run(c, n).state.history| ==>
        Run(c, i).Running? && Run(c, n).state.history[i] == Run(c, i).state.current
  }

  lemma NextTraced(c: Config, n: nat)
    requires Loaded(c) && Traced(c, n)
    ensures Traced(c, n + 1)
  {
    hide Step, First, Loaded, Booked, Closed;
    RunBooks(c, n);
    if Run(c, n).Running? { StepBooks(c, Run(c, n).state); }
  }

  lemma {:induction false} HistoryIsCurrent(c: Config, n: nat)
    requires Loaded(c)
    ensures Traced(c, n)
  {
    hide Traced, Loaded;
    if n == 0 {
      FirstTraced(c);
    } else {
      HistoryIsCurrent(c, n - 1);
      NextTraced(c, n - 1);
    }
  }

  lemma FirstTraced(c: Config)
    requires Loaded(c)
    ensures Traced(c, 0)
  {
    FirstBooked(c);
    hide First, Booked;
  }

  /** Quantum `i` was the last in which the job ran. */
  ghost predicate RanLast(h: seq<Option<Job>>, job: Job, i: nat) {
    i < |h| && h[i] == Some(job) && forall j :: i < j < |h| ==> h[j] != Some(job)
  }

  /** The recorded time is the end of the last quantum in which the job ran. */
  ghost predicate Stamped(q: nat, h: seq<Option<Job>>, d: Completion) {
    exists i: nat :: RanLast(h, d.job, i) && d.time == q * (i + 1) % 0x1_0000_0000
  }

  ghost predicate AllStamped(c: Config, s: State) {
    forall k :: 0 <= k < |s.finished| ==> Stamped(c.quantum, s.history, s.finished[k])
  }

  lemma StaysStamped(q: nat, h: seq<Option<Job>>, x: Option<Job>, d: Completion)
    requires Stamped(q, h, d) && x != Some(d.job)
    ensures Stamped(q, h + [x], d)
  {
    var i: nat :| RanLast(h, d.job, i) && d.time == q * (i + 1) % 0x1_0000_0000;
    assert RanLast(h + [x], d.job, i);
  }

  lemma NewlyStamped(q: nat, h: seq<Option<Job>>, d: Completion)
    requires d.time == q * (|h| + 1) % 0x1_0000_0000
    ensures Stamped(q, h + [Some(d.job)], d)
  {
    assert RanLast(h + [Some(d.job)], d.job, |h|);
  }

  lemma SettleStamped(c: Config, s: State)
    requires Loaded(c) && Booked(c, s) && AllStamped(c, s)
    ensures AllStamped(c, Settle(c, s))
  {
    hide Core, Books, Stamped, Release, Loaded;
    var t := Settle(c, s);
    CoreConserves(c, s);
    forall k | 0 <= k < |t.finished| ensures Stamped(c.quantum, t.history, t.finished[k]) {
      if k < |s.finished| {
        RetiredMember(s.finished, k);
        if s.current.Some? { RunningIsAlive(c, s); }
        StaysStamped(c.quantum, s.history, s.current, s.finished[k]);
      } else {
        NewlyStamped(c.quantum, s.history, t.finished[k]);
      }
    }
  }

  lemma StepStamped(c: Config, s: State)
    requires Loaded(c) && Booked(c, s) && AllStamped(c, s) && !Step(c, s).Crashed?
    ensures AllStamped(c, Step(c, s).state)
  {
    SettleStamped(c, s);
    hide Intake, Settle, Booked, Stamped;
    if Step(c, s).Running? { StepResumes(c, s); } else { EndsReported(c, s); }
  }

  lemma {:induction false} RunStamped(c: Config, n: nat)
    requires Loaded(c) && !Run(c, n).Crashed?
    ensures AllStamped(c, Run(c, n).state)
  {
    hide Step, Loaded, Booked, Closed, Stamped, Admit, AddAll, HeapModel.Rest;
    if n > 0 {
      RunStamped(c, n - 1);
      RunBooks(c, n - 1);
      if Run(c, n - 1).Running? { StepStamped(c, Run(c, n - 1).state); }
    }
  }

  /** In every state of every run, the finish time of a process is the end of the last quantum in which it ran, on the
      32-bit clock, and its turnaround is the time from its arrival until then, in 32 bits. */
  lemma FinishTimes(c: Config, n: nat, k: nat)
    requires Loaded(c) && !Run(c, n).Crashed? && k < |Run(c, n).state.finished|
    ensures var s := Run(c, n).state;
      var d := s.finished[k];
      && (exists i: nat :: RanLast(s.history, d.job, i) && d.time == c.quantum * (i + 1) % 0x1_0000_0000)
      && d.turnaround == (d.time - d.job.arrival) % 0x1_0000_0000
  {
    RunStamped(c, n);
    assert Stamped(c.quantum, Run(c, n).state.history, Run(c, n).state.finished[k]);
    RunTurnarounds(c, n, k);
  }

  lemma {:induction false} RunTurnarounds(c: Config, n: nat, k: nat)
    requires Loaded(c) && !Run(c, n).Crashed? && k < |Run(c, n).state.finished|
    ensures var d := Run(c, n).state.finished[k]; d.turnaround == (d.time - d.job.arrival) % 0x1_0000_0000
  {
    hide Step, Loaded, Admit, AddAll, HeapModel.Rest;
    if n > 0 {
      if Run(c, n - 1).Running? { CompletionsGrow(c, n - 1); }
      if k < |Run(c, n - 1).state.finished| { RunTurnarounds(c, n - 1, k); }
    }
  }

  /** A run that ends does so with the last completion: its time is the final time. */
  lemma {:induction false} LastCompletion(c: Config, n: nat)
    requires Loaded(c) && Run(c, n).Finished?
    ensures var s := Run(c, n).state; s.finished != [] && s.finished[|s.finished| - 1].time == s.time
  {
    hide Step, First;
    if Run(c, n - 1).Finished? { LastCompletion(c, n - 1); } else { StepEnds(c, Run(c, n - 1).state); }
  }

  lemma StepEnds(c: Config, s: State)
    requires Step(c, s).Finished?
    ensures var t := Step(c, s).state; t.finished != [] && t.finished[|t.finished| - 1].time == t.time
  {
    hide Intake, Release;
  }

  // ---------- over the whole run ----------

  ghost predicate Reported(c: Config, pending: seq<Job>, f: seq<Completion>)
    requires c.quantum > 0
  {
    Timely(c, f) && Suffix(c, pending) && CountsOthers(c, f)
  }

  lemma SettleReported(c: Config, s: State)
    requires Loaded(c) && Booked(c, s) && Waiting(s, c.quantum * |s.history|) && c.quantum * (|s.history| + 1) < WORD
    requires Reported(c, s.pending, s.finished)
    ensures Reported(c, s.pending, Settle(c, s).finished)
  {
    SettleTimely(c, s);
    SettleCounts(c, s);
    hide Timely, CountsOthers, Booked, Waiting, Expires, Release;
  }

  lemma SettleTimely(c: Config, s: State)
    requires Loaded(c) && Booked(c, s) && c.quantum * (|s.history| + 1) < WORD && Timely(c, s.finished)
    ensures Timely(c, Settle(c, s).finished)
  {
    hide Booked, Exact, Release;
    if Expires(c, s) { RetireExact(c, s); }
  }

  lemma SuffixReported(c: Config, pending: seq<Job>, k: nat, f: seq<Completion>)
    requires c.quantum > 0 && k <= |pending| && Reported(c, pending, f)
    ensures Reported(c, pending[k..], f)
  {}

  lemma EndsReported(c: Config, s: State)
    requires Step(c, s).Finished?
    ensures Step(c, s).state == Settle(c, s) && Settle(c, s).pending == s.pending
  {
    hide Intake;
  }

  /** While the clock has not wrapped, a cycle keeps the reports right and leaves waiting whoever has not arrived. */
  lemma StepReported(c: Config, s: State)
    requires Loaded(c) && Booked(c, s) && Waiting(s, c.quantum * |s.history|) && c.quantum * (|s.history| + 1) < WORD
    requires Reported(c, s.pending, s.finished) && !Step(c, s).Crashed?
    ensures Reported(c, Step(c, s).state.pending, Step(c, s).state.finished)
    ensures Step(c, s).Running? ==> Waiting(Step(c, s).state, c.quantum * (|s.history| + 1))
  {
    hide Booked, Reported, Intake, Settle, Schedule, Expires;
    SettleReported(c, s);
    ExactTime(c, s);
    if Step(c, s).Running? {
      StepResumes(c, s);
      SuffixReported(c, s.pending, Arrivals(s.pending, s.time), Settle(c, s).finished);
    } else {
      EndsReported(c, s);
    }
  }

  lemma FirstReported(c: Config)
    requires Loaded(c)
    ensures Reported(c, First(c).pending, First(c).finished) && Waiting(First(c), 0)
  {
    hide Admit, AddAll, HeapModel.Rest;
    IntakePending(c, Start(c));
    assert First(c).pending == c.jobs[Arrivals(c.jobs, 0)..];
  }

  /** As long as the elapsed time fits in 32 bits, the reports so far are right. */
  ghost predicate ReportedAt(c: Config, n: nat)
    requires c.quantum > 0
  {
    !Run(c, n).Crashed? && c.quantum * |Run(c, n).state.history| < WORD ==>
      && Reported(c, Run(c, n).state.pending, Run(c, n).state.finished)
      && (Run(c, n).Running? ==> Waiting(Run(c, n).state, c.quantum * n))
  }

  lemma FirstReportedAt(c: Config)
    requires Loaded(c)
    ensures ReportedAt(c, 0)
  {
    hide Reported, First;
    FirstReported(c);
  }

  lemma NextReported(c: Config, n: nat)
    requires Loaded(c) && ReportedAt(c, n)
    ensures ReportedAt(c, n + 1)
  {
    hide Reported, Booked, Closed, Waiting, Step, First;
    RunBooks(c, n);
    if Run(c, n).Running? && !Run(c, n + 1).Crashed? {
      var s := Run(c, n).state;
      StepBooks(c, s);
      NextElapsed(c.quantum, n);
      if c.quantum * (n + 1) < WORD { StepReported(c, s); }
    }
  }

  lemma NextElapsed(q: nat, n: nat)
    ensures q * n <= q * (n + 1)
  {}

  lemma {:induction false} RunReported(c: Config, n: nat)
    requires Loaded(c)
    ensures ReportedAt(c, n)
  {
    hide ReportedAt, Loaded;
    if n == 0 {
      FirstReportedAt(c);
    } else {
      RunReported(c, n - 1);
      NextReported(c, n - 1);
    }
  }

  /** Every finish time is the end of a quantum and no earlier than arrival plus service, so the 32-bit turnaround
      never wraps and is at least the service time: the overhead is at least 1. */
  lemma TurnaroundsAreExact(c: Config, n: nat, k: nat)
    requires Loaded(c) && !Run(c, n).Crashed? && k < |Run(c, n).state.finished|
    requires c.quantum * |Run(c, n).state.history| < WORD
    ensures var d := Run(c, n).state.finished[k];
      && (exists m: nat :: OnClock(c.quantum, d.time, m))
      && d.job.arrival + d.job.service <= d.time
      && d.turnaround == d.time - d.job.arrival >= d.job.service
      && Ran(Run(c, n).state, d.job) == Quanta(c.quantum, d.job)
  {
    RunReported(c, n);
    RunBooks(c, n);
    var s := Run(c, n).state;
    assert Exact(c, s.finished[k]);
    CeilDivExact(s.finished[k].job.service, c.quantum);
    RetiredMember(s.finished, k);
  }

  /** Service accounting at every point of every run that has not crashed, under both schedulers: what a process still
      needs is its service less a quantum for each cycle it has run, and it has finished once it has run ceil(service /
      quantum) cycles, no sooner and no later. */
  lemma ServiceIsExact(c: Config, n: nat, job: Job)
    requires Loaded(c) && !Run(c, n).Crashed? && job in c.jobs
    ensures var s := Run(c, n).state;
      && Left(s, job) == (if job.service <= c.quantum * Ran(s, job) then 0 else job.service - c.quantum * Ran(s, job))
      && Ran(s, job) <= Quanta(c.quantum, job)
      && (job in Retired(s.finished) <==> Ran(s, job) == Quanta(c.quantum, job))
      && (job in Retired(s.finished) <==> Ran(s, job) > 0 && job.service <= c.quantum * Ran(s, job))
      && (Ran(s, job) > 1 ==> c.quantum * (Ran(s, job) - 1) < job.service)
  {
    RunBooks(c, n);
    var ran := Ran(Run(c, n).state, job);
    if ran > 0 { LastQuantum(c.quantum, job, ran - 1); }
    if ran > 1 { LastQuantum(c.quantum, job, ran - 2); }
    QuantaPositive(c.quantum, job);
  }

  lemma {:induction false} RetiredMember(f: seq<Completion>, k: nat)
    requires k < |f|
    ensures f[k].job in Retired(f)
  {
    if k < |f| - 1 { RetiredMember(f[..|f| - 1], k); }
  }

  /** As long as the elapsed time fits in 32 bits, the count reported when a process finishes at time t is the number of
      other processes that had arrived by t minus one quantum and had not finished yet; a process counts as arrived when
      all those up to its place in the list have arrived. */
  lemma RemainingIsExact(c: Config, n: nat, k: nat)
    requires Loaded(c) && !Run(c, n).Crashed? && k < |Run(c, n).state.finished|
    requires c.quantum * |Run(c, n).state.history| < WORD
    ensures var f := Run(c, n).state.finished; f[k].remaining == |Others(c, f, k)|
  {
    RunReported(c, n);
  }

  /** In a list in order of arrival the count is in terms of the processes' own arrivals. */
  lemma RemainingWhenSorted(c: Config, n: nat, k: nat)
    requires Loaded(c) && SortedByArrival(c.jobs) && !Run(c, n).Crashed? && k < |Run(c, n).state.finished|
    requires c.quantum * |Run(c, n).state.history| < WORD
    ensures var f := Run(c, n).state.finished;
      f[k].remaining ==
        |set job | job in c.jobs && job.arrival + c.quantum <= f[k].time && job !in Retired(f[..k + 1])|
  {
    RemainingIsExact(c, n, k);
    var f := Run(c, n).state.finished;
    forall job | job in c.jobs ensures EffectiveArrival(c.jobs, job) == job.arrival {
      EffectiveWhenSorted(c.jobs, job);
    }
    assert Others(c, f, k)
        == set job | job in c.jobs && job.arrival + c.quantum <= f[k].time && job !in Retired(f[..k + 1]);
  }

  // ---------- where blocks stay ----------

  /** From one state to the next, every process that is not retired in between keeps its block at its address. */
  lemma BlockStays(c: Config, s: State, block: Seg)
    requires Loaded(c) && Core(c, s) && c.strategy.BestFit? && !Step(c, s).Crashed?
    requires block in s.mem.segs && block.Used? && !(Expires(c, s) && s.current == Some(block.owner))
    ensures block in Step(c, s).state.mem.segs
  {
    var t := Settle(c, s);
    if Expires(c, s) { ReleaseKeeps(s.mem, s.current.value); }
    if Step(c, s).Running? {
      SettleKeeps(c, s);
      var k := Arrivals(t.pending, t.time);
      AskersReady(c, t, k);
      AdmitKeepsMemory(t.input + t.pending[..k], t.mem);
      StepResumes(c, s);
    }
  }

  /** Finished processes stay finished, and a process that expires is one of them from then on. */
  lemma StepRetires(c: Config, s: State, job: Job)
    requires !Step(c, s).Crashed?
    requires job in Retired(s.finished) || (Expires(c, s) && s.current == Some(job))
    ensures job in Retired(Step(c, s).state.finished)
  {
    var t := Settle(c, s);
    assert Expires(c, s) ==> t.finished[..|t.finished| - 1] == s.finished;
    hide Intake, HeapModel.Rest, Release;
    if Step(c, s).Running? { StepResumes(c, s); }
  }

  /** After `n` cycles the block is where it was, unless its owner has finished. */
  ghost predicate KeptAt(c: Config, n: nat, block: Seg)
    requires block.Used?
  {
    !Run(c, n).Crashed? && block.owner !in Retired(Run(c, n).state.finished) ==> block in Run(c, n).state.mem.segs
  }

  lemma StepKeepsBlock(c: Config, s: State, block: Seg)
    requires Loaded(c) && c.strategy.BestFit? && Core(c, s) && block.Used? && !Step(c, s).Crashed?
    requires block.owner !in Retired(s.finished) ==> block in s.mem.segs
    ensures block.owner !in Retired(Step(c, s).state.finished) ==> block in Step(c, s).state.mem.segs
  {
    hide Step, Retired, Core, Loaded;
    if block.owner in Retired(s.finished) || (Expires(c, s) && s.current == Some(block.owner)) {
      StepRetires(c, s, block.owner);
    } else {
      BlockStays(c, s, block);
    }
  }

  lemma NextKept(c: Config, n: nat, block: Seg)
    requires Loaded(c) && c.strategy.BestFit? && block.Used? && KeptAt(c, n, block)
    ensures KeptAt(c, n + 1, block)
  {
    hide Step, Retired, Core, First, Loaded;
    RunKeepsCore(c, n);
    if Run(c, n).Running? && !Run(c, n + 1).Crashed? { StepKeepsBlock(c, Run(c, n).state, block); }
  }

  /** Between any two states of a run every process that has not finished by the second keeps the block that it held in
      the first, at its address. */
  lemma {:induction false} BlocksStay(c: Config, n: nat, m: nat, block: Seg)
    requires Loaded(c) && c.strategy.BestFit? && n <= m && !Run(c, n).Crashed?
    requires block in Run(c, n).state.mem.segs && block.Used?
    ensures !Run(c, m).Crashed? && block.owner !in Retired(Run(c, m).state.finished) ==>
      block in Run(c, m).state.mem.segs
    decreases m
  {
    hide Loaded, Run, Retired;
    if n < m {
      BlocksStay(c, n, m - 1, block);
      NextKept(c, m - 1, block);
    }
  }

  /** In every reachable state of a best-fit run the blocks tile memory, free neighbours are merged, the index lists the
      free blocks, and a process holds a block, of exactly its size, if and only if it is ready or running. */
  lemma MemoryOfEveryState(c: Config, n: nat, job: Job)
    requires Loaded(c) && c.strategy.BestFit? && !Run(c, n).Crashed?
    ensures var s := Run(c, n).state;
      && Valid(s.mem)
      && (job in s.ready || s.current == Some(job) <==>
           exists block :: block in s.mem.segs && block.Used? && block.owner == job && block.size == job.mem)
  {
    RunKeepsCore(c, n);
    var s := Run(c, n).state;
    assert job in Holders(s) <==> job in Owners(s.mem.segs);
    if job in Owners(s.mem.segs) {
      var block :| block in s.mem.segs && block.Used? && block.owner == job;
    }
  }
}
