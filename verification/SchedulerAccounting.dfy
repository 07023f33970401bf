/** Service accounting: who has run for how many quanta, in every state of every loaded workload. */
module SchedulerAccounting {
  import opened Jobs
  import opened Sequences
  import opened SchedulerModel
  import opened SchedulerInvariants
  import HeapModel

  // ---------- measures of a workload ----------

  function CeilDiv(a: nat, b: nat): nat
    requires b > 0
  {
    (a + b - 1) / b
  }

  /** How many quanta a job occupies: a job without service time still gets one. */
  function Quanta(q: nat, job: Job): nat
    requires q > 0
  {
    if job.service == 0 then 1 else CeilDiv(job.service, q)
  }

  function Work(q: nat, jobs: seq<Job>): nat
    requires q > 0
  {
    if jobs == [] then 0 else Quanta(q, jobs[0]) + Work(q, jobs[1..])
  }

  // ---------- arithmetic ----------

  lemma CeilDivExact(a: nat, q: nat)
    requires q > 0
    ensures a <= q * CeilDiv(a, q)
    ensures a > 0 ==> CeilDiv(a, q) > 0 && q * (CeilDiv(a, q) - 1) < a
  {
    var d := CeilDiv(a, q);
    assert a + q - 1 == q * d + (a + q - 1) % q;
    if a > 0 {
      assert q * d > 0;
      assert q * (d - 1) == q * d - q;
    }
  }

  lemma MulMonotone(q: nat, a: nat, b: nat)
    requires a <= b
    ensures q * a <= q * b
    ensures q * (a + 1) == q * a + q
  {}

  /** A job expires in exactly its last quantum. */
  lemma LastQuantum(q: nat, job: Job, n: nat)
    requires q > 0 && n < Quanta(q, job)
    ensures job.service <= q * (n + 1) <==> n + 1 == Quanta(q, job)
  {
    if job.service > 0 {
      var d := CeilDiv(job.service, q);
      CeilDivExact(job.service, q);
      if n + 1 < d { MulMonotone(q, n + 1, d - 1); }
    } else {
      MulMonotone(q, 0, n + 1);
    }
  }

  // ---------- the invariant ----------

  ghost function Ran(s: State, job: Job): nat {
    multiset(s.history)[Some(job)]
  }

  /** The service a job still needs after `n` quanta. */
  function Due(q: nat, job: Job, n: nat): nat {
    if job.service <= q * n then 0 else job.service - q * n
  }

  ghost predicate Accounted(c: Config, s: State) {
    forall job :: job in c.jobs ==> Left(s, job) == Due(c.quantum, job, Ran(s, job))
  }

  /** Finished jobs have had all their quanta and the others have not; who has not arrived has had none. */
  ghost predicate Progress(c: Config, s: State)
    requires c.quantum > 0
  {
    && (forall job :: job in c.jobs ==>
         if job in Retired(s.finished) then Ran(s, job) == Quanta(c.quantum, job)
         else Ran(s, job) < Quanta(c.quantum, job))
    && (forall job :: job in s.pending ==> Ran(s, job) == 0)
  }

  /** Only loaded processes run. */
  ghost predicate Occupied(c: Config, s: State) {
    forall x :: x in s.history && x.Some? ==> x.value in c.jobs
  }

  /** A job runs only after it has arrived. */
  ghost predicate Aged(c: Config, s: State) {
    forall job :: job in c.jobs && job !in s.pending ==>
      job.arrival + c.quantum * Ran(s, job) <= c.quantum * |s.history|
  }

  /** What the books say in every state, whatever the clock does. */
  ghost predicate Books(c: Config, s: State)
    requires c.quantum > 0
  {
    Accounted(c, s) && Progress(c, s) && Occupied(c, s) && Aged(c, s)
  }

  // ---------- sizes ----------

  lemma {:induction false} RetiredSize(f: seq<Completion>)
    ensures |Retired(f)| == |f|
  {
    if f != [] { RetiredSize(f[..|f| - 1]); }
  }

  lemma PlacesSize(c: Config, s: State)
    requires Conserved(c, s)
    ensures |c.jobs| == |s.pending| + |s.input| + |s.ready| + |Bag(s.current)| + |s.finished|
  {
    RetiredSize(s.finished);
    assert |multiset(c.jobs)| == |c.jobs|;
  }

  // ---------- settling the elapsed quantum ----------

  lemma RunningIsAlive(c: Config, s: State)
    requires Loaded(c) && Conserved(c, s) && s.current.Some?
    ensures s.current.value in c.jobs
    ensures s.current.value !in s.pending && s.current.value !in s.input && s.current.value !in s.ready
    ensures s.current.value !in Retired(s.finished)
  {
    PlacesApart(c, s);
    assert Bag(s.current)[s.current.value] == 1;
    assert s.current.value in multiset(c.jobs);
    assert s.current.value !in multiset(s.pending);
    assert s.current.value !in multiset(s.input);
    assert s.current.value !in multiset(s.ready);
  }

  /** A running process expires exactly when this was the last of its quanta. */
  lemma ExpiresExactly(c: Config, s: State)
    requires Loaded(c) && Core(c, s) && Books(c, s) && s.current.Some?
    ensures Expires(c, s) <==> Ran(s, s.current.value) + 1 == Quanta(c.quantum, s.current.value)
  {
    var job := s.current.value;
    RunningIsAlive(c, s);
    LastQuantum(c.quantum, job, Ran(s, job));
    MulMonotone(c.quantum, Ran(s, job), Ran(s, job));
  }

  lemma ChargeRan(c: Config, s: State, job: Job)
    ensures Ran(Charge(c, s), job) == Ran(s, job) + if s.current == Some(job) then 1 else 0
    ensures multiset(Charge(c, s).history)[None] == multiset(s.history)[None] + if s.current == None then 1 else 0
  {}

  lemma ChargeAccounted(c: Config, s: State)
    requires Loaded(c) && Core(c, s) && Books(c, s)
    ensures Accounted(c, Charge(c, s))
  {
    var t := Charge(c, s);
    forall job | job in c.jobs ensures Left(t, job) == Due(c.quantum, job, Ran(t, job)) {
      ChargeRan(c, s, job);
      MulMonotone(c.quantum, Ran(s, job), Ran(s, job));
    }
  }

  /** Settling marks a process finished exactly when its quanta are used up. */
  lemma SettleProgress(c: Config, s: State)
    requires Loaded(c) && Core(c, s) && Books(c, s)
    ensures Progress(c, Settle(c, s))
  {
    var t := Settle(c, s);
    if s.current.Some? {
      ExpiresExactly(c, s);
      RunningIsAlive(c, s);
    }
    assert Expires(c, s) ==> t.finished[..|t.finished| - 1] == s.finished;
    forall job | job in c.jobs
      ensures if job in Retired(t.finished) then Ran(t, job) == Quanta(c.quantum, job)
              else Ran(t, job) < Quanta(c.quantum, job)
    {
      ChargeRan(c, s, job);
    }
    forall job | job in t.pending ensures Ran(t, job) == 0 {
      ChargeRan(c, s, job);
    }
  }

  lemma SettleOccupied(c: Config, s: State)
    requires Loaded(c) && Core(c, s) && Books(c, s)
    ensures Occupied(c, Settle(c, s))
  {
    if s.current.Some? { RunningIsAlive(c, s); }
  }

  lemma SettleAged(c: Config, s: State)
    requires Loaded(c) && Core(c, s) && Books(c, s)
    ensures Aged(c, Settle(c, s))
  {
    var t := Settle(c, s);
    MulMonotone(c.quantum, |s.history|, |s.history|);
    hide Core, Accounted, Progress, Occupied, Loaded;
    forall job | job in c.jobs && job !in t.pending
      ensures job.arrival + c.quantum * Ran(t, job) <= c.quantum * |t.history|
    {
      ChargeRan(c, s, job);
      MulMonotone(c.quantum, Ran(s, job), Ran(s, job));
    }
  }

  lemma SettleBooks(c: Config, s: State)
    requires Loaded(c) && Core(c, s) && Books(c, s)
    ensures Books(c, Settle(c, s))
    ensures Settle(c, s).time == s.time && Settle(c, s).history == s.history + [s.current]
    ensures Flagged(s) ==> Flagged(Settle(c, s))
  {
    ChargeAccounted(c, s);
    SettleProgress(c, s);
    SettleOccupied(c, s);
    SettleAged(c, s);
  }

  // ---------- intake and dispatch ----------

  lemma IntakePending(c: Config, s: State)
    ensures Intake(c, s).pending != [] ==> Intake(c, s).pending[0].arrival > s.time
    ensures forall job :: job in Intake(c, s).pending ==> job in s.pending
    ensures forall job :: job in s.pending && job !in Intake(c, s).pending ==> job.arrival <= s.time
  {
    var k := Arrivals(s.pending, s.time);
    forall i | k <= i < |s.pending| ensures s.pending[i] in s.pending[k..] {
      assert s.pending[k..][i - k] == s.pending[i];
    }
  }

  lemma IntakeBooks(c: Config, s: State)
    requires Loaded(c) && Books(c, s) && s.time <= c.quantum * |s.history|
    ensures Books(c, Intake(c, s))
  {
    IntakeLeaves(c, s);
    IntakePending(c, s);
    hide Intake;
    SameBooks(c, s, Intake(c, s));
  }

  /** The books depend on the queues only through who has not arrived. */
  lemma SameBooks(c: Config, s: State, t: State)
    requires c.quantum > 0 && Books(c, s)
    requires t.left == s.left && t.history == s.history && t.finished == s.finished
    requires forall job :: job in t.pending ==> job in s.pending
    requires forall job :: job in s.pending && job !in t.pending ==> job.arrival <= c.quantum * |s.history|
    ensures Books(c, t)
  {
    assert Progress(c, t) by { hide Accounted, Aged, Occupied; }
    assert Accounted(c, t) by { hide Progress, Aged, Occupied; }
    forall job | job in c.jobs && job !in t.pending
      ensures job.arrival + c.quantum * Ran(t, job) <= c.quantum * |t.history|
    {
      if job in s.pending { assert Ran(t, job) == 0; }
    }
  }

  lemma ScheduleBooks(c: Config, s: State)
    requires Loaded(c) && Books(c, s)
    ensures Schedule(c, s).Running? ==> Books(c, Schedule(c, s).state)
  {
    hide HeapModel.Rest;
  }

  // ---------- counting the elapsed quanta ----------

  /** All quanta spent on the given jobs. */
  ghost function Spent(h: seq<Option<Job>>, jobs: seq<Job>): nat {
    if jobs == [] then 0 else multiset(h)[Some(jobs[0])] + Spent(h, jobs[1..])
  }

  ghost function IdleQuanta(s: State): nat {
    multiset(s.history)[None]
  }

  lemma {:induction false} SpentAppend(h: seq<Option<Job>>, x: Option<Job>, jobs: seq<Job>)
    requires Distinct(jobs)
    ensures Spent(h + [x], jobs) == Spent(h, jobs) + if x.Some? && x.value in jobs then 1 else 0
    decreases |jobs|
  {
    if jobs != [] {
      SpentAppend(h, x, jobs[1..]);
      assert jobs == [jobs[0]] + jobs[1..];
      assert jobs[0] !in jobs[1..];
    }
  }

  lemma {:induction false} NothingSpent(jobs: seq<Job>)
    ensures Spent([], jobs) == 0
  {
    if jobs != [] { NothingSpent(jobs[1..]); }
  }

  /** Every elapsed quantum was spent on a loaded job or idle. */
  lemma {:induction false} QuantaPartition(h: seq<Option<Job>>, jobs: seq<Job>)
    requires Distinct(jobs) && forall x :: x in h && x.Some? ==> x.value in jobs
    ensures |h| == Spent(h, jobs) + multiset(h)[None]
    decreases |h|
  {
    if h == [] {
      NothingSpent(jobs);
    } else {
      var g, x := h[..|h| - 1], h[|h| - 1];
      assert h == g + [x];
      QuantaPartition(g, jobs);
      SpentAppend(g, x, jobs);
    }
  }

  lemma {:induction false} SpentAtMostWork(q: nat, h: seq<Option<Job>>, jobs: seq<Job>)
    requires q > 0 && forall job :: job in jobs ==> multiset(h)[Some(job)] <= Quanta(q, job)
    ensures Spent(h, jobs) <= Work(q, jobs)
    ensures (exists job :: job in jobs && multiset(h)[Some(job)] < Quanta(q, job)) ==> Spent(h, jobs) < Work(q, jobs)
    ensures (forall job :: job in jobs ==> multiset(h)[Some(job)] == Quanta(q, job)) ==> Spent(h, jobs) == Work(q, jobs)
    decreases |jobs|
  {
    if jobs != [] {
      assert jobs == [jobs[0]] + jobs[1..];
      SpentAtMostWork(q, h, jobs[1..]);
    }
  }

  lemma SomeoneUnfinished(c: Config, s: State)
    requires Loaded(c) && Conserved(c, s)
    ensures |s.finished| < |c.jobs| ==> exists job :: job in c.jobs && job !in Retired(s.finished)
    ensures |s.finished| == |c.jobs| ==> multiset(c.jobs) == Retired(s.finished)
  {
    RetiredSize(s.finished);
    PlacesSize(c, s);
    var rest := multiset(s.pending) + multiset(s.input) + multiset(s.ready) + Bag(s.current);
    assert multiset(c.jobs) == rest + Retired(s.finished);
    if |s.finished| < |c.jobs| {
      assert |rest| > 0;
      var job :| job in rest;
      PlacesApart(c, s);
      assert job in multiset(c.jobs);
      assert Retired(s.finished)[job] == 0;
    }
  }

  // ---------- one cycle ----------

  lemma ScheduleLeaves(c: Config, s: State)
    requires Schedule(c, s).Running?
    ensures var t := Schedule(c, s).state;
      && t.time == s.time && t.pending == s.pending && t.input == s.input && t.finished == s.finished
      && t.left == s.left && t.mem == s.mem && t.history == s.history
  {
    hide HeapModel.Rest;
  }

  /** What scheduling leaves of the settled and refilled queues. */
  lemma StepResumes(c: Config, s: State)
    requires Step(c, s).Running?
    ensures var t, v := Settle(c, s), Step(c, s).state;
      && v.pending == s.pending[Arrivals(s.pending, s.time)..]
      && v.finished == t.finished
      && v.history == t.history
      && v.mem == Intake(c, t).mem
  {
    hide Admit, AddAll, HeapModel.Rest;
    ScheduleLeaves(c, Intake(c, Settle(c, s)));
  }

  // ---------- every state of every run ----------

  lemma BooksIgnoreTime(c: Config, s: State, time: nat)
    requires c.quantum > 0 && Books(c, s)
    ensures Books(c, s.(time := time))
  {}

  lemma ModStep(x: nat, q: nat)
    ensures (x % WORD + q) % WORD == (x + q) % WORD && x % WORD <= x
  {}

  /** A loop boundary: the books are kept, and the 32-bit clock shows the quanta up to the end of the current one. */
  ghost predicate Booked(c: Config, s: State)
    requires c.quantum > 0
  {
    Core(c, s) && Flagged(s) && Books(c, s) && s.time == c.quantum * (|s.history| + 1) % WORD
  }

  /** What holds when the loop is left. */
  ghost predicate Closed(c: Config, s: State)
    requires c.quantum > 0
  {
    Core(c, s) && Books(c, s) && |s.finished| == |c.jobs| && s.time == c.quantum * |s.history| % WORD
  }

  lemma StepBooks(c: Config, s: State)
    requires Loaded(c) && Booked(c, s)
    ensures Step(c, s).Running? ==> Booked(c, Step(c, s).state)
    ensures Step(c, s).Finished? ==> Closed(c, Step(c, s).state)
    ensures !Step(c, s).Crashed? ==> Step(c, s).state.history == s.history + [s.current]
  {
    hide Books, Core, Intake, Settle, HeapModel.Rest;
    var t := Settle(c, s);
    SettleBooks(c, s);
    SettleKeeps(c, s);
    StepKeepsCore(c, s);
    ModStep(c.quantum * |t.history|, c.quantum);
    MulMonotone(c.quantum, |t.history|, |t.history|);
    IntakeBooks(c, t);
    IntakeLeaves(c, t);
    var u := Intake(c, t);
    ScheduleBooks(c, u);
    if Schedule(c, u).Running? {
      ScheduleLeaves(c, u);
      BooksIgnoreTime(c, Schedule(c, u).state, (t.time + c.quantum) % WORD);
    }
  }

  lemma StartBooks(c: Config)
    requires Loaded(c)
    ensures Core(c, Start(c)) && Books(c, Start(c))
  {
    var s := Start(c);
    forall job | job in c.jobs
      ensures Left(s, job) == Due(c.quantum, job, Ran(s, job)) && Ran(s, job) < Quanta(c.quantum, job)
    {
      CeilDivExact(job.service, c.quantum);
    }
  }

  lemma DispatchBooks(c: Config, u: State)
    requires c.quantum > 0 && Books(c, u) && u.ready != []
    ensures Books(c, Dispatch(c, u))
  {
    hide Books, HeapModel.Rest;
    SameBooks(c, u, Dispatch(c, u));
  }

  lemma FirstBooked(c: Config)
    requires Loaded(c)
    ensures Booked(c, First(c)) && First(c).history == []
  {
    hide Intake, Core, HeapModel.Rest, Books;
    var s := Start(c);
    StartBooks(c);
    FirstKeepsCore(c);
    IntakeLeaves(c, s);
    IntakeBooks(c, s);
    var u := Intake(c, s);
    if u.ready != [] { DispatchBooks(c, u); }
    BooksIgnoreTime(c, if u.ready == [] then u else Dispatch(c, u), c.quantum % WORD);
  }

  ghost predicate BookedAt(c: Config, n: nat)
    requires c.quantum > 0
  {
    match Run(c, n)
    case Running(s) => Booked(c, s) && |s.history| == n
    case Finished(s) => Closed(c, s) && |s.history| <= n
    case Crashed => true
  }

  lemma FirstBookedAt(c: Config)
    requires Loaded(c)
    ensures BookedAt(c, 0)
  {
    hide Booked, First;
    FirstBooked(c);
  }

  lemma NextBooked(c: Config, n: nat)
    requires Loaded(c) && BookedAt(c, n)
    ensures BookedAt(c, n + 1)
  {
    hide Booked, Closed, Step, First;
    if Run(c, n).Running? { StepBooks(c, Run(c, n).state); }
  }

  /** The books are kept in every state of every loaded workload: finished jobs have had exactly their quanta, the
      others have had fewer, and what is left of a job follows from the quanta it has had. */
  lemma {:induction false} RunBooks(c: Config, n: nat)
    requires Loaded(c)
    ensures BookedAt(c, n)
  {
    hide BookedAt, Loaded;
    if n == 0 {
      FirstBookedAt(c);
    } else {
      RunBooks(c, n - 1);
      NextBooked(c, n - 1);
    }
  }
}
