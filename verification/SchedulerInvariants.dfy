/** What every cycle keeps, whatever the workload: nobody is lost or duplicated, the ready heap stays a heap,
    and memory is held by exactly the ready and the running processes. */
module SchedulerInvariants {
  import opened Jobs
  import opened Sequences
  import opened MemoryModel
  import opened MemoryLemmas
  import opened SchedulerModel
  import opened AdmissionLemmas
  import HeapModel

  /** The loaded processes are distinct records, a quantum takes time, and with limited memory everybody asks for
      some. */
  ghost predicate Loaded(c: Config) {
    && Distinct(c.jobs)
    && c.quantum > 0
    && (c.strategy.BestFit? ==> forall job :: job in c.jobs ==> 0 < job.mem)
  }

  ghost function Bag(o: Option<Job>): multiset<Job> {
    if o.None? then multiset{} else multiset{o.value}
  }

  ghost function Retired(f: seq<Completion>): multiset<Job> {
    if f == [] then multiset{} else Retired(f[..|f| - 1]) + multiset{f[|f| - 1].job}
  }

  /** Every loaded process is in exactly one place. */
  ghost predicate Conserved(c: Config, s: State) {
    multiset(c.jobs) ==
      multiset(s.pending) + multiset(s.input) + multiset(s.ready) + Bag(s.current) + Retired(s.finished)
  }

  /** Who holds memory. */
  ghost function Holders(s: State): set<Job> {
    Elements(s.ready) + if s.current.None? then {} else {s.current.value}
  }

  ghost predicate MemoryHeld(c: Config, s: State) {
    c.strategy.BestFit? ==> Valid(s.mem) && Owners(s.mem.segs) == Holders(s)
  }

  ghost predicate HeapOrdered(c: Config, s: State) {
    c.scheduler.SJF? ==> HeapModel.IsHeap(s.ready)
  }

  ghost predicate Core(c: Config, s: State) {
    Conserved(c, s) && MemoryHeld(c, s) && HeapOrdered(c, s)
  }

  lemma CoreConserves(c: Config, s: State)
    requires Core(c, s)
    ensures Conserved(c, s)
  {}

  // ---------- multisets of distinct elements ----------

  lemma {:induction false} DistinctCount<T(!new)>(s: seq<T>, x: T)
    requires Distinct(s)
    ensures multiset(s)[x] <= 1
  {
    if s != [] {
      assert s == [s[0]] + s[1..];
      DistinctCount(s[1..], x);
      assert s[0] !in s[1..];
    }
  }

  lemma CountDistinct<T(!new)>(s: seq<T>)
    requires forall x :: multiset(s)[x] <= 1
    ensures Distinct(s)
  {
    forall i, j | 0 <= i < j < |s| ensures s[i] != s[j] {
      assert s == s[..i] + [s[i]] + s[i + 1..j] + [s[j]] + s[j + 1..];
      assert multiset(s) >= multiset{s[i]} + multiset{s[j]};
      assert multiset(s)[s[i]] <= 1;
    }
  }

  /** Each place holds distinct processes and no two places share one. */
  lemma PlacesApart(c: Config, s: State)
    requires Loaded(c) && Conserved(c, s)
    ensures forall job :: multiset(s.pending)[job] + multiset(s.input)[job] + multiset(s.ready)[job]
                          + Bag(s.current)[job] + Retired(s.finished)[job]
                          == multiset(c.jobs)[job] <= 1
  {
    forall job ensures multiset(c.jobs)[job] <= 1 { DistinctCount(c.jobs, job); }
  }

  // ---------- the phases ----------

  lemma RetireKeeps(c: Config, s: State)
    requires Loaded(c) && Core(c, s) && s.current.Some?
    ensures Core(c, Retire(c, s))
  {
    var t := Retire(c, s);
    assert t.finished[..|t.finished| - 1] == s.finished;
    var job := s.current.value;
    PlacesApart(c, s);
    assert Bag(s.current)[job] == 1;
    assert multiset(s.ready)[job] == 0;
    assert job !in s.ready;
    if c.strategy.BestFit? {
      ReleaseKeeps(s.mem, job);
      assert Holders(t) == Holders(s) - {job};
    }
  }

  lemma SettleKeeps(c: Config, s: State)
    requires Loaded(c) && Core(c, s)
    ensures Core(c, Settle(c, s))
  {
    assert Core(c, Charge(c, s));
    if Expires(c, s) { RetireKeeps(c, Charge(c, s)); }
  }

  lemma AskersReady(c: Config, s: State, k: nat)
    requires Loaded(c) && c.strategy.BestFit? && Conserved(c, s) && k <= |s.pending|
    requires Owners(s.mem.segs) == Holders(s)
    ensures Askers(s.input + s.pending[..k], s.mem)
  {
    var xs := s.input + s.pending[..k];
    PlacesApart(c, s);
    assert s.pending == s.pending[..k] + s.pending[k..];
    assert multiset(xs) + multiset(s.pending[k..]) == multiset(s.input) + multiset(s.pending);
    forall x ensures multiset(xs)[x] <= 1 {
      assert multiset(xs)[x] <= multiset(s.input)[x] + multiset(s.pending)[x];
    }
    CountDistinct(xs);
    forall job | job in xs ensures 0 < job.mem && job !in Owners(s.mem.segs) {
      assert job in multiset(xs);
      assert multiset(s.input)[job] + multiset(s.pending)[job] >= 1;
      assert job in multiset(c.jobs);
      assert multiset(s.ready)[job] == 0 && Bag(s.current)[job] == 0;
    }
  }

  lemma Regroup<T(!new)>(p: multiset<T>, p0: multiset<T>, p1: multiset<T>, i: multiset<T>, x: multiset<T>,
                   kept: multiset<T>, adm: multiset<T>, r: multiset<T>, r1: multiset<T>)
    requires p == p0 + p1 && x == i + p0 && x == kept + adm && r1 == r + adm
    ensures p1 + kept + r1 == p + i + r
  {
    forall y ensures (p1 + kept + r1)[y] == (p + i + r)[y] {
      assert x[y] == i[y] + p0[y] == kept[y] + adm[y];
    }
  }

  lemma IntakeConserves(c: Config, s: State)
    requires Core(c, s)
    ensures Conserved(c, Intake(c, s)) && HeapOrdered(c, Intake(c, s))
  {
    hide Valid, Owners, Elements, Admit, AddAll, Arrivals, Interleaves, HeapModel.IsHeap;
    var k := Arrivals(s.pending, s.time);
    var xs := s.input + s.pending[..k];
    var a := Admit(c.strategy, xs, s.mem);
    var t := Intake(c, s);
    assert s.pending == s.pending[..k] + s.pending[k..];
    assert multiset(s.pending) == multiset(s.pending[..k]) + multiset(t.pending);
    AdmitInterleaves(c.strategy, xs, s.mem);
    InterleavesContents(xs, a.kept, a.admitted);
    AddAllContents(c.scheduler, s.ready, a.admitted);
    assert multiset(xs) == multiset(s.input) + multiset(s.pending[..k]);
    assert multiset(xs) == multiset(t.input) + multiset(a.admitted);
    assert multiset(t.ready) == multiset(s.ready) + multiset(a.admitted);
    Regroup(multiset(s.pending), multiset(s.pending[..k]), multiset(t.pending), multiset(s.input), multiset(xs),
            multiset(t.input), multiset(a.admitted), multiset(s.ready), multiset(t.ready));
  }

  /** Intake conserves processes, keeps memory and heap, and leaves nothing in the input queue that fits. */
  lemma IntakeKeeps(c: Config, s: State)
    requires Loaded(c) && Core(c, s)
    ensures Core(c, Intake(c, s))
    ensures c.strategy.BestFit? ==> NothingFits(Intake(c, s).input, Intake(c, s).mem)
    ensures c.strategy.Infinite? ==> Intake(c, s).input == []
  {
    hide Valid, Owners, Elements, NothingFits;
    var k := Arrivals(s.pending, s.time);
    var xs := s.input + s.pending[..k];
    var a := Admit(c.strategy, xs, s.mem);
    IntakeConserves(c, s);
    if c.strategy.BestFit? {
      AskersReady(c, s, k);
      AdmitKeepsMemory(xs, s.mem);
      AdmitIsFixpoint(xs, s.mem);
      AddAllContents(c.scheduler, s.ready, a.admitted);
      SameElements(Intake(c, s).ready, s.ready, a.admitted);
    } else {
      AdmitAllWithoutLimit(xs, s.mem);
    }
  }

  lemma SameElements(r: seq<Job>, a: seq<Job>, b: seq<Job>)
    requires multiset(r) == multiset(a) + multiset(b)
    ensures Elements(r) == Elements(a) + Elements(b)
  {
    forall x ensures x in r <==> x in a || x in b {
      assert x in r <==> x in multiset(r);
      assert x in a <==> x in multiset(a);
      assert x in b <==> x in multiset(b);
    }
  }

  lemma WithoutNextContents(c: Config, s: State)
    requires HeapOrdered(c, s) && s.ready != []
    ensures multiset(s.ready) == multiset{s.ready[0]} + multiset(WithoutNext(c.scheduler, s.ready))
    ensures HeapOrdered(c, Dispatch(c, s))
    ensures Elements(s.ready) == {s.ready[0]} + Elements(WithoutNext(c.scheduler, s.ready))
  {
    if c.scheduler.SJF? {
      HeapModel.ExtractCorrect(s.ready);
    } else {
      assert s.ready == [s.ready[0]] + s.ready[1..];
    }
    var w := WithoutNext(c.scheduler, s.ready);
    assert multiset(s.ready) == multiset([s.ready[0]]) + multiset(w);
    SameElements(s.ready, [s.ready[0]], w);
  }

  lemma DispatchKeeps(c: Config, s: State)
    requires Core(c, s) && s.ready != [] && s.current.None?
    ensures Core(c, Dispatch(c, s))
  {
    WithoutNextContents(c, s);
    assert Holders(Dispatch(c, s)) == Holders(s);
  }

  /** Putting the running process at the back of the queue. */
  lemma PreemptKeeps(c: Config, s: State)
    requires Core(c, s) && s.current.Some? && c.scheduler.RR?
    ensures Core(c, s.(ready := s.ready + [s.current.value], current := None))
  {
    var t := s.(ready := s.ready + [s.current.value], current := None);
    assert multiset(t.ready) == multiset(s.ready) + Bag(s.current);
    SameElements(t.ready, s.ready, [s.current.value]);
  }

  lemma ScheduleKeeps(c: Config, s: State)
    requires Loaded(c) && Core(c, s) && (s.noneRunning ==> s.current.None?)
    ensures Schedule(c, s).Running? ==> Core(c, Schedule(c, s).state)
  {
    if s.noneRunning {
      if s.ready != [] { DispatchKeeps(c, s); }
    } else if s.current.Some? && c.scheduler.RR? && s.ready != [] {
      PreemptKeeps(c, s);
      DispatchKeeps(c, s.(ready := s.ready + [s.current.value], current := None));
    }
  }

  /** The flag that says nobody runs is only ever set when nobody does. */
  ghost predicate Flagged(s: State) {
    s.noneRunning ==> s.current.None?
  }

  lemma StepKeepsCore(c: Config, s: State)
    requires Loaded(c) && Core(c, s) && Flagged(s)
    ensures var o := Step(c, s); !o.Crashed? ==> Core(c, o.state) && Flagged(o.state)
  {
    hide Core, Intake;
    var t := Settle(c, s);
    SettleKeeps(c, s);
    IntakeKeeps(c, t);
    IntakeLeaves(c, t);
    ScheduleKeeps(c, Intake(c, t));
    var o := Schedule(c, Intake(c, t));
    if o.Running? { TimeKeeps(c, o.state, (o.state.time + c.quantum) % WORD); }
  }

  lemma TimeKeeps(c: Config, s: State, time: nat)
    requires Core(c, s)
    ensures Core(c, s.(time := time))
  {}

  /** What intake does not touch. */
  lemma IntakeLeaves(c: Config, s: State)
    ensures var t := Intake(c, s);
      && t.time == s.time && t.current == s.current && t.noneRunning == s.noneRunning
      && t.finished == s.finished && t.left == s.left && t.history == s.history
  {}

  lemma FirstKeepsCore(c: Config)
    requires Loaded(c)
    ensures Core(c, First(c)) && Flagged(First(c))
  {
    var s := Start(c);
    assert Core(c, s);
    IntakeKeeps(c, s);
    if Intake(c, s).ready != [] { DispatchKeeps(c, Intake(c, s)); }
  }

  lemma {:induction false} RunKeepsCore(c: Config, n: nat)
    requires Loaded(c)
    ensures var o := Run(c, n); !o.Crashed? ==> Core(c, o.state) && Flagged(o.state)
  {
    if n == 0 {
      FirstKeepsCore(c);
    } else {
      RunKeepsCore(c, n - 1);
      var o := Run(c, n - 1);
      if o.Running? { StepKeepsCore(c, o.state); }
    }
  }
}
