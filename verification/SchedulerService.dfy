/** When a process runs, for how long, and what is reported when it finishes. */
module SchedulerService {
  import opened Jobs
  import opened SchedulerModel
  import opened AdmissionLemmas
  import opened SchedulerInvariants
  import opened SchedulerAccounting
  import opened SchedulerRuns
  import HeapModel

  // ---------- round robin ----------

  /** Who becomes ready in this intake. */
  function Admitted(c: Config, s: State): seq<Job> {
    Admit(c.strategy, s.input + s.pending[..Arrivals(s.pending, s.time)], s.mem).admitted
  }

  /** Who was running and still needs service. */
  function Preempted(c: Config, s: State): seq<Job> {
    if s.current.Some? && !Expires(c, s) then [s.current.value] else []
  }

  /** A round-robin cycle lines up who was ready, behind them the new admissions, and behind these the preempted
      process; it dispatches the head of that queue, if there is one, and leaves the rest.  So a process that is alone
      goes on. */
  lemma RoundRobinStep(c: Config, s: State)
    requires c.scheduler.RR? && FlagExact(s) && !Step(c, s).Finished?
    ensures var o, queue := Step(c, s), s.ready + Admitted(c, Settle(c, s)) + Preempted(c, s);
      && o.Running?
      && if queue == [] then o.state.current == None && o.state.ready == []
         else o.state.current == Some(queue[0]) && o.state.ready == queue[1..]
  {
    var t := Settle(c, s);
    QueueAll(t.ready, Admitted(c, t));
    IntakeLeaves(c, t);
    assert Intake(c, t).ready == s.ready + Admitted(c, t);
    hide Intake, Admitted;
    RoundRobinSchedule(c, Intake(c, t));
  }

  lemma RoundRobinSchedule(c: Config, u: State)
    requires c.scheduler.RR? && FlagExact(u)
    ensures var o, queue := Schedule(c, u), u.ready + if u.current.Some? then [u.current.value] else [];
      && o.Running?
      && if queue == [] then o.state.current == None && o.state.ready == []
         else o.state.current == Some(queue[0]) && o.state.ready == queue[1..]
  {
    if u.current.None? { assert u.ready + [] == u.ready; }
  }

  /** Under round robin the first cycle dispatches the first of those it admits, and the others wait in order. */
  lemma RoundRobinStarts(c: Config)
    requires c.scheduler.RR?
    ensures var s, admitted := Run(c, 0).state, Admitted(c, Start(c));
      if admitted == [] then s.current.None? && s.ready == []
      else s.current == Some(admitted[0]) && s.ready == admitted[1..]
  {
    QueueAll([], Admitted(c, Start(c)));
    IntakeLeaves(c, Start(c));
    hide Admit, AddAll;
  }

  lemma ReadyMeansUnfinished(c: Config, s: State)
    requires Core(c, s) && s.ready != []
    ensures !Step(c, s).Finished?
  {
    PlacesSize(c, s);
    RetiredSize(s.finished);
  }

  lemma RoundRobinAdvance(c: Config, n: nat)
    requires Loaded(c) && c.scheduler.RR? && First(c).current.Some? && Run(c, n).Running?
    requires Run(c, n).state.ready != []
    ensures Run(c, n + 1).Running?
    ensures Run(c, n + 1).state.current == Some(Run(c, n).state.ready[0])
    ensures Run(c, n).state.ready[1..] <= Run(c, n + 1).state.ready
  {
    var s := Run(c, n).state;
    RunKeepsCore(c, n);
    RunFlagExact(c, n);
    ReadyMeansUnfinished(c, s);
    RoundRobinStep(c, s);
  }

  /** The process at position `k` of the ready queue moves up one place each cycle, whatever arrives, is admitted
      or finishes, and is dispatched exactly `k + 1` cycles later. */
  lemma {:induction false} RoundRobinExact(c: Config, n: nat, k: nat, j: nat)
    requires Loaded(c) && c.scheduler.RR? && First(c).current.Some? && Run(c, n).Running?
    requires k < |Run(c, n).state.ready| && j <= k + 1
    ensures Run(c, n + j).Running?
    ensures var s, t := Run(c, n).state, Run(c, n + j).state;
      if j <= k then k - j < |t.ready| && t.ready[k - j] == s.ready[k] else t.current == Some(s.ready[k])
    decreases j
  {
    hide Run, Loaded;
    if j > 0 {
      RoundRobinExact(c, n, k, j - 1);
      RoundRobinAdvance(c, n + (j - 1));
      assert n + (j - 1) + 1 == n + j;
      var s, t := Run(c, n + (j - 1)).state, Run(c, n + j).state;
      if j <= k { assert s.ready[1..][k - j] == t.ready[k - j]; }
    }
  }

  // ---------- shortest job first ----------

  /** No job of `others` needs less service than `job`, none that needs as much arrived earlier, and none that arrived
      with it has a name that comes first. */
  ghost predicate Precedes(job: Job, others: seq<Job>) {
    forall other :: other in others ==>
      && job.service <= other.service
      && (job.service == other.service ==> job.arrival <= other.arrival)
      && (job.service == other.service && job.arrival == other.arrival ==> !NameBefore(other.name, job.name))
  }

  /** Whoever is dispatched under SJF needs the least service of all in the ready heap; of those that need as little it
      arrived first, and of those that arrived with it its name comes first. */
  lemma ShortestIsDispatched(c: Config, s: State)
    requires Loaded(c) && c.scheduler.SJF? && Core(c, s) && FlagExact(s) && Step(c, s).Running?
    requires s.current.None? || Expires(c, s)
    ensures var u, t := Intake(c, Settle(c, s)), Step(c, s).state;
      if u.ready == [] then t.current.None?
      else
        && t.current.Some? && t.current.value in u.ready
        && forall job :: job in u.ready ==>
             && t.current.value.service <= job.service
             && (t.current.value.service == job.service ==> t.current.value.arrival <= job.arrival)
             && (t.current.value.service == job.service && t.current.value.arrival == job.arrival ==>
                  !NameBefore(job.name, t.current.value.name))
  {
    LeastIsDispatched(c, s);
    hide Intake, Settle, NameBefore, Step, Leq;
    var u, t := Intake(c, Settle(c, s)), Step(c, s).state;
    if u.ready != [] { LeastPrecedes(t.current.value, u.ready); }
  }

  lemma LeastIsDispatched(c: Config, s: State)
    requires Loaded(c) && c.scheduler.SJF? && Core(c, s) && FlagExact(s) && Step(c, s).Running?
    requires s.current.None? || Expires(c, s)
    ensures var u, t := Intake(c, Settle(c, s)), Step(c, s).state;
      if u.ready == [] then t.current.None?
      else t.current.Some? && t.current.value in u.ready && forall job :: job in u.ready ==> Leq(t.current.value, job)
  {
    SettleKeeps(c, s);
    IntakeKeeps(c, Settle(c, s));
    var u := Intake(c, Settle(c, s));
    if u.ready != [] { HeapModel.ExtractCorrect(u.ready); }
  }

  lemma LeastPrecedes(job: Job, others: seq<Job>)
    requires forall other :: other in others ==> Leq(job, other)
    ensures Precedes(job, others)
  {
    hide Leq, NameBefore;
    forall other | other in others
      ensures job.service <= other.service && (job.service == other.service ==> job.arrival <= other.arrival)
      ensures job.service == other.service && job.arrival == other.arrival ==> !NameBefore(other.name, job.name)
    {
      RankedByFields(job, other);
      RankedByFields(other, job);
    }
  }

  /** Under SJF nobody but the running process is partly served. */
  ghost predicate Fresh(c: Config, s: State) {
    forall job :: job in c.jobs && job !in Retired(s.finished) && s.current != Some(job) ==> Ran(s, job) == 0
  }

  lemma SettleFresh(c: Config, s: State)
    requires Fresh(c, s)
    ensures Fresh(c, Settle(c, s))
  {
    var t := Settle(c, s);
    assert Expires(c, s) ==> t.finished[..|t.finished| - 1] == s.finished;
    forall job | job in c.jobs && job !in Retired(t.finished) && t.current != Some(job) ensures Ran(t, job) == 0 {
      ChargeRan(c, s, job);
    }
  }

  lemma StepFresh(c: Config, s: State)
    requires c.scheduler.SJF? && Fresh(c, s) && FlagExact(s)
    ensures !Step(c, s).Crashed? ==> Fresh(c, Step(c, s).state)
  {
    SettleFresh(c, s);
    hide Intake, HeapModel.Rest;
    IntakeLeaves(c, Settle(c, s));
  }

  ghost predicate FreshAt(c: Config, n: nat) {
    !Run(c, n).Crashed? ==> Fresh(c, Run(c, n).state)
  }

  lemma FirstFresh(c: Config)
    ensures FreshAt(c, 0)
  {
    hide Intake, HeapModel.Rest;
    IntakeLeaves(c, Start(c));
  }

  lemma NextFresh(c: Config, n: nat)
    requires c.scheduler.SJF? && First(c).current.Some? && FreshAt(c, n)
    ensures FreshAt(c, n + 1)
  {
    RunFlagExact(c, n);
    hide Fresh, Step, FlagExact, First;
    if Run(c, n).Running? { StepFresh(c, Run(c, n).state); }
  }

  lemma {:induction false} RunFresh(c: Config, n: nat)
    requires c.scheduler.SJF? && First(c).current.Some?
    ensures FreshAt(c, n)
  {
    hide FreshAt, First;
    if n == 0 {
      FirstFresh(c);
    } else {
      RunFresh(c, n - 1);
      NextFresh(c, n - 1);
    }
  }

  lemma WaitingIsFresh(c: Config, u: State, job: Job)
    requires Loaded(c) && Conserved(c, u) && Fresh(c, u) && u.current.None? && job in u.ready
    ensures Ran(u, job) == 0
  {
    hide Ran;
    assert multiset(u.ready)[job] > 0;
    PlacesApart(c, u);
    assert job in multiset(c.jobs);
    assert Retired(u.finished)[job] == 0;
  }

  /** Under SJF whoever is dispatched starts from its full service time. */
  lemma DispatchedIsFresh(c: Config, s: State)
    requires Loaded(c) && c.scheduler.SJF? && Core(c, s) && FlagExact(s) && Fresh(c, s)
    requires (s.current.None? || Expires(c, s)) && Step(c, s).Running? && Step(c, s).state.current.Some?
    ensures Ran(Step(c, s).state, Step(c, s).state.current.value) == 0
  {
    var t := Settle(c, s);
    var u := Intake(c, t);
    SettleFresh(c, s);
    SettleKeeps(c, s);
    IntakeKeeps(c, t);
    IntakeLeaves(c, t);
    hide Intake, Settle, Loaded, MemoryHeld, HeapOrdered;
    WaitingIsFresh(c, u, u.ready[0]);
  }

  ghost predicate Current(c: Config, n: nat, job: Job) {
    Run(c, n).Running? && Run(c, n).state.current == Some(job)
  }

  /** The process is current from cycle `n` on for `length` cycles. */
  ghost predicate Holds(c: Config, n: nat, length: nat, job: Job) {
    forall m :: n <= m < n + length ==> Current(c, m, job)
  }

  ghost predicate HasFinished(c: Config, n: nat, job: Job) {
    !Run(c, n).Crashed? && job in Retired(Run(c, n).state.finished)
  }

  ghost function RanAt(c: Config, n: nat, job: Job): nat {
    if Run(c, n).Crashed? then 0 else Ran(Run(c, n).state, job)
  }

  /** One more cycle under SJF. */
  lemma NextQuantum(c: Config, n: nat, job: Job)
    requires Loaded(c) && First(c).current.Some? && c.scheduler.SJF? && Current(c, n, job)
    ensures RanAt(c, n, job) < Quanta(c.quantum, job)
    ensures RanAt(c, n, job) + 1 < Quanta(c.quantum, job) ==>
      Current(c, n + 1, job) && RanAt(c, n + 1, job) == RanAt(c, n, job) + 1
    ensures RanAt(c, n, job) + 1 == Quanta(c.quantum, job) ==> HasFinished(c, n + 1, job)
  {
    var s := Run(c, n).state;
    RunBooks(c, n);
    RunFlagExact(c, n);
    RunFlagExact(c, n + 1);
    RunningIsAlive(c, s);
    ExpiresExactly(c, s);
    hide Step, Expires, Core, Accounted, Occupied, Aged, First;
    if Expires(c, s) { ExpiredIsRetired(c, s); } else { NotExpiredContinues(c, s); }
  }

  /** The process is current for exactly `length` cycles from cycle `n` on, and has then finished. */
  ghost predicate Serves(c: Config, n: nat, length: nat, job: Job) {
    Holds(c, n, length, job) && HasFinished(c, n + length, job)
  }

  lemma ServesLonger(c: Config, n: nat, length: nat, job: Job)
    requires 0 < length && Current(c, n, job) && Serves(c, n + 1, length - 1, job)
    ensures Serves(c, n, length, job)
  {
    hide Current, HasFinished;
    assert n + 1 + (length - 1) == n + length;
  }

  lemma ServesOnce(c: Config, n: nat, job: Job)
    requires Current(c, n, job) && HasFinished(c, n + 1, job)
    ensures Serves(c, n, 1, job)
  {
    hide Current, HasFinished;
  }

  /** Once running under SJF, a process stays until its quanta are used up. */
  lemma {:induction false} HoldsProcessor(c: Config, n: nat, job: Job, left: nat)
    requires Loaded(c) && First(c).current.Some? && c.scheduler.SJF? && Current(c, n, job)
    requires left == Quanta(c.quantum, job) - RanAt(c, n, job)
    ensures Serves(c, n, left, job)
    decreases left
  {
    hide Run, RanAt, Quanta, First, Current, Serves, HasFinished;
    NextQuantum(c, n, job);
    if left > 1 {
      HoldsProcessor(c, n + 1, job, left - 1);
      ServesLonger(c, n, left, job);
    } else {
      ServesOnce(c, n, job);
    }
  }

  lemma NotExpiredContinues(c: Config, s: State)
    requires c.scheduler.SJF? && s.current.Some? && !Expires(c, s) && !s.noneRunning
    ensures Step(c, s).Running? && Step(c, s).state.current == s.current
    ensures Ran(Step(c, s).state, s.current.value) == Ran(s, s.current.value) + 1
  {
    hide Intake;
    IntakeLeaves(c, Settle(c, s));
    ChargeRan(c, s, s.current.value);
  }

  lemma ExpiredIsRetired(c: Config, s: State)
    requires s.current.Some? && Expires(c, s) && !Step(c, s).Crashed?
    ensures s.current.value in Retired(Step(c, s).state.finished)
  {
    hide Intake, HeapModel.Rest;
    var t := Settle(c, s);
    assert t.finished[..|t.finished| - 1] == s.finished;
    IntakeLeaves(c, t);
  }


  lemma DispatchedPrecedes(c: Config, s: State)
    requires Loaded(c) && c.scheduler.SJF? && Core(c, s) && FlagExact(s) && Step(c, s).Running?
    requires (s.current.None? || Expires(c, s)) && Step(c, s).state.current.Some?
    ensures Precedes(Step(c, s).state.current.value, Step(c, s).state.ready)
  {
    var t := Settle(c, s);
    var u := Intake(c, t);
    ShortestIsDispatched(c, s);
    SettleKeeps(c, s);
    IntakeKeeps(c, t);
    IntakeLeaves(c, t);
    CoreHeap(c, u);
    hide Intake, Core, Settle, NameBefore;
    RestIsReady(u.ready);
  }

  lemma RestIsReady(ready: seq<Job>)
    requires ready != [] && HeapModel.IsHeap(ready)
    ensures forall job :: job in HeapModel.Rest(ready) ==> job in ready
  {
    HeapModel.ExtractCorrect(ready);
    hide HeapModel.IsHeap, HeapModel.Rest;
    forall job | job in HeapModel.Rest(ready) ensures job in ready {
      assert job in multiset(HeapModel.Rest(ready));
      assert job in multiset(ready);
    }
  }

  lemma CoreHeap(c: Config, s: State)
    requires Core(c, s)
    ensures HeapOrdered(c, s)
  {}

  lemma DispatchInRun(c: Config, n: nat)
    requires Loaded(c) && First(c).current.Some? && c.scheduler.SJF?
    requires Run(c, n).Running? && Run(c, n + 1).Running?
    requires Run(c, n).state.current.None? || Expires(c, Run(c, n).state)
    requires Run(c, n + 1).state.current.Some?
    ensures Precedes(Run(c, n + 1).state.current.value, Run(c, n + 1).state.ready)
    ensures RanAt(c, n + 1, Run(c, n + 1).state.current.value) == 0
  {
    var s := Run(c, n).state;
    RunKeepsCore(c, n);
    RunFlagExact(c, n);
    RunFresh(c, n);
    hide Core, Fresh, FlagExact, Step, Expires, Loaded, Intake, Ran;
    DispatchedIsFresh(c, s);
    DispatchedPrecedes(c, s);
  }

  /** Shortest job first over a whole run: whoever is dispatched precedes everyone who was ready, and then holds the
      processor for exactly ceil(service / quantum) consecutive cycles, after which it has finished. */
  lemma ShortestJobFirst(c: Config, n: nat)
    requires Loaded(c) && First(c).current.Some? && c.scheduler.SJF?
    requires Run(c, n).Running? && Run(c, n + 1).Running?
    requires Run(c, n).state.current.None? || Expires(c, Run(c, n).state)
    requires Run(c, n + 1).state.current.Some?
    ensures var job := Run(c, n + 1).state.current.value;
      && Precedes(job, Run(c, n + 1).state.ready)
      && Serves(c, n + 1, Quanta(c.quantum, job), job)
  {
    DispatchInRun(c, n);
    var job := Run(c, n + 1).state.current.value;
    assert Current(c, n + 1, job);
    hide Run, First, Ran, Quanta, Serves, Current, Precedes;
    HoldsProcessor(c, n + 1, job, Quanta(c.quantum, job));
  }

  /** The same for the first cycle: it starts with the least of those that arrive at time 0 and fit. */
  lemma ShortestStarts(c: Config)
    requires Loaded(c) && First(c).current.Some? && c.scheduler.SJF?
    ensures var s := Run(c, 0).state;
      && s.current.Some? && Precedes(s.current.value, s.ready)
      && Serves(c, 0, Quanta(c.quantum, s.current.value), s.current.value)
  {
    FirstIsLeast(c);
    FirstBooked(c);
    var job := First(c).current.value;
    assert Current(c, 0, job) && RanAt(c, 0, job) == 0;
    hide Run, First, Ran, Quanta, Serves, Current, Precedes;
    HoldsProcessor(c, 0, job, Quanta(c.quantum, job));
  }

  lemma FirstIsLeast(c: Config)
    requires Loaded(c) && First(c).current.Some? && c.scheduler.SJF?
    ensures Precedes(First(c).current.value, First(c).ready)
  {
    var u := Intake(c, Start(c));
    StartBooks(c);
    IntakeKeeps(c, Start(c));
    IntakeLeaves(c, Start(c));
    CoreHeap(c, u);
    hide Intake, Core;
    HeapModel.ExtractCorrect(u.ready);
    hide HeapModel.IsHeap, HeapModel.Rest;
    forall job | job in First(c).ready ensures Leq(u.ready[0], job) {
      assert job in multiset(HeapModel.Rest(u.ready));
      assert job in multiset(u.ready);
    }
    LeastPrecedes(First(c).current.value, First(c).ready);
  }
}
