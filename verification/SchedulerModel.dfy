/** One scheduling cycle as a function on states, and runs as its iteration. */
module SchedulerModel {
  import opened Jobs
  import opened MemoryModel
  import HeapModel

  datatype Scheduler = SJF | RR
  datatype Strategy = Infinite | BestFit
  datatype Config = Config(jobs: seq<Job>, quantum: nat, scheduler: Scheduler, strategy: Strategy)

  /** Simulation times and turnarounds are 32-bit unsigned: they wrap here. */
  const WORD: nat := 0x1_0000_0000

  /** What is reported and recorded when a process finishes. */
  datatype Completion = Completion(job: Job, time: nat, remaining: nat, turnaround: nat)

  /** `pending` has not arrived, `input` waits for memory, `ready` waits for the processor: the heap array
      under SJF, the queue under RR.  `history` is the trace of who occupied each elapsed quantum. */
  datatype State = State(time: nat, pending: seq<Job>, input: seq<Job>, ready: seq<Job>, current: Option<Job>,
                         noneRunning: bool, finished: seq<Completion>, left: map<Job, nat>, mem: Mem,
                         history: seq<Option<Job>>)

  /** `Crashed` is the continuation of a process that does not exist. */
  datatype Outcome = Running(state: State) | Finished(state: State) | Crashed

  // ---------- the queues ----------

  function AddReady(sched: Scheduler, ready: seq<Job>, job: Job): seq<Job> {
    if sched.SJF? then HeapModel.Insert(ready, job) else ready + [job]
  }

  function AddAll(sched: Scheduler, ready: seq<Job>, jobs: seq<Job>): seq<Job>
    decreases |jobs|
  {
    if jobs == [] then ready else AddAll(sched, AddReady(sched, ready, jobs[0]), jobs[1..])
  }

  function WithoutNext(sched: Scheduler, ready: seq<Job>): seq<Job>
    requires ready != []
  {
    if sched.SJF? then HeapModel.Rest(ready) else ready[1..]
  }

  /** How many processes at the head of the unarrived list have arrived by `time`. */
  function Arrivals(pending: seq<Job>, time: nat): (k: nat)
    ensures k <= |pending|
    ensures forall i :: 0 <= i < k ==> pending[i].arrival <= time
    ensures k < |pending| ==> pending[k].arrival > time
  {
    if pending == [] || pending[0].arrival > time then 0 else 1 + Arrivals(pending[1..], time)
  }

  function TryAllocate(strategy: Strategy, mem: Mem, job: Job): Option<Mem> {
    if strategy.Infinite? then Some(mem) else Allocate(mem, job)
  }

  /** Who stays in the input queue, who becomes ready, and the memory afterwards. */
  datatype Admission = Admission(kept: seq<Job>, admitted: seq<Job>, mem: Mem)

  /** One pass over the input queue. */
  function Admit(strategy: Strategy, input: seq<Job>, mem: Mem): Admission
    decreases |input|
  {
    if input == [] then Admission([], [], mem)
    else match TryAllocate(strategy, mem, input[0])
      case Some(m) =>
        var a := Admit(strategy, input[1..], m);
        a.(admitted := [input[0]] + a.admitted)
      case None =>
        var a := Admit(strategy, input[1..], mem);
        a.(kept := [input[0]] + a.kept)
  }

  // ---------- the phases of a cycle ----------

  function Left(s: State, job: Job): nat {
    if job in s.left then s.left[job] else 0
  }

  predicate Expires(c: Config, s: State) {
    s.current.Some? && Left(s, s.current.value) <= c.quantum
  }

  /** Charge the quantum that has just elapsed to whoever ran in it. */
  function Charge(c: Config, s: State): State {
    s.(history := s.history + [s.current],
       left := if s.current.None? then s.left
               else s.left[s.current.value := if Expires(c, s) then 0 else Left(s, s.current.value) - c.quantum])
  }

  /** Retire the current process.  RR leaves its pointer behind, but no branch reads it again. */
  function Retire(c: Config, s: State): State
    requires s.current.Some?
  {
    var job := s.current.value;
    s.(finished := s.finished +
         [Completion(job, s.time, |s.input| + |s.ready|, (s.time - job.arrival) % WORD)],
       mem := if c.strategy.BestFit? then Release(s.mem, job) else s.mem,
       current := None, noneRunning := true)
  }

  /** Take in arrivals and hand out memory. */
  function Intake(c: Config, s: State): State {
    var k := Arrivals(s.pending, s.time);
    var a := Admit(c.strategy, s.input + s.pending[..k], s.mem);
    s.(pending := s.pending[k..], input := a.kept, mem := a.mem, ready := AddAll(c.scheduler, s.ready, a.admitted))
  }

  function Dispatch(c: Config, s: State): State
    requires s.ready != []
  {
    s.(current := Some(s.ready[0]), ready := WithoutNext(c.scheduler, s.ready), noneRunning := false)
  }

  function Schedule(c: Config, s: State): Outcome {
    if s.noneRunning then
      Running(if s.ready == [] then s.(current := None) else Dispatch(c, s))
    else if s.current.None? then Crashed
    else if c.scheduler.SJF? || s.ready == [] then Running(s)
    else Running(Dispatch(c, s.(ready := s.ready + [s.current.value])))
  }

  function Tick(c: Config, o: Outcome): Outcome {
    if o.Running? then Running(o.state.(time := (o.state.time + c.quantum) % WORD)) else o
  }

  /** The state once the elapsed quantum is settled and an expired process has been retired. */
  function Settle(c: Config, s: State): State {
    if Expires(c, s) then Retire(c, Charge(c, s)) else Charge(c, s)
  }

  /** Every cycle but the first. */
  function Step(c: Config, s: State): Outcome {
    var t := Settle(c, s);
    if Expires(c, s) && |t.finished| == |c.jobs| then Finished(t)
    else Tick(c, Schedule(c, Intake(c, t)))
  }

  // ---------- runs ----------

  function Start(c: Config): State {
    State(0, c.jobs, [], [], None, false, [], map j | j in c.jobs :: j.service, INITIAL, [])
  }

  /** The first cycle dispatches without looking at `noneRunning`, which it clears. */
  function First(c: Config): State {
    var s := Intake(c, Start(c));
    var d := if s.ready == [] then s else Dispatch(c, s);
    d.(time := c.quantum % WORD)
  }

  /** The outcome after the first cycle and `n` more. */
  function Run(c: Config, n: nat): Outcome {
    if n == 0 then Running(First(c))
    else
      var o := Run(c, n - 1);
      if o.Running? then Step(c, o.state) else o
  }
}
