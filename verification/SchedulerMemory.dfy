/** The memory of a run as a sequence of allocations and releases, so that what holds of any such sequence holds of
    every request the scheduler makes. */
module SchedulerMemory {
  import opened Jobs
  import opened MemoryModel
  import opened MemoryLemmas
  import opened MemoryTheorems
  import opened MemoryHistory
  import opened SchedulerModel
  import opened AdmissionLemmas
  import opened SchedulerInvariants
  import opened SchedulerAccounting
  import HeapModel

  // ---------- sequences of operations ----------

  lemma {:induction false} ApplyAppend(m: Mem, a: seq<Op>, b: seq<Op>)
    ensures ApplyAll(m, a + b) == ApplyAll(ApplyAll(m, a), b)
    ensures Proper(m, a) && Proper(ApplyAll(m, a), b) ==> Proper(m, a + b)
    ensures Proper(m, a + b) ==> Proper(m, a)
    decreases |a|
  {
    hide Apply, Owners;
    if a == [] {
      assert a + b == b;
    } else {
      assert (a + b)[1..] == a[1..] + b;
      ApplyAppend(Apply(m, a[0]), a[1..], b);
    }
  }

  /** One request for each job, in order. */
  function Takes(jobs: seq<Job>): (ops: seq<Op>)
    ensures |ops| == |jobs|
    ensures jobs != [] ==> ops == [Take(jobs[0])] + Takes(jobs[1..])
  {
    if jobs == [] then [] else [Take(jobs[0])] + Takes(jobs[1..])
  }

  /** The allocation pass makes one request for each job of the input queue. */
  lemma {:induction false} PassIsTakes(input: seq<Job>, mem: Mem)
    requires Valid(mem) && Askers(input, mem)
    ensures Proper(mem, Takes(input)) && ApplyAll(mem, Takes(input)) == Admit(BestFit, input, mem).mem
    decreases |input|
  {
    hide Valid, Owners, Allocate, Askers;
    if input != [] {
      ServeFirst(input, mem);
      assert Takes(input)[1..] == Takes(input[1..]);
      PassIsTakes(input[1..], Apply(mem, Take(input[0])));
    }
  }

  // ---------- the operations of a run ----------

  /** Who asks for memory in the intake on a settled state. */
  function Requests(t: State): seq<Job> {
    t.input + t.pending[..Arrivals(t.pending, t.time)]
  }

  function Gives(c: Config, s: State): seq<Op> {
    if Expires(c, s) then [Give(s.current.value)] else []
  }

  /** What a cycle does to memory: an expired process gives its block back, and unless it was the last, everybody in the
      input queue asks. */
  function StepOps(c: Config, s: State): seq<Op> {
    Gives(c, s) + if Step(c, s).Finished? then [] else Takes(Requests(Settle(c, s)))
  }

  /** What the first cycle and `n` more do to memory. */
  function RunOps(c: Config, n: nat): seq<Op> {
    if n == 0 then Takes(Requests(Start(c)))
    else if Run(c, n - 1).Running? then RunOps(c, n - 1) + StepOps(c, Run(c, n - 1).state)
    else RunOps(c, n - 1)
  }

  lemma IntakeIsTakes(c: Config, t: State)
    requires Loaded(c) && Core(c, t) && c.strategy.BestFit?
    ensures Proper(t.mem, Takes(Requests(t))) && ApplyAll(t.mem, Takes(Requests(t))) == Intake(c, t).mem
  {
    hide Valid, Owners, Askers, Admit, AddAll;
    AskersReady(c, t, Arrivals(t.pending, t.time));
    PassIsTakes(Requests(t), t.mem);
  }

  lemma SettleIsGive(c: Config, s: State)
    requires Loaded(c) && Core(c, s) && c.strategy.BestFit?
    ensures Proper(s.mem, Gives(c, s)) && ApplyAll(s.mem, Gives(c, s)) == Settle(c, s).mem
  {
    hide Release, Valid;
    if Expires(c, s) {
      assert s.current.value in Holders(s);
      assert [Give(s.current.value)][1..] == [];
    }
  }

  lemma StepIsOps(c: Config, s: State)
    requires Loaded(c) && Core(c, s) && c.strategy.BestFit? && !Step(c, s).Crashed?
    ensures Proper(s.mem, StepOps(c, s)) && ApplyAll(s.mem, StepOps(c, s)) == Step(c, s).state.mem
  {
    hide Core, Settle, Intake, Takes, Requests, Expires, Gives, Proper, Loaded;
    var t := Settle(c, s);
    SettleIsGive(c, s);
    SettleKeeps(c, s);
    if Step(c, s).Finished? {
      assert StepOps(c, s) == Gives(c, s);
    } else {
      IntakeIsTakes(c, t);
      ApplyAppend(s.mem, Gives(c, s), Takes(Requests(t)));
      ScheduleLeaves(c, Intake(c, t));
    }
  }

  ghost predicate OpsAt(c: Config, n: nat) {
    !Run(c, n).Crashed? ==> Proper(INITIAL, RunOps(c, n)) && ApplyAll(INITIAL, RunOps(c, n)) == Run(c, n).state.mem
  }

  lemma FirstOps(c: Config)
    requires Loaded(c) && c.strategy.BestFit?
    ensures OpsAt(c, 0)
  {
    StartBooks(c);
    IntakeIsTakes(c, Start(c));
    hide Intake, Core, HeapModel.Rest, Proper, ApplyAll;
  }

  lemma NextOps(c: Config, n: nat)
    requires Loaded(c) && c.strategy.BestFit? && OpsAt(c, n)
    ensures OpsAt(c, n + 1)
  {
    hide Core, Loaded, Step, StepOps, Proper, First, Takes;
    RunKeepsCore(c, n);
    if Run(c, n).Running? && !Run(c, n + 1).Crashed? {
      StepIsOps(c, Run(c, n).state);
      ApplyAppend(INITIAL, RunOps(c, n), StepOps(c, Run(c, n).state));
    }
  }

  /** The memory of every state of a best-fit run comes from the empty memory by a proper sequence of requests and
      releases, namely those that the cycles make. */
  lemma {:induction false} RunIsOps(c: Config, n: nat)
    requires Loaded(c) && c.strategy.BestFit?
    ensures OpsAt(c, n)
  {
    hide OpsAt, Loaded;
    if n == 0 {
      FirstOps(c);
    } else {
      RunIsOps(c, n - 1);
      NextOps(c, n - 1);
    }
  }

  /** Whenever the scheduler's request number `i` succeeds, in any run, the hole taken is one of the smallest adequate
      ones at that moment, and of these the one that entered the index last. */
  lemma SchedulerTakesNewest(c: Config, n: nat, i: nat, job: Job)
    requires Loaded(c) && c.strategy.BestFit? && !Run(c, n).Crashed?
    requires i < |RunOps(c, n)| && RunOps(c, n)[i] == Take(job)
    requires Allocate(ApplyAll(INITIAL, RunOps(c, n)[..i]), job).Some?
    ensures var before := RunOps(c, n)[..i];
      var m, past := ApplyAll(INITIAL, before), History(INITIAL, before, INITIAL.holes);
      exists h ::
        && h in m.holes && job.mem <= h.size && Placement(m, job).start == h.start
        && forall g :: g in m.holes && g != h && job.mem <= g.size ==>
             h.size < g.size || (h.size == g.size && LastEntry(past, g) < LastEntry(past, h))
  {
    hide Proper, ApplyAll, Loaded, Run, RunOps, Allocate, History;
    RunIsOps(c, n);
    var ops := RunOps(c, n);
    assert ops == ops[..i] + ops[i..];
    ApplyAppend(INITIAL, ops[..i], ops[i..]);
    NewestOfEqualsWins(ops[..i], job);
  }

  // ---------- who is served first ----------

  lemma InterleavesMembers(s: seq<Job>, a: seq<Job>, b: seq<Job>)
    requires Interleaves(s, a, b)
    ensures forall x :: x in b ==> x in s
  {
    InterleavesContents(s, a, b);
    forall x | x in b ensures x in s {
      assert x in multiset(b) && x in multiset(s);
    }
  }

  /** A pass serves the waiting processes one after the other: each is admitted if and only if best fit finds room for
      it in the memory that those ahead of it leave. */
  lemma {:induction false} ServedInTurn(input: seq<Job>, mem: Mem, i: nat)
    requires Valid(mem) && Askers(input, mem) && i < |input|
    ensures input[i] in Admit(BestFit, input, mem).admitted <==>
      Allocate(ApplyAll(mem, Takes(input[..i])), input[i]).Some?
    decreases |input|
  {
    hide Valid, Owners, Allocate;
    var rest, m := input[1..], Apply(mem, Take(input[0]));
    ServeFirst(input, mem);
    if i == 0 {
      var a := Admit(BestFit, rest, m);
      AdmitInterleaves(BestFit, rest, m);
      InterleavesMembers(rest, a.kept, a.admitted);
    } else {
      assert input[..i][1..] == rest[..i - 1];
      ServedInTurn(rest, m, i - 1);
      assert input[i] == rest[i - 1];
    }
  }

  /** `a` is what is left of `s` after leaving some elements out. */
  ghost predicate Within(a: seq<Job>, s: seq<Job>)
    decreases |s|
  {
    a == [] || (s != [] && ((a[0] == s[0] && Within(a[1..], s[1..])) || Within(a, s[1..])))
  }

  lemma {:induction false} WithinSelf(s: seq<Job>)
    ensures Within(s, s)
  {
    if s != [] { WithinSelf(s[1..]); }
  }

  lemma {:induction false} InterleavesWithin(s: seq<Job>, a: seq<Job>, b: seq<Job>)
    requires Interleaves(s, a, b)
    ensures Within(a, s)
    decreases |s|
  {
    if s != [] {
      if a != [] && a[0] == s[0] && Interleaves(s[1..], a[1..], b) {
        InterleavesWithin(s[1..], a[1..], b);
      } else {
        InterleavesWithin(s[1..], a, b[1..]);
      }
    }
  }

  lemma {:induction false} WithinAppend(a: seq<Job>, s: seq<Job>, x: seq<Job>)
    requires Within(a, s)
    ensures Within(a + x, s + x)
    decreases |s|
  {
    if s == [] {
      assert a + x == x && s + x == x;
      WithinSelf(x);
    } else {
      assert (s + x)[1..] == s[1..] + x;
      if a != [] && a[0] == s[0] && Within(a[1..], s[1..]) {
        assert (a + x)[1..] == a[1..] + x;
        WithinAppend(a[1..], s[1..], x);
      } else {
        WithinAppend(a, s[1..], x);
      }
    }
  }

  lemma {:induction false} WithinTransitive(a: seq<Job>, b: seq<Job>, s: seq<Job>)
    requires Within(a, b) && Within(b, s)
    ensures Within(a, s)
    decreases |s|
  {
    if a != [] {
      if b[0] == s[0] && Within(b[1..], s[1..]) {
        if a[0] == b[0] && Within(a[1..], b[1..]) {
          WithinTransitive(a[1..], b[1..], s[1..]);
        } else {
          WithinTransitive(a, b[1..], s[1..]);
        }
      } else {
        WithinTransitive(a, b, s[1..]);
      }
    }
  }

  lemma IntakeWithin(c: Config, t: State)
    ensures Within(Intake(c, t).input + Intake(c, t).pending, t.input + t.pending)
  {
    hide Admit, AddAll, Within, Interleaves, Arrivals;
    var k := Arrivals(t.pending, t.time);
    var xs := t.input + t.pending[..k];
    var a := Admit(c.strategy, xs, t.mem);
    AdmitInterleaves(c.strategy, xs, t.mem);
    InterleavesWithin(xs, a.kept, a.admitted);
    WithinAppend(a.kept, xs, t.pending[k..]);
    assert xs + t.pending[k..] == t.input + t.pending;
  }

  lemma StepWithin(c: Config, s: State)
    requires !Step(c, s).Crashed?
    ensures Within(Step(c, s).state.input + Step(c, s).state.pending, s.input + s.pending)
  {
    hide Intake, Within, Release, HeapModel.Rest;
    var t := Settle(c, s);
    IntakeWithin(c, t);
    WithinSelf(s.input + s.pending);
  }

  /** Whoever waits for memory or has not arrived stands in the order of the list, at every point of every run: new
      arrivals queue behind those who wait already, and nobody is overtaken while waiting. */
  lemma {:induction false} WaitersInOrder(c: Config, n: nat)
    requires !Run(c, n).Crashed?
    ensures Within(Run(c, n).state.input + Run(c, n).state.pending, c.jobs)
  {
    hide Step, Within, Admit, AddAll, HeapModel.Rest;
    if n == 0 {
      IntakeWithin(c, Start(c));
      assert [] + c.jobs == c.jobs;
    } else {
      WaitersInOrder(c, n - 1);
      if Run(c, n - 1).Running? {
        var s, t := Run(c, n - 1).state, Run(c, n).state;
        StepWithin(c, s);
        WithinTransitive(t.input + t.pending, s.input + s.pending, c.jobs);
      }
    }
  }
}
