/** Which of several equally large holes best fit takes, over any history of allocations and releases. */
module MemoryHistory {
  import opened Jobs
  import opened Sequences
  import opened MemoryModel
  import opened MemoryLemmas
  import opened MemoryTheorems

  // ---------- histories ----------

  /** How many entries there have been up to and including the last one of `h`; 0 if there has been none. */
  function LastEntry(entered: seq<Seg>, h: Seg): (i: nat)
    ensures i <= |entered|
    ensures i > 0 ==> entered[i - 1] == h && h !in entered[i..]
    ensures i == 0 <==> h !in entered
  {
    if entered == [] then 0
    else
      var n := |entered| - 1;
      assert entered == entered[..n] + [entered[n]];
      if entered[n] == h then n + 1
      else
        var i := LastEntry(entered[..n], h);
        assert entered[i..] == entered[..n][i..] + [entered[n]];
        i
  }

  /** The holes that an operation enters into the index. */
  function Entries(m: Mem, op: Op): seq<Seg> {
    match op
    case Take(job) =>
      if Allocate(m, job).None? then []
      else
        var h := m.segs[Find(m.segs, m.holes[FirstAtLeast(m.holes, job.mem)])];
        if h.size == job.mem then [] else [Hole(h.start + job.mem, h.size - job.mem)]
    case Give(job) =>
      var k := BlockOf(m.segs, job);
      if k == |m.segs| then []
      else
        var (r, j) := CoalesceLeft(CoalesceRight(Open(m, k), k), k);
        [r.segs[j]]
  }

  /** All entries up to the end of a sequence of operations, in order, after those made before. */
  function History(m: Mem, ops: seq<Op>, entered: seq<Seg>): seq<Seg>
    decreases |ops|
  {
    if ops == [] then entered else History(Apply(m, ops[0]), ops[1..], entered + Entries(m, ops[0]))
  }

  /** Equally large holes stand in the index newest first. */
  ghost predicate NewestFirst(holes: seq<Seg>, entered: seq<Seg>) {
    && (forall h :: h in holes ==> h in entered)
    && (forall i, j :: 0 <= i < j < |holes| && holes[i].size == holes[j].size ==>
          LastEntry(entered, holes[j]) < LastEntry(entered, holes[i]))
  }

  // ---------- single changes of the index ----------

  lemma RemoveKeepsAge(holes: seq<Seg>, entered: seq<Seg>, k: nat)
    requires k < |holes| && NewestFirst(holes, entered)
    ensures NewestFirst(RemoveAt(holes, k), entered)
  {
    var r := RemoveAt(holes, k);
    forall i, j | 0 <= i < j < |r| && r[i].size == r[j].size
      ensures LastEntry(entered, r[j]) < LastEntry(entered, r[i])
    {
      var i', j' := if i < k then i else i + 1, if j < k then j else j + 1;
      assert r[i] == holes[i'] && r[j] == holes[j'];
    }
  }

  lemma DropKeepsAge(holes: seq<Seg>, entered: seq<Seg>, h: Seg)
    requires NewestFirst(holes, entered)
    ensures NewestFirst(Drop(holes, h), entered)
  {
    if Find(holes, h) < |holes| { RemoveKeepsAge(holes, entered, Find(holes, h)); }
  }

  lemma EntryAppended(entered: seq<Seg>, h: Seg, x: Seg)
    ensures LastEntry(entered + [h], x) == if x == h then |entered| + 1 else LastEntry(entered, x)
  {
    assert (entered + [h])[..|entered|] == entered;
  }

  lemma InsertKeepsAge(holes: seq<Seg>, entered: seq<Seg>, h: Seg)
    requires h !in holes && NewestFirst(holes, entered)
    ensures NewestFirst(InsertSorted(holes, h), entered + [h])
  {
    var k := FirstAtLeast(holes, h.size);
    var r := InsertSorted(holes, h);
    forall i, j | 0 <= i < j < |r| && r[i].size == r[j].size
      ensures LastEntry(entered + [h], r[j]) < LastEntry(entered + [h], r[i])
    {
      EntryAppended(entered, h, r[i]);
      EntryAppended(entered, h, r[j]);
      assert i < k ==> r[i] == holes[i];
      assert i > k ==> r[i] == holes[i - 1];
      assert j < k ==> r[j] == holes[j];
      assert j > k ==> r[j] == holes[j - 1];
    }
    InsertAtMembers(holes, k, h);
  }

  // ---------- releasing ----------

  lemma {:induction false} RightKeepsAge(m: Mem, k: nat, entered: seq<Seg>)
    requires k < |m.segs| && NewestFirst(m.holes, entered)
    ensures NewestFirst(CoalesceRight(m, k).holes, entered)
    decreases |m.segs|
  {
    if k + 1 < |m.segs| && m.segs[k + 1].Hole? {
      DropKeepsAge(m.holes, entered, m.segs[k + 1]);
      RightKeepsAge(AbsorbNext(m, k), k, entered);
    }
  }

  lemma {:induction false} LeftKeepsAge(m: Mem, k: nat, entered: seq<Seg>)
    requires k < |m.segs| && NewestFirst(m.holes, entered)
    ensures NewestFirst(CoalesceLeft(m, k).0.holes, entered)
    decreases |m.segs|
  {
    if k > 0 && m.segs[k - 1].Hole? {
      DropKeepsAge(m.holes, entered, m.segs[k - 1]);
      LeftKeepsAge(AbsorbPrev(m, k), k - 1, entered);
    }
  }

  lemma GiveKeepsAge(m: Mem, job: Job, entered: seq<Seg>)
    requires Valid(m) && job in Owners(m.segs) && NewestFirst(m.holes, entered)
    ensures NewestFirst(Release(m, job).holes, entered + Entries(m, Give(job)))
  {
    hide NewestFirst, CoalesceRight, CoalesceLeft, Owners;
    var k := BlockOf(m.segs, job);
    FindBlock(m.segs, job);
    OpenKeeps(m, k);
    CoalesceRightKeeps(Open(m, k), k);
    var w := CoalesceRight(Open(m, k), k);
    CoalesceLeftKeeps(w, k);
    var (r, j) := CoalesceLeft(w, k);
    RightKeepsAge(Open(m, k), k, entered);
    LeftKeepsAge(w, k, entered);
    InsertKeepsAge(r.holes, entered, r.segs[j]);
  }

  // ---------- allocating ----------

  lemma RemainderIsNew(segs: seq<Seg>, k: nat, need: nat)
    requires Tiled(segs) && k < |segs| && 0 < need < segs[k].size
    ensures Hole(segs[k].start + need, segs[k].size - need) !in segs
  {
    var left := Hole(segs[k].start + need, segs[k].size - need);
    forall i | 0 <= i < |segs| ensures segs[i] != left {
      if i < k { EarlierEndsFirst(segs, i, k); }
      if k < i { EarlierEndsFirst(segs, k, i); }
    }
  }

  /** The index after an allocation: the hole taken is out, and what is left of it, which is new, is in. */
  lemma TakeEntries(m: Mem, job: Job)
    requires Allocate(m, job).Some?
    ensures FirstAtLeast(m.holes, job.mem) < |m.holes|
    ensures var rest, e := RemoveAt(m.holes, FirstAtLeast(m.holes, job.mem)), Entries(m, Take(job));
      Allocate(m, job).value.holes == if e == [] then rest else InsertSorted(rest, e[0])
    ensures |Entries(m, Take(job))| <= 1
  {
    hide FirstAtLeast, Find, InsertSorted;
  }

  lemma EntryIsRemainder(m: Mem, job: Job)
    requires Allocate(m, job).Some?
    ensures FirstAtLeast(m.holes, job.mem) < |m.holes|
    ensures var k, e := Find(m.segs, m.holes[FirstAtLeast(m.holes, job.mem)]), Entries(m, Take(job));
      k < |m.segs| && m.segs[k] == m.holes[FirstAtLeast(m.holes, job.mem)] &&
      (e != [] ==> m.segs[k].size != job.mem && e == [Hole(m.segs[k].start + job.mem, m.segs[k].size - job.mem)])
  {}

  lemma IndexedInside(m: Mem, h: Seg)
    requires Valid(m)
    ensures h in m.holes ==> h in m.segs
    ensures Tiled(m.segs)
  {}

  lemma EntryIsNew(m: Mem, job: Job, h: Seg)
    requires Valid(m) && 0 < job.mem && Allocate(m, job).Some?
    ensures h in Entries(m, Take(job)) ==> h !in m.holes
  {
    hide Valid, Allocate, Entries, Tiled;
    EntryIsRemainder(m, job);
    IndexedInside(m, h);
    var k := Find(m.segs, m.holes[FirstAtLeast(m.holes, job.mem)]);
    if job.mem < m.segs[k].size { RemainderIsNew(m.segs, k, job.mem); }
  }

  lemma TakeKeepsAge(m: Mem, job: Job, entered: seq<Seg>)
    requires Valid(m) && 0 < job.mem && Allocate(m, job).Some? && NewestFirst(m.holes, entered)
    ensures NewestFirst(Allocate(m, job).value.holes, entered + Entries(m, Take(job)))
  {
    hide NewestFirst, Allocate, Entries, Valid, InsertSorted;
    TakeEntries(m, job);
    var j, e := FirstAtLeast(m.holes, job.mem), Entries(m, Take(job));
    RemoveKeepsAge(m.holes, entered, j);
    if e == [] {
      assert entered + e == entered;
    } else {
      EntryIsNew(m, job, e[0]);
      RemoveInside(m.holes, j);
      InsertKeepsAge(RemoveAt(m.holes, j), entered, e[0]);
      assert e == [e[0]];
    }
  }

  lemma RemoveInside(holes: seq<Seg>, k: nat)
    requires k < |holes|
    ensures forall h :: h in RemoveAt(holes, k) ==> h in holes
  {}

  // ---------- any history ----------

  lemma ApplyKeepsAge(m: Mem, op: Op, entered: seq<Seg>)
    requires Valid(m) && Proper(m, [op]) && NewestFirst(m.holes, entered)
    ensures NewestFirst(Apply(m, op).holes, entered + Entries(m, op))
  {
    hide NewestFirst;
    match op
    case Take(job) =>
      if Allocate(m, job).Some? { TakeKeepsAge(m, job, entered); } else { assert entered + [] == entered; }
    case Give(job) => GiveKeepsAge(m, job, entered);
  }

  /** After any proper sequence of allocations and releases equally large holes stand newest first. */
  lemma {:induction false} HistoryKeepsAge(m: Mem, ops: seq<Op>, entered: seq<Seg>)
    requires Valid(m) && Proper(m, ops) && NewestFirst(m.holes, entered)
    ensures NewestFirst(ApplyAll(m, ops).holes, History(m, ops, entered))
    decreases |ops|
  {
    hide NewestFirst, Valid, Entries, Apply;
    if ops != [] {
      ProperFirst(m, ops);
      ApplyKeeps(m, ops[0], Hole(0, 0));
      ApplyKeepsAge(m, ops[0], entered);
      HistoryKeepsAge(Apply(m, ops[0]), ops[1..], entered + Entries(m, ops[0]));
    }
  }

  lemma ProperFirst(m: Mem, ops: seq<Op>)
    requires ops != [] && Proper(m, ops)
    ensures Proper(m, [ops[0]]) && Proper(Apply(m, ops[0]), ops[1..])
  {
    assert [ops[0]][1..] == [];
  }

  lemma NewestTaken(m: Mem, past: seq<Seg>, job: Job, g: Seg)
    requires NewestFirst(m.holes, past) && BySize(m.holes) && FirstAtLeast(m.holes, job.mem) < |m.holes|
    requires g in m.holes && g != m.holes[FirstAtLeast(m.holes, job.mem)] && job.mem <= g.size
    ensures var h := m.holes[FirstAtLeast(m.holes, job.mem)];
      h.size < g.size || (h.size == g.size && LastEntry(past, g) < LastEntry(past, h))
  {
    var j := FirstAtLeast(m.holes, job.mem);
    var i :| 0 <= i < |m.holes| && m.holes[i] == g;
    assert j < i;
  }

  /** After any history of allocations and releases that starts from the empty memory, the hole that an allocation takes
      is one of the smallest adequate ones, and of these the one that entered the index last. */
  lemma NewestOfEqualsWins(ops: seq<Op>, job: Job)
    requires Proper(INITIAL, ops) && Allocate(ApplyAll(INITIAL, ops), job).Some?
    ensures var m, past := ApplyAll(INITIAL, ops), History(INITIAL, ops, INITIAL.holes);
      exists h ::
        && h in m.holes && job.mem <= h.size && Placement(m, job).start == h.start
        && forall g :: g in m.holes && g != h && job.mem <= g.size ==>
             h.size < g.size || (h.size == g.size && LastEntry(past, g) < LastEntry(past, h))
  {
    InitialValid();
    AnySequence(INITIAL, ops, Hole(0, 0));
    HistoryKeepsAge(INITIAL, ops, INITIAL.holes);
    NewestOfAll(ApplyAll(INITIAL, ops), History(INITIAL, ops, INITIAL.holes), job);
  }

  lemma NewestOfAll(m: Mem, past: seq<Seg>, job: Job)
    requires Valid(m) && NewestFirst(m.holes, past) && Allocate(m, job).Some?
    ensures FirstAtLeast(m.holes, job.mem) < |m.holes|
    ensures exists h ::
      && h in m.holes && job.mem <= h.size && Placement(m, job).start == h.start
      && forall g :: g in m.holes && g != h && job.mem <= g.size ==>
           h.size < g.size || (h.size == g.size && LastEntry(past, g) < LastEntry(past, h))
  {
    hide NewestFirst, Allocate, LastEntry;
    AllocateSucceeds(m, job);
    var h := m.holes[FirstAtLeast(m.holes, job.mem)];
    assert h in m.holes;
    forall g | g in m.holes && g != h && job.mem <= g.size
      ensures h.size < g.size || (h.size == g.size && LastEntry(past, g) < LastEntry(past, h))
    {
      NewestTaken(m, past, job, g);
    }
  }
}
