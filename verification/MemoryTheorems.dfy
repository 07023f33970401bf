/** What best fit and coalescing guarantee over any sequence of allocations and releases. */
module MemoryTheorems {
  import opened Jobs
  import opened Sequences
  import opened MemoryModel
  import opened MemoryLemmas

  lemma UsedIsOwned(segs: seq<Seg>, i: nat)
    requires i < |segs|
    ensures segs[i].Used? ==> segs[i].owner in Owners(segs)
  {
    assert segs[i] in segs;
  }

  lemma Neighbours(segs: seq<Seg>, i: nat)
    requires Coalesced(segs, |segs|)
    ensures i + 1 < |segs| ==> segs[i].Used? || segs[i + 1].Used?
  {}

  lemma OnlyOnce<T(!new)>(s: seq<T>, x: T)
    requires Distinct(s) && x in s && forall y :: y in s ==> y == x
    ensures s == [x]
  {
    assert forall i :: 0 <= i < |s| ==> s[i] in s;
    Differ(s, 0, 1);
  }

  lemma Differ<T(!new)>(s: seq<T>, i: nat, j: nat)
    requires Distinct(s)
    ensures i < j < |s| ==> s[i] != s[j]
  {}

  /** A valid memory without used blocks is the single hole it started as. */
  lemma AllFreeIsInitial(m: Mem)
    requires Valid(m) && Owners(m.segs) == {}
    ensures m == INITIAL
  {
    forall i | 0 <= i < |m.segs| ensures m.segs[i].Hole? {
      UsedIsOwned(m.segs, i);
    }
    Neighbours(m.segs, 0);
    assert m.segs == [Hole(0, CAPACITY)];
    assert m.segs[0] in m.holes;
    OnlyOnce(m.holes, Hole(0, CAPACITY));
  }

  /** Best fit takes a hole of the smallest adequate size. */
  lemma BestFitIsLeastAdequate(m: Mem, job: Job)
    requires Valid(m) && Allocate(m, job).Some?
    ensures exists h ::
      && h in m.holes && job.mem <= h.size && Placement(m, job).start == h.start
      && forall g :: g in m.holes && job.mem <= g.size ==> h.size <= g.size
  {
    AllocateSucceeds(m, job);
    hide Allocate, Tiled, Coalesced, Owned;
    var j := FirstAtLeast(m.holes, job.mem);
    var h := m.holes[j];
    assert h in m.holes;
    forall g | g in m.holes && job.mem <= g.size ensures h.size <= g.size {
      var i :| 0 <= i < |m.holes| && m.holes[i] == g;
    }
  }

  lemma {:induction false} FirstAtLeastUnique(holes: seq<Seg>, size: nat, j: nat)
    requires j < |holes| && holes[j].size >= size && forall i :: 0 <= i < j ==> holes[i].size < size
    ensures FirstAtLeast(holes, size) == j
  {
    assert FirstAtLeast(holes, size) <= j;
  }

  /** A hole that has just entered the index, and is one of the smallest adequate holes, is where best fit stops; the
      relative order of the older ones does not change. */
  lemma EnteredLastIsFound(holes: seq<Seg>, h: Seg, need: nat)
    requires BySize(holes) && need <= h.size
    requires forall g :: g in holes && need <= g.size ==> h.size <= g.size
    ensures FirstAtLeast(InsertSorted(holes, h), need) < |holes| + 1
    ensures InsertSorted(holes, h)[FirstAtLeast(InsertSorted(holes, h), need)] == h
    ensures RemoveAt(InsertSorted(holes, h), FirstAtLeast(InsertSorted(holes, h), need)) == holes
  {
    var j := FirstAtLeast(holes, h.size);
    var r := InsertSorted(holes, h);
    forall i | 0 <= i < j ensures r[i].size < need {
      assert holes[i] in holes;
    }
    FirstAtLeastUnique(r, need, j);
    assert RemoveAt(r, j) == holes;
  }

  // ---------- any sequence of operations ----------

  datatype Op = Take(job: Job) | Give(job: Job)

  function Apply(m: Mem, op: Op): Mem {
    match op
    case Take(job) => (match Allocate(m, job) case Some(r) => r case None => m)
    case Give(job) => Release(m, job)
  }

  function ApplyAll(m: Mem, ops: seq<Op>): Mem
    decreases |ops|
  {
    if ops == [] then m else ApplyAll(Apply(m, ops[0]), ops[1..])
  }

  /** A job asks for memory only while it has none, and gives back only what it has. */
  ghost predicate Proper(m: Mem, ops: seq<Op>)
    decreases |ops|
  {
    ops != [] ==>
      && (match ops[0]
          case Take(job) => job !in Owners(m.segs) && 0 < job.mem
          case Give(job) => job in Owners(m.segs))
      && Proper(Apply(m, ops[0]), ops[1..])
  }

  lemma InitialValid()
    ensures Valid(INITIAL) && Owners(INITIAL.segs) == {}
  {}

  lemma ApplyKeeps(m: Mem, op: Op, s: Seg)
    requires Valid(m) && Proper(m, [op])
    ensures Valid(Apply(m, op))
    ensures s in m.segs && s.Used? && op != Give(s.owner) ==> s in Apply(m, op).segs
  {
    match op
    case Take(job) => if Allocate(m, job).Some? { AllocateKeeps(m, job); }
    case Give(job) => ReleaseKeeps(m, job);
  }

  /** Tiling, indexing and coalescing hold after any proper sequence; a block neither moves nor changes size
      until its owner gives it back; and once nothing is owned the memory is exactly the initial one. */
  lemma {:induction false} AnySequence(m: Mem, ops: seq<Op>, s: Seg)
    requires Valid(m) && Proper(m, ops)
    ensures Valid(ApplyAll(m, ops))
    ensures s in m.segs && s.Used? && Give(s.owner) !in ops ==> s in ApplyAll(m, ops).segs
    ensures Owners(ApplyAll(m, ops).segs) == {} ==> ApplyAll(m, ops) == INITIAL
    decreases |ops|
  {
    if ops == [] {
      if Owners(m.segs) == {} { AllFreeIsInitial(m); }
    } else {
      ApplyKeeps(m, ops[0], s);
      AnySequence(Apply(m, ops[0]), ops[1..], s);
    }
  }

  // ---------- release undoes allocation ----------

  lemma {:induction false} BlockOfUnique(segs: seq<Seg>, k: nat)
    requires Owned(segs) && k < |segs| && segs[k].Used?
    ensures BlockOf(segs, segs[k].owner) == k
  {
    assert forall i :: 0 <= i < k && segs[i].Used? ==> segs[i].owner != segs[k].owner;
    assert BlockOf(segs, segs[k].owner) <= k;
  }

  /** Freeing a block between used neighbours, or the ends, just enters it into the index. */
  lemma FillUndone(m: Mem, r: Mem, k: nat, used: Seg)
    requires Coalesced(m.segs, |m.segs|) && k < |m.segs| && m.segs[k].Hole?
    requires used.start == m.segs[k].start && used.size == m.segs[k].size
    requires r.segs == m.segs[k := used]
    ensures ReleaseAt(r, k) == Mem(m.segs, InsertSorted(r.holes, m.segs[k]))
  {
    Neighbours(m.segs, k);
    if k > 0 { Neighbours(m.segs, k - 1); }
    assert Open(r, k).segs == m.segs;
  }

  /** Freeing the front part of a former hole takes its remainder out of the index and enters the whole again. */
  lemma CutUndone(m: Mem, r: Mem, k: nat, used: Seg, left: Seg)
    requires Coalesced(m.segs, |m.segs|) && k < |m.segs| && Shares(m.segs[k], used, left)
    requires Cut(m.segs, r.segs, k, used, left)
    ensures ReleaseAt(r, k) == Mem(m.segs, InsertSorted(Drop(r.holes, left), m.segs[k]))
  {
    Neighbours(m.segs, k);
    if k > 0 { Neighbours(m.segs, k - 1); }
    var o := Open(r, k);
    assert AbsorbNext(o, k).segs == m.segs;
    assert CoalesceRight(o, k) == CoalesceRight(AbsorbNext(o, k), k) == AbsorbNext(o, k);
  }

  lemma InsertThenDrop(holes: seq<Seg>, h: Seg)
    requires h !in holes
    ensures Drop(InsertSorted(holes, h), h) == holes
  {
    var k := FirstAtLeast(holes, h.size);
    var r := InsertSorted(holes, h);
    forall i | 0 <= i < k ensures r[i] != h { assert r[i] == holes[i]; }
    FirstFound(r, h, k);
    assert RemoveAt(r, k) == holes;
  }

  /** The hole that best fit takes goes back to the place it came from. */
  lemma BackInPlace(holes: seq<Seg>, need: nat)
    requires BySize(holes) && FirstAtLeast(holes, need) < |holes|
    ensures var j := FirstAtLeast(holes, need); InsertSorted(RemoveAt(holes, j), holes[j]) == holes
  {
    var j := FirstAtLeast(holes, need);
    var h, rest := holes[j], RemoveAt(holes, j);
    if j < |rest| {
      assert rest[j] == holes[j + 1];
      FirstAtLeastUnique(rest, h.size, j);
    } else {
      assert FirstAtLeast(rest, h.size) == j;
    }
    assert InsertAt(rest, j, h) == holes;
  }

  lemma SplitUndone(m: Mem, rest: seq<Seg>, k: nat, job: Job)
    requires Coalesced(m.segs, |m.segs|) && Tiled(m.segs) && k < |m.segs| && m.segs[k].Hole?
    requires 0 < job.mem <= m.segs[k].size && forall h :: h in rest ==> h in m.segs
    ensures ReleaseAt(Split(m.segs, rest, k, job), k) == Mem(m.segs, InsertSorted(rest, m.segs[k]))
  {
    var r := Split(m.segs, rest, k, job);
    var used := Used(m.segs[k].start, job.mem, job);
    if m.segs[k].size == job.mem {
      FillUndone(m, r, k, used);
    } else {
      var left := Hole(m.segs[k].start + job.mem, m.segs[k].size - job.mem);
      CutMembers(m.segs, r.segs, k, used, left);
      CutUndone(m, r, k, used, left);
      InsertThenDrop(rest, left);
    }
  }

  /** Giving a block back straight after taking it changes nothing, neither the blocks nor the order of the index. */
  lemma ReleaseUndoesAllocate(m: Mem, job: Job)
    requires Valid(m) && job !in Owners(m.segs) && 0 < job.mem && Allocate(m, job).Some?
    ensures Release(Allocate(m, job).value, job) == m
  {
    AllocateSucceeds(m, job);
    AllocateKeeps(m, job);
    var j := FirstAtLeast(m.holes, job.mem);
    assert m.holes[j] in m.holes;
    var k := Find(m.segs, m.holes[j]);
    RemoveAtMembers(m.holes, j);
    SplitUndone(m, RemoveAt(m.holes, j), k, job);
    BackInPlace(m.holes, job.mem);
    BlockOfUnique(Allocate(m, job).value.segs, k);
  }
}
