/** Main memory as values: the blocks in address order, and the index of holes in the order the allocator
    searches it. */
module MemoryModel {
  import opened Jobs
  import opened Sequences

  const CAPACITY: nat := 2048

  /** A block is free or belongs to a job. */
  datatype Seg = Hole(start: nat, size: nat) | Used(start: nat, size: nat, owner: Job)

  datatype Mem = Mem(segs: seq<Seg>, holes: seq<Seg>)

  const INITIAL: Mem := Mem([Hole(0, CAPACITY)], [Hole(0, CAPACITY)])

  // ---------- the operations ----------

  /** The first hole of at least the given size: where best fit stops, and where a hole of that size goes in. */
  function FirstAtLeast(holes: seq<Seg>, size: nat): (j: nat)
    ensures j <= |holes|
    ensures forall i :: 0 <= i < j ==> holes[i].size < size
    ensures j < |holes| ==> holes[j].size >= size
  {
    if holes == [] || holes[0].size >= size then 0 else 1 + FirstAtLeast(holes[1..], size)
  }

  function InsertSorted(holes: seq<Seg>, h: Seg): (r: seq<Seg>)
    ensures |r| == |holes| + 1
  {
    InsertAt(holes, FirstAtLeast(holes, h.size), h)
  }

  /** `r` is `segs` with block `k` replaced by the two blocks `x` and `y`. */
  ghost predicate Cut(segs: seq<Seg>, r: seq<Seg>, k: nat, x: Seg, y: Seg) {
    && k < |segs|
    && |r| == |segs| + 1
    && (forall i :: 0 <= i < k ==> r[i] == segs[i])
    && r[k] == x && r[k + 1] == y
    && (forall i :: k + 1 < i < |r| ==> r[i] == segs[i - 1])
  }

  function Carve(segs: seq<Seg>, k: nat, x: Seg, y: Seg): (r: seq<Seg>)
    requires k < |segs|
    ensures Cut(segs, r, k, x, y)
  {
    segs[..k] + [x, y] + segs[k + 1..]
  }

  /** Cut the job's block off the front of the hole at `segs[k]`, which has left the index already. */
  function Split(segs: seq<Seg>, holes: seq<Seg>, k: nat, job: Job): Mem
    requires k < |segs| && segs[k].Hole? && job.mem <= segs[k].size
  {
    var h := segs[k];
    var used := Used(h.start, job.mem, job);
    if h.size == job.mem then Mem(segs[k := used], holes)
    else
      var left := Hole(h.start + job.mem, h.size - job.mem);
      Mem(Carve(segs, k, used, left), InsertSorted(holes, left))
  }

  function Allocate(m: Mem, job: Job): Option<Mem>
  {
    var j := FirstAtLeast(m.holes, job.mem);
    if j == |m.holes| then None
    else
      var k := Find(m.segs, m.holes[j]);
      if k < |m.segs| && m.segs[k].Hole? then Some(Split(m.segs, RemoveAt(m.holes, j), k, job)) else None
  }

  /** Take `h` out of the index. */
  function Drop(holes: seq<Seg>, h: Seg): seq<Seg> {
    var i := Find(holes, h);
    if i < |holes| then RemoveAt(holes, i) else holes
  }

  /** `r` is `segs` with blocks `p` and `p + 1` replaced by one free block spanning both. */
  ghost predicate Merged(segs: seq<Seg>, r: seq<Seg>, p: nat) {
    && p + 1 < |segs|
    && |r| == |segs| - 1
    && (forall i :: 0 <= i < p ==> r[i] == segs[i])
    && (forall i :: p < i < |r| ==> r[i] == segs[i + 1])
    && r[p] == Hole(segs[p].start, segs[p].size + segs[p + 1].size)
  }

  function Merge(segs: seq<Seg>, p: nat): (r: seq<Seg>)
    requires p + 1 < |segs|
    ensures Merged(segs, r, p)
  {
    segs[..p] + [Hole(segs[p].start, segs[p].size + segs[p + 1].size)] + segs[p + 2..]
  }

  /** Fold the hole after position `k` into the free block at `k`. */
  function AbsorbNext(m: Mem, k: nat): (r: Mem)
    requires k + 1 < |m.segs|
    ensures |r.segs| == |m.segs| - 1
  {
    Mem(Merge(m.segs, k), Drop(m.holes, m.segs[k + 1]))
  }

  /** Fold the hole before position `k` into the free block at `k`, which moves to `k - 1`. */
  function AbsorbPrev(m: Mem, k: nat): (r: Mem)
    requires 0 < k < |m.segs|
    ensures |r.segs| == |m.segs| - 1
  {
    Mem(Merge(m.segs, k - 1), Drop(m.holes, m.segs[k - 1]))
  }

  function CoalesceRight(m: Mem, k: nat): (r: Mem)
    requires k < |m.segs|
    ensures k < |r.segs|
    decreases |m.segs|
  {
    if k + 1 < |m.segs| && m.segs[k + 1].Hole? then CoalesceRight(AbsorbNext(m, k), k) else m
  }

  /** The merged memory and where the merged block ended up. */
  function CoalesceLeft(m: Mem, k: nat): (r: (Mem, nat))
    requires k < |m.segs|
    ensures r.1 < |r.0.segs|
    decreases |m.segs|
  {
    if k > 0 && m.segs[k - 1].Hole? then CoalesceLeft(AbsorbPrev(m, k), k - 1) else (m, k)
  }

  /** The position of the job's block, or the length when it has none. */
  function BlockOf(segs: seq<Seg>, job: Job): (k: nat)
    ensures k <= |segs|
    ensures k < |segs| ==> segs[k].Used? && segs[k].owner == job
    ensures forall i :: 0 <= i < k ==> !(segs[i].Used? && segs[i].owner == job)
  {
    if segs == [] || (segs[0].Used? && segs[0].owner == job) then 0 else 1 + BlockOf(segs[1..], job)
  }

  /** Mark block `k` free, without entering it in the index. */
  function Open(m: Mem, k: nat): Mem
    requires k < |m.segs|
  {
    m.(segs := m.segs[k := Hole(m.segs[k].start, m.segs[k].size)])
  }

  function Close(m: Mem, k: nat): Mem
    requires k < |m.segs|
  {
    m.(holes := InsertSorted(m.holes, m.segs[k]))
  }

  function ReleaseAt(m: Mem, k: nat): Mem
    requires k < |m.segs|
  {
    var (r, j) := CoalesceLeft(CoalesceRight(Open(m, k), k), k);
    Close(r, j)
  }

  function Release(m: Mem, job: Job): Mem
  {
    var k := BlockOf(m.segs, job);
    if k == |m.segs| then m else ReleaseAt(m, k)
  }

  // ---------- what every state satisfies ----------

  function End(s: Seg): nat { s.start + s.size }

  /** The blocks lie end to end, none empty, and cover exactly the whole memory. */
  ghost predicate Tiled(segs: seq<Seg>) {
    && segs != []
    && segs[0].start == 0
    && End(segs[|segs| - 1]) == CAPACITY
    && (forall i :: 0 <= i < |segs| ==> segs[i].size > 0)
    && (forall i, j :: 0 <= i < j < |segs| && j == i + 1 ==> End(segs[i]) == segs[j].start)
  }

  ghost predicate BySize(holes: seq<Seg>) {
    forall i, j :: 0 <= i < j < |holes| ==> holes[i].size <= holes[j].size
  }

  /** The index lists each free block once, smallest first, except the block at `open` (none when `open` is
      the number of blocks). */
  ghost predicate Indexed(m: Mem, open: nat) {
    && BySize(m.holes)
    && Distinct(m.holes)
    && (forall h :: h in m.holes ==> h.Hole? && h in m.segs)
    && (forall i :: 0 <= i < |m.segs| && m.segs[i].Hole? ==> (m.segs[i] in m.holes <==> i != open))
  }

  /** No two neighbouring blocks are both free, except pairs that involve `open`. */
  ghost predicate Coalesced(segs: seq<Seg>, open: nat) {
    forall i, j :: 0 <= i < j < |segs| && j == i + 1 && i != open && j != open ==> segs[i].Used? || segs[j].Used?
  }

  /** Every used block has the size its owner asked for, and no owner has two. */
  ghost predicate Owned(segs: seq<Seg>) {
    && (forall i :: 0 <= i < |segs| && segs[i].Used? ==> segs[i].size == segs[i].owner.mem)
    && (forall i, j :: 0 <= i < j < |segs| && segs[i].Used? && segs[j].Used? ==> segs[i].owner != segs[j].owner)
  }

  ghost predicate ValidExcept(m: Mem, open: nat) {
    && Tiled(m.segs)
    && Indexed(m, open)
    && Coalesced(m.segs, open)
    && Owned(m.segs)
  }

  ghost predicate Valid(m: Mem) {
    ValidExcept(m, |m.segs|)
  }

  ghost function Owners(segs: seq<Seg>): set<Job> {
    set s | s in segs && s.Used? :: s.owner
  }
}
