/** What allocation and release preserve, and what they achieve. */
module MemoryLemmas {
  import opened Jobs
  import opened Sequences
  import opened MemoryModel

  // ---------- sequences ----------

  lemma RemoveAtMembers<T(!new)>(s: seq<T>, i: nat)
    requires i < |s| && Distinct(s)
    ensures Distinct(RemoveAt(s, i))
    ensures forall x :: x in RemoveAt(s, i) <==> x in s && x != s[i]
  {
    var r := RemoveAt(s, i);
    forall x | x in s && x != s[i] ensures x in r {
      var j :| 0 <= j < |s| && s[j] == x;
      assert if j < i then r[j] == x else r[j - 1] == x;
    }
  }

  lemma InsertAtMembers<T(!new)>(s: seq<T>, i: nat, x: T)
    requires i <= |s|
    ensures forall y :: y in InsertAt(s, i, x) <==> y in s || y == x
    ensures Distinct(s) && x !in s ==> Distinct(InsertAt(s, i, x))
  {
    var r := InsertAt(s, i, x);
    forall y | y in s ensures y in r {
      var j :| 0 <= j < |s| && s[j] == y;
      assert if j < i then r[j] == y else r[j + 1] == y;
    }
  }

  lemma {:induction false} InsertSortedKeepsOrder(holes: seq<Seg>, h: Seg)
    requires BySize(holes)
    ensures BySize(InsertSorted(holes, h))
  {
    var j := FirstAtLeast(holes, h.size);
    var r := InsertSorted(holes, h);
    forall a, b | 0 <= a < b < |r| ensures r[a].size <= r[b].size {
      assert b > j ==> holes[b - 1].size >= holes[j].size >= h.size || b - 1 == j;
    }
  }

  /** In a tiled memory every earlier block ends before a later one begins; so blocks are distinct. */
  lemma {:induction false} EarlierEndsFirst(segs: seq<Seg>, i: nat, j: nat)
    requires Tiled(segs) && i < j < |segs|
    ensures End(segs[i]) <= segs[j].start
    ensures segs[i] != segs[j]
    decreases j
  {
    if i + 1 < j {
      EarlierEndsFirst(segs, i, j - 1);
      assert segs[j - 1].size > 0 && End(segs[j - 1]) == segs[j].start;
    }
  }

  lemma TiledDistinct(segs: seq<Seg>)
    requires Tiled(segs)
    ensures Distinct(segs)
    ensures forall i, j :: 0 <= i < |segs| && 0 <= j < |segs| && segs[i].start == segs[j].start ==> i == j
    ensures forall i, j :: 0 <= i < j < |segs| ==> End(segs[i]) <= segs[j].start
  {
    forall i, j | 0 <= i < j < |segs|
      ensures segs[i] != segs[j] && End(segs[i]) <= segs[j].start && segs[i].start != segs[j].start
    {
      assert segs[i].size > 0;
      EarlierEndsFirst(segs, i, j);
    }
  }

  // ---------- merging ----------

  lemma MergedTiled(segs: seq<Seg>, r: seq<Seg>, p: nat)
    requires Merged(segs, r, p) && Tiled(segs)
    ensures Tiled(r)
  {
    assert End(segs[p]) == segs[p + 1].start;
    forall i, j | 0 <= i < j < |r| && j == i + 1 ensures End(r[i]) == r[j].start {
      if i == p { assert End(segs[p + 1]) == segs[p + 2].start; }
      else if i > p { assert End(segs[i + 1]) == segs[j + 1].start; }
    }
  }

  lemma MergedMembers(segs: seq<Seg>, r: seq<Seg>, p: nat)
    requires Merged(segs, r, p) && Tiled(segs)
    ensures forall s :: s in r <==> s == r[p] || (s in segs && s != segs[p] && s != segs[p + 1])
    ensures r[p] !in segs
  {
    TiledDistinct(segs);
    forall s | s in segs && s != segs[p] && s != segs[p + 1] ensures s in r {
      var i :| 0 <= i < |segs| && segs[i] == s;
      assert if i < p then r[i] == s else r[i - 1] == s;
    }
    assert segs[p + 1].size > 0;
  }

  lemma MergedOwned(segs: seq<Seg>, r: seq<Seg>, p: nat)
    requires Merged(segs, r, p) && Owned(segs) && segs[p].Hole? && segs[p + 1].Hole?
    ensures Owned(r)
  {
    forall i, j | 0 <= i < j < |r| && r[i].Used? && r[j].Used? ensures r[i].owner != r[j].owner {
      var a, b := if i < p then i else i + 1, if j < p then j else j + 1;
      assert segs[a] == r[i] && segs[b] == r[j];
    }
  }

  lemma MergedIndexed(m: Mem, r: Mem, p: nat, open: nat)
    requires Merged(m.segs, r.segs, p) && m.segs[p].Hole? && m.segs[p + 1].Hole? && (open == p || open == p + 1)
    requires Tiled(m.segs) && Indexed(m, open)
    requires BySize(r.holes) && Distinct(r.holes)
    requires forall h :: h in r.holes <==> h in m.holes && h != m.segs[2 * p + 1 - open]
    ensures Indexed(r, p)
  {
    MergedMembers(m.segs, r.segs, p);
    TiledDistinct(m.segs);
    assert m.segs[open] !in m.holes;
    forall i | 0 <= i < |r.segs| && r.segs[i].Hole? ensures r.segs[i] in r.holes <==> i != p {
      if i != p {
        var a := if i < p then i else i + 1;
        assert m.segs[a] == r.segs[i] && m.segs[a] in m.holes;
      }
    }
  }

  lemma MergedCoalesced(segs: seq<Seg>, r: seq<Seg>, p: nat, open: nat)
    requires Merged(segs, r, p) && (open == p || open == p + 1) && Coalesced(segs, open)
    ensures Coalesced(r, p)
  {
    forall i, j | 0 <= i < j < |r| && j == i + 1 && i != p && j != p ensures r[i].Used? || r[j].Used? {
      var a := if i < p then i else i + 1;
      assert segs[a] == r[i] && segs[a + 1] == r[j];
    }
  }

  lemma MergedUsed(segs: seq<Seg>, r: seq<Seg>, p: nat)
    requires Merged(segs, r, p) && Tiled(segs) && segs[p].Hole? && segs[p + 1].Hole?
    ensures forall s: Seg :: s.Used? ==> (s in r <==> s in segs)
  {
    MergedMembers(segs, r, p);
  }

  lemma MergedValid(m: Mem, r: Mem, p: nat, open: nat)
    requires Merged(m.segs, r.segs, p) && m.segs[p].Hole? && m.segs[p + 1].Hole? && (open == p || open == p + 1)
    requires ValidExcept(m, open)
    requires BySize(r.holes) && Distinct(r.holes)
    requires forall h :: h in r.holes <==> h in m.holes && h != m.segs[2 * p + 1 - open]
    ensures ValidExcept(r, p)
    ensures forall s: Seg :: s.Used? ==> (s in r.segs <==> s in m.segs)
  {
    assert p + 1 < |m.segs|;
    hide Tiled, Indexed, Coalesced, Owned, Merged, BySize, Distinct;
    MergedTiled(m.segs, r.segs, p);
    MergedOwned(m.segs, r.segs, p);
    MergedIndexed(m, r, p, open);
    MergedCoalesced(m.segs, r.segs, p, open);
    MergedUsed(m.segs, r.segs, p);
  }

  lemma DropHole(holes: seq<Seg>, h: Seg)
    requires h in holes && BySize(holes) && Distinct(holes)
    ensures BySize(Drop(holes, h)) && Distinct(Drop(holes, h))
    ensures forall x :: x in Drop(holes, h) <==> x in holes && x != h
  {
    RemoveAtMembers(holes, Find(holes, h));
  }

  /** The same blocks are in use, at the same addresses, by the same owners. */
  ghost predicate SameUsed(a: seq<Seg>, b: seq<Seg>) {
    forall s: Seg :: s.Used? ==> (s in a <==> s in b)
  }

  /** Block `k` is free but not indexed yet. */
  ghost predicate Opened(m: Mem, k: nat) {
    k < |m.segs| && m.segs[k].Hole? && ValidExcept(m, k)
  }

  ghost predicate UsedAfter(segs: seq<Seg>, k: nat) { k + 1 < |segs| ==> segs[k + 1].Used? }
  ghost predicate UsedBefore(segs: seq<Seg>, k: nat) { 0 < k <= |segs| ==> segs[k - 1].Used? }

  lemma AbsorbKeeps(m: Mem, p: nat, open: nat)
    requires p + 1 < |m.segs| && m.segs[p].Hole? && m.segs[p + 1].Hole? && (open == p || open == p + 1)
    requires Opened(m, open)
    ensures var r := Mem(Merge(m.segs, p), Drop(m.holes, m.segs[2 * p + 1 - open]));
      Opened(r, p) && SameUsed(r.segs, m.segs)
  {
    DropHole(m.holes, m.segs[2 * p + 1 - open]);
    MergedValid(m, Mem(Merge(m.segs, p), Drop(m.holes, m.segs[2 * p + 1 - open])), p, open);
  }

  lemma {:induction false} CoalesceRightKeeps(m: Mem, k: nat)
    requires Opened(m, k)
    ensures Opened(CoalesceRight(m, k), k)
    ensures UsedAfter(CoalesceRight(m, k).segs, k)
    ensures SameUsed(CoalesceRight(m, k).segs, m.segs)
    decreases |m.segs|
  {
    if k + 1 < |m.segs| && m.segs[k + 1].Hole? {
      AbsorbKeeps(m, k, k);
      CoalesceRightKeeps(AbsorbNext(m, k), k);
    }
  }

  lemma {:induction false} CoalesceLeftKeeps(m: Mem, k: nat)
    requires Opened(m, k) && UsedAfter(m.segs, k)
    ensures Opened(CoalesceLeft(m, k).0, CoalesceLeft(m, k).1)
    ensures UsedAfter(CoalesceLeft(m, k).0.segs, CoalesceLeft(m, k).1)
    ensures UsedBefore(CoalesceLeft(m, k).0.segs, CoalesceLeft(m, k).1)
    ensures SameUsed(CoalesceLeft(m, k).0.segs, m.segs)
    decreases |m.segs|
  {
    if k > 0 && m.segs[k - 1].Hole? {
      AbsorbKeeps(m, k - 1, k);
      var r := AbsorbPrev(m, k);
      assert UsedAfter(r.segs, k - 1);
      hide ValidExcept, UsedAfter, UsedBefore, Merge, Drop;
      CoalesceLeftKeeps(r, k - 1);
    }
  }

  lemma CloseKeeps(m: Mem, k: nat)
    requires Opened(m, k) && UsedAfter(m.segs, k) && UsedBefore(m.segs, k)
    ensures Valid(Close(m, k))
  {
    var h := m.segs[k];
    InsertSortedKeepsOrder(m.holes, h);
    InsertAtMembers(m.holes, FirstAtLeast(m.holes, h.size), h);
    TiledDistinct(m.segs);
  }

  lemma ReplaceMembers(segs: seq<Seg>, k: nat, x: Seg)
    requires k < |segs| && Distinct(segs)
    ensures forall s :: s in segs[k := x] <==> s == x || (s in segs && s != segs[k])
  {
    forall s | s in segs && s != segs[k] ensures s in segs[k := x] {
      var i :| 0 <= i < |segs| && segs[i] == s;
      assert segs[k := x][i] == s;
    }
    assert segs[k := x][k] == x;
  }

  lemma ReplaceTiled(segs: seq<Seg>, k: nat, x: Seg)
    requires Tiled(segs) && k < |segs| && x.start == segs[k].start && x.size == segs[k].size
    ensures Tiled(segs[k := x])
  {}

  lemma ReplaceOwned(segs: seq<Seg>, k: nat, x: Seg)
    requires Owned(segs) && k < |segs| && (x.Used? ==> x.size == x.owner.mem && x.owner !in Owners(segs))
    ensures Owned(segs[k := x])
  {
    forall i | 0 <= i < |segs| && segs[i].Used? ensures segs[i].owner in Owners(segs) {}
  }

  lemma OpenIndexed(m: Mem, k: nat)
    requires Tiled(m.segs) && Indexed(m, |m.segs|) && k < |m.segs| && m.segs[k].Used?
    ensures Indexed(Open(m, k), k)
    ensures forall s: Seg :: s.Used? ==> (s in Open(m, k).segs <==> s in m.segs && s != m.segs[k])
  {
    var x := Hole(m.segs[k].start, m.segs[k].size);
    TiledDistinct(m.segs);
    ReplaceMembers(m.segs, k, x);
    assert forall i :: 0 <= i < |m.segs| ==> m.segs[i] != x;
  }

  lemma OpenKeeps(m: Mem, k: nat)
    requires Valid(m) && k < |m.segs| && m.segs[k].Used?
    ensures Opened(Open(m, k), k)
    ensures forall s: Seg :: s.Used? ==> (s in Open(m, k).segs <==> s in m.segs && s != m.segs[k])
  {
    ReplaceTiled(m.segs, k, Hole(m.segs[k].start, m.segs[k].size));
    ReplaceOwned(m.segs, k, Hole(m.segs[k].start, m.segs[k].size));
    OpenIndexed(m, k);
  }

  lemma FindBlock(segs: seq<Seg>, job: Job)
    ensures BlockOf(segs, job) < |segs| <==> job in Owners(segs)
  {
    if job in Owners(segs) {
      var s :| s in segs && s.Used? && s.owner == job;
    }
  }

  lemma OneBlockEach(segs: seq<Seg>, k: nat)
    requires Owned(segs) && k < |segs| && segs[k].Used?
    ensures forall s: Seg :: s in segs && s.Used? && s.owner == segs[k].owner ==> s == segs[k]
  {}

  lemma ReleaseAtKeeps(m: Mem, k: nat)
    requires Valid(m) && k < |m.segs| && m.segs[k].Used?
    ensures Valid(ReleaseAt(m, k))
    ensures SameUsed(ReleaseAt(m, k).segs, Open(m, k).segs)
  {
    var o := Open(m, k);
    OpenKeeps(m, k);
    CoalesceRightKeeps(o, k);
    CoalesceLeftKeeps(CoalesceRight(o, k), k);
    CloseKeeps(CoalesceLeft(CoalesceRight(o, k), k).0, CoalesceLeft(CoalesceRight(o, k), k).1);
  }

  /** The used blocks of `b` are those of `a` that do not belong to `job`. */
  ghost predicate Freed(a: seq<Seg>, b: seq<Seg>, job: Job) {
    forall s: Seg :: s.Used? ==> (s in b <==> s in a && s.owner != job)
  }

  lemma FreedOwners(a: seq<Seg>, b: seq<Seg>, job: Job)
    requires Freed(a, b, job)
    ensures Owners(b) == Owners(a) - {job}
  {
    forall x | x in Owners(a) && x != job ensures x in Owners(b) {
      var s :| s in a && s.Used? && s.owner == x;
      assert s in b;
    }
    forall x | x in Owners(b) ensures x in Owners(a) && x != job {
      var s :| s in b && s.Used? && s.owner == x;
    }
  }

  lemma ReleaseFrees(m: Mem, k: nat)
    requires Valid(m) && k < |m.segs| && m.segs[k].Used?
    ensures Freed(m.segs, ReleaseAt(m, k).segs, m.segs[k].owner)
  {
    ReleaseAtKeeps(m, k);
    OpenKeeps(m, k);
    OneBlockEach(m.segs, k);
    hide ReleaseAt, Open, Tiled, Indexed, Coalesced, Owned;
  }

  /** Releasing a job's block keeps memory valid, frees that owner only, and leaves every other job's block
      exactly where it was. */
  lemma ReleaseKeeps(m: Mem, job: Job)
    requires Valid(m) && job in Owners(m.segs)
    ensures Valid(Release(m, job))
    ensures Freed(m.segs, Release(m, job).segs, job)
    ensures Owners(Release(m, job).segs) == Owners(m.segs) - {job}
  {
    FindBlock(m.segs, job);
    var k := BlockOf(m.segs, job);
    hide ReleaseAt, ValidExcept, Owners, Freed;
    ReleaseAtKeeps(m, k);
    ReleaseFrees(m, k);
    FreedOwners(m.segs, ReleaseAt(m, k).segs, job);
  }

  /** `x` is the only used block of `b` that `a` has not. */
  ghost predicate Added(a: seq<Seg>, b: seq<Seg>, x: Seg) {
    forall s: Seg :: s.Used? ==> (s in b <==> s in a || s == x)
  }

  lemma AddedOwners(a: seq<Seg>, b: seq<Seg>, x: Seg)
    requires x.Used? && Added(a, b, x)
    ensures Owners(b) == Owners(a) + {x.owner}
  {
    forall job | job in Owners(a) ensures job in Owners(b) {
      var s :| s in a && s.Used? && s.owner == job;
      assert s in b;
    }
    assert x in b;
    forall job | job in Owners(b) ensures job in Owners(a) + {x.owner} {
      var s :| s in b && s.Used? && s.owner == job;
    }
  }

  lemma FillIndexed(m: Mem, k: nat, j: nat, used: Seg)
    requires Tiled(m.segs) && Indexed(m, |m.segs|) && k < |m.segs| && m.segs[k].Hole? && used.Used?
    requires j < |m.holes| && m.holes[j] == m.segs[k]
    ensures Indexed(Mem(m.segs[k := used], RemoveAt(m.holes, j)), |m.segs|)
    ensures forall s :: s in m.segs[k := used] <==> s == used || (s in m.segs && s != m.segs[k])
  {
    TiledDistinct(m.segs);
    ReplaceMembers(m.segs, k, used);
    RemoveAtMembers(m.holes, j);
  }

  /** An exact fit turns the hole into the job's block. */
  lemma FillKeeps(m: Mem, k: nat, j: nat, job: Job)
    requires Valid(m) && job !in Owners(m.segs) && k < |m.segs| && m.segs[k].Hole?
    requires j < |m.holes| && m.holes[j] == m.segs[k] && m.segs[k].size == job.mem
    ensures Valid(Split(m.segs, RemoveAt(m.holes, j), k, job))
    ensures Added(m.segs, Split(m.segs, RemoveAt(m.holes, j), k, job).segs, Used(m.segs[k].start, job.mem, job))
  {
    var used := Used(m.segs[k].start, job.mem, job);
    ReplaceTiled(m.segs, k, used);
    ReplaceOwned(m.segs, k, used);
    FillIndexed(m, k, j, used);
  }

  /** The used block `a` and the free block `b` share out the free block `h`. */
  ghost predicate Shares(h: Seg, a: Seg, b: Seg) {
    && h.Hole? && a.Used? && b.Hole?
    && 0 < a.size && 0 < b.size
    && a.start == h.start && End(a) == b.start && End(b) == End(h)
  }

  lemma CutTiled(segs: seq<Seg>, r: seq<Seg>, k: nat, a: Seg, b: Seg)
    requires Cut(segs, r, k, a, b) && Shares(segs[k], a, b) && Tiled(segs)
    ensures Tiled(r)
  {
    forall i, j | 0 <= i < j < |r| && j == i + 1 ensures End(r[i]) == r[j].start {
      if j < k { assert End(segs[i]) == segs[j].start; }
      else if j == k { assert End(segs[i]) == segs[k].start; }
      else if i == k + 1 { assert End(segs[k]) == segs[k + 1].start; }
      else if i > k + 1 { assert End(segs[i - 1]) == segs[i].start; }
    }
  }

  lemma CutMembers(segs: seq<Seg>, r: seq<Seg>, k: nat, a: Seg, b: Seg)
    requires Cut(segs, r, k, a, b) && Shares(segs[k], a, b) && Tiled(segs)
    ensures forall s :: s in r <==> s == a || s == b || (s in segs && s != segs[k])
    ensures b !in segs
  {
    TiledDistinct(segs);
    forall s | s in segs && s != segs[k] ensures s in r {
      var i :| 0 <= i < |segs| && segs[i] == s;
      assert if i < k then r[i] == s else r[i + 1] == s;
    }
    forall i | 0 <= i < |segs| ensures segs[i] != b {
      if i < k { assert End(segs[i]) <= segs[k].start; }
      else if i > k { assert End(segs[k]) <= segs[i].start; }
    }
  }

  lemma CutOwned(segs: seq<Seg>, r: seq<Seg>, k: nat, a: Seg, b: Seg)
    requires Cut(segs, r, k, a, b) && Shares(segs[k], a, b) && Owned(segs)
    requires a.size == a.owner.mem && a.owner !in Owners(segs)
    ensures Owned(r)
  {
    forall i | 0 <= i < |segs| && segs[i].Used? ensures segs[i].owner in Owners(segs) {}
    forall i, j | 0 <= i < j < |r| && r[i].Used? && r[j].Used? ensures r[i].owner != r[j].owner {
      var i', j' := if i <= k then i else i - 1, if j <= k then j else j - 1;
      assert i != k ==> segs[i'] == r[i];
      assert j != k ==> segs[j'] == r[j];
    }
  }

  lemma CutCoalesced(segs: seq<Seg>, r: seq<Seg>, k: nat, a: Seg, b: Seg)
    requires Cut(segs, r, k, a, b) && Shares(segs[k], a, b) && Coalesced(segs, |segs|)
    ensures Coalesced(r, |r|)
  {
    forall i, j | 0 <= i < j < |r| && j == i + 1 ensures r[i].Used? || r[j].Used? {
      if j < k { assert segs[i].Used? || segs[j].Used?; }
      else if i == k + 1 { assert segs[k].Used? || segs[k + 1].Used?; }
      else if i > k + 1 { assert segs[i - 1].Used? || segs[i].Used?; }
    }
  }

  lemma CutIndexed(m: Mem, r: Mem, k: nat, j: nat, a: Seg, b: Seg)
    requires Cut(m.segs, r.segs, k, a, b) && Shares(m.segs[k], a, b) && Tiled(m.segs) && Indexed(m, |m.segs|)
    requires j < |m.holes| && m.holes[j] == m.segs[k]
    requires r.holes == InsertSorted(RemoveAt(m.holes, j), b)
    ensures Indexed(r, |r.segs|)
  {
    CutMembers(m.segs, r.segs, k, a, b);
    RemoveAtMembers(m.holes, j);
    var rest := RemoveAt(m.holes, j);
    InsertSortedKeepsOrder(rest, b);
    InsertAtMembers(rest, FirstAtLeast(rest, b.size), b);
    forall i | 0 <= i < |r.segs| && r.segs[i].Hole? ensures r.segs[i] in r.holes {
      assert r.segs[i] in r.segs;
    }
  }

  /** A larger hole keeps its far end as a hole. */
  lemma CutKeeps(m: Mem, k: nat, j: nat, job: Job)
    requires Valid(m) && job !in Owners(m.segs) && k < |m.segs| && m.segs[k].Hole?
    requires j < |m.holes| && m.holes[j] == m.segs[k] && 0 < job.mem < m.segs[k].size
    ensures Valid(Split(m.segs, RemoveAt(m.holes, j), k, job))
    ensures Added(m.segs, Split(m.segs, RemoveAt(m.holes, j), k, job).segs, Used(m.segs[k].start, job.mem, job))
  {
    var r := Split(m.segs, RemoveAt(m.holes, j), k, job);
    var h := m.segs[k];
    var a, b := Used(h.start, job.mem, job), Hole(h.start + job.mem, h.size - job.mem);
    CutTiled(m.segs, r.segs, k, a, b);
    CutMembers(m.segs, r.segs, k, a, b);
    CutOwned(m.segs, r.segs, k, a, b);
    CutCoalesced(m.segs, r.segs, k, a, b);
    CutIndexed(m, r, k, j, a, b);
  }

  /** Every hole of `b` is no larger than some hole of `a`. */
  ghost predicate HolesShrink(a: Mem, b: Mem) {
    forall h :: h in b.holes ==> exists g :: g in a.holes && h.size <= g.size
  }

  lemma SplitShrinks(m: Mem, k: nat, j: nat, job: Job)
    requires k < |m.segs| && m.segs[k].Hole? && job.mem <= m.segs[k].size
    requires j < |m.holes| && m.holes[j] == m.segs[k]
    ensures HolesShrink(m, Split(m.segs, RemoveAt(m.holes, j), k, job))
  {
    var rest := RemoveAt(m.holes, j);
    var r := Split(m.segs, rest, k, job);
    forall h | h in r.holes ensures exists g :: g in m.holes && h.size <= g.size {
      if m.segs[k].size != job.mem {
        InsertAtMembers(rest, FirstAtLeast(rest, m.segs[k].size - job.mem),
                        Hole(m.segs[k].start + job.mem, m.segs[k].size - job.mem));
      }
      if h in rest {
        var i :| 0 <= i < |rest| && rest[i] == h;
        assert h == m.holes[i] || h == m.holes[i + 1];
      } else {
        assert h.size <= m.holes[j].size;
      }
    }
  }

  /** The address best fit gives the job. */
  function Placement(m: Mem, job: Job): Seg
    requires FirstAtLeast(m.holes, job.mem) < |m.holes|
  {
    Used(m.holes[FirstAtLeast(m.holes, job.mem)].start, job.mem, job)
  }

  /** Allocation succeeds exactly when some hole is large enough. */
  lemma AllocateSucceeds(m: Mem, job: Job)
    requires Valid(m)
    ensures Allocate(m, job).Some? <==> exists h :: h in m.holes && h.size >= job.mem
    ensures Allocate(m, job).Some? <==> FirstAtLeast(m.holes, job.mem) < |m.holes|
  {
    var j := FirstAtLeast(m.holes, job.mem);
    if j < |m.holes| {
      assert m.holes[j] in m.holes;
    }
  }

  /** A successful allocation keeps memory valid, gives the job one block of its size, moves no other block,
      and makes no hole larger than all earlier ones. */
  lemma AllocateKeeps(m: Mem, job: Job)
    requires Valid(m) && job !in Owners(m.segs) && 0 < job.mem && Allocate(m, job).Some?
    ensures FirstAtLeast(m.holes, job.mem) < |m.holes|
    ensures Valid(Allocate(m, job).value)
    ensures HolesShrink(m, Allocate(m, job).value)
    ensures Added(m.segs, Allocate(m, job).value.segs, Placement(m, job))
    ensures Owners(Allocate(m, job).value.segs) == Owners(m.segs) + {job}
  {
    AllocateSucceeds(m, job);
    var j := FirstAtLeast(m.holes, job.mem);
    assert m.holes[j] in m.holes;
    var k := Find(m.segs, m.holes[j]);
    SplitShrinks(m, k, j, job);
    if m.segs[k].size == job.mem { FillKeeps(m, k, j, job); } else { CutKeeps(m, k, j, job); }
    AddedOwners(m.segs, Allocate(m, job).value.segs, Placement(m, job));
  }
}
