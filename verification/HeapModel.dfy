/** The array heap as a sequence: sifting, insertion, extraction, and what they guarantee. */
module HeapModel {
  import opened Jobs
  import opened Sequences

  function Swap(h: seq<Job>, i: nat, j: nat): (r: seq<Job>)
    requires i < |h| && j < |h|
    ensures |r| == |h| && multiset(r) == multiset(h)
    ensures r[i] == h[j] && r[j] == h[i]
    ensures forall k :: 0 <= k < |h| && k != i && k != j ==> r[k] == h[k]
  {
    h[i := h[j]][j := h[i]]
  }

  /** The parent's index; the C division truncates, so the root is its own parent. */
  function Parent(k: nat): (p: nat)
    ensures k > 0 ==> p < k && (k == 2 * p + 1 || k == 2 * p + 2)
  {
    if k == 0 then 0 else (k - 1) / 2
  }

  function SiftUp(h: seq<Job>, i: nat): (r: seq<Job>)
    requires i < |h|
    ensures |r| == |h| && multiset(r) == multiset(h)
    decreases i
  {
    if i > 0 && Compare(h[Parent(i)], h[i]) > 0 then SiftUp(Swap(h, i, Parent(i)), Parent(i)) else h
  }

  /** The index the sift-down step moves to: the smallest of a node and its children, the node itself
      winning ties, then the left child. */
  function Smallest(h: seq<Job>, i: nat): (m: nat)
    requires i < |h|
    ensures m == i || m == 2 * i + 1 || m == 2 * i + 2
    ensures m < |h|
  {
    var l, r := 2 * i + 1, 2 * i + 2;
    var m := if l < |h| && Compare(h[i], h[l]) > 0 then l else i;
    if r < |h| && Compare(h[m], h[r]) > 0 then r else m
  }

  function SiftDown(h: seq<Job>, i: nat): (r: seq<Job>)
    requires i < |h|
    ensures |r| == |h| && multiset(r) == multiset(h)
    decreases |h| - i
  {
    var m := Smallest(h, i);
    if m == i then h else SiftDown(Swap(h, i, m), m)
  }

  function Insert(h: seq<Job>, x: Job): (r: seq<Job>)
    ensures |r| == |h| + 1 && multiset(r) == multiset(h) + multiset{x}
  {
    SiftUp(h + [x], |h|)
  }

  /** What is left after the root has been taken out. */
  function Rest(h: seq<Job>): (r: seq<Job>)
    requires h != []
    ensures |r| == |h| - 1
  {
    var n := |h| - 1;
    if n == 0 then [] else SiftDown(h[..n][0 := h[n]], 0)
  }

  ghost predicate IsHeap(h: seq<Job>) {
    forall k {:trigger Parent(k)} :: 0 < k < |h| ==> Leq(h[Parent(k)], h[k])
  }

  /** Only position `i` may be smaller than its parent; that parent is no larger than the children of `i`. */
  ghost predicate UpGap(h: seq<Job>, i: nat) {
    && (forall k {:trigger Parent(k)} :: 0 < k < |h| && k != i ==> Leq(h[Parent(k)], h[k]))
    && (forall k {:trigger Parent(k)} :: 0 < k < |h| && Parent(k) == i < |h| && 0 < i ==> Leq(h[Parent(i)], h[k]))
  }

  /** Only children of `i` may be smaller than their parent; they are no smaller than their grandparent. */
  ghost predicate DownGap(h: seq<Job>, i: nat) {
    && (forall k {:trigger Parent(k)} :: 0 < k < |h| && Parent(k) != i ==> Leq(h[Parent(k)], h[k]))
    && (forall k {:trigger Parent(k)} :: 0 < k < |h| && Parent(k) == i < |h| && 0 < i ==> Leq(h[Parent(i)], h[k]))
  }

  lemma Transitive(p: Job, r: Job, s: Job)
    ensures Leq(p, r) && Leq(r, s) ==> Leq(p, s)
    ensures Compare(p, r) > 0 ==> Leq(r, p)
    ensures Leq(p, p)
  {
    CompareTotalPreorder(p, r, s);
  }

  lemma {:induction false} SiftUpRestores(h: seq<Job>, i: nat)
    requires i < |h| && UpGap(h, i)
    ensures IsHeap(SiftUp(h, i))
    decreases i
  {
    var p := Parent(i);
    if i > 0 && Compare(h[p], h[i]) > 0 {
      var g := Swap(h, i, p);
      Transitive(h[p], h[i], h[i]);
      forall k | 0 < k < |g| && k != p ensures Leq(g[Parent(k)], g[k]) {
        assert Leq(h[Parent(k)], h[k]) || k == i;
        Transitive(h[i], h[p], h[k]);
      }
      forall k | 0 < k < |g| && Parent(k) == p && 0 < p ensures Leq(g[Parent(p)], g[k]) {
        assert Leq(h[Parent(p)], h[p]);
        Transitive(h[Parent(p)], h[p], h[k]);
      }
      SiftUpRestores(g, p);
    }
  }

  lemma SmallestIsLeast(h: seq<Job>, i: nat)
    requires i < |h|
    ensures forall k :: 0 < k < |h| && Parent(k) == i ==> Leq(h[Smallest(h, i)], h[k])
    ensures Leq(h[Smallest(h, i)], h[i])
  {
    var l, r := 2 * i + 1, 2 * i + 2;
    Transitive(h[i], h[i], h[i]);
    if l < |h| { Transitive(h[i], h[l], h[l]); Transitive(h[l], h[l], h[l]); }
    if r < |h| {
      Transitive(h[i], h[r], h[l]);
      Transitive(h[l], h[r], h[l]);
      Transitive(h[r], h[r], h[r]);
      Transitive(h[r], h[l], h[i]);
      Transitive(h[r], h[i], h[l]);
    }
  }

  lemma {:induction false} SiftDownRestores(h: seq<Job>, i: nat)
    requires i < |h| && DownGap(h, i)
    ensures IsHeap(SiftDown(h, i))
    decreases |h| - i
  {
    var m := Smallest(h, i);
    SmallestIsLeast(h, i);
    if m != i {
      var g := Swap(h, i, m);
      assert Parent(m) == i;
      forall k | 0 < k < |g| && Parent(k) != m ensures Leq(g[Parent(k)], g[k]) {
        if k == i { assert Leq(h[Parent(i)], h[m]); }
      }
      forall k | 0 < k < |g| && Parent(k) == m ensures Leq(g[Parent(m)], g[k]) {
        assert Leq(h[Parent(k)], h[k]);
      }
      SiftDownRestores(g, m);
    } else {
      forall k | 0 < k < |h| ensures Leq(h[Parent(k)], h[k]) {}
    }
  }

  lemma InsertKeepsHeap(h: seq<Job>, x: Job)
    requires IsHeap(h)
    ensures IsHeap(Insert(h, x))
  {
    assert UpGap(h + [x], |h|);
    SiftUpRestores(h + [x], |h|);
  }

  lemma {:induction false} RootBelow(h: seq<Job>, k: nat)
    requires IsHeap(h) && k < |h|
    ensures Leq(h[0], h[k])
    decreases k
  {
    Transitive(h[0], h[Parent(k)], h[k]);
    if k > 0 { RootBelow(h, Parent(k)); }
  }

  lemma RestContents(h: seq<Job>)
    requires h != []
    ensures multiset(h) == multiset{h[0]} + multiset(Rest(h))
  {
    var n := |h| - 1;
    if n == 0 {
      assert h == [h[0]];
    } else {
      var g := h[..n][0 := h[n]];
      assert multiset(Rest(h)) == multiset(g);
      hide *;
      LastToFront(h, g);
    }
  }

  /** Taking the root removes exactly one least element and leaves a heap of all the others. */
  lemma ExtractCorrect(h: seq<Job>)
    requires h != [] && IsHeap(h)
    ensures IsHeap(Rest(h))
    ensures multiset(h) == multiset{h[0]} + multiset(Rest(h))
    ensures forall x :: x in h ==> Leq(h[0], x)
  {
    var n := |h| - 1;
    RestContents(h);
    forall x | x in h ensures Leq(h[0], x) {
      var k :| 0 <= k < |h| && h[k] == x;
      RootBelow(h, k);
    }
    if n > 0 {
      var g := h[..n][0 := h[n]];
      forall k | 0 < k < |g| && Parent(k) != 0 ensures Leq(g[Parent(k)], g[k]) {
        assert Leq(h[Parent(k)], h[k]);
      }
      SiftDownRestores(g, 0);
    }
  }

  /** Among jobs that compare equal nothing is exchanged: a new one stays at the end, and the last one takes the place
      of the root that leaves. */
  lemma EqualsStay(h: seq<Job>, x: Job)
    requires forall y :: y in h ==> Compare(y, x) == 0
    ensures Insert(h, x) == h + [x]
    ensures h != [] ==> Rest(h) == if |h| == 1 then [] else [h[|h| - 1]] + h[1..|h| - 1]
  {
    var n := |h|;
    if n > 0 { assert h[Parent(n)] in h; }
    if n > 1 {
      var g := h[..n - 1][0 := h[n - 1]];
      forall i | 0 <= i < |g| ensures Compare(g[0], g[i]) == 0 {
        assert h[n - 1] in h && h[i] in h;
        CompareTotalPreorder(h[n - 1], h[i], x);
        CompareTotalPreorder(h[n - 1], x, x);
        CompareTotalPreorder(h[i], x, x);
      }
    }
  }

  /** Take the root until nothing is left. */
  function Drain(h: seq<Job>): (r: seq<Job>)
    decreases |h|
  {
    if h == [] then [] else [h[0]] + Drain(Rest(h))
  }

  ghost predicate Sorted(s: seq<Job>) {
    forall i, j :: 0 <= i < j < |s| ==> Leq(s[i], s[j])
  }

  lemma LeastFirst(h: seq<Job>, d: seq<Job>)
    requires h != [] && multiset(h) == multiset{h[0]} + multiset(d) && Sorted(d)
    requires forall x :: x in h ==> Leq(h[0], x)
    ensures multiset([h[0]] + d) == multiset(h) && Sorted([h[0]] + d)
  {
    hide Leq;
    forall j | 0 <= j < |d| ensures Leq(h[0], d[j]) {
      assert d[j] in multiset(d);
      assert d[j] in multiset(h);
    }
  }

  /** Draining a heap is sorting: every element once, least first. */
  lemma {:induction false} DrainSorts(h: seq<Job>)
    requires IsHeap(h)
    ensures multiset(Drain(h)) == multiset(h) && Sorted(Drain(h))
    decreases |h|
  {
    hide Rest, IsHeap, Sorted, Leq;
    if h != [] {
      ExtractCorrect(h);
      DrainSorts(Rest(h));
      LeastFirst(h, Drain(Rest(h)));
    } else {
      NothingSorted();
    }
  }

  lemma NothingSorted()
    ensures Sorted([])
  {}
}
