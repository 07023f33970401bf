/** The loaded process records and the order in which the shortest-job-first queue ranks them. */
module Jobs {

  datatype Option<+T> = None | Some(value: T)

  /** What the input file says about one process.  `id` is its position in the file: it stands for the
      identity of the heap record, so two processes with equal data are still two processes. */
  datatype Job = Job(id: nat, arrival: nat, name: string, service: nat, mem: nat)

  /** The sign of the C library's comparison of two NUL-free strings. */
  function CompareNames(a: string, b: string): int {
    if a == [] then (if b == [] then 0 else -1)
    else if b == [] then 1
    else if a[0] != b[0] then (if a[0] < b[0] then -1 else 1)
    else CompareNames(a[1..], b[1..])
  }

  /** Service time first, then arrival, then name. */
  function Compare(p: Job, r: Job): int {
    if p.service < r.service then -1
    else if p.service > r.service then 1
    else if p.arrival < r.arrival then -1
    else if p.arrival > r.arrival then 1
    else CompareNames(p.name, r.name)
  }

  predicate Leq(p: Job, r: Job) { Compare(p, r) <= 0 }

  lemma {:induction false} CompareNamesOrder(a: string, b: string)
    ensures CompareNames(a, b) > 0 <==> CompareNames(b, a) < 0
    ensures CompareNames(a, b) == 0 <==> a == b
  {
    if a != [] && b != [] {
      CompareNamesOrder(a[1..], b[1..]);
      assert a == [a[0]] + a[1..] && b == [b[0]] + b[1..];
    }
  }

  lemma {:induction false} CompareNamesTransitive(a: string, b: string, c: string)
    requires CompareNames(a, b) <= 0 && CompareNames(b, c) <= 0
    ensures CompareNames(a, c) <= 0
  {
    if a != [] && b != [] && c != [] && a[0] == b[0] == c[0] {
      CompareNamesTransitive(a[1..], b[1..], c[1..]);
    }
  }

  // ---------- what the order means on the fields ----------

  /** `a` stands before `b` in a dictionary: after a common beginning `a` ends, or goes on with a smaller character. */
  ghost predicate NameBefore(a: string, b: string) {
    exists k :: 0 <= k <= |a| && k < |b| && a[..k] == b[..k] && (k == |a| || a[k] < b[k])
  }

  lemma {:induction false} DiffersAt(a: string, b: string, k: nat)
    requires k <= |a| && k < |b| && a[..k] == b[..k] && (k == |a| || a[k] < b[k])
    ensures CompareNames(a, b) < 0
  {
    if k > 0 {
      assert a[0] == a[..k][0] == b[..k][0] == b[0];
      assert a[1..][..k - 1] == a[..k][1..] == b[..k][1..] == b[1..][..k - 1];
      DiffersAt(a[1..], b[1..], k - 1);
    }
  }

  lemma {:induction false} FirstDifference(a: string, b: string) returns (k: nat)
    requires CompareNames(a, b) < 0
    ensures k <= |a| && k < |b| && a[..k] == b[..k] && (k == |a| || a[k] < b[k])
  {
    k := 0;
    if a != [] && a[0] == b[0] {
      var i := FirstDifference(a[1..], b[1..]);
      k := i + 1;
      assert a[..k] == [a[0]] + a[1..][..i] && b[..k] == [b[0]] + b[1..][..i];
    }
  }

  /** Names are compared as in a dictionary. */
  lemma CompareNamesExact(a: string, b: string)
    ensures CompareNames(a, b) < 0 <==> NameBefore(a, b)
  {
    if CompareNames(a, b) < 0 {
      var k := FirstDifference(a, b);
    }
    if k :| 0 <= k <= |a| && k < |b| && a[..k] == b[..k] && (k == |a| || a[k] < b[k]) {
      DiffersAt(a, b, k);
    }
  }

  /** A shorter job ranks strictly first, whatever else; of equally long ones the earlier; of these the one whose name
      comes first in a dictionary. */
  lemma RankedByFields(p: Job, r: Job)
    ensures p.service < r.service ==> Leq(p, r) && !Leq(r, p)
    ensures p.service == r.service && p.arrival < r.arrival ==> Leq(p, r) && !Leq(r, p)
    ensures p.service == r.service && p.arrival == r.arrival ==>
      (!Leq(r, p) <==> NameBefore(p.name, r.name)) && (Leq(p, r) <==> !NameBefore(r.name, p.name))
  {
    CompareNamesOrder(p.name, r.name);
    CompareNamesOrder(r.name, p.name);
    CompareNamesExact(p.name, r.name);
    CompareNamesExact(r.name, p.name);
  }

  // ---------- the order as a relation ----------

  /** `Compare` is a total preorder whose ties are exactly the jobs with equal service, arrival and name. */
  lemma CompareTotalPreorder(p: Job, r: Job, s: Job)
    ensures Leq(p, p)
    ensures Leq(p, r) || Leq(r, p)
    ensures Compare(p, r) > 0 <==> Compare(r, p) < 0
    ensures Compare(p, r) == 0 <==> p.service == r.service && p.arrival == r.arrival && p.name == r.name
    ensures Leq(p, r) && Leq(r, s) ==> Leq(p, s)
  {
    CompareNamesOrder(p.name, p.name);
    CompareNamesOrder(p.name, r.name);
    if Leq(p, r) && Leq(r, s) && p.service == r.service == s.service && p.arrival == r.arrival == s.arrival {
      CompareNamesTransitive(p.name, r.name, s.name);
    }
  }
}
