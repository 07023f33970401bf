/** Which times a 32-bit clock shows when it advances by a fixed quantum. */
module ClockArithmetic {
  import opened SchedulerModel

  // ---------- products ----------

  lemma Regroup(a: int, b: int, c: int)
    ensures (a * b) * c == a * (b * c) == b * (a * c)
  {}

  lemma Distribute(a: int, b: int, c: int)
    ensures a * (b + c) == a * b + a * c && a * (b - c) == a * b - a * c
  {}

  // ---------- divisors ----------

  function Gcd(a: nat, b: nat): (g: nat)
    requires a > 0 || b > 0
    ensures g > 0
    decreases b
  {
    if b == 0 then a else Gcd(b, a % b)
  }

  lemma Combine(g: nat, x: nat, y: nat, d: nat, b: nat, r: nat)
    requires b == g * x && r == g * y
    ensures b * d + r == g * (x * d + y)
  {
    Regroup(g, x, d);
    Distribute(g, x * d, y);
  }

  lemma {:induction false} GcdFactors(a: nat, b: nat) returns (m: nat, n: nat)
    requires a > 0 || b > 0
    ensures a == Gcd(a, b) * m && b == Gcd(a, b) * n
    decreases b
  {
    if b == 0 {
      m, n := 1, 0;
    } else {
      var x, y := GcdFactors(b, a % b);
      Combine(Gcd(a, b), x, y, a / b, b, a % b);
      m, n := x * (a / b) + y, x;
    }
  }

  lemma Rewritten(a: int, b: int, d: int, r: int, u: int, v: int)
    requires a == b * d + r
    ensures b * u + r * v == a * v + b * (u - d * v)
  {
    Distribute(v, b * d, r);
    Distribute(b, u, d * v);
    Regroup(b, d, v);
  }

  lemma {:induction false} Bezout(a: nat, b: nat) returns (x: int, y: int)
    requires a > 0 || b > 0
    ensures a * x + b * y == Gcd(a, b)
    decreases b
  {
    if b == 0 {
      x, y := 1, 0;
    } else {
      var u, v := Bezout(b, a % b);
      x, y := v, u - (a / b) * v;
      Rewritten(a, b, a / b, a % b, u, v);
    }
  }

  // ---------- what the clock shows ----------

  /** The clock has reached `time` when it shows the end of the `k`th quantum. */
  predicate Shown(q: nat, time: nat, k: nat) {
    time <= q * k % WORD
  }

  lemma GcdFits(q: nat)
    ensures Gcd(q, WORD) <= WORD
  {
    var m, n := GcdFactors(q, WORD);
    MulSign(Gcd(q, WORD), n);
  }

  /** The latest time that the clock ever shows. */
  function LatestShown(q: nat): nat {
    GcdFits(q);
    WORD - Gcd(q, WORD)
  }

  lemma Wraps(x: nat, d: int)
    requires x < WORD
    ensures (x + WORD * d) % WORD == x
  {}

  lemma MulSign(g: nat, d: int)
    requires g > 0
    ensures d <= 0 ==> g * d <= 0
    ensures d > 0 ==> g * d >= g
  {
    if d > 0 { assert g * d == g + g * (d - 1); }
  }

  lemma BelowMultiple(g: nat, x: int, n: nat)
    requires g > 0 && 0 <= g * x < g * n
    ensures g * x <= g * n - g && g <= g * n
  {
    assert g * (n - x) == g * n - g * x;
    MulSign(g, n - x);
  }

  lemma MultipleRemains(q: nat, w: nat, g: nat, m: nat, n: nat, k: nat)
    requires g > 0 && w > 0 && q == g * m && w == g * n
    ensures q * k % w <= w - g
  {
    var d, v := q * k / w, q * k % w;
    assert q * k == w * d + v;
    Regroup(g, m, k);
    Regroup(g, n, d);
    Distribute(g, m * k, n * d);
    BelowMultiple(g, m * k - n * d, n);
  }

  lemma ShowsMultiples(q: nat, k: nat)
    ensures q * k % WORD <= LatestShown(q)
  {
    var m, n := GcdFactors(q, WORD);
    MultipleRemains(q, WORD, Gcd(q, WORD), m, n, k);
  }

  /** If `g` is a combination of `q` and `w`, some multiple of `q` is `g` short of a multiple of `w`. */
  lemma MultipleShort(q: nat, w: nat, g: nat, n: nat, x: int, y: int) returns (k: nat, e: int)
    requires w > 0 && q * x + w * y == g && w == g * n && n > 0
    ensures q * k == w - g + w * e
  {
    var p := n - 1;
    var u := x * p;
    var z: nat := if u < 0 then -u else 0;
    MulSign(w, z);
    k, e := u + w * z, q * z - y * p;
    Regroup(q, x, p);
    Distribute(p, g, w * y);
    Regroup(w, y, p);
    Distribute(g, n, 1);
    Distribute(q, u, w * z);
    Regroup(q, w, z);
    Distribute(w, q * z, y * p);
  }

  lemma ShowsLatest(q: nat) returns (k: nat)
    ensures q * k % WORD == LatestShown(q)
  {
    var m, n := GcdFactors(q, WORD);
    var x, y := Bezout(q, WORD);
    var e;
    k, e := MultipleShort(q, WORD, Gcd(q, WORD), n, x, y);
    Wraps(LatestShown(q), e);
  }

  /** Whether the clock ever reaches a time: it advances in multiples of the greatest common divisor of the quantum and
      2^32, and it shows all of them. */
  lemma EverShown(q: nat, time: nat)
    ensures (exists k: nat :: Shown(q, time, k)) <==> time <= LatestShown(q)
  {
    if k: nat :| Shown(q, time, k) { ShowsMultiples(q, k); }
    if time <= LatestShown(q) {
      var k := ShowsLatest(q);
      assert Shown(q, time, k);
    }
  }

  // ---------- when the clock first shows a time ----------

  /** `k` is the first quantum from `e` on at whose end the clock has reached `time`. */
  ghost predicate FirstShown(q: nat, time: nat, e: nat, k: nat) {
    e <= k && Shown(q, time, k) && forall j :: e <= j < k ==> !Shown(q, time, j)
  }

  lemma {:induction false} FirstAmong(q: nat, time: nat, e: nat, k: nat)
    requires e <= k && Shown(q, time, k)
    ensures exists f: nat :: FirstShown(q, time, e, f)
    decreases k
  {
    if j :| e <= j < k && Shown(q, time, j) {
      FirstAmong(q, time, e, j);
    } else {
      assert FirstShown(q, time, e, k);
    }
  }

  /** What the clock shows repeats, so it reaches again any time that it ever reaches. */
  lemma ShownAgain(q: nat, time: nat, e: nat)
    requires time <= LatestShown(q)
    ensures exists f: nat :: FirstShown(q, time, e, f)
  {
    EverShown(q, time);
    var k: nat :| Shown(q, time, k);
    var r := k + WORD * e;
    assert q * r == q * k + WORD * (q * e);
    var d := q * k / WORD;
    Wraps(q * k % WORD, d + q * e);
    assert q * r == q * k % WORD + WORD * (d + q * e);
    FirstAmong(q, time, e, r);
  }

  /** The first quantum from `e` on at whose end the clock has reached `time`, if it ever does. */
  ghost function Entry(q: nat, time: nat, e: nat): (k: nat)
    ensures time <= LatestShown(q) ==> FirstShown(q, time, e, k)
  {
    if time <= LatestShown(q) then
      ShownAgain(q, time, e);
      var k: nat :| FirstShown(q, time, e, k);
      k
    else e
  }

  lemma EntryIs(q: nat, time: nat, e: nat, k: nat)
    requires time <= LatestShown(q) && FirstShown(q, time, e, k)
    ensures Entry(q, time, e) == k
  {}
}
