/** Where the constants of the hash come from: the words `K` and `H0` are the fractional parts of the cube and square
    roots of the first primes (sections 5.1 and 6.1 of RFC 6234).  What the small functions mean. */
module Sha256Constants {
  import opened Bytes
  import opened Sha256

  // ---------- the first primes ----------

  ghost predicate IsPrime(n: int) {
    n > 1 && forall a, b :: 1 < a && 1 < b ==> a * b != n
  }

  /** The primes below 18 divide no number but themselves: a test for primes below 18 * 18. */
  predicate Sieve(n: int) {
    && n > 1
    && (n == 2 || n % 2 != 0) && (n == 3 || n % 3 != 0) && (n == 5 || n % 5 != 0) && (n == 7 || n % 7 != 0)
    && (n == 11 || n % 11 != 0) && (n == 13 || n % 13 != 0) && (n == 17 || n % 17 != 0)
  }

  lemma Multiple(n: int, p: nat, x: int)
    requires p > 0 && n == p * x
    ensures n % p == 0
  {
    var d := x - n / p;
    assert p * d == n % p;
  }

  lemma FailsTest(n: int, p: int)
    requires (p == 2 || p == 3 || p == 5 || p == 7 || p == 11 || p == 13 || p == 17) && n > p && n % p == 0
    ensures !Sieve(n)
  {}

  lemma SmallFactor(d: int, e: int)
    requires 1 < d < 18 && 1 < e
    ensures !Sieve(d * e)
  {
    hide Sieve;
    var p := if d % 2 == 0 then 2 else if d % 3 == 0 then 3 else if d % 5 == 0 then 5 else d;
    Factor(d, e, p);
    Multiple(d * e, p, d / p * e);
    FailsTest(d * e, p);
  }

  lemma Factor(d: int, e: int, p: nat)
    requires p > 0 && d % p == 0 && 1 < e && p <= d
    ensures d * e == p * (d / p * e) && p < d * e
  {
    assert d == p * (d / p);
  }

  lemma SieveExact(n: int)
    requires n < 18 * 18
    ensures Sieve(n) <==> IsPrime(n)
  {
    if Sieve(n) {
      forall a, b | 1 < a && 1 < b ensures a * b != n {
        if a < 18 { SmallFactor(a, b); }
        else if b < 18 { SmallFactor(b, a); }
        else { LargeFactors(a, b); }
      }
    } else if n > 1 {
      var p := if n != 2 && n % 2 == 0 then 2 else if n != 3 && n % 3 == 0 then 3 else if n != 5 && n % 5 == 0 then 5
        else if n != 7 && n % 7 == 0 then 7 else if n != 11 && n % 11 == 0 then 11
        else if n != 13 && n % 13 == 0 then 13 else 17;
      assert n == p * (n / p);
    }
  }

  lemma LargeFactors(a: int, b: int)
    requires a >= 18 && b >= 18
    ensures a * b >= 18 * 18
  {
    assert (a - 18) * (b - 18) >= 0;
  }

  /** Nothing from `n` up to `p` passes the test. */
  predicate Gap(n: int, p: int)
    decreases p - n
  {
    n >= p || (!Sieve(n) && Gap(n + 1, p))
  }

  lemma {:induction false} GapExact(n: int, p: int)
    requires Gap(n, p) && p < 18 * 18
    ensures forall i :: n <= i < p ==> !IsPrime(i)
    decreases p - n
  {
    if n < p {
      SieveExact(n);
      GapExact(n + 1, p);
    }
  }

  /** The prime number `t`, counted from 0. */
  function Prime(t: nat): int
    requires t < 64
  {
    [[2, 3, 5, 7, 11, 13, 17, 19],
     [23, 29, 31, 37, 41, 43, 47, 53],
     [59, 61, 67, 71, 73, 79, 83, 89],
     [97, 101, 103, 107, 109, 113, 127, 131],
     [137, 139, 149, 151, 157, 163, 167, 173],
     [179, 181, 191, 193, 197, 199, 211, 223],
     [227, 229, 233, 239, 241, 251, 257, 263],
     [269, 271, 277, 281, 283, 293, 307, 311]][t / 8][t % 8]
  }

  // ---------- the words ----------

  /** `x` is the cube root of `p`, 32 binary places of it. */
  ghost predicate CubeRoot(x: int, p: int) {
    x * x * x <= p * 0x1_0000_0000_0000_0000_0000_0000 < (x + 1) * (x + 1) * (x + 1)
  }

  /** `x` is the square root of `p`, 32 binary places of it. */
  ghost predicate SquareRoot(x: int, p: int) {
    x * x <= p * 0x1_0000_0000_0000_0000 < (x + 1) * (x + 1)
  }

  lemma Primes0()
    ensures Prime(0) == 2 && Prime(1) == 3 && Prime(2) == 5 && Prime(3) == 7
    ensures Prime(4) == 11 && Prime(5) == 13 && Prime(6) == 17 && Prime(7) == 19
    ensures Prime(8) == 23 && Prime(9) == 29 && Prime(10) == 31 && Prime(11) == 37
    ensures Prime(12) == 41 && Prime(13) == 43 && Prime(14) == 47 && Prime(15) == 53
  {}

  lemma Constants0()
    ensures K(0) == 0x428a2f98 && K(1) == 0x71374491 && K(2) == 0xb5c0fbcf && K(3) == 0xe9b5dba5
    ensures K(4) == 0x3956c25b && K(5) == 0x59f111f1 && K(6) == 0x923f82a4 && K(7) == 0xab1c5ed5
    ensures K(8) == 0xd807aa98 && K(9) == 0x12835b01 && K(10) == 0x243185be && K(11) == 0x550c7dc3
    ensures K(12) == 0x72be5d74 && K(13) == 0x80deb1fe && K(14) == 0x9bdc06a7 && K(15) == 0xc19bf174
  {}

  lemma Primes16()
    ensures Prime(15) == 53
    ensures Prime(16) == 59 && Prime(17) == 61 && Prime(18) == 67 && Prime(19) == 71
    ensures Prime(20) == 73 && Prime(21) == 79 && Prime(22) == 83 && Prime(23) == 89
    ensures Prime(24) == 97 && Prime(25) == 101 && Prime(26) == 103 && Prime(27) == 107
    ensures Prime(28) == 109 && Prime(29) == 113 && Prime(30) == 127 && Prime(31) == 131
  {}

  lemma Constants16()
    ensures K(16) == 0xe49b69c1 && K(17) == 0xefbe4786 && K(18) == 0x0fc19dc6 && K(19) == 0x240ca1cc
    ensures K(20) == 0x2de92c6f && K(21) == 0x4a7484aa && K(22) == 0x5cb0a9dc && K(23) == 0x76f988da
    ensures K(24) == 0x983e5152 && K(25) == 0xa831c66d && K(26) == 0xb00327c8 && K(27) == 0xbf597fc7
    ensures K(28) == 0xc6e00bf3 && K(29) == 0xd5a79147 && K(30) == 0x06ca6351 && K(31) == 0x14292967
  {}

  lemma Primes32()
    ensures Prime(31) == 131
    ensures Prime(32) == 137 && Prime(33) == 139 && Prime(34) == 149 && Prime(35) == 151
    ensures Prime(36) == 157 && Prime(37) == 163 && Prime(38) == 167 && Prime(39) == 173
    ensures Prime(40) == 179 && Prime(41) == 181 && Prime(42) == 191 && Prime(43) == 193
    ensures Prime(44) == 197 && Prime(45) == 199 && Prime(46) == 211 && Prime(47) == 223
  {}

  lemma Constants32()
    ensures K(32) == 0x27b70a85 && K(33) == 0x2e1b2138 && K(34) == 0x4d2c6dfc && K(35) == 0x53380d13
    ensures K(36) == 0x650a7354 && K(37) == 0x766a0abb && K(38) == 0x81c2c92e && K(39) == 0x92722c85
    ensures K(40) == 0xa2bfe8a1 && K(41) == 0xa81a664b && K(42) == 0xc24b8b70 && K(43) == 0xc76c51a3
    ensures K(44) == 0xd192e819 && K(45) == 0xd6990624 && K(46) == 0xf40e3585 && K(47) == 0x106aa070
  {}

  lemma Primes48()
    ensures Prime(47) == 223
    ensures Prime(48) == 227 && Prime(49) == 229 && Prime(50) == 233 && Prime(51) == 239
    ensures Prime(52) == 241 && Prime(53) == 251 && Prime(54) == 257 && Prime(55) == 263
    ensures Prime(56) == 269 && Prime(57) == 271 && Prime(58) == 277 && Prime(59) == 281
    ensures Prime(60) == 283 && Prime(61) == 293 && Prime(62) == 307 && Prime(63) == 311
  {}

  lemma Constants48()
    ensures K(48) == 0x19a4c116 && K(49) == 0x1e376c08 && K(50) == 0x2748774c && K(51) == 0x34b0bcb5
    ensures K(52) == 0x391c0cb3 && K(53) == 0x4ed8aa4a && K(54) == 0x5b9cca4f && K(55) == 0x682e6ff3
    ensures K(56) == 0x748f82ee && K(57) == 0x78a5636f && K(58) == 0x84c87814 && K(59) == 0x8cc70208
    ensures K(60) == 0x90befffa && K(61) == 0xa4506ceb && K(62) == 0xbef9a3f7 && K(63) == 0xc67178f2
  {}

  /** Where to look for the prime number `t`: behind the one before it. */
  function From(t: nat): int
    requires t < 64
  {
    if t == 0 then 0 else Prime(t - 1) + 1
  }

  /** `Prime(t)` is the next prime, and `K(t)` is the fraction of its cube root. */
  ghost predicate Entry(t: nat)
    requires t < 64
  {
    && IsPrime(Prime(t))
    && (forall i :: From(t) <= i < Prime(t) ==> !IsPrime(i))
    && exists m: nat :: CubeRoot(m * 0x1_0000_0000 + K(t) as nat, Prime(t))
  }

  lemma Row(t: nat, from: int, p: int, x: nat, k: word)
    requires t < 64 && K(t) == k && Prime(t) == p < 18 * 18 && From(t) == from
    requires Sieve(p) && Gap(from, p) && CubeRoot(x, p) && x % 0x1_0000_0000 == k as nat
    ensures Entry(t)
  {
    hide K, Prime, From, Sieve, Gap, IsPrime;
    SieveExact(p);
    GapExact(from, p);
    assert x == x / 0x1_0000_0000 * 0x1_0000_0000 + k as nat;
  }

  lemma Rows0()
    ensures forall t :: 0 <= t < 4 ==> Entry(t)
  {
    Constants0();
    Primes0();
    hide K, Prime, Entry;
    Row(0, 0, 2, 0x1_428a2f98, 0x428a2f98);
    Row(1, 3, 3, 0x1_71374491, 0x71374491);
    Row(2, 4, 5, 0x1_b5c0fbcf, 0xb5c0fbcf);
    Row(3, 6, 7, 0x1_e9b5dba5, 0xe9b5dba5);
  }

  lemma Rows4()
    ensures forall t :: 4 <= t < 8 ==> Entry(t)
  {
    Constants0();
    Primes0();
    hide K, Prime, Entry;
    Row(4, 8, 11, 0x2_3956c25b, 0x3956c25b);
    Row(5, 12, 13, 0x2_59f111f1, 0x59f111f1);
    Row(6, 14, 17, 0x2_923f82a4, 0x923f82a4);
    Row(7, 18, 19, 0x2_ab1c5ed5, 0xab1c5ed5);
  }

  lemma Rows8()
    ensures forall t :: 8 <= t < 12 ==> Entry(t)
  {
    Constants0();
    Primes0();
    hide K, Prime, Entry;
    Row(8, 20, 23, 0x2_d807aa98, 0xd807aa98);
    Row(9, 24, 29, 0x3_12835b01, 0x12835b01);
    Row(10, 30, 31, 0x3_243185be, 0x243185be);
    Row(11, 32, 37, 0x3_550c7dc3, 0x550c7dc3);
  }

  lemma Rows12()
    ensures forall t :: 12 <= t < 16 ==> Entry(t)
  {
    Constants0();
    Primes0();
    hide K, Prime, Entry;
    Row(12, 38, 41, 0x3_72be5d74, 0x72be5d74);
    Row(13, 42, 43, 0x3_80deb1fe, 0x80deb1fe);
    Row(14, 44, 47, 0x3_9bdc06a7, 0x9bdc06a7);
    Row(15, 48, 53, 0x3_c19bf174, 0xc19bf174);
  }

  lemma Rows16()
    ensures forall t :: 16 <= t < 20 ==> Entry(t)
  {
    Constants16();
    Primes16();
    hide K, Prime, Entry;
    Row(16, 54, 59, 0x3_e49b69c1, 0xe49b69c1);
    Row(17, 60, 61, 0x3_efbe4786, 0xefbe4786);
    Row(18, 62, 67, 0x4_0fc19dc6, 0x0fc19dc6);
    Row(19, 68, 71, 0x4_240ca1cc, 0x240ca1cc);
  }

  lemma Rows20()
    ensures forall t :: 20 <= t < 24 ==> Entry(t)
  {
    Constants16();
    Primes16();
    hide K, Prime, Entry;
    Row(20, 72, 73, 0x4_2de92c6f, 0x2de92c6f);
    Row(21, 74, 79, 0x4_4a7484aa, 0x4a7484aa);
    Row(22, 80, 83, 0x4_5cb0a9dc, 0x5cb0a9dc);
    Row(23, 84, 89, 0x4_76f988da, 0x76f988da);
  }

  lemma Rows24()
    ensures forall t :: 24 <= t < 28 ==> Entry(t)
  {
    Constants16();
    Primes16();
    hide K, Prime, Entry;
    Row(24, 90, 97, 0x4_983e5152, 0x983e5152);
    Row(25, 98, 101, 0x4_a831c66d, 0xa831c66d);
    Row(26, 102, 103, 0x4_b00327c8, 0xb00327c8);
    Row(27, 104, 107, 0x4_bf597fc7, 0xbf597fc7);
  }

  lemma Rows28()
    ensures forall t :: 28 <= t < 32 ==> Entry(t)
  {
    Constants16();
    Primes16();
    hide K, Prime, Entry;
    Row(28, 108, 109, 0x4_c6e00bf3, 0xc6e00bf3);
    Row(29, 110, 113, 0x4_d5a79147, 0xd5a79147);
    Row(30, 114, 127, 0x5_06ca6351, 0x06ca6351);
    Row(31, 128, 131, 0x5_14292967, 0x14292967);
  }

  lemma Rows32()
    ensures forall t :: 32 <= t < 36 ==> Entry(t)
  {
    Constants32();
    Primes32();
    hide K, Prime, Entry;
    Row(32, 132, 137, 0x5_27b70a85, 0x27b70a85);
    Row(33, 138, 139, 0x5_2e1b2138, 0x2e1b2138);
    Row(34, 140, 149, 0x5_4d2c6dfc, 0x4d2c6dfc);
    Row(35, 150, 151, 0x5_53380d13, 0x53380d13);
  }

  lemma Rows36()
    ensures forall t :: 36 <= t < 40 ==> Entry(t)
  {
    Constants32();
    Primes32();
    hide K, Prime, Entry;
    Row(36, 152, 157, 0x5_650a7354, 0x650a7354);
    Row(37, 158, 163, 0x5_766a0abb, 0x766a0abb);
    Row(38, 164, 167, 0x5_81c2c92e, 0x81c2c92e);
    Row(39, 168, 173, 0x5_92722c85, 0x92722c85);
  }

  lemma Rows40()
    ensures forall t :: 40 <= t < 44 ==> Entry(t)
  {
    Constants32();
    Primes32();
    hide K, Prime, Entry;
    Row(40, 174, 179, 0x5_a2bfe8a1, 0xa2bfe8a1);
    Row(41, 180, 181, 0x5_a81a664b, 0xa81a664b);
    Row(42, 182, 191, 0x5_c24b8b70, 0xc24b8b70);
    Row(43, 192, 193, 0x5_c76c51a3, 0xc76c51a3);
  }

  lemma Rows44()
    ensures forall t :: 44 <= t < 48 ==> Entry(t)
  {
    Constants32();
    Primes32();
    hide K, Prime, Entry;
    Row(44, 194, 197, 0x5_d192e819, 0xd192e819);
    Row(45, 198, 199, 0x5_d6990624, 0xd6990624);
    Row(46, 200, 211, 0x5_f40e3585, 0xf40e3585);
    Row(47, 212, 223, 0x6_106aa070, 0x106aa070);
  }

  lemma Rows48()
    ensures forall t :: 48 <= t < 52 ==> Entry(t)
  {
    Constants48();
    Primes48();
    hide K, Prime, Entry;
    Row(48, 224, 227, 0x6_19a4c116, 0x19a4c116);
    Row(49, 228, 229, 0x6_1e376c08, 0x1e376c08);
    Row(50, 230, 233, 0x6_2748774c, 0x2748774c);
    Row(51, 234, 239, 0x6_34b0bcb5, 0x34b0bcb5);
  }

  lemma Rows52()
    ensures forall t :: 52 <= t < 56 ==> Entry(t)
  {
    Constants48();
    Primes48();
    hide K, Prime, Entry;
    Row(52, 240, 241, 0x6_391c0cb3, 0x391c0cb3);
    Row(53, 242, 251, 0x6_4ed8aa4a, 0x4ed8aa4a);
    Row(54, 252, 257, 0x6_5b9cca4f, 0x5b9cca4f);
    Row(55, 258, 263, 0x6_682e6ff3, 0x682e6ff3);
  }

  lemma Rows56()
    ensures forall t :: 56 <= t < 60 ==> Entry(t)
  {
    Constants48();
    Primes48();
    hide K, Prime, Entry;
    Row(56, 264, 269, 0x6_748f82ee, 0x748f82ee);
    Row(57, 270, 271, 0x6_78a5636f, 0x78a5636f);
    Row(58, 272, 277, 0x6_84c87814, 0x84c87814);
    Row(59, 278, 281, 0x6_8cc70208, 0x8cc70208);
  }

  lemma Rows60()
    ensures forall t :: 60 <= t < 64 ==> Entry(t)
  {
    Constants48();
    Primes48();
    hide K, Prime, Entry;
    Row(60, 282, 283, 0x6_90befffa, 0x90befffa);
    Row(61, 284, 293, 0x6_a4506ceb, 0xa4506ceb);
    Row(62, 294, 307, 0x6_bef9a3f7, 0xbef9a3f7);
    Row(63, 308, 311, 0x6_c67178f2, 0xc67178f2);
  }

  lemma Entries(t: nat)
    requires t < 64
    ensures Entry(t)
  {
    hide Entry;
    match t / 4
    case 0 => Rows0();
    case 1 => Rows4();
    case 2 => Rows8();
    case 3 => Rows12();
    case 4 => Rows16();
    case 5 => Rows20();
    case 6 => Rows24();
    case 7 => Rows28();
    case 8 => Rows32();
    case 9 => Rows36();
    case 10 => Rows40();
    case 11 => Rows44();
    case 12 => Rows48();
    case 13 => Rows52();
    case 14 => Rows56();
    case _ => Rows60();
  }

  /** The round constants of section 5.1 of RFC 6234: the first 32 bits of the fractional parts of the cube roots of the
      first 64 primes. */
  lemma ConstantsAreCubeRoots(t: nat)
    requires t < 64
    ensures IsPrime(Prime(t)) && forall i :: (if t == 0 then 0 else Prime(t - 1) + 1) <= i < Prime(t) ==> !IsPrime(i)
    ensures exists m: nat :: CubeRoot(m * 0x1_0000_0000 + K(t) as nat, Prime(t))
  {
    hide K, Prime, IsPrime, CubeRoot;
    Entries(t);
  }

  lemma InitialWord(t: nat, p: int, x: nat, h: word)
    requires t < 8 && H0()[t] == h && Prime(t) == p && SquareRoot(x, p) && x % 0x1_0000_0000 == h as nat
    ensures exists m: nat :: SquareRoot(m * 0x1_0000_0000 + H0()[t] as nat, Prime(t))
  {
    hide H0, Prime, SquareRoot;
    assert x == x / 0x1_0000_0000 * 0x1_0000_0000 + h as nat;
  }

  /** The initial hash value of section 6.1 of RFC 6234: the same with the square roots of the first eight. */
  lemma InitialAreSquareRoots(t: nat)
    requires t < 8
    ensures exists m: nat :: SquareRoot(m * 0x1_0000_0000 + H0()[t] as nat, Prime(t))
  {
    Primes0();
    hide Prime;
    match t
    case 0 => InitialWord(0, 2, 0x1_6a09e667, 0x6a09e667);
    case 1 => InitialWord(1, 3, 0x1_bb67ae85, 0xbb67ae85);
    case 2 => InitialWord(2, 5, 0x2_3c6ef372, 0x3c6ef372);
    case 3 => InitialWord(3, 7, 0x2_a54ff53a, 0xa54ff53a);
    case 4 => InitialWord(4, 11, 0x3_510e527f, 0x510e527f);
    case 5 => InitialWord(5, 13, 0x3_9b05688c, 0x9b05688c);
    case 6 => InitialWord(6, 17, 0x4_1f83d9ab, 0x1f83d9ab);
    case _ => InitialWord(7, 19, 0x4_5be0cd19, 0x5be0cd19);
  }

  // ---------- the small functions ----------

  /** `Ch` takes the bits of `y` where `x` has ones and those of `z` elsewhere. */
  lemma ChSelects(x: word, y: word, z: word)
    ensures Ch(x, y, z) & x == y & x
    ensures Ch(x, y, z) & !x == z & !x
  {}

  /** `Maj` has the bits that two of its arguments agree on. */
  lemma MajAgrees(x: word, y: word, z: word)
    ensures Maj(x, y, z) & !(x ^ y) == x & !(x ^ y)
    ensures Maj(x, y, z) & !(x ^ z) == x & !(x ^ z)
    ensures Maj(x, y, z) & !(y ^ z) == y & !(y ^ z)
  {
    MajFirst(x, y, z);
    MajOuter(x, y, z);
    MajLast(x, y, z);
    hide Maj;
  }

  lemma MajFirst(x: word, y: word, z: word)
    ensures Maj(x, y, z) & !(x ^ y) == x & !(x ^ y)
  {}

  lemma MajOuter(x: word, y: word, z: word)
    ensures Maj(x, y, z) & !(x ^ z) == x & !(x ^ z)
  {}

  lemma MajLast(x: word, y: word, z: word)
    ensures Maj(x, y, z) & !(y ^ z) == y & !(y ^ z)
  {}

  lemma AppendByte(x: word, b: byte)
    requires x < 0x100_0000
    ensures ((x << 8) | b as word) as nat == x as nat * 256 + b as nat
  {}

  lemma Joined(b0: byte, b1: byte, b2: byte, b3: byte)
    ensures var x := (b0 as word << 8) | b1 as word;
      && x < 0x1_0000 && (x << 8) | b2 as word < 0x100_0000
      && Word(b0, b1, b2, b3) == (((x << 8) | b2 as word) << 8) | b3 as word
  {}

  lemma OneByte(b: byte)
    ensures b as word < 0x100_0000 && b as word as nat == b as nat
  {}

  lemma ValueOfWord(b0: byte, b1: byte, b2: byte, b3: byte)
    ensures Value([b0, b1, b2, b3]) == ((b0 as nat * 256 + b1 as nat) * 256 + b2 as nat) * 256 + b3 as nat
  {
    ValueStep([b0, b1, b2, b3], 3);
    assert [b0, b1, b2, b3][..3] == [b0, b1, b2];
    ValueStep([b0, b1, b2], 2);
    assert [b0, b1, b2][..2] == [b0, b1];
    ValueStep([b0, b1], 1);
    assert [b0, b1][..1] == [b0];
    ValueStep([b0], 0);
  }

  /** `Word` is big-endian. */
  lemma WordIsBigEndian(b0: byte, b1: byte, b2: byte, b3: byte)
    ensures Value([b0, b1, b2, b3]) == Word(b0, b1, b2, b3) as nat
  {
    hide Word, Value;
    ValueOfWord(b0, b1, b2, b3);
    Joined(b0, b1, b2, b3);
    OneByte(b0);
    var x := (b0 as word << 8) | b1 as word;
    AppendByte(b0 as word, b1);
    AppendByte(x, b2);
    AppendByte((x << 8) | b2 as word, b3);
  }
}
