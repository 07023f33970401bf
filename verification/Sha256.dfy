/** Bytes and their values. */
module Bytes {
  type byte = bv8

  lemma ByteBack(x: nat)
    requires x < 256
    ensures (x as byte) as nat == x
  {}
}

/** The hash of RFC 6234 as a fold over padded blocks, and the program's in-place computation of it. */
module Sha256 {
  import opened Bytes

  type word = bv32

  // ---------- the functions of section 5.1 of RFC 6234 ----------

  /** Addition of words is modulo 2^32 (section 3). */
  function Add(x: word, y: word): (z: word) { x + y }

  function Ch(x: word, y: word, z: word): word { (x & y) ^ (!x & z) }
  function Maj(x: word, y: word, z: word): word { (x & y) ^ (x & z) ^ (y & z) }

  /** Section 3 defines a rotation by shifting both ways and joining the parts. */
  function BigSigma0(x: word): word { ((x >> 2) | (x << 30)) ^ ((x >> 13) | (x << 19)) ^ ((x >> 22) | (x << 10)) }
  function BigSigma1(x: word): word { ((x >> 6) | (x << 26)) ^ ((x >> 11) | (x << 21)) ^ ((x >> 25) | (x << 7)) }
  function SmallSigma0(x: word): word { ((x >> 7) | (x << 25)) ^ ((x >> 18) | (x << 14)) ^ (x >> 3) }
  function SmallSigma1(x: word): word { ((x >> 17) | (x << 15)) ^ ((x >> 19) | (x << 13)) ^ (x >> 10) }

  lemma ShiftsRotate(x: word)
    ensures BigSigma0(x) == x.RotateRight(2) ^ x.RotateRight(13) ^ x.RotateRight(22)
    ensures BigSigma1(x) == x.RotateRight(6) ^ x.RotateRight(11) ^ x.RotateRight(25)
    ensures SmallSigma0(x) == x.RotateRight(7) ^ x.RotateRight(18) ^ (x >> 3)
    ensures SmallSigma1(x) == x.RotateRight(17) ^ x.RotateRight(19) ^ (x >> 10)
  {}

  function K(t: nat): word
    requires t < 64
  {
    [[0x428a2f98, 0x71374491, 0xb5c0fbcf, 0xe9b5dba5, 0x3956c25b, 0x59f111f1, 0x923f82a4, 0xab1c5ed5],
     [0xd807aa98, 0x12835b01, 0x243185be, 0x550c7dc3, 0x72be5d74, 0x80deb1fe, 0x9bdc06a7, 0xc19bf174],
     [0xe49b69c1, 0xefbe4786, 0x0fc19dc6, 0x240ca1cc, 0x2de92c6f, 0x4a7484aa, 0x5cb0a9dc, 0x76f988da],
     [0x983e5152, 0xa831c66d, 0xb00327c8, 0xbf597fc7, 0xc6e00bf3, 0xd5a79147, 0x06ca6351, 0x14292967],
     [0x27b70a85, 0x2e1b2138, 0x4d2c6dfc, 0x53380d13, 0x650a7354, 0x766a0abb, 0x81c2c92e, 0x92722c85],
     [0xa2bfe8a1, 0xa81a664b, 0xc24b8b70, 0xc76c51a3, 0xd192e819, 0xd6990624, 0xf40e3585, 0x106aa070],
     [0x19a4c116, 0x1e376c08, 0x2748774c, 0x34b0bcb5, 0x391c0cb3, 0x4ed8aa4a, 0x5b9cca4f, 0x682e6ff3],
     [0x748f82ee, 0x78a5636f, 0x84c87814, 0x8cc70208, 0x90befffa, 0xa4506ceb, 0xbef9a3f7, 0xc67178f2]][t / 8][t % 8]
  }

  /** The initial hash value of section 6.1. */
  function H0(): (h: seq<word>)
    ensures |h| == 8
  {
    [0x6a09e667, 0xbb67ae85, 0x3c6ef372, 0xa54ff53a, 0x510e527f, 0x9b05688c, 0x1f83d9ab, 0x5be0cd19]
  }

  // ---------- the compression of section 6.2 ----------

  /** A big-endian word. */
  function Word(b0: byte, b1: byte, b2: byte, b3: byte): word {
    (b0 as word << 24) | (b1 as word << 16) | (b2 as word << 8) | b3 as word
  }

  /** The first `t` words of the message schedule.  A block of 64 bytes has a schedule of 64 words. */
  function Schedule(block: seq<byte>, t: nat): (w: seq<word>)
    requires |block| == 64 && t <= 64
    ensures |w| == t
  {
    if t == 0 then []
    else
      var w := Schedule(block, t - 1);
      w + [if t <= 16 then Word(block[4 * t - 4], block[4 * t - 3], block[4 * t - 2], block[4 * t - 1])
           else Add(Add(Add(SmallSigma1(w[t - 3]), w[t - 8]), SmallSigma0(w[t - 16])), w[t - 17])]
  }

  datatype Vars = Vars(a: word, b: word, c: word, d: word, e: word, f: word, g: word, h: word)

  function Round(v: Vars, k: word, w: word): Vars {
    var t1 := Add(Add(Add(Add(v.h, BigSigma1(v.e)), Ch(v.e, v.f, v.g)), k), w);
    var t2 := Add(BigSigma0(v.a), Maj(v.a, v.b, v.c));
    Vars(Add(t1, t2), v.a, v.b, v.c, Add(v.d, t1), v.e, v.f, v.g)
  }

  /** The first `t` rounds. */
  function Rounds(w: seq<word>, v: Vars, t: nat): Vars
    requires |w| == 64 && t <= 64
  {
    if t == 0 then v else Round(Rounds(w, v, t - 1), K(t - 1), w[t - 1])
  }

  function Load(h: seq<word>): Vars
    requires |h| == 8
  {
    Vars(h[0], h[1], h[2], h[3], h[4], h[5], h[6], h[7])
  }

  function Plus(h: seq<word>, v: Vars): (r: seq<word>)
    requires |h| == 8
    ensures |r| == 8
  {
    [Add(h[0], v.a), Add(h[1], v.b), Add(h[2], v.c), Add(h[3], v.d),
     Add(h[4], v.e), Add(h[5], v.f), Add(h[6], v.g), Add(h[7], v.h)]
  }

  function Compress(h: seq<word>, block: seq<byte>): (r: seq<word>)
    requires |h| == 8 && |block| == 64
    ensures |r| == 8
  {
    var w := Schedule(block, |block|); Plus(h, Rounds(w, Load(h), |w|))
  }

  /** The fold of the compression over the blocks of a message of whole blocks. */
  function Fold(h: seq<word>, message: seq<byte>): (r: seq<word>)
    requires |h| == 8 && |message| % 64 == 0
    ensures |r| == 8
    decreases |message|
  {
    if message == [] then h else Fold(Compress(h, message[..64]), message[64..])
  }

  // ---------- the padding of section 4.1 ----------

  function Zeros(n: nat): (r: seq<byte>)
    ensures |r| == n
    ensures forall i :: 0 <= i < n ==> r[i] == 0
  {
    seq(n, _ => 0)
  }

  const U64: nat := 0x1_0000_0000_0000_0000

  /** A 64-bit integer shifted right by 56, 48, ... and 0 bits. */
  function Shifts(x: nat): (q: seq<nat>)
    ensures |q| == 8
  {
    [x / 0x100_0000_0000_0000, x / 0x1_0000_0000_0000, x / 0x100_0000_0000, x / 0x1_0000_0000,
     x / 0x100_0000, x / 0x1_0000, x / 0x100, x]
  }

  /** The least significant byte. */
  function Low(x: nat): byte { (x % 256) as byte }

  /** A 64-bit integer as bytes, most significant first. */
  function BigEndian(x: nat): (r: seq<byte>)
    ensures |r| == 8
    ensures forall i :: 0 <= i < 8 ==> r[i] == Low(Shifts(x)[i])
  {
    seq(8, i requires 0 <= i < 8 => Low(Shifts(x)[i]))
  }

  lemma FillsUp(n: nat)
    ensures (n + 9 + (55 - n) % 64) % 64 == 0
  {
    var q, r := (55 - n) / 64, (55 - n) % 64;
    assert 55 - n == 64 * q + r;
    assert n + 9 + r == 64 * (1 - q);
  }

  /** What follows a message of `n` bytes: one 1 bit, zeros, and the length in bits, which is a 64-bit quantity. */
  function Padding(n: nat): (r: seq<byte>)
    ensures |r| >= 9 && (n + |r|) % 64 == 0
  {
    FillsUp(n);
    [0x80] + Zeros((55 - n) % 64) + BigEndian(n * 8 % U64)
  }

  function Pad(message: seq<byte>): (r: seq<byte>)
    ensures |r| % 64 == 0
  {
    message + Padding(|message|)
  }

  /** The digest as eight words. */
  function Digest(message: seq<byte>): (r: seq<word>)
    ensures |r| == 8
  {
    Fold(H0(), Pad(message))
  }

  // ---------- what the padding achieves ----------

  /** The value of a big-endian byte string. */
  function Value(bs: seq<byte>): nat {
    if bs == [] then 0 else Value(bs[..|bs| - 1]) * 256 + bs[|bs| - 1] as nat
  }

  lemma LowValue(x: nat)
    ensures Low(x) as nat == x % 256
  {
    ByteBack(x % 256);
  }

  lemma ValueStep(bs: seq<byte>, k: nat)
    requires |bs| == k + 1
    ensures Value(bs) == Value(bs[..k]) * 256 + bs[k] as nat
  {}

  /** Bytes taken off successive quotients put the number together again. */
  lemma {:induction false} Horner(b: seq<byte>, q: seq<nat>)
    requires |b| == |q| > 0 && q[0] < 256
    requires forall i :: 0 <= i < |b| ==> b[i] == Low(q[i])
    requires forall i, j :: 0 <= i < j < |q| && j == i + 1 ==> q[i] == q[j] / 256
    ensures Value(b) == q[|q| - 1]
  {
    hide Low;
    var k := |b| - 1;
    if k > 0 {
      Horner(b[..k], q[..k]);
      assert q[k - 1] == q[k] / 256;
    } else {
      assert b[..k] == [];
    }
    ValueStep(b, k);
    LowValue(q[k]);
  }

  lemma ShiftsDivide(x: nat)
    requires x < U64
    ensures Shifts(x)[0] < 256
    ensures forall i, j :: 0 <= i < j < 8 && j == i + 1 ==> Shifts(x)[i] == Shifts(x)[j] / 256
  {}

  lemma BigEndianValue(x: nat)
    requires x < U64
    ensures Value(BigEndian(x)) == x
  {
    hide Shifts;
    ShiftsDivide(x);
    Horner(BigEndian(x), Shifts(x));
    assert Shifts(x)[7] == x by { LastShift(x); }
  }

  lemma LastShift(x: nat)
    ensures Shifts(x)[7] == x
  {}

  lemma PaddingParts(n: nat) returns (z: nat)
    ensures z < 64 && Padding(n) == [0x80] + Zeros(z) + BigEndian(n * 8 % U64)
    ensures Value(BigEndian(n * 8 % U64)) == n * 8 % U64
  {
    z := (55 - n) % 64;
    BigEndianValue(n * 8 % U64);
  }

  /** The padded message consists of whole blocks, as few as possible: the message comes first, then one 1 bit, then
      zeros, then eight bytes whose value is the message's length in bits, modulo 2^64. */
  lemma PaddingDecodes(message: seq<byte>)
    ensures var n, p := |message|, Pad(message);
      && n + 9 <= |p| < n + 73
      && p[..n] == message && p[n] == 0x80
      && (forall i :: n < i < |p| - 8 ==> p[i] == 0)
      && Value(p[|p| - 8..]) == n * 8 % 0x1_0000_0000_0000_0000
  {
    hide Padding, Value, BigEndian;
    var n, p := |message|, Pad(message);
    var z := PaddingParts(n);
    assert p == message + ([0x80] + Zeros(z) + BigEndian(n * 8 % U64));
    assert p[|p| - 8..] == BigEndian(n * 8 % U64);
  }

  /** Different messages have different padded messages. */
  lemma PadInjective(a: seq<byte>, b: seq<byte>)
    requires |a| < 0x2000_0000_0000_0000 && |b| < 0x2000_0000_0000_0000 && Pad(a) == Pad(b)
    ensures a == b
  {
    PaddingDecodes(a);
    PaddingDecodes(b);
  }

  lemma {:induction false} FoldAppend(h: seq<word>, a: seq<byte>, b: seq<byte>)
    requires |h| == 8 && |a| % 64 == 0 && |b| % 64 == 0
    ensures Fold(h, a + b) == Fold(Fold(h, a), b)
    decreases |a|
  {
    if a == [] {
      assert a + b == b;
    } else {
      assert (a + b)[..64] == a[..64] && (a + b)[64..] == a[64..] + b;
      FoldAppend(Compress(h, a[..64]), a[64..], b);
    }
  }

  // ---------- the program ----------

  /** Prepare the message schedule. */
  method Prepare(block: array<byte>, start: nat) returns (w: array<word>)
    requires start + 64 <= block.Length
    ensures fresh(w) && w.Length == 64 && w[..] == Schedule(block[start..start + 64], |block[start..start + 64]|)
  {
    hide SmallSigma0, SmallSigma1, Word, Add;
    w := new word[64];
    ghost var m := block[start..start + 64];
    for t := 0 to w.Length
      invariant w[..t] == Schedule(m, t)
    {
      if t < 16 {
        var p := start + 4 * t;
        w[t] := Word(block[p], block[p + 1], block[p + 2], block[p + 3]);
      } else {
        assert forall i :: 0 <= i < t ==> w[i] == w[..t][i];
        w[t] := Add(Add(Add(SmallSigma1(w[t - 2]), w[t - 7]), SmallSigma0(w[t - 15])), w[t - 16]);
      }
      assert w[..t + 1] == w[..t] + [w[t]];
    }
    assert w[..] == w[..w.Length];
  }

  /** The working variables after all rounds. */
  method MainLoop(w: array<word>, start: Vars) returns (end: Vars)
    requires w.Length == 64
    ensures end == Rounds(w[..], start, w.Length)
  {
    hide BigSigma0, BigSigma1, Ch, Maj, K, Add;
    var Vars(a, b, c, d, e, f, g, h) := start;
    for t := 0 to w.Length
      invariant Vars(a, b, c, d, e, f, g, h) == Rounds(w[..], start, t)
    {
      var t1 := Add(Add(Add(Add(h, BigSigma1(e)), Ch(e, f, g)), K(t)), w[t]);
      var t2 := Add(BigSigma0(a), Maj(a, b, c));
      h := g;
      g := f;
      f := e;
      e := Add(d, t1);
      d := c;
      c := b;
      b := a;
      a := Add(t1, t2);
    }
    end := Vars(a, b, c, d, e, f, g, h);
  }

  /** Add the working variables to the hash. */
  method AddInto(hash: array<word>, v: Vars)
    requires hash.Length == 8
    modifies hash
    ensures hash[..] == Plus(old(hash[..]), v)
  {
    hide Add;
    hash[0], hash[1], hash[2], hash[3] := Add(hash[0], v.a), Add(hash[1], v.b), Add(hash[2], v.c), Add(hash[3], v.d);
    hash[4], hash[5], hash[6], hash[7] := Add(hash[4], v.e), Add(hash[5], v.f), Add(hash[6], v.g), Add(hash[7], v.h);
  }

  /** Fold the block that starts at `start` into the hash. */
  method Process(block: array<byte>, start: nat, hash: array<word>)
    requires start + 64 <= block.Length && hash.Length == 8
    modifies hash
    ensures hash[..] == Compress(old(hash[..]), block[start..start + 64])
  {
    hide Plus;
    var w := Prepare(block, start);
    var v := Vars(hash[0], hash[1], hash[2], hash[3], hash[4], hash[5], hash[6], hash[7]);
    assert v == Load(hash[..]);
    v := MainLoop(w, v);
    AddInto(hash, v);
  }

  /** Put the length in bits into the last eight bytes of a block. */
  method SetLength(block: array<byte>, bits: nat)
    requires block.Length == 64
    modifies block
    ensures block[..56] == old(block[..56]) && block[56..] == BigEndian(bits)
  {
    hide Low;
    block[56] := Low(bits / 0x100_0000_0000_0000);
    block[57] := Low(bits / 0x1_0000_0000_0000);
    block[58] := Low(bits / 0x100_0000_0000);
    block[59] := Low(bits / 0x1_0000_0000);
    block[60] := Low(bits / 0x100_0000);
    block[61] := Low(bits / 0x1_0000);
    block[62] := Low(bits / 0x100);
    block[63] := Low(bits);
  }

  /** Clear a block. */
  method Clear(block: array<byte>)
    modifies block
    ensures block[..] == Zeros(block.Length)
  {
    for i := 0 to block.Length
      invariant forall j :: 0 <= j < i ==> block[j] == 0
    {
      block[i] := 0;
    }
  }

  lemma OneBlock(h: seq<word>, block: seq<byte>)
    requires |h| == 8 && |block| == 64
    ensures Fold(h, block) == Compress(h, block)
  {
    assert block[..64] == block && block[64..] == [];
  }

  /** The last block or blocks: what is left of the message, and the padding. */
  lemma LastBlocks(rest: seq<byte>, nbyte: nat)
    requires |rest| == nbyte % 64
    ensures (|rest| + |Padding(nbyte)|) % 64 == 0
    ensures var l := BigEndian(nbyte * 8 % U64);
      rest + Padding(nbyte) ==
        if |rest| <= 55 then rest + [0x80] + Zeros(55 - |rest|) + l
        else (rest + [0x80] + Zeros(63 - |rest|)) + (Zeros(56) + l)
  {
    hide BigEndian;
    var r := |rest|;
    assert (55 - nbyte) % 64 == if r <= 55 then 55 - r else 119 - r;
    var l := BigEndian(nbyte * 8 % U64);
    if r > 55 {
      assert Zeros(119 - r) == Zeros(63 - r) + Zeros(56);
    }
  }

  /** Compressing the last one or two blocks folds the rest of the message and its padding. */
  lemma FinalFold(h: seq<word>, h1: seq<word>, rest: seq<byte>, nbyte: nat, last: seq<byte>)
    requires |h| == 8 && |h1| == 8 && |rest| == nbyte % 64 && |last| == 64
    requires if |rest| <= 55 then h1 == h else h1 == Compress(h, rest + [0x80] + Zeros(63 - |rest|))
    requires var l := BigEndian(nbyte * 8 % U64);
      last == if |rest| <= 55 then rest + [0x80] + Zeros(55 - |rest|) + l else Zeros(56) + l
    ensures |rest + Padding(nbyte)| % 64 == 0
    ensures Compress(h1, last) == Fold(h, rest + Padding(nbyte))
  {
    hide Compress, Padding, BigEndian;
    LastBlocks(rest, nbyte);
    OneBlock(h1, last);
    if |rest| > 55 {
      var first := rest + [0x80] + Zeros(63 - |rest|);
      OneBlock(h, first);
      FoldAppend(h, first, last);
    }
  }

  /** Put the 1 bit behind what is left of the message; when the length does not fit any more, fold the block into the
      hash and go on with a cleared one. */
  method AppendOne(leftover: nat, lastBlock: array<byte>, hash: array<word>)
    requires lastBlock.Length == 64 && hash.Length == 8 && leftover < 64
    requires lastBlock[leftover..] == Zeros(64 - leftover)
    modifies lastBlock, hash
    ensures var rest := old(lastBlock[..leftover]);
      if leftover <= 55 then
        lastBlock[..56] == rest + [0x80] + Zeros(55 - leftover) && hash[..] == old(hash[..])
      else
        lastBlock[..56] == Zeros(56) && hash[..] == Compress(old(hash[..]), rest + [0x80] + Zeros(63 - leftover))
  {
    hide Compress;
    ghost var rest := lastBlock[..leftover];
    lastBlock[leftover] := 0x80;
    assert lastBlock[0..64] == rest + [0x80] + Zeros(63 - leftover);
    if leftover > 64 - 8 - 1 {
      Process(lastBlock, 0, hash);
      Clear(lastBlock);
    }
  }

  /** Pad the last block, in which only the first `leftover` bytes are used, and fold it into the hash; the length goes
      into a block of its own when it does not fit. */
  method ProcessFinal(nbyte: nat, leftover: nat, lastBlock: array<byte>, hash: array<word>)
    requires lastBlock.Length == 64 && hash.Length == 8 && leftover == nbyte % 64
    requires lastBlock[leftover..] == Zeros(64 - leftover)
    modifies lastBlock, hash
    ensures |old(lastBlock[..leftover]) + Padding(nbyte)| % 64 == 0
    ensures hash[..] == Fold(old(hash[..]), old(lastBlock[..leftover]) + Padding(nbyte))
  {
    hide Compress, Padding, BigEndian;
    ghost var rest, h := lastBlock[..leftover], hash[..];
    AppendOne(leftover, lastBlock, hash);
    SetLength(lastBlock, nbyte * 8 % U64);
    ghost var last := lastBlock[..];
    assert last == last[..56] + last[56..];
    assert lastBlock[0..64] == last && lastBlock[..56] == last[..56] && lastBlock[56..] == last[56..];
    FinalFold(h, hash[..], rest, nbyte, last);
    Process(lastBlock, 0, hash);
  }

  lemma DigestSplit(m: seq<byte>, k: nat)
    requires 64 * k <= |m|
    ensures |m[..64 * k]| % 64 == 0 && |m[64 * k..] + Padding(|m|)| % 64 == 0
    ensures Digest(m) == Fold(Fold(H0(), m[..64 * k]), m[64 * k..] + Padding(|m|))
  {
    hide Compress, Padding;
    var a, b := m[..64 * k], m[64 * k..] + Padding(|m|);
    assert a + b == Pad(m);
    WholeBlocks(|a + b|, k);
    FoldAppend(H0(), a, b);
  }

  lemma WholeBlocks(n: nat, k: nat)
    requires n % 64 == 0
    ensures (n - 64 * k) % 64 == 0
  {
    assert n == 64 * (n / 64);
    assert n - 64 * k == 64 * (n / 64 - k);
  }

  /** Fold the first `whole` blocks of a buffer into the initial hash. */
  method ProcessWhole(buf: array<byte>, whole: nat) returns (hash: array<word>)
    requires 64 * whole <= buf.Length
    ensures fresh(hash) && hash.Length == 8 && hash[..] == Fold(H0(), buf[..64 * whole])
  {
    hide Compress;
    hash := new word[8](i requires 0 <= i < 8 => H0()[i]);
    assert hash[..] == H0();
    FoldNothing(H0());
    for i := 0 to whole
      invariant hash[..] == Fold(H0(), buf[..64 * i])
    {
      FoldOneMore(buf[..], i);
      assert buf[..][..64 * i] == buf[..64 * i] && buf[..][..64 * (i + 1)] == buf[..64 * (i + 1)];
      Process(buf, 64 * i, hash);
    }
  }

  /** Hash the first `nbyte` bytes of a buffer. */
  method Hash(buf: array<byte>, nbyte: nat) returns (hash: array<word>)
    requires nbyte <= buf.Length
    ensures fresh(hash) && hash[..] == Digest(buf[..nbyte])
  {
    hide Compress, Padding, Digest, Pad;
    var leftover := nbyte % 64;
    var numBlocks := if leftover == 0 then nbyte / 64 else nbyte / 64 + 1;
    var whole := if leftover == 0 then numBlocks else numBlocks - 1;
    ghost var m := buf[..nbyte];
    hash := ProcessWhole(buf, whole);
    assert m[..64 * whole] == buf[..64 * whole];
    var lastBlock := CopyRest(buf, 64 * whole, leftover);
    assert lastBlock[..leftover] == m[64 * whole..];
    DigestSplit(m, whole);
    ProcessFinal(nbyte, leftover, lastBlock, hash);
  }

  /** A cleared block with the rest of the message at its front. */
  method CopyRest(buf: array<byte>, start: nat, len: nat) returns (block: array<byte>)
    requires start + len <= buf.Length && len < 64
    ensures fresh(block) && block.Length == 64 && block[..len] == buf[start..start + len]
    ensures block[len..] == Zeros(64 - len)
  {
    block := new byte[64](_ => 0);
    for j := 0 to len
      invariant forall i :: 0 <= i < j ==> block[i] == buf[start + i]
      invariant forall i :: j <= i < 64 ==> block[i] == 0
      modifies block
    {
      block[j] := buf[start + j];
    }
  }

  lemma FoldNothing(h: seq<word>)
    requires |h| == 8
    ensures Fold(h, []) == h
  {}

  lemma FoldOneMore(m: seq<byte>, i: nat)
    requires 64 * (i + 1) <= |m|
    ensures Fold(H0(), m[..64 * (i + 1)]) == Compress(Fold(H0(), m[..64 * i]), m[64 * i..64 * i + 64])
  {
    var a, b := m[..64 * i], m[64 * i..64 * i + 64];
    assert m[..64 * (i + 1)] == a + b;
    FoldAppend(H0(), a, b);
    OneBlock(Fold(H0(), a), b);
  }
}
