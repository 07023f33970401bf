/** How a child process gathers the bytes it hashes: each store walks the buffer in triangular steps and XORs. */
module HashStore {
  import opened Bytes
  import opened Sha256

  const BUFFER: nat := 128
  const CELLS: nat := 119

  /** The distance of the `i`th byte's cell from the start: 0 + 1 + ... + i. */
  function Triangle(i: nat): nat {
    if i == 0 then 0 else Triangle(i - 1) + i
  }

  function Cell(start: nat, i: nat): (c: nat)
    ensures c < CELLS
  {
    (start + Triangle(i)) % CELLS
  }

  function Xor(x: byte, y: byte): byte { x ^ y }

  /** The XOR of those of the first `n` bytes that land in cell `c`. */
  function Landed(buf: seq<byte>, start: nat, n: nat, c: nat): byte
    requires n <= |buf|
  {
    if n == 0 then 0
    else if Cell(start, n - 1) == c then Xor(Landed(buf, start, n - 1, c), buf[n - 1])
    else Landed(buf, start, n - 1, c)
  }

  /** The buffer after a store: every cell has what landed there XORed in, and the last nine bytes are as before. */
  function Stored(dest: seq<byte>, buf: seq<byte>, start: nat): (r: seq<byte>)
    requires |dest| == BUFFER
    ensures |r| == BUFFER
    ensures r[CELLS..] == dest[CELLS..]
  {
    seq(BUFFER, c requires 0 <= c < BUFFER =>
      if c < CELLS then Xor(dest[c], Landed(buf, start, |buf|, c)) else dest[c])
  }

  /** Where the next store starts. */
  function After(start: nat, len: nat): nat {
    if len == 0 then start else Cell(start, len - 1)
  }

  lemma {:induction false} TriangleIs(i: nat)
    ensures 2 * Triangle(i) == i * (i + 1)
  {
    if i > 0 { TriangleIs(i - 1); }
  }

  /** A store of `len` bytes ends `len * (len - 1) / 2` cells further on, modulo 119; an empty one stays where it is. */
  lemma EndsAt(start: nat, len: nat)
    ensures After(start, len) == if len == 0 then start else (start + len * (len - 1) / 2) % 119
  {
    if len > 0 {
      TriangleIs(len - 1);
      assert len * (len - 1) == 2 * Triangle(len - 1);
    }
  }

  lemma StepOn(x: nat, i: nat)
    ensures (x % CELLS + i) % CELLS == (x + i) % CELLS
  {
    var q := x / CELLS;
    assert x + i == (x % CELLS + i) + CELLS * q;
  }

  lemma NextCell(start: nat, i: nat)
    ensures (After(start, i) + i) % CELLS == Cell(start, i) == After(start, i + 1)
  {
    if i > 0 { StepOn(start + Triangle(i - 1), i); }
  }

  lemma AtStart(start: nat)
    ensures After(start, 0) == start
  {}

  lemma XorZero(x: byte)
    ensures Xor(x, 0) == x
  {}

  lemma XorTwice(x: byte, y: byte)
    ensures Xor(Xor(x, y), y) == x
  {}

  lemma XorJoins(x: byte, y: byte, z: byte)
    ensures Xor(Xor(x, y), z) == Xor(x, Xor(y, z))
  {}

  lemma XorCommutes(x: byte, y: byte, z: byte)
    ensures Xor(Xor(x, y), z) == Xor(Xor(x, z), y)
  {}

  /** Storing the same bytes from the same start once more restores the buffer. */
  lemma StoreTwice(dest: seq<byte>, buf: seq<byte>, start: nat)
    requires |dest| == BUFFER
    ensures Stored(Stored(dest, buf, start), buf, start) == dest
  {
    var r := Stored(Stored(dest, buf, start), buf, start);
    forall c | 0 <= c < BUFFER ensures r[c] == dest[c] {
      if c < CELLS { XorTwice(dest[c], Landed(buf, start, |buf|, c)); }
    }
  }

  /** Stores from fixed starts may be exchanged. */
  lemma StoresCommute(dest: seq<byte>, a: seq<byte>, i: nat, b: seq<byte>, j: nat)
    requires |dest| == BUFFER
    ensures Stored(Stored(dest, a, i), b, j) == Stored(Stored(dest, b, j), a, i)
  {
    var r, t := Stored(Stored(dest, a, i), b, j), Stored(Stored(dest, b, j), a, i);
    forall c | 0 <= c < BUFFER ensures r[c] == t[c] {
      if c < CELLS { XorCommutes(dest[c], Landed(a, i, |a|, c), Landed(b, j, |b|, c)); }
    }
  }

  // ---------- which byte goes where ----------

  lemma {:induction false} ZerosLand(buf: seq<byte>, start: nat, n: nat, c: nat)
    requires n <= |buf| && forall i :: 0 <= i < n ==> buf[i] == 0
    ensures Landed(buf, start, n, c) == 0
  {
    if n > 0 { ZerosLand(buf, start, n - 1, c); }
  }

  /** Storing zero bytes, or none, changes nothing. */
  lemma StoreZeros(dest: seq<byte>, buf: seq<byte>, start: nat)
    requires |dest| == 128 && forall i :: 0 <= i < |buf| ==> buf[i] == 0
    ensures Stored(dest, buf, start) == dest
  {
    hide Xor;
    var r := Stored(dest, buf, start);
    forall c | 0 <= c < 128 ensures r[c] == dest[c] {
      ZerosLand(buf, start, |buf|, c);
      XorZero(dest[c]);
    }
  }

  /** What replacing the byte `y` by `z` does to an XOR that `y` is part of. */
  function Replace(r: byte, y: byte, z: byte): byte { Xor(Xor(r, y), z) }

  lemma ReplaceNow(x: byte, y: byte, z: byte)
    ensures Xor(x, z) == Replace(Xor(x, y), y, z)
  {}

  lemma ReplaceEarlier(x: byte, y: byte, z: byte, w: byte)
    ensures Xor(Replace(x, y, z), w) == Replace(Xor(x, w), y, z)
    ensures Xor(w, Replace(x, y, z)) == Replace(Xor(w, x), y, z)
  {}

  lemma ReplaceIs(r: byte, y: byte, z: byte)
    ensures Replace(r, y, z) == r ^ y ^ z
  {}

  lemma {:induction false} OneByteLands(buf: seq<byte>, start: nat, n: nat, c: nat, i: nat, x: byte)
    requires i < |buf| && n <= |buf|
    ensures var landed := Landed(buf, start, n, c);
      Landed(buf[i := x], start, n, c) ==
        if i < n && Cell(start, i) == c then Replace(landed, buf[i], x) else landed
  {
    hide Xor, Replace, Cell;
    if n > 0 {
      OneByteLands(buf, start, n - 1, c, i, x);
      var before := Landed(buf, start, n - 1, c);
      if i == n - 1 { ReplaceNow(before, buf[i], x); } else { ReplaceEarlier(before, buf[i], x, buf[n - 1]); }
    }
  }

  lemma CellIs(start: nat, i: nat)
    ensures Cell(start, i) == (start + i * (i + 1) / 2) % 119
  {
    TriangleIs(i);
  }

  /** Byte `i` goes into exactly one cell, `i * (i + 1) / 2` places behind the start modulo 119, by XOR: replacing it
      changes that cell by the XOR of the old byte and the new one, and no other. */
  lemma OneByteStored(dest: seq<byte>, buf: seq<byte>, start: nat, i: nat, x: byte)
    requires |dest| == 128 && i < |buf|
    ensures var cell, r := (start + i * (i + 1) / 2) % 119, Stored(dest, buf, start);
      Stored(dest, buf[i := x], start) == r[cell := r[cell] ^ buf[i] ^ x]
  {
    CellIs(start, i);
    var cell, r := Cell(start, i), Stored(dest, buf, start);
    ReplaceIs(r[cell], buf[i], x);
    CellReplaced(dest, buf, start, i, x);
  }

  lemma CellReplaced(dest: seq<byte>, buf: seq<byte>, start: nat, i: nat, x: byte)
    requires |dest| == BUFFER && i < |buf|
    ensures var cell, r := Cell(start, i), Stored(dest, buf, start);
      Stored(dest, buf[i := x], start) == r[cell := Replace(r[cell], buf[i], x)]
  {
    hide Xor, Replace, Cell;
    var cell, r, s := Cell(start, i), Stored(dest, buf, start), Stored(dest, buf[i := x], start);
    forall c | 0 <= c < BUFFER ensures s[c] == r[cell := Replace(r[cell], buf[i], x)][c] {
      if c < CELLS {
        OneByteLands(buf, start, |buf|, c, i, x);
        ReplaceEarlier(Landed(buf, start, |buf|, c), buf[i], x, dest[c]);
      }
    }
  }

  /** A store leaves the cells from 119 on alone. */
  lemma TailStays(dest: seq<byte>, buf: seq<byte>, start: nat)
    requires |dest| == 128
    ensures |Stored(dest, buf, start)| == 128 && Stored(dest, buf, start)[119..] == dest[119..]
  {}

  /** Store a byte string; the result is where the next store starts. */
  method Store(buf: array<byte>, dest: array<byte>, destIndex: nat) returns (index: nat)
    requires dest.Length == BUFFER && buf != dest
    modifies dest
    ensures dest[..] == Stored(old(dest[..]), buf[..], destIndex)
    ensures index == After(destIndex, buf.Length)
  {
    hide Xor, Triangle, Cell, After;
    index := destIndex;
    ghost var was, bytes := dest[..], buf[..];
    forall c | 0 <= c < CELLS ensures dest[c] == Xor(was[c], Landed(bytes, destIndex, 0, c)) {
      XorZero(dest[c]);
    }
    AtStart(destIndex);
    for i := 0 to buf.Length
      invariant index == After(destIndex, i)
      invariant forall c :: 0 <= c < CELLS ==> dest[c] == Xor(old(dest[c]), Landed(buf[..], destIndex, i, c))
      invariant forall c :: CELLS <= c < BUFFER ==> dest[c] == old(dest[c])
    {
      NextCell(destIndex, i);
      index := (index + i) % CELLS;
      XorJoins(was[index], Landed(bytes, destIndex, i, index), buf[i]);
      dest[index] := Xor(dest[index], buf[i]);
    }
  }

  // ---------- the child process ----------

  /** What a child has gathered, and where its next store starts. */
  datatype Gathered = Gathered(content: seq<byte>, next: nat)

  function Gather(g: Gathered, buf: seq<byte>): (r: Gathered)
    requires |g.content| == BUFFER
    ensures |r.content| == BUFFER
  {
    Gathered(Stored(g.content, buf, g.next), After(g.next, |buf|))
  }

  /** The child's state after storing several byte strings one after the other. */
  function GatherAll(bufs: seq<seq<byte>>): (r: Gathered)
    ensures |r.content| == BUFFER
  {
    if bufs == [] then Gathered(Zeros(BUFFER), 0)
    else Gather(GatherAll(bufs[..|bufs| - 1]), bufs[|bufs| - 1])
  }

  /** Whatever is stored, the next store starts inside the part that is hashed and the bytes behind it stay zero: the
      hash of that part misses nothing. */
  lemma {:induction false} HashCoversAll(bufs: seq<seq<byte>>)
    ensures GatherAll(bufs).next < 119
    ensures GatherAll(bufs).content == GatherAll(bufs).content[..119] + Zeros(128 - 119)
  {
    if bufs != [] {
      HashCoversAll(bufs[..|bufs| - 1]);
      var g := GatherAll(bufs[..|bufs| - 1]);
      assert g.content[CELLS..] == Zeros(BUFFER - CELLS);
    }
    assert GatherAll(bufs).content[CELLS..] == Zeros(BUFFER - CELLS);
  }

  /** A child process as far as its hash goes. */
  class Child {
    const content: array<byte>
    var next: nat
    ghost var stored: seq<seq<byte>>

    ghost predicate Valid()
      reads this, content
    {
      content.Length == BUFFER && Gathered(content[..], next) == GatherAll(stored)
    }

    constructor (name: array<byte>)
      ensures Valid() && stored == [name[..]] && fresh(content)
      ensures content[..] == Stored(Zeros(128), name[..], 0) && next == After(0, name.Length)
    {
      content := new byte[BUFFER](_ => 0);
      next := 0;
      stored := [];
      new;
      assert content[..] == Zeros(BUFFER);
      StoreBytes(name);
    }

    method StoreBytes(buf: array<byte>)
      requires Valid() && buf != content
      modifies this, content
      ensures Valid() && stored == old(stored) + [buf[..]]
      ensures content[..] == Stored(old(content[..]), buf[..], old(next)) && next == After(old(next), buf.Length)
    {
      stored := stored + [buf[..]];
      assert stored[..|stored| - 1] == old(stored);
      next := Store(buf, content, next);
    }

    /** The hash that the child reports when it is told to end. */
    method Terminate(last: array<byte>) returns (hash: array<word>)
      requires Valid() && last != content
      modifies this, content
      ensures Valid() && stored == old(stored) + [last[..]]
      ensures content[..] == Stored(old(content[..]), last[..], old(next)) && hash[..] == Digest(content[..119])
    {
      StoreBytes(last);
      hash := Hash(content, CELLS);
    }
  }
}
