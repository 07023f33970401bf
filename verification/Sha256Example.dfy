/** The message schedule as a recurrence, and a published digest computed step by step: the hash of "abc" that the test
    driver in section 8.5 of RFC 6234 expects. */
module Sha256Example {
  import opened Bytes
  import opened Sha256
  import opened Sha256Constants

  // ---------- the message schedule word by word ----------

  /** Word `t` of a message schedule follows from earlier ones. */
  ghost predicate Recurs(w: seq<word>, t: nat)
    requires 16 <= t < |w|
  {
    w[t] == Add(Add(Add(SmallSigma1(w[t - 2]), w[t - 7]), SmallSigma0(w[t - 15])), w[t - 16])
  }

  lemma {:induction false} SchedulePrefix(block: seq<byte>, s: nat, t: nat)
    requires |block| == 64 && s <= t <= 64
    ensures Schedule(block, t)[..s] == Schedule(block, s)
  {
    if s < t {
      SchedulePrefix(block, s, t - 1);
      assert Schedule(block, t)[..s] == Schedule(block, t)[..t - 1][..s];
    } else {
      assert Schedule(block, t)[..s] == Schedule(block, t);
    }
  }

  lemma SchedulePoint(block: seq<byte>, t: nat)
    requires |block| == 64 && t < 64
    ensures var w := Schedule(block, t + 1);
      if t < 16 then w[t] == Word(block[4 * t], block[4 * t + 1], block[4 * t + 2], block[4 * t + 3]) else Recurs(w, t)
  {
    hide Word, Add, SmallSigma0, SmallSigma1;
    var w := Schedule(block, t);
    assert Schedule(block, t + 1)[..t] == w;
  }

  /** The schedule of section 6.2 of RFC 6234. */
  lemma ScheduleRecurs(block: seq<byte>, t: nat)
    requires |block| == 64 && t < 64
    ensures var w := Schedule(block, 64);
      if t < 16 then w[t] == Word(block[4 * t], block[4 * t + 1], block[4 * t + 2], block[4 * t + 3]) else Recurs(w, t)
  {
    hide Word, Add, SmallSigma0, SmallSigma1, Schedule;
    SchedulePrefix(block, t + 1, 64);
    SchedulePoint(block, t);
    var w, v := Schedule(block, 64), Schedule(block, t + 1);
    assert forall i :: 0 <= i <= t ==> w[..t + 1][i] == w[i];
  }

  // ---------- the words of the example ----------

  /** The message "abc". */
  function Abc(): seq<byte> { [0x61, 0x62, 0x63] }

  function AbcBlock(): (b: seq<byte>)
    ensures |b| == 64
  {
    Abc() + [0x80] + Zeros(59) + [24]
  }

  ghost predicate Words0(w: seq<word>) {
    && |w| == 64
    && w[0] == 0x61626380 && w[1] == 0x00000000 && w[2] == 0x00000000 && w[3] == 0x00000000
    && w[4] == 0x00000000 && w[5] == 0x00000000 && w[6] == 0x00000000 && w[7] == 0x00000000
    && w[8] == 0x00000000 && w[9] == 0x00000000 && w[10] == 0x00000000 && w[11] == 0x00000000
    && w[12] == 0x00000000 && w[13] == 0x00000000 && w[14] == 0x00000000 && w[15] == 0x00000018
  }

  ghost predicate Words16(w: seq<word>) {
    && |w| == 64
    && w[16] == 0x61626380 && w[17] == 0x000f0000 && w[18] == 0x7da86405 && w[19] == 0x600003c6
    && w[20] == 0x3e9d7b78 && w[21] == 0x0183fc00 && w[22] == 0x12dcbfdb && w[23] == 0xe2e2c38e
    && w[24] == 0xc8215c1a && w[25] == 0xb73679a2 && w[26] == 0xe5bc3909 && w[27] == 0x32663c5b
    && w[28] == 0x9d209d67 && w[29] == 0xec8726cb && w[30] == 0x702138a4 && w[31] == 0xd3b7973b
  }

  ghost predicate Words32(w: seq<word>) {
    && |w| == 64
    && w[32] == 0x93f5997f && w[33] == 0x3b68ba73 && w[34] == 0xaff4ffc1 && w[35] == 0xf10a5c62
    && w[36] == 0x0a8b3996 && w[37] == 0x72af830a && w[38] == 0x9409e33e && w[39] == 0x24641522
    && w[40] == 0x9f47bf94 && w[41] == 0xf0a64f5a && w[42] == 0x3e246a79 && w[43] == 0x27333ba3
    && w[44] == 0x0c4763f2 && w[45] == 0x840abf27 && w[46] == 0x7a290d5d && w[47] == 0x065c43da
  }

  ghost predicate Words48(w: seq<word>) {
    && |w| == 64
    && w[48] == 0xfb3e89cb && w[49] == 0xcc7617db && w[50] == 0xb9e66c34 && w[51] == 0xa9993667
    && w[52] == 0x84badedd && w[53] == 0xc21462bc && w[54] == 0x1487472c && w[55] == 0xb20f7a99
    && w[56] == 0xef57b9cd && w[57] == 0xebe6b238 && w[58] == 0x9fe3095e && w[59] == 0x78bc8d4b
    && w[60] == 0xa43fcf15 && w[61] == 0x668b2ff8 && w[62] == 0xeeaba2cc && w[63] == 0x12b1edeb
  }

  lemma AbcWords0(w: seq<word>)
    requires w == Schedule(AbcBlock(), 64)
    ensures Words0(w)
  {
    hide Schedule;
    ScheduleRecurs(AbcBlock(), 0);
    ScheduleRecurs(AbcBlock(), 1);
    ScheduleRecurs(AbcBlock(), 2);
    ScheduleRecurs(AbcBlock(), 3);
    ScheduleRecurs(AbcBlock(), 4);
    ScheduleRecurs(AbcBlock(), 5);
    ScheduleRecurs(AbcBlock(), 6);
    ScheduleRecurs(AbcBlock(), 7);
    ScheduleRecurs(AbcBlock(), 8);
    ScheduleRecurs(AbcBlock(), 9);
    ScheduleRecurs(AbcBlock(), 10);
    ScheduleRecurs(AbcBlock(), 11);
    ScheduleRecurs(AbcBlock(), 12);
    ScheduleRecurs(AbcBlock(), 13);
    ScheduleRecurs(AbcBlock(), 14);
    ScheduleRecurs(AbcBlock(), 15);
  }

  lemma AbcWords16(w: seq<word>)
    requires Words0(w) && forall t {:trigger w[t]} :: 16 <= t < 32 ==> Recurs(w, t)
    ensures Words16(w)
  {}

  lemma AbcWords32(w: seq<word>)
    requires Words16(w) && forall t {:trigger w[t]} :: 32 <= t < 48 ==> Recurs(w, t)
    ensures Words32(w)
  {}

  lemma AbcWords48(w: seq<word>)
    requires Words32(w) && forall t {:trigger w[t]} :: 48 <= t < 64 ==> Recurs(w, t)
    ensures Words48(w)
  {}

  // ---------- the rounds of the example ----------

  /** One more round. */
  lemma Turn(w: seq<word>, start: Vars, t: nat, v: Vars, k: word, x: word, a: word, e: word) returns (r: Vars)
    requires |w| == 64 && t < 64 && Rounds(w, start, t) == v && K(t) == k && w[t] == x
    requires Round(v, k, x) == Vars(a, v.a, v.b, v.c, e, v.e, v.f, v.g)
    ensures r == Vars(a, v.a, v.b, v.c, e, v.e, v.f, v.g) && Rounds(w, start, t + 1) == r
  {
    hide Round;
    r := Vars(a, v.a, v.b, v.c, e, v.e, v.f, v.g);
  }

  lemma Rounds0(w: seq<word>, start: Vars) returns (v: Vars)
    requires Words0(w)
    requires Rounds(w, start, 0) ==
      Vars(0x6a09e667, 0xbb67ae85, 0x3c6ef372, 0xa54ff53a, 0x510e527f, 0x9b05688c, 0x1f83d9ab, 0x5be0cd19)
    ensures v == Rounds(w, start, 16) ==
      Vars(0xb0fa238e, 0xc0645fde, 0xd932eb16, 0x87912990, 0x07590dcd, 0x0b92f20c, 0x745a48de, 0x1e578218)
  {
    Constants0();
    hide Rounds, K;
    v := Rounds(w, start, 0);
    v := Turn(w, start, 0, v, 0x428a2f98, 0x61626380, 0x5d6aebcd, 0xfa2a4622);
    v := Turn(w, start, 1, v, 0x71374491, 0x00000000, 0x5a6ad9ad, 0x78ce7989);
    v := Turn(w, start, 2, v, 0xb5c0fbcf, 0x00000000, 0xc8c347a7, 0xf92939eb);
    v := Turn(w, start, 3, v, 0xe9b5dba5, 0x00000000, 0xd550f666, 0x24e00850);
    v := Turn(w, start, 4, v, 0x3956c25b, 0x00000000, 0x04409a6a, 0x43ada245);
    v := Turn(w, start, 5, v, 0x59f111f1, 0x00000000, 0x2b4209f5, 0x714260ad);
    v := Turn(w, start, 6, v, 0x923f82a4, 0x00000000, 0xe5030380, 0x9b27a401);
    v := Turn(w, start, 7, v, 0xab1c5ed5, 0x00000000, 0x85a07b5f, 0x0c657a79);
    v := Turn(w, start, 8, v, 0xd807aa98, 0x00000000, 0x8e04ecb9, 0x32ca2d8c);
    v := Turn(w, start, 9, v, 0x12835b01, 0x00000000, 0x8c87346b, 0x1cc92596);
    v := Turn(w, start, 10, v, 0x243185be, 0x00000000, 0x4798a3f4, 0x436b23e8);
    v := Turn(w, start, 11, v, 0x550c7dc3, 0x00000000, 0xf71fc5a9, 0x816fd6e9);
    v := Turn(w, start, 12, v, 0x72be5d74, 0x00000000, 0x87912990, 0x1e578218);
    v := Turn(w, start, 13, v, 0x80deb1fe, 0x00000000, 0xd932eb16, 0x745a48de);
    v := Turn(w, start, 14, v, 0x9bdc06a7, 0x00000000, 0xc0645fde, 0x0b92f20c);
    v := Turn(w, start, 15, v, 0xc19bf174, 0x00000018, 0xb0fa238e, 0x07590dcd);
  }

  lemma Rounds16(w: seq<word>, start: Vars) returns (v: Vars)
    requires Words16(w)
    requires Rounds(w, start, 16) ==
      Vars(0xb0fa238e, 0xc0645fde, 0xd932eb16, 0x87912990, 0x07590dcd, 0x0b92f20c, 0x745a48de, 0x1e578218)
    ensures v == Rounds(w, start, 32) ==
      Vars(0x73b33bf5, 0xea992a22, 0xa0060b30, 0x363482c9, 0xba591112, 0x0109ab3a, 0xade79437, 0x6112a3b7)
  {
    Constants16();
    hide Rounds, K;
    v := Rounds(w, start, 16);
    v := Turn(w, start, 16, v, 0xe49b69c1, 0x61626380, 0x21da9a9b, 0x8034229c);
    v := Turn(w, start, 17, v, 0xefbe4786, 0x000f0000, 0xc2fbd9d1, 0x846ee454);
    v := Turn(w, start, 18, v, 0x0fc19dc6, 0x7da86405, 0xfe777bbf, 0xcc899961);
    v := Turn(w, start, 19, v, 0x240ca1cc, 0x600003c6, 0xe1f20c33, 0xb0638179);
    v := Turn(w, start, 20, v, 0x2de92c6f, 0x3e9d7b78, 0x9dc68b63, 0x8ada8930);
    v := Turn(w, start, 21, v, 0x4a7484aa, 0x0183fc00, 0xc2606d6d, 0xe1257970);
    v := Turn(w, start, 22, v, 0x5cb0a9dc, 0x12dcbfdb, 0xa7a3623f, 0x49f5114a);
    v := Turn(w, start, 23, v, 0x76f988da, 0xe2e2c38e, 0xc5d53d8d, 0xaa47c347);
    v := Turn(w, start, 24, v, 0x983e5152, 0xc8215c1a, 0x1c2c2838, 0x2823ef91);
    v := Turn(w, start, 25, v, 0xa831c66d, 0xb73679a2, 0xcde8037d, 0x14383d8e);
    v := Turn(w, start, 26, v, 0xb00327c8, 0xe5bc3909, 0xb62ec4bc, 0xc74c6516);
    v := Turn(w, start, 27, v, 0xbf597fc7, 0x32663c5b, 0x77d37528, 0xedffbff8);
    v := Turn(w, start, 28, v, 0xc6e00bf3, 0x9d209d67, 0x363482c9, 0x6112a3b7);
    v := Turn(w, start, 29, v, 0xd5a79147, 0xec8726cb, 0xa0060b30, 0xade79437);
    v := Turn(w, start, 30, v, 0x06ca6351, 0x702138a4, 0xea992a22, 0x0109ab3a);
    v := Turn(w, start, 31, v, 0x14292967, 0xd3b7973b, 0x73b33bf5, 0xba591112);
  }

  lemma Rounds32(w: seq<word>, start: Vars) returns (v: Vars)
    requires Words32(w)
    requires Rounds(w, start, 32) ==
      Vars(0x73b33bf5, 0xea992a22, 0xa0060b30, 0x363482c9, 0xba591112, 0x0109ab3a, 0xade79437, 0x6112a3b7)
    ensures v == Rounds(w, start, 48) ==
      Vars(0x4172328d, 0xa14c14b0, 0x72ab4b91, 0x26628815, 0xfecf0bc6, 0xd57b94a9, 0xb7755da1, 0xa80f11f0)
  {
    Constants32();
    hide Rounds, K;
    v := Rounds(w, start, 32);
    v := Turn(w, start, 32, v, 0x27b70a85, 0x93f5997f, 0x98e12507, 0x9cd9f5f6);
    v := Turn(w, start, 33, v, 0x2e1b2138, 0x3b68ba73, 0xfe604df5, 0x59249dd3);
    v := Turn(w, start, 34, v, 0x4d2c6dfc, 0xaff4ffc1, 0xa9a7738c, 0x085f3833);
    v := Turn(w, start, 35, v, 0x53380d13, 0xf10a5c62, 0x65a0cfe4, 0xf4b002d6);
    v := Turn(w, start, 36, v, 0x650a7354, 0x0a8b3996, 0x41a65cb1, 0x0772a26b);
    v := Turn(w, start, 37, v, 0x766a0abb, 0x72af830a, 0x34df1604, 0xa507a53d);
    v := Turn(w, start, 38, v, 0x81c2c92e, 0x9409e33e, 0x6dc57a8a, 0xf0781bc8);
    v := Turn(w, start, 39, v, 0x92722c85, 0x24641522, 0x79ea687a, 0x1efbc0a0);
    v := Turn(w, start, 40, v, 0xa2bfe8a1, 0x9f47bf94, 0xd6670766, 0x26352d63);
    v := Turn(w, start, 41, v, 0xa81a664b, 0xf0a64f5a, 0xdf46652f, 0x838b2711);
    v := Turn(w, start, 42, v, 0xc24b8b70, 0x3e246a79, 0x17aa0dfe, 0xdecd4715);
    v := Turn(w, start, 43, v, 0xc76c51a3, 0x27333ba3, 0x9d4baf93, 0xfda24c2e);
    v := Turn(w, start, 44, v, 0xd192e819, 0x0c4763f2, 0x26628815, 0xa80f11f0);
    v := Turn(w, start, 45, v, 0xd6990624, 0x840abf27, 0x72ab4b91, 0xb7755da1);
    v := Turn(w, start, 46, v, 0xf40e3585, 0x7a290d5d, 0xa14c14b0, 0xd57b94a9);
    v := Turn(w, start, 47, v, 0x106aa070, 0x065c43da, 0x4172328d, 0xfecf0bc6);
  }

  lemma Rounds48(w: seq<word>, start: Vars) returns (v: Vars)
    requires Words48(w)
    requires Rounds(w, start, 48) ==
      Vars(0x4172328d, 0xa14c14b0, 0x72ab4b91, 0x26628815, 0xfecf0bc6, 0xd57b94a9, 0xb7755da1, 0xa80f11f0)
    ensures v == Rounds(w, start, 64) ==
      Vars(0x506e3058, 0xd39a2165, 0x04d24d6c, 0xb85e2ce9, 0x5ef50f24, 0xfb121210, 0x948d25b6, 0x961f4894)
  {
    Constants48();
    hide Rounds, K;
    v := Rounds(w, start, 48);
    v := Turn(w, start, 48, v, 0x19a4c116, 0xfb3e89cb, 0x05757ceb, 0xbd714038);
    v := Turn(w, start, 49, v, 0x1e376c08, 0xcc7617db, 0xf11bfaa8, 0x6e5c390c);
    v := Turn(w, start, 50, v, 0x2748774c, 0xb9e66c34, 0x7a0508a1, 0x52f1ccf7);
    v := Turn(w, start, 51, v, 0x34b0bcb5, 0xa9993667, 0x886e7a22, 0x49231c1e);
    v := Turn(w, start, 52, v, 0x391c0cb3, 0x84badedd, 0x101fd28f, 0x529e7d00);
    v := Turn(w, start, 53, v, 0x4ed8aa4a, 0xc21462bc, 0xf5702fdb, 0x9f4787c3);
    v := Turn(w, start, 54, v, 0x5b9cca4f, 0x1487472c, 0x3ec45cdb, 0xe50e1b4f);
    v := Turn(w, start, 55, v, 0x682e6ff3, 0xb20f7a99, 0x38cc9913, 0x54cb266b);
    v := Turn(w, start, 56, v, 0x748f82ee, 0xef57b9cd, 0xfcd1887b, 0x9b5e906c);
    v := Turn(w, start, 57, v, 0x78a5636f, 0xebe6b238, 0xc062d46f, 0x7e44008e);
    v := Turn(w, start, 58, v, 0x84c87814, 0x9fe3095e, 0xffb70472, 0x6d83bfc6);
    v := Turn(w, start, 59, v, 0x8cc70208, 0x78bc8d4b, 0xb6ae8fff, 0xb21bad3d);
    v := Turn(w, start, 60, v, 0x90befffa, 0xa43fcf15, 0xb85e2ce9, 0x961f4894);
    v := Turn(w, start, 61, v, 0xa4506ceb, 0x668b2ff8, 0x04d24d6c, 0x948d25b6);
    v := Turn(w, start, 62, v, 0xbef9a3f7, 0xeeaba2cc, 0xd39a2165, 0xfb121210);
    v := Turn(w, start, 63, v, 0xc67178f2, 0x12b1edeb, 0x506e3058, 0x5ef50f24);
  }

  // ---------- the digest ----------

  lemma LengthShifts()
    ensures Shifts(24) == [0, 0, 0, 0, 0, 0, 0, 24] && Low(0) == 0 && Low(24) == 24
  {}

  lemma AbcPadded()
    ensures Pad(Abc()) == AbcBlock()
  {
    hide Low, Shifts;
    LengthShifts();
    assert BigEndian(24) == [0, 0, 0, 0, 0, 0, 0, 24];
    assert Zeros(59) == Zeros(52) + [0, 0, 0, 0, 0, 0, 0];
  }

  lemma AbcWords(w: seq<word>)
    requires w == Schedule(AbcBlock(), 64)
    ensures Words0(w) && Words16(w) && Words32(w) && Words48(w)
  {
    hide Schedule, Recurs, Words0, Words16, Words32, Words48;
    AbcWords0(w);
    forall t | 16 <= t < 64 ensures Recurs(w, t) { ScheduleRecurs(AbcBlock(), t); }
    AbcWords16(w);
    AbcWords32(w);
    AbcWords48(w);
  }

  lemma AbcRounds(w: seq<word>) returns (v: Vars)
    requires w == Schedule(AbcBlock(), 64)
    ensures v == Rounds(w, Load(H0()), 64) ==
      Vars(0x506e3058, 0xd39a2165, 0x04d24d6c, 0xb85e2ce9, 0x5ef50f24, 0xfb121210, 0x948d25b6, 0x961f4894)
  {
    hide Schedule, Words0, Words16, Words32, Words48;
    AbcWords(w);
    var start := Load(H0());
    v := Rounds0(w, start);
    v := Rounds16(w, start);
    v := Rounds32(w, start);
    v := Rounds48(w, start);
  }

  /** The digest of "abc" is the published one. */
  lemma AbcDigest()
    ensures Digest([0x61, 0x62, 0x63]) ==
      [0xba7816bf, 0x8f01cfea, 0x414140de, 0x5dae2223,
       0xb00361a3, 0x96177a9c, 0xb410ff61, 0xf20015ad]
  {
    hide Schedule, Rounds, Pad;
    AbcPadded();
    OneBlock(H0(), AbcBlock());
    var v := AbcRounds(Schedule(AbcBlock(), 64));
  }
}
