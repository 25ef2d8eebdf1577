/**
 * Digests of two messages as literal bytes, computed round by round: "abc", which takes one block, and the message
 * of 56 bytes of FIPS 180-4, which takes a second one for its padding.
 */
module Sha256Vectors {
  import opened Bytes
  import opened Sha256

  // ----- one step at a time -----

  /** The sixteen words of the schedule from t on. */
  predicate Words(b: Block, t: nat, w0: bv32, w1: bv32, w2: bv32, w3: bv32, w4: bv32, w5: bv32, w6: bv32, w7: bv32,
      w8: bv32, w9: bv32, w10: bv32, w11: bv32, w12: bv32, w13: bv32, w14: bv32, w15: bv32)
    requires t + 16 <= 64
  {
    && Schedule(b, t) == w0 && Schedule(b, t + 1) == w1 && Schedule(b, t + 2) == w2 && Schedule(b, t + 3) == w3
    && Schedule(b, t + 4) == w4 && Schedule(b, t + 5) == w5 && Schedule(b, t + 6) == w6 && Schedule(b, t + 7) == w7
    && Schedule(b, t + 8) == w8 && Schedule(b, t + 9) == w9 && Schedule(b, t + 10) == w10 && Schedule(b, t + 11) == w11
    && Schedule(b, t + 12) == w12 && Schedule(b, t + 13) == w13
    && Schedule(b, t + 14) == w14 && Schedule(b, t + 15) == w15
  }

  lemma NextWord(b: Block, t: nat, w2: bv32, w7: bv32, w15: bv32, w16: bv32)
    requires 16 <= t < 64
    requires Schedule(b, t - 2) == w2 && Schedule(b, t - 7) == w7
    requires Schedule(b, t - 15) == w15 && Schedule(b, t - 16) == w16
    ensures Schedule(b, t) == Extend(w2, w7, w15, w16)
  {
  }

  /** The eight variables after round t. */
  predicate After(v: Hash, m: Block, t: nat, a: bv32, b: bv32, c: bv32, d: bv32, e: bv32, f: bv32, g: bv32, h: bv32)
    requires t < 64
  {
    Rounds(v, m, t + 1) == Hash(a, b, c, d, e, f, g, h)
  }

  lemma FirstRound(v: Hash, m: Block, k: bv32, w: bv32)
    requires Constant(0) == k && Schedule(m, 0) == w
    ensures Rounds(v, m, 1) == Round(v, k, w)
  {
    hide Round, Constant, Schedule;
    assert Rounds(v, m, 0) == v;
  }

  lemma NextRound(v: Hash, m: Block, t: nat, k: bv32, w: bv32, t1: bv32, t2: bv32, a1: bv32, e1: bv32,
      a: bv32, b: bv32, c: bv32, d: bv32, e: bv32, f: bv32, g: bv32, h: bv32)
    requires t < 63 && After(v, m, t, a, b, c, d, e, f, g, h) && Constant(t + 1) == k && Schedule(m, t + 1) == w
    requires Temp1(e, f, g, h, k, w) == t1 && Temp2(a, b, c) == t2 && Add(t1, t2) == a1 && Add(d, t1) == e1
    ensures After(v, m, t + 1, a1, a, b, c, e1, e, f, g)
  {
    hide Temp1, Temp2, Add, Constant, Schedule;
  }

  lemma LastRound(v: Hash, m: Block, a: bv32, b: bv32, c: bv32, d: bv32, e: bv32, f: bv32, g: bv32, h: bv32)
    requires After(v, m, 63, a, b, c, d, e, f, g, h)
    ensures Compress(v, m) == Sum(v, Hash(a, b, c, d, e, f, g, h))
  {
    hide Rounds, Sum;
  }

  lemma WordIs(b: seq<Byte>, at: nat, x0: Byte, x1: Byte, x2: Byte, x3: Byte)
    requires at + 4 <= |b| && b[at] == x0 && b[at + 1] == x1 && b[at + 2] == x2 && b[at + 3] == x3
    ensures Word(b, at) == Word([x0, x1, x2, x3], 0)
  {
  }

  lemma FirstWords(b: Block, t: nat)
    requires t < 16
    ensures Schedule(b, t) == Word(b, 4 * t)
  {
  }

  /** The last eight bytes of the padding of a short message. */
  lemma ShortLength(n: nat)
    requires n < 0x1_0000
    ensures forall i :: 0 <= i < 6 ==> Be64(n)[i] == 0
    ensures Be64(n)[6] == n / 256 && Be64(n)[7] == n % 256
  {
    assert Scale(1) == 256 && Scale(2) == 0x1_0000 && Scale(3) == 0x100_0000;
    assert Scale(5) == 256 * (256 * Scale(3)) && Scale(7) == 256 * (256 * Scale(5));
    assert ByteOf(n, 0) == 0 && ByteOf(n, 1) == 0 && ByteOf(n, 2) == 0;
    assert ByteOf(n, 3) == 0 && ByteOf(n, 4) == 0 && ByteOf(n, 5) == 0;
  }

  lemma Constants0()
    ensures Constant(0) == 0x428a2f98 && Constant(1) == 0x71374491
    ensures Constant(2) == 0xb5c0fbcf && Constant(3) == 0xe9b5dba5
    ensures Constant(4) == 0x3956c25b && Constant(5) == 0x59f111f1
    ensures Constant(6) == 0x923f82a4 && Constant(7) == 0xab1c5ed5
    ensures Constant(8) == 0xd807aa98 && Constant(9) == 0x12835b01
    ensures Constant(10) == 0x243185be && Constant(11) == 0x550c7dc3
    ensures Constant(12) == 0x72be5d74 && Constant(13) == 0x80deb1fe
    ensures Constant(14) == 0x9bdc06a7 && Constant(15) == 0xc19bf174
  {
  }

  lemma Constants1()
    ensures Constant(16) == 0xe49b69c1 && Constant(17) == 0xefbe4786
    ensures Constant(18) == 0x0fc19dc6 && Constant(19) == 0x240ca1cc
    ensures Constant(20) == 0x2de92c6f && Constant(21) == 0x4a7484aa
    ensures Constant(22) == 0x5cb0a9dc && Constant(23) == 0x76f988da
    ensures Constant(24) == 0x983e5152 && Constant(25) == 0xa831c66d
    ensures Constant(26) == 0xb00327c8 && Constant(27) == 0xbf597fc7
    ensures Constant(28) == 0xc6e00bf3 && Constant(29) == 0xd5a79147
    ensures Constant(30) == 0x06ca6351 && Constant(31) == 0x14292967
  {
  }

  lemma Constants2()
    ensures Constant(32) == 0x27b70a85 && Constant(33) == 0x2e1b2138
    ensures Constant(34) == 0x4d2c6dfc && Constant(35) == 0x53380d13
    ensures Constant(36) == 0x650a7354 && Constant(37) == 0x766a0abb
    ensures Constant(38) == 0x81c2c92e && Constant(39) == 0x92722c85
    ensures Constant(40) == 0xa2bfe8a1 && Constant(41) == 0xa81a664b
    ensures Constant(42) == 0xc24b8b70 && Constant(43) == 0xc76c51a3
    ensures Constant(44) == 0xd192e819 && Constant(45) == 0xd6990624
    ensures Constant(46) == 0xf40e3585 && Constant(47) == 0x106aa070
  {
  }

  lemma Constants3()
    ensures Constant(48) == 0x19a4c116 && Constant(49) == 0x1e376c08
    ensures Constant(50) == 0x2748774c && Constant(51) == 0x34b0bcb5
    ensures Constant(52) == 0x391c0cb3 && Constant(53) == 0x4ed8aa4a
    ensures Constant(54) == 0x5b9cca4f && Constant(55) == 0x682e6ff3
    ensures Constant(56) == 0x748f82ee && Constant(57) == 0x78a5636f
    ensures Constant(58) == 0x84c87814 && Constant(59) == 0x8cc70208
    ensures Constant(60) == 0x90befffa && Constant(61) == 0xa4506ceb
    ensures Constant(62) == 0xbef9a3f7 && Constant(63) == 0xc67178f2
  {
  }

  // ----- "abc" -----

  function Abc(): seq<Byte> {
    [0x61, 0x62, 0x63]
  }

  function AbcBlock(): Block {
    AbcLength();
    Padded(Abc())
  }

  lemma AbcLength()
    ensures |Padded(Abc())| == 64
  {
  }

  lemma AbcPadded()
    ensures var p := AbcBlock();
      && p[0] == 0x61 && p[1] == 0x62 && p[2] == 0x63 && p[3] == 0x80
      && (forall k :: 4 <= k < 63 ==> p[k] == 0) && p[63] == 24
  {
    ShortLength(24);
    var p := AbcBlock();
    assert forall k :: 56 <= k < 64 ==> p[k] == Be64(24)[k - 56];
  }

  lemma AbcIsBlock(b: Block)
    requires b[0] == 0x61 && b[1] == 0x62 && b[2] == 0x63 && b[3] == 0x80
    requires (forall k :: 4 <= k < 63 ==> b[k] == 0) && b[63] == 24
    ensures Words(b, 0,
              0x61626380, 0x00000000, 0x00000000, 0x00000000, 0x00000000, 0x00000000, 0x00000000, 0x00000000,
              0x00000000, 0x00000000, 0x00000000, 0x00000000, 0x00000000, 0x00000000, 0x00000000, 0x00000018)
  {
    hide Schedule, Word;
    forall t: nat | t < 16 ensures Schedule(b, t) == Word(b, 4 * t) {
      FirstWords(b, t);
    }
    WordIs(b, 0, 0x61, 0x62, 0x63, 0x80);
    WordIs(b, 60, 0, 0, 0, 24);
    forall t: nat | 1 <= t < 15 ensures Word(b, 4 * t) == Word([0, 0, 0, 0], 0) {
      WordIs(b, 4 * t, 0, 0, 0, 0);
    }
    AbcLiterals();
  }

  lemma AbcWords0(b: Block)
    requires b == AbcBlock()
    ensures Words(b, 0,
              0x61626380, 0x00000000, 0x00000000, 0x00000000, 0x00000000, 0x00000000, 0x00000000, 0x00000000,
              0x00000000, 0x00000000, 0x00000000, 0x00000000, 0x00000000, 0x00000000, 0x00000000, 0x00000018)
  {
    hide Words, AbcBlock;
    AbcPadded();
    AbcIsBlock(b);
  }

  lemma AbcLiterals()
    ensures Word([0x61, 0x62, 0x63, 0x80], 0) == 0x61626380
    ensures Word([0, 0, 0, 0], 0) == 0 && Word([0, 0, 0, 24], 0) == 24
  {
  }

  lemma AbcWords1(b: Block)
    requires b == AbcBlock()
    ensures Words(b, 16,
              0x61626380, 0x000f0000, 0x7da86405, 0x600003c6, 0x3e9d7b78, 0x0183fc00, 0x12dcbfdb, 0xe2e2c38e,
              0xc8215c1a, 0xb73679a2, 0xe5bc3909, 0x32663c5b, 0x9d209d67, 0xec8726cb, 0x702138a4, 0xd3b7973b)
  {
    hide Schedule, Extend, AbcBlock;
    AbcWords0(b);
    AbcExtend1();
    NextWord(b, 16, 0x00000000, 0x00000000, 0x00000000, 0x61626380);
    NextWord(b, 17, 0x00000018, 0x00000000, 0x00000000, 0x00000000);
    NextWord(b, 18, 0x61626380, 0x00000000, 0x00000000, 0x00000000);
    NextWord(b, 19, 0x000f0000, 0x00000000, 0x00000000, 0x00000000);
    NextWord(b, 20, 0x7da86405, 0x00000000, 0x00000000, 0x00000000);
    NextWord(b, 21, 0x600003c6, 0x00000000, 0x00000000, 0x00000000);
    NextWord(b, 22, 0x3e9d7b78, 0x00000018, 0x00000000, 0x00000000);
    NextWord(b, 23, 0x0183fc00, 0x61626380, 0x00000000, 0x00000000);
    NextWord(b, 24, 0x12dcbfdb, 0x000f0000, 0x00000000, 0x00000000);
    NextWord(b, 25, 0xe2e2c38e, 0x7da86405, 0x00000000, 0x00000000);
    NextWord(b, 26, 0xc8215c1a, 0x600003c6, 0x00000000, 0x00000000);
    NextWord(b, 27, 0xb73679a2, 0x3e9d7b78, 0x00000000, 0x00000000);
    NextWord(b, 28, 0xe5bc3909, 0x0183fc00, 0x00000000, 0x00000000);
    NextWord(b, 29, 0x32663c5b, 0x12dcbfdb, 0x00000000, 0x00000000);
    NextWord(b, 30, 0x9d209d67, 0xe2e2c38e, 0x00000018, 0x00000000);
    NextWord(b, 31, 0xec8726cb, 0xc8215c1a, 0x61626380, 0x00000018);
  }

  lemma AbcExtend1()
    ensures Extend(0x00000000, 0x00000000, 0x00000000, 0x61626380) == 0x61626380
    ensures Extend(0x00000018, 0x00000000, 0x00000000, 0x00000000) == 0x000f0000
    ensures Extend(0x61626380, 0x00000000, 0x00000000, 0x00000000) == 0x7da86405
    ensures Extend(0x000f0000, 0x00000000, 0x00000000, 0x00000000) == 0x600003c6
    ensures Extend(0x7da86405, 0x00000000, 0x00000000, 0x00000000) == 0x3e9d7b78
    ensures Extend(0x600003c6, 0x00000000, 0x00000000, 0x00000000) == 0x0183fc00
    ensures Extend(0x3e9d7b78, 0x00000018, 0x00000000, 0x00000000) == 0x12dcbfdb
    ensures Extend(0x0183fc00, 0x61626380, 0x00000000, 0x00000000) == 0xe2e2c38e
    ensures Extend(0x12dcbfdb, 0x000f0000, 0x00000000, 0x00000000) == 0xc8215c1a
    ensures Extend(0xe2e2c38e, 0x7da86405, 0x00000000, 0x00000000) == 0xb73679a2
    ensures Extend(0xc8215c1a, 0x600003c6, 0x00000000, 0x00000000) == 0xe5bc3909
    ensures Extend(0xb73679a2, 0x3e9d7b78, 0x00000000, 0x00000000) == 0x32663c5b
    ensures Extend(0xe5bc3909, 0x0183fc00, 0x00000000, 0x00000000) == 0x9d209d67
    ensures Extend(0x32663c5b, 0x12dcbfdb, 0x00000000, 0x00000000) == 0xec8726cb
    ensures Extend(0x9d209d67, 0xe2e2c38e, 0x00000018, 0x00000000) == 0x702138a4
    ensures Extend(0xec8726cb, 0xc8215c1a, 0x61626380, 0x00000018) == 0xd3b7973b
  {
  }

  lemma AbcWords2(b: Block)
    requires b == AbcBlock()
    ensures Words(b, 32,
              0x93f5997f, 0x3b68ba73, 0xaff4ffc1, 0xf10a5c62, 0x0a8b3996, 0x72af830a, 0x9409e33e, 0x24641522,
              0x9f47bf94, 0xf0a64f5a, 0x3e246a79, 0x27333ba3, 0x0c4763f2, 0x840abf27, 0x7a290d5d, 0x065c43da)
  {
    hide Schedule, Extend, AbcBlock;
    AbcWords1(b);
    AbcExtend2();
    NextWord(b, 32, 0x702138a4, 0xb73679a2, 0x000f0000, 0x61626380);
    NextWord(b, 33, 0xd3b7973b, 0xe5bc3909, 0x7da86405, 0x000f0000);
    NextWord(b, 34, 0x93f5997f, 0x32663c5b, 0x600003c6, 0x7da86405);
    NextWord(b, 35, 0x3b68ba73, 0x9d209d67, 0x3e9d7b78, 0x600003c6);
    NextWord(b, 36, 0xaff4ffc1, 0xec8726cb, 0x0183fc00, 0x3e9d7b78);
    NextWord(b, 37, 0xf10a5c62, 0x702138a4, 0x12dcbfdb, 0x0183fc00);
    NextWord(b, 38, 0x0a8b3996, 0xd3b7973b, 0xe2e2c38e, 0x12dcbfdb);
    NextWord(b, 39, 0x72af830a, 0x93f5997f, 0xc8215c1a, 0xe2e2c38e);
    NextWord(b, 40, 0x9409e33e, 0x3b68ba73, 0xb73679a2, 0xc8215c1a);
    NextWord(b, 41, 0x24641522, 0xaff4ffc1, 0xe5bc3909, 0xb73679a2);
    NextWord(b, 42, 0x9f47bf94, 0xf10a5c62, 0x32663c5b, 0xe5bc3909);
    NextWord(b, 43, 0xf0a64f5a, 0x0a8b3996, 0x9d209d67, 0x32663c5b);
    NextWord(b, 44, 0x3e246a79, 0x72af830a, 0xec8726cb, 0x9d209d67);
    NextWord(b, 45, 0x27333ba3, 0x9409e33e, 0x702138a4, 0xec8726cb);
    NextWord(b, 46, 0x0c4763f2, 0x24641522, 0xd3b7973b, 0x702138a4);
    NextWord(b, 47, 0x840abf27, 0x9f47bf94, 0x93f5997f, 0xd3b7973b);
  }

  lemma AbcExtend2()
    ensures Extend(0x702138a4, 0xb73679a2, 0x000f0000, 0x61626380) == 0x93f5997f
    ensures Extend(0xd3b7973b, 0xe5bc3909, 0x7da86405, 0x000f0000) == 0x3b68ba73
    ensures Extend(0x93f5997f, 0x32663c5b, 0x600003c6, 0x7da86405) == 0xaff4ffc1
    ensures Extend(0x3b68ba73, 0x9d209d67, 0x3e9d7b78, 0x600003c6) == 0xf10a5c62
    ensures Extend(0xaff4ffc1, 0xec8726cb, 0x0183fc00, 0x3e9d7b78) == 0x0a8b3996
    ensures Extend(0xf10a5c62, 0x702138a4, 0x12dcbfdb, 0x0183fc00) == 0x72af830a
    ensures Extend(0x0a8b3996, 0xd3b7973b, 0xe2e2c38e, 0x12dcbfdb) == 0x9409e33e
    ensures Extend(0x72af830a, 0x93f5997f, 0xc8215c1a, 0xe2e2c38e) == 0x24641522
    ensures Extend(0x9409e33e, 0x3b68ba73, 0xb73679a2, 0xc8215c1a) == 0x9f47bf94
    ensures Extend(0x24641522, 0xaff4ffc1, 0xe5bc3909, 0xb73679a2) == 0xf0a64f5a
    ensures Extend(0x9f47bf94, 0xf10a5c62, 0x32663c5b, 0xe5bc3909) == 0x3e246a79
    ensures Extend(0xf0a64f5a, 0x0a8b3996, 0x9d209d67, 0x32663c5b) == 0x27333ba3
    ensures Extend(0x3e246a79, 0x72af830a, 0xec8726cb, 0x9d209d67) == 0x0c4763f2
    ensures Extend(0x27333ba3, 0x9409e33e, 0x702138a4, 0xec8726cb) == 0x840abf27
    ensures Extend(0x0c4763f2, 0x24641522, 0xd3b7973b, 0x702138a4) == 0x7a290d5d
    ensures Extend(0x840abf27, 0x9f47bf94, 0x93f5997f, 0xd3b7973b) == 0x065c43da
  {
  }

  lemma AbcWords3(b: Block)
    requires b == AbcBlock()
    ensures Words(b, 48,
              0xfb3e89cb, 0xcc7617db, 0xb9e66c34, 0xa9993667, 0x84badedd, 0xc21462bc, 0x1487472c, 0xb20f7a99,
              0xef57b9cd, 0xebe6b238, 0x9fe3095e, 0x78bc8d4b, 0xa43fcf15, 0x668b2ff8, 0xeeaba2cc, 0x12b1edeb)
  {
    hide Schedule, Extend, AbcBlock;
    AbcWords2(b);
    AbcExtend3();
    NextWord(b, 48, 0x7a290d5d, 0xf0a64f5a, 0x3b68ba73, 0x93f5997f);
    NextWord(b, 49, 0x065c43da, 0x3e246a79, 0xaff4ffc1, 0x3b68ba73);
    NextWord(b, 50, 0xfb3e89cb, 0x27333ba3, 0xf10a5c62, 0xaff4ffc1);
    NextWord(b, 51, 0xcc7617db, 0x0c4763f2, 0x0a8b3996, 0xf10a5c62);
    NextWord(b, 52, 0xb9e66c34, 0x840abf27, 0x72af830a, 0x0a8b3996);
    NextWord(b, 53, 0xa9993667, 0x7a290d5d, 0x9409e33e, 0x72af830a);
    NextWord(b, 54, 0x84badedd, 0x065c43da, 0x24641522, 0x9409e33e);
    NextWord(b, 55, 0xc21462bc, 0xfb3e89cb, 0x9f47bf94, 0x24641522);
    NextWord(b, 56, 0x1487472c, 0xcc7617db, 0xf0a64f5a, 0x9f47bf94);
    NextWord(b, 57, 0xb20f7a99, 0xb9e66c34, 0x3e246a79, 0xf0a64f5a);
    NextWord(b, 58, 0xef57b9cd, 0xa9993667, 0x27333ba3, 0x3e246a79);
    NextWord(b, 59, 0xebe6b238, 0x84badedd, 0x0c4763f2, 0x27333ba3);
    NextWord(b, 60, 0x9fe3095e, 0xc21462bc, 0x840abf27, 0x0c4763f2);
    NextWord(b, 61, 0x78bc8d4b, 0x1487472c, 0x7a290d5d, 0x840abf27);
    NextWord(b, 62, 0xa43fcf15, 0xb20f7a99, 0x065c43da, 0x7a290d5d);
    NextWord(b, 63, 0x668b2ff8, 0xef57b9cd, 0xfb3e89cb, 0x065c43da);
  }

  lemma AbcExtend3()
    ensures Extend(0x7a290d5d, 0xf0a64f5a, 0x3b68ba73, 0x93f5997f) == 0xfb3e89cb
    ensures Extend(0x065c43da, 0x3e246a79, 0xaff4ffc1, 0x3b68ba73) == 0xcc7617db
    ensures Extend(0xfb3e89cb, 0x27333ba3, 0xf10a5c62, 0xaff4ffc1) == 0xb9e66c34
    ensures Extend(0xcc7617db, 0x0c4763f2, 0x0a8b3996, 0xf10a5c62) == 0xa9993667
    ensures Extend(0xb9e66c34, 0x840abf27, 0x72af830a, 0x0a8b3996) == 0x84badedd
    ensures Extend(0xa9993667, 0x7a290d5d, 0x9409e33e, 0x72af830a) == 0xc21462bc
    ensures Extend(0x84badedd, 0x065c43da, 0x24641522, 0x9409e33e) == 0x1487472c
    ensures Extend(0xc21462bc, 0xfb3e89cb, 0x9f47bf94, 0x24641522) == 0xb20f7a99
    ensures Extend(0x1487472c, 0xcc7617db, 0xf0a64f5a, 0x9f47bf94) == 0xef57b9cd
    ensures Extend(0xb20f7a99, 0xb9e66c34, 0x3e246a79, 0xf0a64f5a) == 0xebe6b238
    ensures Extend(0xef57b9cd, 0xa9993667, 0x27333ba3, 0x3e246a79) == 0x9fe3095e
    ensures Extend(0xebe6b238, 0x84badedd, 0x0c4763f2, 0x27333ba3) == 0x78bc8d4b
    ensures Extend(0x9fe3095e, 0xc21462bc, 0x840abf27, 0x0c4763f2) == 0xa43fcf15
    ensures Extend(0x78bc8d4b, 0x1487472c, 0x7a290d5d, 0x840abf27) == 0x668b2ff8
    ensures Extend(0xa43fcf15, 0xb20f7a99, 0x065c43da, 0x7a290d5d) == 0xeeaba2cc
    ensures Extend(0x668b2ff8, 0xef57b9cd, 0xfb3e89cb, 0x065c43da) == 0x12b1edeb
  {
  }

  lemma AbcHalf(h: Hash, b: Block)
    requires h == INITIAL && b == AbcBlock()
    ensures After(h, b, 31,
              0x73b33bf5, 0xea992a22, 0xa0060b30, 0x363482c9, 0xba591112, 0x0109ab3a, 0xade79437, 0x6112a3b7)
  {
    hide Schedule, Constant, After, AbcBlock;
    Constants0();
    AbcWords0(b);
    Constants1();
    AbcWords1(b);
    AbcFirst(h, b);
    NextRound(h, b, 0, 0x71374491, 0x00000000, 0x3c5f8617, 0x1e0b5396, 0x5a6ad9ad, 0x78ce7989,
              0x5d6aebcd, 0x6a09e667, 0xbb67ae85, 0x3c6ef372, 0xfa2a4622, 0x510e527f, 0x9b05688c, 0x1f83d9ab);
    NextRound(h, b, 1, 0xb5c0fbcf, 0x00000000, 0x3dc18b66, 0x8b01bc41, 0xc8c347a7, 0xf92939eb,
              0x5a6ad9ad, 0x5d6aebcd, 0x6a09e667, 0xbb67ae85, 0x78ce7989, 0xfa2a4622, 0x510e527f, 0x9b05688c);
    NextRound(h, b, 2, 0xe9b5dba5, 0x00000000, 0xbad621e9, 0x1a7ad47d, 0xd550f666, 0x24e00850,
              0xc8c347a7, 0x5a6ad9ad, 0x5d6aebcd, 0x6a09e667, 0xf92939eb, 0x78ce7989, 0xfa2a4622, 0x510e527f);
    NextRound(h, b, 3, 0x3956c25b, 0x00000000, 0xe642b678, 0x1dfde3f2, 0x04409a6a, 0x43ada245,
              0xd550f666, 0xc8c347a7, 0x5a6ad9ad, 0x5d6aebcd, 0x24e00850, 0xf92939eb, 0x78ce7989, 0xfa2a4622);
    NextRound(h, b, 4, 0x59f111f1, 0x00000000, 0x16d78700, 0x146a82f5, 0x2b4209f5, 0x714260ad,
              0x04409a6a, 0xd550f666, 0xc8c347a7, 0x5a6ad9ad, 0x43ada245, 0x24e00850, 0xf92939eb, 0x78ce7989);
    NextRound(h, b, 5, 0x923f82a4, 0x00000000, 0xd2645c5a, 0x129ea726, 0xe5030380, 0x9b27a401,
              0x2b4209f5, 0x04409a6a, 0xd550f666, 0xc8c347a7, 0x714260ad, 0x43ada245, 0x24e00850, 0xf92939eb);
    NextRound(h, b, 6, 0xab1c5ed5, 0x00000000, 0x37148413, 0x4e8bf74c, 0x85a07b5f, 0x0c657a79,
              0xe5030380, 0x2b4209f5, 0x04409a6a, 0xd550f666, 0x9b27a401, 0x714260ad, 0x43ada245, 0x24e00850);
    NextRound(h, b, 7, 0xd807aa98, 0x00000000, 0x2e899322, 0x5f7b5997, 0x8e04ecb9, 0x32ca2d8c,
              0x85a07b5f, 0xe5030380, 0x2b4209f5, 0x04409a6a, 0x0c657a79, 0x9b27a401, 0x714260ad, 0x43ada245);
    NextRound(h, b, 8, 0x12835b01, 0x00000000, 0xf1871ba1, 0x9b0018ca, 0x8c87346b, 0x1cc92596,
              0x8e04ecb9, 0x85a07b5f, 0xe5030380, 0x2b4209f5, 0x32ca2d8c, 0x0c657a79, 0x9b27a401, 0x714260ad);
    NextRound(h, b, 9, 0x243185be, 0x00000000, 0x5e682068, 0xe930838c, 0x4798a3f4, 0x436b23e8,
              0x8c87346b, 0x8e04ecb9, 0x85a07b5f, 0xe5030380, 0x1cc92596, 0x32ca2d8c, 0x0c657a79, 0x9b27a401);
    NextRound(h, b, 10, 0x550c7dc3, 0x00000000, 0xfbcf5b8a, 0xfb506a1f, 0xf71fc5a9, 0x816fd6e9,
              0x4798a3f4, 0x8c87346b, 0x8e04ecb9, 0x85a07b5f, 0x436b23e8, 0x1cc92596, 0x32ca2d8c, 0x0c657a79);
    NextRound(h, b, 11, 0x72be5d74, 0x00000000, 0x9052955f, 0xf73e9431, 0x87912990, 0x1e578218,
              0xf71fc5a9, 0x4798a3f4, 0x8c87346b, 0x8e04ecb9, 0x816fd6e9, 0x436b23e8, 0x1cc92596, 0x32ca2d8c);
    NextRound(h, b, 12, 0x80deb1fe, 0x00000000, 0xe7d31473, 0xf15fd6a3, 0xd932eb16, 0x745a48de,
              0x87912990, 0xf71fc5a9, 0x4798a3f4, 0x8c87346b, 0x1e578218, 0x816fd6e9, 0x436b23e8, 0x1cc92596);
    NextRound(h, b, 13, 0x9bdc06a7, 0x00000000, 0xc3fa4e18, 0xfc6a11c6, 0xc0645fde, 0x0b92f20c,
              0xd932eb16, 0x87912990, 0xf71fc5a9, 0x4798a3f4, 0x745a48de, 0x1e578218, 0x816fd6e9, 0x436b23e8);
    NextRound(h, b, 14, 0xc19bf174, 0x00000018, 0x10394824, 0xa0c0db6a, 0xb0fa238e, 0x07590dcd,
              0xc0645fde, 0xd932eb16, 0x87912990, 0xf71fc5a9, 0x0b92f20c, 0x745a48de, 0x1e578218, 0x816fd6e9);
    NextRound(h, b, 15, 0xe49b69c1, 0x61626380, 0xf8a2f90c, 0x2937a18f, 0x21da9a9b, 0x8034229c,
              0xb0fa238e, 0xc0645fde, 0xd932eb16, 0x87912990, 0x07590dcd, 0x0b92f20c, 0x745a48de, 0x1e578218);
    NextRound(h, b, 16, 0xefbe4786, 0x000f0000, 0xab3bf93e, 0x17bfe093, 0xc2fbd9d1, 0x846ee454,
              0x21da9a9b, 0xb0fa238e, 0xc0645fde, 0xd932eb16, 0x8034229c, 0x07590dcd, 0x0b92f20c, 0x745a48de);
    NextRound(h, b, 17, 0x0fc19dc6, 0x7da86405, 0x0c253983, 0xf252423c, 0xfe777bbf, 0xcc899961,
              0xc2fbd9d1, 0x21da9a9b, 0xb0fa238e, 0xc0645fde, 0x846ee454, 0x8034229c, 0x07590dcd, 0x0b92f20c);
    NextRound(h, b, 18, 0x240ca1cc, 0x600003c6, 0xff695deb, 0xe288ae48, 0xe1f20c33, 0xb0638179,
              0xfe777bbf, 0xc2fbd9d1, 0x21da9a9b, 0xb0fa238e, 0xcc899961, 0x846ee454, 0x8034229c, 0x07590dcd);
    NextRound(h, b, 19, 0x2de92c6f, 0x3e9d7b78, 0x68ffee95, 0x34c69cce, 0x9dc68b63, 0x8ada8930,
              0xe1f20c33, 0xfe777bbf, 0xc2fbd9d1, 0x21da9a9b, 0xb0638179, 0xcc899961, 0x846ee454, 0x8034229c);
    NextRound(h, b, 20, 0x4a7484aa, 0x0183fc00, 0x1e299f9f, 0xa436cdce, 0xc2606d6d, 0xe1257970,
              0x9dc68b63, 0xe1f20c33, 0xfe777bbf, 0xc2fbd9d1, 0x8ada8930, 0xb0638179, 0xcc899961, 0x846ee454);
    NextRound(h, b, 21, 0x5cb0a9dc, 0x12dcbfdb, 0x4b7d958b, 0x5c25ccb4, 0xa7a3623f, 0x49f5114a,
              0xc2606d6d, 0x9dc68b63, 0xe1f20c33, 0xfe777bbf, 0xe1257970, 0x8ada8930, 0xb0638179, 0xcc899961);
    NextRound(h, b, 22, 0x76f988da, 0xe2e2c38e, 0xc855b714, 0xfd7f8679, 0xc5d53d8d, 0xaa47c347,
              0xa7a3623f, 0xc2606d6d, 0x9dc68b63, 0xe1f20c33, 0x49f5114a, 0xe1257970, 0x8ada8930, 0xb0638179);
    NextRound(h, b, 23, 0x983e5152, 0xc8215c1a, 0x8a5d642e, 0x91cec40a, 0x1c2c2838, 0x2823ef91,
              0xc5d53d8d, 0xa7a3623f, 0xc2606d6d, 0x9dc68b63, 0xaa47c347, 0x49f5114a, 0xe1257970, 0x8ada8930);
    NextRound(h, b, 24, 0xa831c66d, 0xb73679a2, 0x51d7d021, 0x7c10335c, 0xcde8037d, 0x14383d8e,
              0x1c2c2838, 0xc5d53d8d, 0xa7a3623f, 0xc2606d6d, 0x2823ef91, 0xaa47c347, 0x49f5114a, 0xe1257970);
    NextRound(h, b, 25, 0xb00327c8, 0xe5bc3909, 0x1fa902d7, 0x9685c1e5, 0xb62ec4bc, 0xc74c6516,
              0xcde8037d, 0x1c2c2838, 0xc5d53d8d, 0xa7a3623f, 0x14383d8e, 0x2823ef91, 0xaa47c347, 0x49f5114a);
    NextRound(h, b, 26, 0xbf597fc7, 0x32663c5b, 0x282a826b, 0x4fa8f2bd, 0x77d37528, 0xedffbff8,
              0xb62ec4bc, 0xcde8037d, 0x1c2c2838, 0xc5d53d8d, 0xc74c6516, 0x14383d8e, 0x2823ef91, 0xaa47c347);
    NextRound(h, b, 27, 0xc6e00bf3, 0x9d209d67, 0x44e67b7f, 0xf14e074a, 0x363482c9, 0x6112a3b7,
              0x77d37528, 0xb62ec4bc, 0xcde8037d, 0x1c2c2838, 0xedffbff8, 0xc74c6516, 0x14383d8e, 0x2823ef91);
    NextRound(h, b, 28, 0xd5a79147, 0xec8726cb, 0xdfff90ba, 0xc0067a76, 0xa0060b30, 0xade79437,
              0x363482c9, 0x77d37528, 0xb62ec4bc, 0xcde8037d, 0x6112a3b7, 0xedffbff8, 0xc74c6516, 0x14383d8e);
    NextRound(h, b, 29, 0x06ca6351, 0x702138a4, 0x4adae67e, 0x9fbe43a4, 0xea992a22, 0x0109ab3a,
              0xa0060b30, 0x363482c9, 0x77d37528, 0xb62ec4bc, 0xade79437, 0x6112a3b7, 0xedffbff8, 0xc74c6516);
    NextRound(h, b, 30, 0x14292967, 0xd3b7973b, 0x42859bea, 0x312da00b, 0x73b33bf5, 0xba591112,
              0xea992a22, 0xa0060b30, 0x363482c9, 0x77d37528, 0x0109ab3a, 0xade79437, 0x6112a3b7, 0xedffbff8);
  }

  lemma AbcFirst(h: Hash, b: Block)
    requires h == INITIAL && b == AbcBlock()
    ensures After(h, b, 0,
              0x5d6aebcd, 0x6a09e667, 0xbb67ae85, 0x3c6ef372, 0xfa2a4622, 0x510e527f, 0x9b05688c, 0x1f83d9ab)
  {
    hide Schedule, Constant, Rounds, AbcBlock;
    Constants0();
    AbcWords0(b);
    FirstRound(h, b, 0x428a2f98, 0x61626380);
  }

  lemma AbcRounds(h: Hash, b: Block)
    requires h == INITIAL && b == AbcBlock()
    ensures After(h, b, 63,
              0x506e3058, 0xd39a2165, 0x04d24d6c, 0xb85e2ce9, 0x5ef50f24, 0xfb121210, 0x948d25b6, 0x961f4894)
  {
    hide Schedule, Constant, After, AbcBlock;
    Constants2();
    AbcWords2(b);
    Constants3();
    AbcWords3(b);
    AbcHalf(h, b);
    NextRound(h, b, 31, 0x27b70a85, 0x93f5997f, 0x66a5732d, 0x323bb1da, 0x98e12507, 0x9cd9f5f6,
              0x73b33bf5, 0xea992a22, 0xa0060b30, 0x363482c9, 0xba591112, 0x0109ab3a, 0xade79437, 0x6112a3b7);
    NextRound(h, b, 32, 0x2e1b2138, 0x3b68ba73, 0xb91e92a3, 0x4541bb52, 0xfe604df5, 0x59249dd3,
              0x98e12507, 0x73b33bf5, 0xea992a22, 0xa0060b30, 0x9cd9f5f6, 0xba591112, 0x0109ab3a, 0xade79437);
    NextRound(h, b, 33, 0x4d2c6dfc, 0xaff4ffc1, 0x1dc60e11, 0x8be1657b, 0xa9a7738c, 0x085f3833,
              0xfe604df5, 0x98e12507, 0x73b33bf5, 0xea992a22, 0x59249dd3, 0x9cd9f5f6, 0xba591112, 0x0109ab3a);
    NextRound(h, b, 34, 0x53380d13, 0xf10a5c62, 0x80fcc6e1, 0xe4a40903, 0x65a0cfe4, 0xf4b002d6,
              0xa9a7738c, 0xfe604df5, 0x98e12507, 0x73b33bf5, 0x085f3833, 0x59249dd3, 0x9cd9f5f6, 0xba591112);
    NextRound(h, b, 35, 0x650a7354, 0x0a8b3996, 0x6e917d64, 0xd314df4d, 0x41a65cb1, 0x0772a26b,
              0x65a0cfe4, 0xa9a7738c, 0xfe604df5, 0x98e12507, 0xf4b002d6, 0x085f3833, 0x59249dd3, 0x9cd9f5f6);
    NextRound(h, b, 36, 0x766a0abb, 0x72af830a, 0xa6a75748, 0x8e37bebc, 0x34df1604, 0xa507a53d,
              0x41a65cb1, 0x65a0cfe4, 0xa9a7738c, 0xfe604df5, 0x0772a26b, 0xf4b002d6, 0x085f3833, 0x59249dd3);
    NextRound(h, b, 37, 0x81c2c92e, 0x9409e33e, 0x46d0a83c, 0x26f4d24e, 0x6dc57a8a, 0xf0781bc8,
              0x34df1604, 0x41a65cb1, 0x65a0cfe4, 0xa9a7738c, 0xa507a53d, 0x0772a26b, 0xf4b002d6, 0x085f3833);
    NextRound(h, b, 38, 0x92722c85, 0x24641522, 0xb95af0bc, 0xc08f77be, 0x79ea687a, 0x1efbc0a0,
              0x6dc57a8a, 0x34df1604, 0x41a65cb1, 0x65a0cfe4, 0xf0781bc8, 0xa507a53d, 0x0772a26b, 0xf4b002d6);
    NextRound(h, b, 39, 0xa2bfe8a1, 0x9f47bf94, 0xe48ed0b2, 0xf1d836b4, 0xd6670766, 0x26352d63,
              0x79ea687a, 0x6dc57a8a, 0x34df1604, 0x41a65cb1, 0x1efbc0a0, 0xf0781bc8, 0xa507a53d, 0x0772a26b);
    NextRound(h, b, 40, 0xa81a664b, 0xf0a64f5a, 0x4eac110d, 0x909a5422, 0xdf46652f, 0x838b2711,
              0xd6670766, 0x79ea687a, 0x6dc57a8a, 0x34df1604, 0x26352d63, 0x1efbc0a0, 0xf0781bc8, 0xa507a53d);
    NextRound(h, b, 41, 0xc24b8b70, 0x3e246a79, 0x7107cc8b, 0xa6a24173, 0x17aa0dfe, 0xdecd4715,
              0xdf46652f, 0xd6670766, 0x79ea687a, 0x6dc57a8a, 0x838b2711, 0x26352d63, 0x1efbc0a0, 0xf0781bc8);
    NextRound(h, b, 42, 0xc76c51a3, 0x27333ba3, 0x83b7e3b4, 0x1993cbdf, 0x9d4baf93, 0xfda24c2e,
              0x17aa0dfe, 0xdf46652f, 0xd6670766, 0x79ea687a, 0xdecd4715, 0x838b2711, 0x26352d63, 0x1efbc0a0);
    NextRound(h, b, 43, 0xd192e819, 0x0c4763f2, 0xd1a80a8a, 0x54ba7d8b, 0x26628815, 0xa80f11f0,
              0x9d4baf93, 0x17aa0dfe, 0xdf46652f, 0xd6670766, 0xfda24c2e, 0xdecd4715, 0x838b2711, 0x26352d63);
    NextRound(h, b, 44, 0xd6990624, 0x840abf27, 0xd82ef872, 0x9a7c531f, 0x72ab4b91, 0xb7755da1,
              0x26628815, 0x9d4baf93, 0x17aa0dfe, 0xdf46652f, 0xa80f11f0, 0xfda24c2e, 0xdecd4715, 0x838b2711);
    NextRound(h, b, 45, 0xf40e3585, 0x7a290d5d, 0xbdd186ab, 0xe37a8e05, 0xa14c14b0, 0xd57b94a9,
              0x72ab4b91, 0x26628815, 0x9d4baf93, 0x17aa0dfe, 0xb7755da1, 0xa80f11f0, 0xfda24c2e, 0xdecd4715);
    NextRound(h, b, 46, 0x106aa070, 0x065c43da, 0x61835c33, 0xdfeed65a, 0x4172328d, 0xfecf0bc6,
              0xa14c14b0, 0x72ab4b91, 0x26628815, 0x9d4baf93, 0xd57b94a9, 0xb7755da1, 0xa80f11f0, 0xfda24c2e);
    NextRound(h, b, 47, 0x19a4c116, 0xfb3e89cb, 0x970eb823, 0x6e66c4c8, 0x05757ceb, 0xbd714038,
              0x4172328d, 0xa14c14b0, 0x72ab4b91, 0x26628815, 0xfecf0bc6, 0xd57b94a9, 0xb7755da1, 0xa80f11f0);
    NextRound(h, b, 48, 0x1e376c08, 0xcc7617db, 0xfbb0ed7b, 0xf56b0d2d, 0xf11bfaa8, 0x6e5c390c,
              0x05757ceb, 0x4172328d, 0xa14c14b0, 0x72ab4b91, 0xbd714038, 0xfecf0bc6, 0xd57b94a9, 0xb7755da1);
    NextRound(h, b, 49, 0x2748774c, 0xb9e66c34, 0xb1a5b847, 0xc85f505a, 0x7a0508a1, 0x52f1ccf7,
              0xf11bfaa8, 0x05757ceb, 0x4172328d, 0xa14c14b0, 0x6e5c390c, 0xbd714038, 0xfecf0bc6, 0xd57b94a9);
    NextRound(h, b, 50, 0x34b0bcb5, 0xa9993667, 0x07b0e991, 0x80bd9091, 0x886e7a22, 0x49231c1e,
              0x7a0508a1, 0xf11bfaa8, 0x05757ceb, 0x4172328d, 0x52f1ccf7, 0x6e5c390c, 0xbd714038, 0xfecf0bc6);
    NextRound(h, b, 51, 0x391c0cb3, 0x84badedd, 0x4d290015, 0xc2f6d27a, 0x101fd28f, 0x529e7d00,
              0x886e7a22, 0x7a0508a1, 0xf11bfaa8, 0x05757ceb, 0x49231c1e, 0x52f1ccf7, 0x6e5c390c, 0xbd714038);
    NextRound(h, b, 52, 0x4ed8aa4a, 0xc21462bc, 0xae2b8d1b, 0x4744a2c0, 0xf5702fdb, 0x9f4787c3,
              0x101fd28f, 0x886e7a22, 0x7a0508a1, 0xf11bfaa8, 0x529e7d00, 0x49231c1e, 0x52f1ccf7, 0x6e5c390c);
    NextRound(h, b, 53, 0x5b9cca4f, 0x1487472c, 0x6b0912ae, 0xd3bb4a2d, 0x3ec45cdb, 0xe50e1b4f,
              0xf5702fdb, 0x101fd28f, 0x886e7a22, 0x7a0508a1, 0x9f4787c3, 0x529e7d00, 0x49231c1e, 0x52f1ccf7);
    NextRound(h, b, 54, 0x682e6ff3, 0xb20f7a99, 0xcc5cac49, 0x6c6fecca, 0x38cc9913, 0x54cb266b,
              0x3ec45cdb, 0xf5702fdb, 0x101fd28f, 0x886e7a22, 0xe50e1b4f, 0x9f4787c3, 0x529e7d00, 0x49231c1e);
    NextRound(h, b, 55, 0x748f82ee, 0xef57b9cd, 0x8b3ebddd, 0x7192ca9e, 0xfcd1887b, 0x9b5e906c,
              0x38cc9913, 0x3ec45cdb, 0xf5702fdb, 0x101fd28f, 0x54cb266b, 0xe50e1b4f, 0x9f4787c3, 0x529e7d00);
    NextRound(h, b, 56, 0x78a5636f, 0xebe6b238, 0x88d3d0b3, 0x378f03bc, 0xc062d46f, 0x7e44008e,
              0xfcd1887b, 0x38cc9913, 0x3ec45cdb, 0xf5702fdb, 0x9b5e906c, 0x54cb266b, 0xe50e1b4f, 0x9f4787c3);
    NextRound(h, b, 57, 0x84c87814, 0x9fe3095e, 0x2ebf62eb, 0xd0f7a187, 0xffb70472, 0x6d83bfc6,
              0xc062d46f, 0xfcd1887b, 0x38cc9913, 0x3ec45cdb, 0x7e44008e, 0x9b5e906c, 0x54cb266b, 0xe50e1b4f);
    NextRound(h, b, 58, 0x8cc70208, 0x78bc8d4b, 0x794f142a, 0x3d5f7bd5, 0xb6ae8fff, 0xb21bad3d,
              0xffb70472, 0xc062d46f, 0xfcd1887b, 0x38cc9913, 0x6d83bfc6, 0x7e44008e, 0x9b5e906c, 0x54cb266b);
    NextRound(h, b, 59, 0x90befffa, 0xa43fcf15, 0x994dc019, 0x1f106cd0, 0xb85e2ce9, 0x961f4894,
              0xb6ae8fff, 0xffb70472, 0xc062d46f, 0xfcd1887b, 0xb21bad3d, 0x6d83bfc6, 0x7e44008e, 0x9b5e906c);
    NextRound(h, b, 60, 0xa4506ceb, 0x668b2ff8, 0xd42a5147, 0x30a7fc25, 0x04d24d6c, 0x948d25b6,
              0xb85e2ce9, 0xb6ae8fff, 0xffb70472, 0xc062d46f, 0x961f4894, 0xb21bad3d, 0x6d83bfc6, 0x7e44008e);
    NextRound(h, b, 61, 0xbef9a3f7, 0xeeaba2cc, 0xfb5b0d9e, 0xd83f13c7, 0xd39a2165, 0xfb121210,
              0x04d24d6c, 0xb85e2ce9, 0xb6ae8fff, 0xffb70472, 0x948d25b6, 0x961f4894, 0xb21bad3d, 0x6d83bfc6);
    NextRound(h, b, 62, 0xc67178f2, 0x12b1edeb, 0xa8467f25, 0xa827b133, 0x506e3058, 0x5ef50f24,
              0xd39a2165, 0x04d24d6c, 0xb85e2ce9, 0xb6ae8fff, 0xfb121210, 0x948d25b6, 0x961f4894, 0xb21bad3d);
  }

  lemma AbcSum()
    ensures Sum(Hash(0x6a09e667, 0xbb67ae85, 0x3c6ef372, 0xa54ff53a, 0x510e527f, 0x9b05688c, 0x1f83d9ab, 0x5be0cd19),
                Hash(0x506e3058, 0xd39a2165, 0x04d24d6c, 0xb85e2ce9, 0x5ef50f24, 0xfb121210, 0x948d25b6, 0x961f4894))
            == Hash(0xba7816bf, 0x8f01cfea, 0x414140de, 0x5dae2223, 0xb00361a3, 0x96177a9c, 0xb410ff61, 0xf20015ad)
  {
  }

  lemma AbcBytes0()
    ensures Be32(0xba7816bf) == [0xBA, 0x78, 0x16, 0xBF]
    ensures Be32(0x8f01cfea) == [0x8F, 0x01, 0xCF, 0xEA]
  {
  }

  lemma AbcBytes1()
    ensures Be32(0x414140de) == [0x41, 0x41, 0x40, 0xDE]
    ensures Be32(0x5dae2223) == [0x5D, 0xAE, 0x22, 0x23]
  {
  }

  lemma AbcBytes2()
    ensures Be32(0xb00361a3) == [0xB0, 0x03, 0x61, 0xA3]
    ensures Be32(0x96177a9c) == [0x96, 0x17, 0x7A, 0x9C]
  {
  }

  lemma AbcBytes3()
    ensures Be32(0xb410ff61) == [0xB4, 0x10, 0xFF, 0x61]
    ensures Be32(0xf20015ad) == [0xF2, 0x00, 0x15, 0xAD]
  {
  }

  lemma AbcBytes()
    ensures Digest(Hash(0xba7816bf, 0x8f01cfea, 0x414140de, 0x5dae2223, 0xb00361a3, 0x96177a9c, 0xb410ff61, 0xf20015ad))
            == [0xBA, 0x78, 0x16, 0xBF, 0x8F, 0x01, 0xCF, 0xEA, 0x41, 0x41, 0x40, 0xDE, 0x5D, 0xAE, 0x22, 0x23,
               0xB0, 0x03, 0x61, 0xA3, 0x96, 0x17, 0x7A, 0x9C, 0xB4, 0x10, 0xFF, 0x61, 0xF2, 0x00, 0x15, 0xAD]
  {
    hide Be32;
    AbcBytes0();
    AbcBytes1();
    AbcBytes2();
    AbcBytes3();
  }

  lemma OneBlock(m: seq<Byte>, b: Block)
    requires |Padded(m)| == 64 && b == Padded(m)
    ensures HashOf(m) == Compress(INITIAL, b)
  {
    assert BlockOf(b, 0) == b;
    assert Blocks(b, 1) == Compress(Blocks(b, 0), BlockOf(b, 0));
  }

  lemma AbcIsHash()
    ensures HashOf(Abc())
            == Hash(0xba7816bf, 0x8f01cfea, 0x414140de, 0x5dae2223, 0xb00361a3, 0x96177a9c, 0xb410ff61, 0xf20015ad)
  {
    hide Compress, Padded, HashOf, After, Sum;
    AbcLength();
    AbcRounds(INITIAL, AbcBlock());
    LastRound(INITIAL, AbcBlock(),
              0x506e3058, 0xd39a2165, 0x04d24d6c, 0xb85e2ce9, 0x5ef50f24, 0xfb121210, 0x948d25b6, 0x961f4894);
    AbcSum();
    OneBlock(Abc(), AbcBlock());
  }

  /** The digest of "abc". */
  lemma AbcDigest()
    ensures Digest(HashOf([0x61, 0x62, 0x63]))
            == [0xBA, 0x78, 0x16, 0xBF, 0x8F, 0x01, 0xCF, 0xEA, 0x41, 0x41, 0x40, 0xDE, 0x5D, 0xAE, 0x22, 0x23,
               0xB0, 0x03, 0x61, 0xA3, 0x96, 0x17, 0x7A, 0x9C, 0xB4, 0x10, 0xFF, 0x61, 0xF2, 0x00, 0x15, 0xAD]
  {
    hide HashOf, Digest;
    AbcIsHash();
    AbcBytes();
  }

  // ----- the message of 56 bytes -----

  /** "abcd", "bcde" and so on up to "nopq". */
  function Letters(): seq<Byte> {
    seq(56, k requires 0 <= k < 56 => 0x61 + k / 4 + k % 4)
  }

  lemma LettersLength()
    ensures |Padded(Letters())| == 128
  {
  }

  function FrontBlock(): Block {
    LettersLength();
    Padded(Letters())[..64]
  }

  function BackBlock(): Block {
    LettersLength();
    Padded(Letters())[64..]
  }

  lemma FrontPadded()
    ensures var p := FrontBlock();
      && (forall k :: 0 <= k < 56 ==> p[k] == 0x61 + k / 4 + k % 4) && p[56] == 0x80
      && (forall k :: 57 <= k < 64 ==> p[k] == 0)
  {
  }

  lemma BackPadded()
    ensures var p := BackBlock();
      && (forall k :: 0 <= k < 62 ==> p[k] == 0) && p[62] == 1 && p[63] == 0xC0
  {
    ShortLength(448);
    var p := Padded(Letters());
    assert forall k :: 120 <= k < 128 ==> p[k] == Be64(448)[k - 120];
  }

  lemma FrontIsBlock(b: Block)
    requires (forall k :: 0 <= k < 56 ==> b[k] == 0x61 + k / 4 + k % 4) && b[56] == 0x80
    requires forall k :: 57 <= k < 64 ==> b[k] == 0
    ensures Words(b, 0,
              0x61626364, 0x62636465, 0x63646566, 0x64656667, 0x65666768, 0x66676869, 0x6768696a, 0x68696a6b,
              0x696a6b6c, 0x6a6b6c6d, 0x6b6c6d6e, 0x6c6d6e6f, 0x6d6e6f70, 0x6e6f7071, 0x80000000, 0x00000000)
  {
    hide Schedule, Word;
    forall t: nat | t < 16 ensures Schedule(b, t) == Word(b, 4 * t) {
      FirstWords(b, t);
    }
    forall t: nat | t < 14 ensures Word(b, 4 * t) == Word([0x61 + t, 0x62 + t, 0x63 + t, 0x64 + t], 0) {
      WordIs(b, 4 * t, 0x61 + t, 0x62 + t, 0x63 + t, 0x64 + t);
    }
    WordIs(b, 56, 0x80, 0, 0, 0);
    WordIs(b, 60, 0, 0, 0, 0);
    FrontLiterals();
    MiddleLiterals();
    LastLiterals();
  }

  lemma FrontWords0(b: Block)
    requires b == FrontBlock()
    ensures Words(b, 0,
              0x61626364, 0x62636465, 0x63646566, 0x64656667, 0x65666768, 0x66676869, 0x6768696a, 0x68696a6b,
              0x696a6b6c, 0x6a6b6c6d, 0x6b6c6d6e, 0x6c6d6e6f, 0x6d6e6f70, 0x6e6f7071, 0x80000000, 0x00000000)
  {
    hide Words, FrontBlock;
    FrontPadded();
    FrontIsBlock(b);
  }

  lemma FrontLiterals()
    ensures Word([0x61, 0x62, 0x63, 0x64], 0) == 0x61626364
    ensures Word([0x62, 0x63, 0x64, 0x65], 0) == 0x62636465
    ensures Word([0x63, 0x64, 0x65, 0x66], 0) == 0x63646566
    ensures Word([0x64, 0x65, 0x66, 0x67], 0) == 0x64656667
    ensures Word([0x65, 0x66, 0x67, 0x68], 0) == 0x65666768
  {
  }

  lemma MiddleLiterals()
    ensures Word([0x66, 0x67, 0x68, 0x69], 0) == 0x66676869
    ensures Word([0x67, 0x68, 0x69, 0x6A], 0) == 0x6768696a
    ensures Word([0x68, 0x69, 0x6A, 0x6B], 0) == 0x68696a6b
    ensures Word([0x69, 0x6A, 0x6B, 0x6C], 0) == 0x696a6b6c
    ensures Word([0x6A, 0x6B, 0x6C, 0x6D], 0) == 0x6a6b6c6d
  {
  }

  lemma LastLiterals()
    ensures Word([0x6B, 0x6C, 0x6D, 0x6E], 0) == 0x6b6c6d6e
    ensures Word([0x6C, 0x6D, 0x6E, 0x6F], 0) == 0x6c6d6e6f
    ensures Word([0x6D, 0x6E, 0x6F, 0x70], 0) == 0x6d6e6f70
    ensures Word([0x6E, 0x6F, 0x70, 0x71], 0) == 0x6e6f7071
    ensures Word([0x80, 0, 0, 0], 0) == 0x80000000 && Word([0, 0, 0, 0], 0) == 0
  {
  }

  lemma FrontWords1(b: Block)
    requires b == FrontBlock()
    ensures Words(b, 16,
              0xeb8012ad, 0xa7c3ae92, 0x76e93ba2, 0xba42e743, 0x92a92204, 0xd847e75e, 0x9e160036, 0xb280a7cb,
              0xddeb1516, 0xf36586f4, 0x969cd048, 0xe959d99d, 0x6accc0ec, 0xf54cb098, 0x2af1b2da, 0xee59c4c9)
  {
    hide Schedule, Extend, FrontBlock;
    FrontWords0(b);
    FrontExtend1();
    NextWord(b, 16, 0x80000000, 0x6a6b6c6d, 0x62636465, 0x61626364);
    NextWord(b, 17, 0x00000000, 0x6b6c6d6e, 0x63646566, 0x62636465);
    NextWord(b, 18, 0xeb8012ad, 0x6c6d6e6f, 0x64656667, 0x63646566);
    NextWord(b, 19, 0xa7c3ae92, 0x6d6e6f70, 0x65666768, 0x64656667);
    NextWord(b, 20, 0x76e93ba2, 0x6e6f7071, 0x66676869, 0x65666768);
    NextWord(b, 21, 0xba42e743, 0x80000000, 0x6768696a, 0x66676869);
    NextWord(b, 22, 0x92a92204, 0x00000000, 0x68696a6b, 0x6768696a);
    NextWord(b, 23, 0xd847e75e, 0xeb8012ad, 0x696a6b6c, 0x68696a6b);
    NextWord(b, 24, 0x9e160036, 0xa7c3ae92, 0x6a6b6c6d, 0x696a6b6c);
    NextWord(b, 25, 0xb280a7cb, 0x76e93ba2, 0x6b6c6d6e, 0x6a6b6c6d);
    NextWord(b, 26, 0xddeb1516, 0xba42e743, 0x6c6d6e6f, 0x6b6c6d6e);
    NextWord(b, 27, 0xf36586f4, 0x92a92204, 0x6d6e6f70, 0x6c6d6e6f);
    NextWord(b, 28, 0x969cd048, 0xd847e75e, 0x6e6f7071, 0x6d6e6f70);
    NextWord(b, 29, 0xe959d99d, 0x9e160036, 0x80000000, 0x6e6f7071);
    NextWord(b, 30, 0x6accc0ec, 0xb280a7cb, 0x00000000, 0x80000000);
    NextWord(b, 31, 0xf54cb098, 0xddeb1516, 0xeb8012ad, 0x00000000);
  }

  lemma FrontExtend1()
    ensures Extend(0x80000000, 0x6a6b6c6d, 0x62636465, 0x61626364) == 0xeb8012ad
    ensures Extend(0x00000000, 0x6b6c6d6e, 0x63646566, 0x62636465) == 0xa7c3ae92
    ensures Extend(0xeb8012ad, 0x6c6d6e6f, 0x64656667, 0x63646566) == 0x76e93ba2
    ensures Extend(0xa7c3ae92, 0x6d6e6f70, 0x65666768, 0x64656667) == 0xba42e743
    ensures Extend(0x76e93ba2, 0x6e6f7071, 0x66676869, 0x65666768) == 0x92a92204
    ensures Extend(0xba42e743, 0x80000000, 0x6768696a, 0x66676869) == 0xd847e75e
    ensures Extend(0x92a92204, 0x00000000, 0x68696a6b, 0x6768696a) == 0x9e160036
    ensures Extend(0xd847e75e, 0xeb8012ad, 0x696a6b6c, 0x68696a6b) == 0xb280a7cb
    ensures Extend(0x9e160036, 0xa7c3ae92, 0x6a6b6c6d, 0x696a6b6c) == 0xddeb1516
    ensures Extend(0xb280a7cb, 0x76e93ba2, 0x6b6c6d6e, 0x6a6b6c6d) == 0xf36586f4
    ensures Extend(0xddeb1516, 0xba42e743, 0x6c6d6e6f, 0x6b6c6d6e) == 0x969cd048
    ensures Extend(0xf36586f4, 0x92a92204, 0x6d6e6f70, 0x6c6d6e6f) == 0xe959d99d
    ensures Extend(0x969cd048, 0xd847e75e, 0x6e6f7071, 0x6d6e6f70) == 0x6accc0ec
    ensures Extend(0xe959d99d, 0x9e160036, 0x80000000, 0x6e6f7071) == 0xf54cb098
    ensures Extend(0x6accc0ec, 0xb280a7cb, 0x00000000, 0x80000000) == 0x2af1b2da
    ensures Extend(0xf54cb098, 0xddeb1516, 0xeb8012ad, 0x00000000) == 0xee59c4c9
  {
  }

  lemma FrontWords2(b: Block)
    requires b == FrontBlock()
    ensures Words(b, 32,
              0xa835e16a, 0x1dff4429, 0xd6e15959, 0xc397cd6e, 0x6f1801ca, 0x21574205, 0x35ff7a84, 0x9743ee78,
              0xe44183e7, 0x0d09f00d, 0x9c89af54, 0x042d5bef, 0x71f134d0, 0x0f94f463, 0x7e49dc63, 0x6f65c997)
  {
    hide Schedule, Extend, FrontBlock;
    FrontWords1(b);
    FrontExtend2();
    NextWord(b, 32, 0x2af1b2da, 0xf36586f4, 0xa7c3ae92, 0xeb8012ad);
    NextWord(b, 33, 0xee59c4c9, 0x969cd048, 0x76e93ba2, 0xa7c3ae92);
    NextWord(b, 34, 0xa835e16a, 0xe959d99d, 0xba42e743, 0x76e93ba2);
    NextWord(b, 35, 0x1dff4429, 0x6accc0ec, 0x92a92204, 0xba42e743);
    NextWord(b, 36, 0xd6e15959, 0xf54cb098, 0xd847e75e, 0x92a92204);
    NextWord(b, 37, 0xc397cd6e, 0x2af1b2da, 0x9e160036, 0xd847e75e);
    NextWord(b, 38, 0x6f1801ca, 0xee59c4c9, 0xb280a7cb, 0x9e160036);
    NextWord(b, 39, 0x21574205, 0xa835e16a, 0xddeb1516, 0xb280a7cb);
    NextWord(b, 40, 0x35ff7a84, 0x1dff4429, 0xf36586f4, 0xddeb1516);
    NextWord(b, 41, 0x9743ee78, 0xd6e15959, 0x969cd048, 0xf36586f4);
    NextWord(b, 42, 0xe44183e7, 0xc397cd6e, 0xe959d99d, 0x969cd048);
    NextWord(b, 43, 0x0d09f00d, 0x6f1801ca, 0x6accc0ec, 0xe959d99d);
    NextWord(b, 44, 0x9c89af54, 0x21574205, 0xf54cb098, 0x6accc0ec);
    NextWord(b, 45, 0x042d5bef, 0x35ff7a84, 0x2af1b2da, 0xf54cb098);
    NextWord(b, 46, 0x71f134d0, 0x9743ee78, 0xee59c4c9, 0x2af1b2da);
    NextWord(b, 47, 0x0f94f463, 0xe44183e7, 0xa835e16a, 0xee59c4c9);
  }

  lemma FrontExtend2()
    ensures Extend(0x2af1b2da, 0xf36586f4, 0xa7c3ae92, 0xeb8012ad) == 0xa835e16a
    ensures Extend(0xee59c4c9, 0x969cd048, 0x76e93ba2, 0xa7c3ae92) == 0x1dff4429
    ensures Extend(0xa835e16a, 0xe959d99d, 0xba42e743, 0x76e93ba2) == 0xd6e15959
    ensures Extend(0x1dff4429, 0x6accc0ec, 0x92a92204, 0xba42e743) == 0xc397cd6e
    ensures Extend(0xd6e15959, 0xf54cb098, 0xd847e75e, 0x92a92204) == 0x6f1801ca
    ensures Extend(0xc397cd6e, 0x2af1b2da, 0x9e160036, 0xd847e75e) == 0x21574205
    ensures Extend(0x6f1801ca, 0xee59c4c9, 0xb280a7cb, 0x9e160036) == 0x35ff7a84
    ensures Extend(0x21574205, 0xa835e16a, 0xddeb1516, 0xb280a7cb) == 0x9743ee78
    ensures Extend(0x35ff7a84, 0x1dff4429, 0xf36586f4, 0xddeb1516) == 0xe44183e7
    ensures Extend(0x9743ee78, 0xd6e15959, 0x969cd048, 0xf36586f4) == 0x0d09f00d
    ensures Extend(0xe44183e7, 0xc397cd6e, 0xe959d99d, 0x969cd048) == 0x9c89af54
    ensures Extend(0x0d09f00d, 0x6f1801ca, 0x6accc0ec, 0xe959d99d) == 0x042d5bef
    ensures Extend(0x9c89af54, 0x21574205, 0xf54cb098, 0x6accc0ec) == 0x71f134d0
    ensures Extend(0x042d5bef, 0x35ff7a84, 0x2af1b2da, 0xf54cb098) == 0x0f94f463
    ensures Extend(0x71f134d0, 0x9743ee78, 0xee59c4c9, 0x2af1b2da) == 0x7e49dc63
    ensures Extend(0x0f94f463, 0xe44183e7, 0xa835e16a, 0xee59c4c9) == 0x6f65c997
  {
  }

  lemma FrontWords3(b: Block)
    requires b == FrontBlock()
    ensures Words(b, 48,
              0x0b706583, 0x179312ca, 0x503054e9, 0xba125c39, 0x7e9392c9, 0xd5cbaa1e, 0x78e0585d, 0xf6e7611c,
              0x8ac830ce, 0x8b47a303, 0xfd6e627f, 0x8c6e2c6a, 0x4001adf1, 0x1a3dd097, 0xa9df6f62, 0x6aa60a39)
  {
    hide Schedule, Extend, FrontBlock;
    FrontWords2(b);
    FrontExtend3();
    NextWord(b, 48, 0x7e49dc63, 0x0d09f00d, 0x1dff4429, 0xa835e16a);
    NextWord(b, 49, 0x6f65c997, 0x9c89af54, 0xd6e15959, 0x1dff4429);
    NextWord(b, 50, 0x0b706583, 0x042d5bef, 0xc397cd6e, 0xd6e15959);
    NextWord(b, 51, 0x179312ca, 0x71f134d0, 0x6f1801ca, 0xc397cd6e);
    NextWord(b, 52, 0x503054e9, 0x0f94f463, 0x21574205, 0x6f1801ca);
    NextWord(b, 53, 0xba125c39, 0x7e49dc63, 0x35ff7a84, 0x21574205);
    NextWord(b, 54, 0x7e9392c9, 0x6f65c997, 0x9743ee78, 0x35ff7a84);
    NextWord(b, 55, 0xd5cbaa1e, 0x0b706583, 0xe44183e7, 0x9743ee78);
    NextWord(b, 56, 0x78e0585d, 0x179312ca, 0x0d09f00d, 0xe44183e7);
    NextWord(b, 57, 0xf6e7611c, 0x503054e9, 0x9c89af54, 0x0d09f00d);
    NextWord(b, 58, 0x8ac830ce, 0xba125c39, 0x042d5bef, 0x9c89af54);
    NextWord(b, 59, 0x8b47a303, 0x7e9392c9, 0x71f134d0, 0x042d5bef);
    NextWord(b, 60, 0xfd6e627f, 0xd5cbaa1e, 0x0f94f463, 0x71f134d0);
    NextWord(b, 61, 0x8c6e2c6a, 0x78e0585d, 0x7e49dc63, 0x0f94f463);
    NextWord(b, 62, 0x4001adf1, 0xf6e7611c, 0x6f65c997, 0x7e49dc63);
    NextWord(b, 63, 0x1a3dd097, 0x8ac830ce, 0x0b706583, 0x6f65c997);
  }

  lemma FrontExtend3()
    ensures Extend(0x7e49dc63, 0x0d09f00d, 0x1dff4429, 0xa835e16a) == 0x0b706583
    ensures Extend(0x6f65c997, 0x9c89af54, 0xd6e15959, 0x1dff4429) == 0x179312ca
    ensures Extend(0x0b706583, 0x042d5bef, 0xc397cd6e, 0xd6e15959) == 0x503054e9
    ensures Extend(0x179312ca, 0x71f134d0, 0x6f1801ca, 0xc397cd6e) == 0xba125c39
    ensures Extend(0x503054e9, 0x0f94f463, 0x21574205, 0x6f1801ca) == 0x7e9392c9
    ensures Extend(0xba125c39, 0x7e49dc63, 0x35ff7a84, 0x21574205) == 0xd5cbaa1e
    ensures Extend(0x7e9392c9, 0x6f65c997, 0x9743ee78, 0x35ff7a84) == 0x78e0585d
    ensures Extend(0xd5cbaa1e, 0x0b706583, 0xe44183e7, 0x9743ee78) == 0xf6e7611c
    ensures Extend(0x78e0585d, 0x179312ca, 0x0d09f00d, 0xe44183e7) == 0x8ac830ce
    ensures Extend(0xf6e7611c, 0x503054e9, 0x9c89af54, 0x0d09f00d) == 0x8b47a303
    ensures Extend(0x8ac830ce, 0xba125c39, 0x042d5bef, 0x9c89af54) == 0xfd6e627f
    ensures Extend(0x8b47a303, 0x7e9392c9, 0x71f134d0, 0x042d5bef) == 0x8c6e2c6a
    ensures Extend(0xfd6e627f, 0xd5cbaa1e, 0x0f94f463, 0x71f134d0) == 0x4001adf1
    ensures Extend(0x8c6e2c6a, 0x78e0585d, 0x7e49dc63, 0x0f94f463) == 0x1a3dd097
    ensures Extend(0x4001adf1, 0xf6e7611c, 0x6f65c997, 0x7e49dc63) == 0xa9df6f62
    ensures Extend(0x1a3dd097, 0x8ac830ce, 0x0b706583, 0x6f65c997) == 0x6aa60a39
  {
  }

  lemma FrontHalf(h: Hash, b: Block)
    requires h == INITIAL && b == FrontBlock()
    ensures After(h, b, 31,
              0x5581ab07, 0xeb43f3ed, 0xdf7151a0, 0x74bcf468, 0xdf980085, 0x0635d880, 0x7629c961, 0x72abaecd)
  {
    hide Schedule, Constant, After, FrontBlock;
    Constants0();
    FrontWords0(b);
    Constants1();
    FrontWords1(b);
    FrontFirst(h, b);
    NextRound(h, b, 0, 0x71374491, 0x62636465, 0x1242dc5c, 0x1cea8373, 0x2f2d5fcf, 0x4eb1cfce,
              0x5d6aebb1, 0x6a09e667, 0xbb67ae85, 0x3c6ef372, 0xfa2a4606, 0x510e527f, 0x9b05688c, 0x1f83d9ab);
    NextRound(h, b, 1, 0xb5c0fbcf, 0x63646566, 0xa76e1619, 0xeff7020c, 0x97651825, 0x62d5c49e,
              0x2f2d5fcf, 0x5d6aebb1, 0x6a09e667, 0xbb67ae85, 0x4eb1cfce, 0xfa2a4606, 0x510e527f, 0x9b05688c);
    NextRound(h, b, 2, 0xe9b5dba5, 0x64656667, 0xfa8a9db4, 0x5002c721, 0x4a8d64d5, 0x6494841b,
              0x97651825, 0x2f2d5fcf, 0x5d6aebb1, 0x6a09e667, 0x62d5c49e, 0x4eb1cfce, 0xfa2a4606, 0x510e527f);
    NextRound(h, b, 3, 0x3956c25b, 0x65666768, 0xa85a0cd9, 0x50c7b539, 0xf921c212, 0x05c4f88a,
              0x4a8d64d5, 0x97651825, 0x2f2d5fcf, 0x5d6aebb1, 0x6494841b, 0x62d5c49e, 0x4eb1cfce, 0xfa2a4606);
    NextRound(h, b, 4, 0x59f111f1, 0x66676869, 0x50cbbcc5, 0x04fd3283, 0x55c8ef48, 0x7ff91c94,
              0xf921c212, 0x4a8d64d5, 0x97651825, 0x2f2d5fcf, 0x05c4f88a, 0x6494841b, 0x62d5c49e, 0x4eb1cfce);
    NextRound(h, b, 5, 0x923f82a4, 0x6768696a, 0xa2409aa5, 0xa6179b12, 0x485835b7, 0x39a5b2ca,
              0x55c8ef48, 0xf921c212, 0x4a8d64d5, 0x97651825, 0x7ff91c94, 0x05c4f88a, 0x6494841b, 0x62d5c49e);
    NextRound(h, b, 6, 0xab1c5ed5, 0x68696a6b, 0x59746d3c, 0x78c3799f, 0xd237e6db, 0xa401d211,
              0x485835b7, 0x55c8ef48, 0xf921c212, 0x4a8d64d5, 0x39a5b2ca, 0x7ff91c94, 0x05c4f88a, 0x6494841b);
    NextRound(h, b, 7, 0xd807aa98, 0x696a6b6c, 0xc77e3cb2, 0x6e20ef1c, 0x359f2bce, 0xc09ffec4,
              0xd237e6db, 0x485835b7, 0x55c8ef48, 0xf921c212, 0xa401d211, 0x39a5b2ca, 0x7ff91c94, 0x05c4f88a);
    NextRound(h, b, 8, 0x12835b01, 0x6a6b6c6d, 0x3a6ec470, 0xffd886bb, 0x3a474b2b, 0x9037b3b8,
              0x359f2bce, 0xd237e6db, 0x485835b7, 0x55c8ef48, 0xc09ffec4, 0xa401d211, 0x39a5b2ca, 0x7ff91c94);
    NextRound(h, b, 9, 0x243185be, 0x6b6c6d6e, 0xfbe69ce7, 0xbcfc17e4, 0xb8e2b4cb, 0x443ed29e,
              0x3a474b2b, 0x359f2bce, 0xd237e6db, 0x485835b7, 0x9037b3b8, 0xc09ffec4, 0xa401d211, 0x39a5b2ca);
    NextRound(h, b, 10, 0x550c7dc3, 0x6c6d6e6f, 0x1be4b0cd, 0xfb7d708f, 0x1762215c, 0xee1c97a8,
              0xb8e2b4cb, 0x3a474b2b, 0x359f2bce, 0xd237e6db, 0x443ed29e, 0x9037b3b8, 0xc09ffec4, 0xa401d211);
    NextRound(h, b, 11, 0x72be5d74, 0x6d6e6f70, 0x4dfae3fb, 0xc21f6466, 0x101a4861, 0x839a0fc9,
              0x1762215c, 0xb8e2b4cb, 0x3a474b2b, 0x359f2bce, 0xee1c97a8, 0x443ed29e, 0x9037b3b8, 0xc09ffec4);
    NextRound(h, b, 12, 0x80deb1fe, 0x6e6f7071, 0x57fcad84, 0x7e91b6d3, 0xd68e6457, 0x9243f8af,
              0x101a4861, 0x1762215c, 0xb8e2b4cb, 0x3a474b2b, 0x839a0fc9, 0xee1c97a8, 0x443ed29e, 0x9037b3b8);
    NextRound(h, b, 13, 0x9bdc06a7, 0x80000000, 0xd87ff922, 0x0496d291, 0xdd16cbb3, 0x9162aded,
              0xd68e6457, 0x101a4861, 0x1762215c, 0xb8e2b4cb, 0x9243f8af, 0x839a0fc9, 0xee1c97a8, 0x443ed29e);
    NextRound(h, b, 14, 0xc19bf174, 0x00000000, 0xfd3483f3, 0xc613dda1, 0xc3486194, 0x1496a54f,
              0xdd16cbb3, 0xd68e6457, 0x101a4861, 0x1762215c, 0x9162aded, 0x9243f8af, 0x839a0fc9, 0xee1c97a8);
    NextRound(h, b, 15, 0xe49b69c1, 0xeb8012ad, 0xc4dbf9ef, 0xf500b2c2, 0xb9dcacb1, 0xd4f64250,
              0xc3486194, 0xdd16cbb3, 0xd68e6457, 0x101a4861, 0x1496a54f, 0x9162aded, 0x9243f8af, 0x839a0fc9);
    NextRound(h, b, 16, 0xefbe4786, 0xa7c3ae92, 0xb1c50c5f, 0x52a50cdf, 0x046a193e, 0x885370b6,
              0xb9dcacb1, 0xc3486194, 0xdd16cbb3, 0xd68e6457, 0xd4f64250, 0x1496a54f, 0x9162aded, 0x9243f8af);
    NextRound(h, b, 17, 0x0fc19dc6, 0x76e93ba2, 0x922c6996, 0x61d686c2, 0xf402f058, 0x6f433549,
              0x046a193e, 0xb9dcacb1, 0xc3486194, 0xdd16cbb3, 0x885370b6, 0xd4f64250, 0x1496a54f, 0x9162aded);
    NextRound(h, b, 18, 0x240ca1cc, 0xba42e743, 0xb8e7e072, 0x68513809, 0x2139187b, 0x7c304206,
              0xf402f058, 0x046a193e, 0xb9dcacb1, 0xc3486194, 0x6f433549, 0x885370b6, 0xd4f64250, 0x1496a54f);
    NextRound(h, b, 19, 0x2de92c6f, 0x92a92204, 0xc2ea05b1, 0x1420bbcc, 0xd70ac17d, 0x7cc6b262,
              0x2139187b, 0xf402f058, 0x046a193e, 0xb9dcacb1, 0x7c304206, 0x6f433549, 0x885370b6, 0xd4f64250);
    NextRound(h, b, 20, 0x4a7484aa, 0xd847e75e, 0xd0f696ea, 0x4a34cfce, 0x1b2b66b8, 0xd560b028,
              0xd70ac17d, 0x2139187b, 0xf402f058, 0x046a193e, 0x7cc6b262, 0x7c304206, 0x6f433549, 0x885370b6);
    NextRound(h, b, 21, 0x5cb0a9dc, 0x9e160036, 0xfc720c3d, 0xb1bc2112, 0xae2e2d4f, 0xf074fc95,
              0x1b2b66b8, 0xd70ac17d, 0x2139187b, 0xf402f058, 0xd560b028, 0x7cc6b262, 0x7c304206, 0x6f433549);
    NextRound(h, b, 22, 0x76f988da, 0xb280a7cb, 0x818ebca2, 0xd86e2a17, 0x59fce6b9, 0xa2c7d51d,
              0xae2e2d4f, 0x1b2b66b8, 0xd70ac17d, 0x2139187b, 0xf074fc95, 0xd560b028, 0x7cc6b262, 0x7c304206);
    NextRound(h, b, 23, 0x983e5152, 0xddeb1516, 0x9f2ad67e, 0xab5d79e7, 0x4a885065, 0x763597fb,
              0x59fce6b9, 0xae2e2d4f, 0x1b2b66b8, 0xd70ac17d, 0xa2c7d51d, 0xf074fc95, 0xd560b028, 0x7cc6b262);
    NextRound(h, b, 24, 0xa831c66d, 0xf36586f4, 0x1bbbe7fc, 0x3b7639de, 0x573221da, 0x36e74eb4,
              0x4a885065, 0x59fce6b9, 0xae2e2d4f, 0x1b2b66b8, 0x763597fb, 0xa2c7d51d, 0xf074fc95, 0xd560b028);
    NextRound(h, b, 25, 0xb00327c8, 0x969cd048, 0x6334a826, 0xaf51b9b4, 0x128661da, 0x1162d575,
              0x573221da, 0x4a885065, 0x59fce6b9, 0xae2e2d4f, 0x36e74eb4, 0x763597fb, 0xa2c7d51d, 0xf074fc95);
    NextRound(h, b, 26, 0xbf597fc7, 0xe959d99d, 0x8d7f92c6, 0xe678c5e9, 0x73f858af, 0xe77c797f,
              0x128661da, 0x573221da, 0x4a885065, 0x59fce6b9, 0x1162d575, 0x36e74eb4, 0x763597fb, 0xa2c7d51d);
    NextRound(h, b, 27, 0xc6e00bf3, 0x6accc0ec, 0x28235e68, 0x4c999600, 0x74bcf468, 0x72abaecd,
              0x73f858af, 0x128661da, 0x573221da, 0x4a885065, 0xe77c797f, 0x1162d575, 0x36e74eb4, 0x763597fb);
    NextRound(h, b, 28, 0xd5a79147, 0xf54cb098, 0x1ef7a787, 0xc079aa19, 0xdf7151a0, 0x7629c961,
              0x74bcf468, 0x73f858af, 0x128661da, 0x573221da, 0x72abaecd, 0xe77c797f, 0x1162d575, 0x36e74eb4);
    NextRound(h, b, 29, 0x06ca6351, 0x2af1b2da, 0xf3af76a6, 0xf7947d47, 0xeb43f3ed, 0x0635d880,
              0xdf7151a0, 0x74bcf468, 0x73f858af, 0x128661da, 0x7629c961, 0x72abaecd, 0xe77c797f, 0x1162d575);
    NextRound(h, b, 30, 0x14292967, 0xee59c4c9, 0x6b9fa7d6, 0xe9e20331, 0x5581ab07, 0xdf980085,
              0xeb43f3ed, 0xdf7151a0, 0x74bcf468, 0x73f858af, 0x0635d880, 0x7629c961, 0x72abaecd, 0xe77c797f);
  }

  lemma FrontFirst(h: Hash, b: Block)
    requires h == INITIAL && b == FrontBlock()
    ensures After(h, b, 0,
              0x5d6aebb1, 0x6a09e667, 0xbb67ae85, 0x3c6ef372, 0xfa2a4606, 0x510e527f, 0x9b05688c, 0x1f83d9ab)
  {
    hide Schedule, Constant, Rounds, FrontBlock;
    Constants0();
    FrontWords0(b);
    FirstRound(h, b, 0x428a2f98, 0x61626364);
  }

  lemma FrontRounds(h: Hash, b: Block)
    requires h == INITIAL && b == FrontBlock()
    ensures After(h, b, 63,
              0x1bdc6f6f, 0x86126910, 0xf6f443f8, 0xbcfce922, 0x25d2430a, 0x2fc08f85, 0xacc75916, 0x962d8621)
  {
    hide Schedule, Constant, After, FrontBlock;
    Constants2();
    FrontWords2(b);
    Constants3();
    FrontWords3(b);
    FrontHalf(h, b);
    NextRound(h, b, 31, 0x27b70a85, 0xa835e16a, 0x34903689, 0x6b38cf3f, 0x9fc905c8, 0xa94d2af1,
              0x5581ab07, 0xeb43f3ed, 0xdf7151a0, 0x74bcf468, 0xdf980085, 0x0635d880, 0x7629c961, 0x72abaecd);
    NextRound(h, b, 32, 0x2e1b2138, 0x1dff4429, 0x8f82651d, 0x0d634112, 0x9ce5a62f, 0x6ef3b6bd,
              0x9fc905c8, 0x5581ab07, 0xeb43f3ed, 0xdf7151a0, 0xa94d2af1, 0xdf980085, 0x0635d880, 0x7629c961);
    NextRound(h, b, 33, 0x4d2c6dfc, 0xd6e15959, 0x3f5a10a1, 0xde9ed7e4, 0x1df8e885, 0x2a9e048e,
              0x9ce5a62f, 0x9fc905c8, 0x5581ab07, 0xeb43f3ed, 0x6ef3b6bd, 0xa94d2af1, 0xdf980085, 0x0635d880);
    NextRound(h, b, 34, 0x53380d13, 0xc397cd6e, 0x88a876ca, 0x7ede661e, 0x0786dce8, 0xde2a21d1,
              0x1df8e885, 0x9ce5a62f, 0x9fc905c8, 0x5581ab07, 0x2a9e048e, 0x6ef3b6bd, 0xa94d2af1, 0xdf980085);
    NextRound(h, b, 35, 0x650a7354, 0x6f1801ca, 0x109ebbe7, 0x1bb717bf, 0x2c55d3a6, 0xb067c1af,
              0x0786dce8, 0x1df8e885, 0x9ce5a62f, 0x9fc905c8, 0xde2a21d1, 0x2a9e048e, 0x6ef3b6bd, 0xa94d2af1);
    NextRound(h, b, 36, 0x766a0abb, 0x21574205, 0x5a464d24, 0x4f3f679a, 0xa985b4be, 0xf72bf353,
              0x2c55d3a6, 0x0786dce8, 0x1df8e885, 0x9ce5a62f, 0xb067c1af, 0xde2a21d1, 0x2a9e048e, 0x6ef3b6bd);
    NextRound(h, b, 37, 0x81c2c92e, 0x35ff7a84, 0x4adfed0b, 0x46ccb052, 0x91ac9d5d, 0x68d8d590,
              0xa985b4be, 0x2c55d3a6, 0x0786dce8, 0x1df8e885, 0xf72bf353, 0xb067c1af, 0xde2a21d1, 0x2a9e048e);
    NextRound(h, b, 38, 0x92722c85, 0x9743ee78, 0x97d4be85, 0xe6787233, 0x7e4d30b8, 0x9f5b9b6d,
              0x91ac9d5d, 0xa985b4be, 0x2c55d3a6, 0x0786dce8, 0x68d8d590, 0xf72bf353, 0xb067c1af, 0xde2a21d1);
    NextRound(h, b, 39, 0xa2bfe8a1, 0xe44183e7, 0x15e5531a, 0x6820147a, 0x7e056794, 0x423b26c0,
              0x7e4d30b8, 0x91ac9d5d, 0xa985b4be, 0x2c55d3a6, 0x9f5b9b6d, 0x68d8d590, 0xf72bf353, 0xb067c1af);
    NextRound(h, b, 40, 0xa81a664b, 0x0d09f00d, 0x9bbfe8d9, 0xb4ca2dd2, 0x508a16ab, 0x45459d97,
              0x7e056794, 0x7e4d30b8, 0x91ac9d5d, 0xa985b4be, 0x423b26c0, 0x9f5b9b6d, 0x68d8d590, 0xf72bf353);
    NextRound(h, b, 41, 0xc24b8b70, 0x9c89af54, 0xeefc8ca3, 0xc72fe370, 0xb62c7013, 0x80a92a00,
              0x508a16ab, 0x7e056794, 0x7e4d30b8, 0x91ac9d5d, 0x45459d97, 0x423b26c0, 0x9f5b9b6d, 0x68d8d590);
    NextRound(h, b, 42, 0xc76c51a3, 0x042d5bef, 0xc390078c, 0x52e35a52, 0x167361de, 0x41dd3844,
              0xb62c7013, 0x508a16ab, 0x7e056794, 0x7e4d30b8, 0x80a92a00, 0x45459d97, 0x423b26c0, 0x9f5b9b6d);
    NextRound(h, b, 43, 0xd192e819, 0x71f134d0, 0x815c5ea2, 0x5d158450, 0xde71e2f2, 0xff61c636,
              0x167361de, 0xb62c7013, 0x508a16ab, 0x7e056794, 0x41dd3844, 0x80a92a00, 0x45459d97, 0x423b26c0);
    NextRound(h, b, 44, 0xd6990624, 0x0f94f463, 0x1afe3081, 0xfdf2a11c, 0x18f0d19d, 0x6b88472c,
              0xde71e2f2, 0x167361de, 0xb62c7013, 0x508a16ab, 0xff61c636, 0x41dd3844, 0x80a92a00, 0x45459d97);
    NextRound(h, b, 45, 0xf40e3585, 0x7e49dc63, 0xee57806d, 0x28046960, 0x165be9cd, 0xa483f080,
              0x18f0d19d, 0xde71e2f2, 0x167361de, 0xb62c7013, 0x6b88472c, 0xff61c636, 0x41dd3844, 0x80a92a00);
    NextRound(h, b, 46, 0x106aa070, 0x6f65c997, 0x910cc86f, 0x82cb5ed2, 0x13d82741, 0xa7802a4d,
              0x165be9cd, 0x18f0d19d, 0xde71e2f2, 0x167361de, 0xa483f080, 0x6b88472c, 0xff61c636, 0x41dd3844);
    NextRound(h, b, 47, 0x19a4c116, 0x0b706583, 0xd03f286e, 0x313c752b, 0x017b9d99, 0xaeb10b60,
              0x13d82741, 0x165be9cd, 0x18f0d19d, 0xde71e2f2, 0xa7802a4d, 0xa483f080, 0x6b88472c, 0xff61c636);
    NextRound(h, b, 48, 0x1e376c08, 0x179312ca, 0xfe006319, 0x563c3688, 0x543c99a1, 0x16f134b6,
              0x017b9d99, 0x13d82741, 0x165be9cd, 0x18f0d19d, 0xaeb10b60, 0xa7802a4d, 0xa483f080, 0x6b88472c);
    NextRound(h, b, 49, 0x2748774c, 0x503054e9, 0xf9b1091d, 0x7bdba05d, 0x758ca97a, 0x100cf2ea,
              0x543c99a1, 0x017b9d99, 0x13d82741, 0x165be9cd, 0x16f134b6, 0xaeb10b60, 0xa7802a4d, 0xa483f080);
    NextRound(h, b, 50, 0x34b0bcb5, 0xba125c39, 0x486fc43a, 0x395209a6, 0x81c1cde0, 0x5c47eb7b,
              0x758ca97a, 0x543c99a1, 0x017b9d99, 0x13d82741, 0x100cf2ea, 0x16f134b6, 0xaeb10b60, 0xa7802a4d);
    NextRound(h, b, 51, 0x391c0cb3, 0x7e9392c9, 0x1b04ccc8, 0x9dd08951, 0xb8d55619, 0x1c806a61,
              0x81c1cde0, 0x758ca97a, 0x543c99a1, 0x017b9d99, 0x5c47eb7b, 0x100cf2ea, 0x16f134b6, 0xaeb10b60);
    NextRound(h, b, 52, 0x4ed8aa4a, 0xd5cbaa1e, 0xe0072533, 0x3d66c347, 0x1d6de87a, 0x3443bed4,
              0xb8d55619, 0x81c1cde0, 0x758ca97a, 0x543c99a1, 0x1c806a61, 0x5c47eb7b, 0x100cf2ea, 0x16f134b6);
    NextRound(h, b, 53, 0x5b9cca4f, 0x78e0585d, 0xec176d97, 0x0cf0457c, 0xf907b313, 0x61a41711,
              0x1d6de87a, 0xb8d55619, 0x81c1cde0, 0x758ca97a, 0x3443bed4, 0x1c806a61, 0x5c47eb7b, 0x100cf2ea);
    NextRound(h, b, 54, 0x682e6ff3, 0xf6e7611c, 0x6cff6768, 0x31585d38, 0x9e57c4a0, 0xeec13548,
              0xf907b313, 0x1d6de87a, 0xb8d55619, 0x81c1cde0, 0x61a41711, 0x3443bed4, 0x1c806a61, 0x5c47eb7b);
    NextRound(h, b, 55, 0x748f82ee, 0x8ac830ce, 0x76973635, 0xfacb6221, 0x71629856, 0x2f6c8c4e,
              0x9e57c4a0, 0xf907b313, 0x1d6de87a, 0xb8d55619, 0xeec13548, 0x61a41711, 0x3443bed4, 0x1c806a61);
    NextRound(h, b, 56, 0x78a5636f, 0x8b47a303, 0xae2f5556, 0xcdd204d6, 0x7c015a2c, 0xcb9d3dd0,
              0x71629856, 0x9e57c4a0, 0xf907b313, 0x1d6de87a, 0x2f6c8c4e, 0xeec13548, 0x61a41711, 0x3443bed4);
    NextRound(h, b, 57, 0x84c87814, 0xfd6e627f, 0x4ad0ed21, 0x474edf95, 0x921fccb6, 0x43d8a034,
              0x7c015a2c, 0x71629856, 0x9e57c4a0, 0xf907b313, 0xcb9d3dd0, 0x2f6c8c4e, 0xeec13548, 0x61a41711);
    NextRound(h, b, 58, 0x8cc70208, 0x8c6e2c6a, 0xb38993c9, 0x2e0591d1, 0xe18f259a, 0x51e15869,
              0x921fccb6, 0x7c015a2c, 0x71629856, 0x9e57c4a0, 0x43d8a034, 0xcb9d3dd0, 0x2f6c8c4e, 0xeec13548);
    NextRound(h, b, 59, 0x90befffa, 0x4001adf1, 0x24caedcb, 0x9831fb57, 0xbcfce922, 0x962d8621,
              0xe18f259a, 0x921fccb6, 0x7c015a2c, 0x71629856, 0x51e15869, 0x43d8a034, 0xcb9d3dd0, 0x2f6c8c4e);
    NextRound(h, b, 60, 0xa4506ceb, 0x1a3dd097, 0x30c5feea, 0xc62e450e, 0xf6f443f8, 0xacc75916,
              0xbcfce922, 0xe18f259a, 0x921fccb6, 0x7c015a2c, 0x962d8621, 0x51e15869, 0x43d8a034, 0xcb9d3dd0);
    NextRound(h, b, 61, 0xbef9a3f7, 0xa9df6f62, 0x9da0c2cf, 0xe871a641, 0x86126910, 0x2fc08f85,
              0xf6f443f8, 0xbcfce922, 0xe18f259a, 0x921fccb6, 0xacc75916, 0x962d8621, 0x51e15869, 0x43d8a034);
    NextRound(h, b, 62, 0xc67178f2, 0x6aa60a39, 0x44431d70, 0xd79951ff, 0x1bdc6f6f, 0x25d2430a,
              0x86126910, 0xf6f443f8, 0xbcfce922, 0xe18f259a, 0x2fc08f85, 0xacc75916, 0x962d8621, 0x51e15869);
  }

  lemma FrontSum()
    ensures Sum(Hash(0x6a09e667, 0xbb67ae85, 0x3c6ef372, 0xa54ff53a, 0x510e527f, 0x9b05688c, 0x1f83d9ab, 0x5be0cd19),
                Hash(0x1bdc6f6f, 0x86126910, 0xf6f443f8, 0xbcfce922, 0x25d2430a, 0x2fc08f85, 0xacc75916, 0x962d8621))
            == Hash(0x85e655d6, 0x417a1795, 0x3363376a, 0x624cde5c, 0x76e09589, 0xcac5f811, 0xcc4b32c1, 0xf20e533a)
  {
  }

  lemma BackIsBlock(b: Block)
    requires (forall k :: 0 <= k < 62 ==> b[k] == 0) && b[62] == 1 && b[63] == 0xC0
    ensures Words(b, 0,
              0x00000000, 0x00000000, 0x00000000, 0x00000000, 0x00000000, 0x00000000, 0x00000000, 0x00000000,
              0x00000000, 0x00000000, 0x00000000, 0x00000000, 0x00000000, 0x00000000, 0x00000000, 0x000001c0)
  {
    hide Schedule, Word;
    forall t: nat | t < 16 ensures Schedule(b, t) == Word(b, 4 * t) {
      FirstWords(b, t);
    }
    forall t: nat | t < 15 ensures Word(b, 4 * t) == Word([0, 0, 0, 0], 0) {
      WordIs(b, 4 * t, 0, 0, 0, 0);
    }
    WordIs(b, 60, 0, 0, 1, 0xC0);
    BackLiterals();
  }

  lemma BackWords0(b: Block)
    requires b == BackBlock()
    ensures Words(b, 0,
              0x00000000, 0x00000000, 0x00000000, 0x00000000, 0x00000000, 0x00000000, 0x00000000, 0x00000000,
              0x00000000, 0x00000000, 0x00000000, 0x00000000, 0x00000000, 0x00000000, 0x00000000, 0x000001c0)
  {
    hide Words, BackBlock;
    BackPadded();
    BackIsBlock(b);
  }

  lemma BackLiterals()
    ensures Word([0, 0, 0, 0], 0) == 0 && Word([0, 0, 1, 0xC0], 0) == 0x1c0
  {
  }

  lemma BackWords1(b: Block)
    requires b == BackBlock()
    ensures Words(b, 16,
              0x00000000, 0x00d80000, 0x00000000, 0x00003677, 0x00000000, 0x1df5600d, 0x000001c0, 0x1c00501c,
              0x01b00000, 0x220a8d94, 0x0000a365, 0x177017e7, 0x63d38035, 0x090ab713, 0x4c7539ca, 0x0f19a8c9)
  {
    hide Schedule, Extend, BackBlock;
    BackWords0(b);
    BackExtendWord16();
    BackExtendWord17();
    BackExtendWord19();
    BackExtendWord21();
    BackExtendNext();
    BackExtendRest();
    NextWord(b, 16, 0x00000000, 0x00000000, 0x00000000, 0x00000000);
    NextWord(b, 17, 0x000001c0, 0x00000000, 0x00000000, 0x00000000);
    NextWord(b, 18, 0x00000000, 0x00000000, 0x00000000, 0x00000000);
    NextWord(b, 19, 0x00d80000, 0x00000000, 0x00000000, 0x00000000);
    NextWord(b, 20, 0x00000000, 0x00000000, 0x00000000, 0x00000000);
    NextWord(b, 21, 0x00003677, 0x00000000, 0x00000000, 0x00000000);
    NextWord(b, 22, 0x00000000, 0x000001c0, 0x00000000, 0x00000000);
    NextWord(b, 23, 0x1df5600d, 0x00000000, 0x00000000, 0x00000000);
    NextWord(b, 24, 0x000001c0, 0x00d80000, 0x00000000, 0x00000000);
    NextWord(b, 25, 0x1c00501c, 0x00000000, 0x00000000, 0x00000000);
    NextWord(b, 26, 0x01b00000, 0x00003677, 0x00000000, 0x00000000);
    NextWord(b, 27, 0x220a8d94, 0x00000000, 0x00000000, 0x00000000);
    NextWord(b, 28, 0x0000a365, 0x1df5600d, 0x00000000, 0x00000000);
    NextWord(b, 29, 0x177017e7, 0x000001c0, 0x00000000, 0x00000000);
    NextWord(b, 30, 0x63d38035, 0x1c00501c, 0x000001c0, 0x00000000);
    NextWord(b, 31, 0x090ab713, 0x01b00000, 0x00000000, 0x000001c0);
  }

  lemma BackExtendWord16()
    ensures Extend(0x00000000, 0x00000000, 0x00000000, 0x00000000) == 0x00000000
  {
  }

  lemma BackExtendWord17()
    ensures Extend(0x000001c0, 0x00000000, 0x00000000, 0x00000000) == 0x00d80000
  {
  }

  lemma BackExtendWord19()
    ensures Extend(0x00d80000, 0x00000000, 0x00000000, 0x00000000) == 0x00003677
  {
  }

  lemma BackExtendWord21()
    ensures Extend(0x00003677, 0x00000000, 0x00000000, 0x00000000) == 0x1df5600d
  {
  }

  lemma BackExtendNext()
    ensures Extend(0x00000000, 0x000001c0, 0x00000000, 0x00000000) == 0x000001c0
    ensures Extend(0x1df5600d, 0x00000000, 0x00000000, 0x00000000) == 0x1c00501c
  {
  }

  lemma BackExtendRest()
    ensures Extend(0x000001c0, 0x00d80000, 0x00000000, 0x00000000) == 0x01b00000
    ensures Extend(0x1c00501c, 0x00000000, 0x00000000, 0x00000000) == 0x220a8d94
    ensures Extend(0x01b00000, 0x00003677, 0x00000000, 0x00000000) == 0x0000a365
    ensures Extend(0x220a8d94, 0x00000000, 0x00000000, 0x00000000) == 0x177017e7
    ensures Extend(0x0000a365, 0x1df5600d, 0x00000000, 0x00000000) == 0x63d38035
    ensures Extend(0x177017e7, 0x000001c0, 0x00000000, 0x00000000) == 0x090ab713
    ensures Extend(0x63d38035, 0x1c00501c, 0x000001c0, 0x00000000) == 0x4c7539ca
    ensures Extend(0x090ab713, 0x01b00000, 0x00000000, 0x000001c0) == 0x0f19a8c9
  {
  }

  lemma BackWords2(b: Block)
    requires b == BackBlock()
    ensures Words(b, 32,
              0x5df4b0c4, 0xe257036a, 0xc97bb6f1, 0xc5b46f4d, 0xf8253c4e, 0xa558d189, 0x78696285, 0xed07117f,
              0x107358f6, 0x390ae496, 0x565010a2, 0xc51d7d44, 0x9e74c972, 0x6614b561, 0x30fc129d, 0x9ac684a8)
  {
    hide Schedule, Extend, BackBlock;
    BackWords1(b);
    BackExtend2();
    NextWord(b, 32, 0x4c7539ca, 0x220a8d94, 0x00d80000, 0x00000000);
    NextWord(b, 33, 0x0f19a8c9, 0x0000a365, 0x00000000, 0x00d80000);
    NextWord(b, 34, 0x5df4b0c4, 0x177017e7, 0x00003677, 0x00000000);
    NextWord(b, 35, 0xe257036a, 0x63d38035, 0x00000000, 0x00003677);
    NextWord(b, 36, 0xc97bb6f1, 0x090ab713, 0x1df5600d, 0x00000000);
    NextWord(b, 37, 0xc5b46f4d, 0x4c7539ca, 0x000001c0, 0x1df5600d);
    NextWord(b, 38, 0xf8253c4e, 0x0f19a8c9, 0x1c00501c, 0x000001c0);
    NextWord(b, 39, 0xa558d189, 0x5df4b0c4, 0x01b00000, 0x1c00501c);
    NextWord(b, 40, 0x78696285, 0xe257036a, 0x220a8d94, 0x01b00000);
    NextWord(b, 41, 0xed07117f, 0xc97bb6f1, 0x0000a365, 0x220a8d94);
    NextWord(b, 42, 0x107358f6, 0xc5b46f4d, 0x177017e7, 0x0000a365);
    NextWord(b, 43, 0x390ae496, 0xf8253c4e, 0x63d38035, 0x177017e7);
    NextWord(b, 44, 0x565010a2, 0xa558d189, 0x090ab713, 0x63d38035);
    NextWord(b, 45, 0xc51d7d44, 0x78696285, 0x4c7539ca, 0x090ab713);
    NextWord(b, 46, 0x9e74c972, 0xed07117f, 0x0f19a8c9, 0x4c7539ca);
    NextWord(b, 47, 0x6614b561, 0x107358f6, 0x5df4b0c4, 0x0f19a8c9);
  }

  lemma BackExtend2()
    ensures Extend(0x4c7539ca, 0x220a8d94, 0x00d80000, 0x00000000) == 0x5df4b0c4
    ensures Extend(0x0f19a8c9, 0x0000a365, 0x00000000, 0x00d80000) == 0xe257036a
    ensures Extend(0x5df4b0c4, 0x177017e7, 0x00003677, 0x00000000) == 0xc97bb6f1
    ensures Extend(0xe257036a, 0x63d38035, 0x00000000, 0x00003677) == 0xc5b46f4d
    ensures Extend(0xc97bb6f1, 0x090ab713, 0x1df5600d, 0x00000000) == 0xf8253c4e
    ensures Extend(0xc5b46f4d, 0x4c7539ca, 0x000001c0, 0x1df5600d) == 0xa558d189
    ensures Extend(0xf8253c4e, 0x0f19a8c9, 0x1c00501c, 0x000001c0) == 0x78696285
    ensures Extend(0xa558d189, 0x5df4b0c4, 0x01b00000, 0x1c00501c) == 0xed07117f
    ensures Extend(0x78696285, 0xe257036a, 0x220a8d94, 0x01b00000) == 0x107358f6
    ensures Extend(0xed07117f, 0xc97bb6f1, 0x0000a365, 0x220a8d94) == 0x390ae496
    ensures Extend(0x107358f6, 0xc5b46f4d, 0x177017e7, 0x0000a365) == 0x565010a2
    ensures Extend(0x390ae496, 0xf8253c4e, 0x63d38035, 0x177017e7) == 0xc51d7d44
    ensures Extend(0x565010a2, 0xa558d189, 0x090ab713, 0x63d38035) == 0x9e74c972
    ensures Extend(0xc51d7d44, 0x78696285, 0x4c7539ca, 0x090ab713) == 0x6614b561
    ensures Extend(0x9e74c972, 0xed07117f, 0x0f19a8c9, 0x4c7539ca) == 0x30fc129d
    ensures Extend(0x6614b561, 0x107358f6, 0x5df4b0c4, 0x0f19a8c9) == 0x9ac684a8
  {
  }

  lemma BackWords3(b: Block)
    requires b == BackBlock()
    ensures Words(b, 48,
              0x2b658dbd, 0xe290f793, 0x9eebb24c, 0x9713b5de, 0x41061ab7, 0xe022e23b, 0x0772079e, 0x7de22d9c,
              0xc8b83778, 0x75a79849, 0xd93dbddb, 0x0a036c9d, 0xcb4f6ac6, 0x823f97e2, 0xea2f2a7a, 0xb9018b52)
  {
    hide Schedule, Extend, BackBlock;
    BackWords2(b);
    BackExtend3();
    NextWord(b, 48, 0x30fc129d, 0x390ae496, 0xe257036a, 0x5df4b0c4);
    NextWord(b, 49, 0x9ac684a8, 0x565010a2, 0xc97bb6f1, 0xe257036a);
    NextWord(b, 50, 0x2b658dbd, 0xc51d7d44, 0xc5b46f4d, 0xc97bb6f1);
    NextWord(b, 51, 0xe290f793, 0x9e74c972, 0xf8253c4e, 0xc5b46f4d);
    NextWord(b, 52, 0x9eebb24c, 0x6614b561, 0xa558d189, 0xf8253c4e);
    NextWord(b, 53, 0x9713b5de, 0x30fc129d, 0x78696285, 0xa558d189);
    NextWord(b, 54, 0x41061ab7, 0x9ac684a8, 0xed07117f, 0x78696285);
    NextWord(b, 55, 0xe022e23b, 0x2b658dbd, 0x107358f6, 0xed07117f);
    NextWord(b, 56, 0x0772079e, 0xe290f793, 0x390ae496, 0x107358f6);
    NextWord(b, 57, 0x7de22d9c, 0x9eebb24c, 0x565010a2, 0x390ae496);
    NextWord(b, 58, 0xc8b83778, 0x9713b5de, 0xc51d7d44, 0x565010a2);
    NextWord(b, 59, 0x75a79849, 0x41061ab7, 0x9e74c972, 0xc51d7d44);
    NextWord(b, 60, 0xd93dbddb, 0xe022e23b, 0x6614b561, 0x9e74c972);
    NextWord(b, 61, 0x0a036c9d, 0x0772079e, 0x30fc129d, 0x6614b561);
    NextWord(b, 62, 0xcb4f6ac6, 0x7de22d9c, 0x9ac684a8, 0x30fc129d);
    NextWord(b, 63, 0x823f97e2, 0xc8b83778, 0x2b658dbd, 0x9ac684a8);
  }

  lemma BackExtend3()
    ensures Extend(0x30fc129d, 0x390ae496, 0xe257036a, 0x5df4b0c4) == 0x2b658dbd
    ensures Extend(0x9ac684a8, 0x565010a2, 0xc97bb6f1, 0xe257036a) == 0xe290f793
    ensures Extend(0x2b658dbd, 0xc51d7d44, 0xc5b46f4d, 0xc97bb6f1) == 0x9eebb24c
    ensures Extend(0xe290f793, 0x9e74c972, 0xf8253c4e, 0xc5b46f4d) == 0x9713b5de
    ensures Extend(0x9eebb24c, 0x6614b561, 0xa558d189, 0xf8253c4e) == 0x41061ab7
    ensures Extend(0x9713b5de, 0x30fc129d, 0x78696285, 0xa558d189) == 0xe022e23b
    ensures Extend(0x41061ab7, 0x9ac684a8, 0xed07117f, 0x78696285) == 0x0772079e
    ensures Extend(0xe022e23b, 0x2b658dbd, 0x107358f6, 0xed07117f) == 0x7de22d9c
    ensures Extend(0x0772079e, 0xe290f793, 0x390ae496, 0x107358f6) == 0xc8b83778
    ensures Extend(0x7de22d9c, 0x9eebb24c, 0x565010a2, 0x390ae496) == 0x75a79849
    ensures Extend(0xc8b83778, 0x9713b5de, 0xc51d7d44, 0x565010a2) == 0xd93dbddb
    ensures Extend(0x75a79849, 0x41061ab7, 0x9e74c972, 0xc51d7d44) == 0x0a036c9d
    ensures Extend(0xd93dbddb, 0xe022e23b, 0x6614b561, 0x9e74c972) == 0xcb4f6ac6
    ensures Extend(0x0a036c9d, 0x0772079e, 0x30fc129d, 0x6614b561) == 0x823f97e2
    ensures Extend(0xcb4f6ac6, 0x7de22d9c, 0x9ac684a8, 0x30fc129d) == 0xea2f2a7a
    ensures Extend(0x823f97e2, 0xc8b83778, 0x2b658dbd, 0x9ac684a8) == 0xb9018b52
  {
  }

  lemma BackHalf(h: Hash, b: Block)
    requires h == Hash(0x85e655d6, 0x417a1795, 0x3363376a, 0x624cde5c, 0x76e09589, 0xcac5f811, 0xcc4b32c1, 0xf20e533a)
    requires b == BackBlock()
    ensures After(h, b, 31,
              0xb0eab1c5, 0x02ef3a5f, 0x1cfa5eb0, 0xd958b529, 0xf6d93952, 0x5da10665, 0x6c49db9f, 0xc2fa99b1)
  {
    hide Schedule, Constant, After, BackBlock;
    Constants0();
    BackWords0(b);
    Constants1();
    BackWords1(b);
    BackFirst(h, b);
    NextRound(h, b, 0, 0x71374491, 0x00000000, 0x58ee86fa, 0x234d888c, 0x7c3c0f86, 0x8c51be64,
              0x7c20c838, 0x85e655d6, 0x417a1795, 0x3363376a, 0x4670ae6e, 0x76e09589, 0xcac5f811, 0xcc4b32c1);
    NextRound(h, b, 1, 0xb5c0fbcf, 0x00000000, 0x6df7a255, 0x8f274987, 0xfd1eebdc, 0xaf71b9ea,
              0x7c3c0f86, 0x7c20c838, 0x85e655d6, 0x417a1795, 0x8c51be64, 0x4670ae6e, 0x76e09589, 0xcac5f811);
    NextRound(h, b, 2, 0xe9b5dba5, 0x00000000, 0x5c1d0d19, 0x964bed90, 0xf268faa9, 0xe20362ef,
              0xfd1eebdc, 0x7c3c0f86, 0x7c20c838, 0x85e655d6, 0xaf71b9ea, 0x8c51be64, 0x4670ae6e, 0x76e09589);
    NextRound(h, b, 3, 0x3956c25b, 0x00000000, 0x11de67c9, 0x067bf5b0, 0x185a5d79, 0x8dff3001,
              0xf268faa9, 0xfd1eebdc, 0x7c3c0f86, 0x7c20c838, 0xe20362ef, 0xaf71b9ea, 0x8c51be64, 0x4670ae6e);
    NextRound(h, b, 4, 0x59f111f1, 0x00000000, 0x81e4be20, 0xbd06ade6, 0x3eeb6c06, 0xfe20cda6,
              0x185a5d79, 0xf268faa9, 0xfd1eebdc, 0x7c3c0f86, 0x8dff3001, 0xe20362ef, 0xaf71b9ea, 0x8c51be64);
    NextRound(h, b, 5, 0x923f82a4, 0x00000000, 0x0d15f327, 0x7ca5b0ca, 0x89bba3f1, 0x0a34df03,
              0x3eeb6c06, 0x185a5d79, 0xf268faa9, 0xfd1eebdc, 0xfe20cda6, 0x8dff3001, 0xe20362ef, 0xaf71b9ea);
    NextRound(h, b, 6, 0xab1c5ed5, 0x00000000, 0x1331c328, 0xac68d078, 0xbf9a93a0, 0x059abdd1,
              0x89bba3f1, 0x3eeb6c06, 0x185a5d79, 0xf268faa9, 0x0a34df03, 0xfe20cda6, 0x8dff3001, 0xe20362ef);
    NextRound(h, b, 7, 0xd807aa98, 0x00000000, 0x939fe8e2, 0x98697e62, 0x2c096744, 0xabfa465b,
              0xbf9a93a0, 0x89bba3f1, 0x3eeb6c06, 0x185a5d79, 0x059abdd1, 0x0a34df03, 0xfe20cda6, 0x8dff3001);
    NextRound(h, b, 8, 0x12835b01, 0x00000000, 0x6b3c817c, 0xc259cd0a, 0x2d964e86, 0xaa27ed82,
              0x2c096744, 0xbf9a93a0, 0x89bba3f1, 0x3eeb6c06, 0xabfa465b, 0x059abdd1, 0x0a34df03, 0xfe20cda6);
    NextRound(h, b, 9, 0x243185be, 0x00000000, 0x872bd332, 0xd4092f29, 0x5b35025b, 0x10e77723,
              0x2d964e86, 0x2c096744, 0xbf9a93a0, 0x89bba3f1, 0xaa27ed82, 0xabfa465b, 0x059abdd1, 0x0a34df03);
    NextRound(h, b, 10, 0x550c7dc3, 0x00000000, 0x2180b1a8, 0x3d343a98, 0x5eb4ec40, 0xe11b4548,
              0x5b35025b, 0x2d964e86, 0x2c096744, 0xbf9a93a0, 0x10e77723, 0xaa27ed82, 0xabfa465b, 0x059abdd1);
    NextRound(h, b, 11, 0x72be5d74, 0x00000000, 0x301b7b5e, 0x05d31e0f, 0x35ee996d, 0x5c24e2a2,
              0x5eb4ec40, 0x5b35025b, 0x2d964e86, 0x2c096744, 0xe11b4548, 0x10e77723, 0xaa27ed82, 0xabfa465b);
    NextRound(h, b, 12, 0x80deb1fe, 0x00000000, 0x3b143ab9, 0x9c2c4641, 0xd74080fa, 0x68aa893f,
              0x35ee996d, 0x5eb4ec40, 0x5b35025b, 0x2d964e86, 0x5c24e2a2, 0xe11b4548, 0x10e77723, 0xaa27ed82);
    NextRound(h, b, 13, 0x9bdc06a7, 0x00000000, 0x050062ed, 0x07e9f9cf, 0x0cea5cbc, 0x60356548,
              0xd74080fa, 0x35ee996d, 0x5eb4ec40, 0x5b35025b, 0x68aa893f, 0x5c24e2a2, 0xe11b4548, 0x10e77723);
    NextRound(h, b, 14, 0xc19bf174, 0x000001c0, 0xb116332f, 0x6592994a, 0x16a8cc79, 0x0fcb1f6f,
              0x0cea5cbc, 0xd74080fa, 0x35ee996d, 0x5eb4ec40, 0x60356548, 0x68aa893f, 0x5c24e2a2, 0xe11b4548);
    NextRound(h, b, 15, 0xe49b69c1, 0x00000000, 0x55333454, 0x9c3c2efa, 0xf16f634e, 0x8b21cdc1,
              0x16a8cc79, 0x0cea5cbc, 0xd74080fa, 0x35ee996d, 0x0fcb1f6f, 0x60356548, 0x68aa893f, 0x5c24e2a2);
    NextRound(h, b, 16, 0xefbe4786, 0x00d80000, 0xf35101d9, 0x308bb4e9, 0x23dcb6c2, 0xca9182d3,
              0xf16f634e, 0x16a8cc79, 0x0cea5cbc, 0xd74080fa, 0x8b21cdc1, 0x0fcb1f6f, 0x60356548, 0x68aa893f);
    NextRound(h, b, 17, 0x0fc19dc6, 0x00000000, 0x5cd51ed9, 0x802a2224, 0xdcff40fd, 0x69bf7b95,
              0x23dcb6c2, 0xf16f634e, 0x16a8cc79, 0x0cea5cbc, 0xca9182d3, 0x8b21cdc1, 0x0fcb1f6f, 0x60356548);
    NextRound(h, b, 18, 0x240ca1cc, 0x00003677, 0xf71f7f38, 0x7fd22384, 0x76f1a2bc, 0x0dc84bb1,
              0xdcff40fd, 0x23dcb6c2, 0xf16f634e, 0x16a8cc79, 0x69bf7b95, 0xca9182d3, 0x8b21cdc1, 0x0fcb1f6f);
    NextRound(h, b, 19, 0x2de92c6f, 0x00000000, 0xdad806a4, 0x45d2d1f5, 0x20aad899, 0xcc4769f2,
              0x76f1a2bc, 0xdcff40fd, 0x23dcb6c2, 0xf16f634e, 0x0dc84bb1, 0x69bf7b95, 0xca9182d3, 0x8b21cdc1);
    NextRound(h, b, 20, 0x4a7484aa, 0x1df5600d, 0x37d02f6b, 0x9c7d98af, 0xd44dc81a, 0x5bace62d,
              0x20aad899, 0x76f1a2bc, 0xdcff40fd, 0x23dcb6c2, 0xcc4769f2, 0x0dc84bb1, 0x69bf7b95, 0xca9182d3);
    NextRound(h, b, 21, 0x5cb0a9dc, 0x000001c0, 0xb96b618a, 0x37cf83d1, 0xf13ae55b, 0x966aa287,
              0xd44dc81a, 0x20aad899, 0x76f1a2bc, 0xdcff40fd, 0x5bace62d, 0xcc4769f2, 0x0dc84bb1, 0x69bf7b95);
    NextRound(h, b, 22, 0x76f988da, 0x1c00501c, 0x76ea3431, 0x2d2f2760, 0xa4195b91, 0xeddbd6ed,
              0xf13ae55b, 0xd44dc81a, 0x20aad899, 0x76f1a2bc, 0x966aa287, 0x5bace62d, 0xcc4769f2, 0x0dc84bb1);
    NextRound(h, b, 23, 0x983e5152, 0x01b00000, 0x848600a0, 0xc4fef9d9, 0x4984fa79, 0xa530d939,
              0xa4195b91, 0xf13ae55b, 0xd44dc81a, 0x20aad899, 0xeddbd6ed, 0x966aa287, 0x5bace62d, 0xcc4769f2);
    NextRound(h, b, 24, 0xa831c66d, 0x220a8d94, 0x3711268a, 0x735b92f8, 0xaa6cb982, 0x0b5eeea4,
              0x4984fa79, 0xa4195b91, 0xf13ae55b, 0xd44dc81a, 0xa530d939, 0xeddbd6ed, 0x966aa287, 0x5bace62d);
    NextRound(h, b, 25, 0xb00327c8, 0x0000a365, 0x17db887f, 0x7c75733d, 0x9450fbbc, 0x09166dda,
              0xaa6cb982, 0x4984fa79, 0xa4195b91, 0xf13ae55b, 0x0b5eeea4, 0xa530d939, 0xeddbd6ed, 0x966aa287);
    NextRound(h, b, 26, 0xbf597fc7, 0x177017e7, 0xca3001ba, 0x436369f1, 0x0d936bab, 0x6e495d4b,
              0x9450fbbc, 0xaa6cb982, 0x4984fa79, 0xa4195b91, 0x09166dda, 0x0b5eeea4, 0xa530d939, 0xeddbd6ed);
    NextRound(h, b, 27, 0xc6e00bf3, 0x63d38035, 0x79759f38, 0x5fe315f1, 0xd958b529, 0xc2fa99b1,
              0x0d936bab, 0x9450fbbc, 0xaa6cb982, 0x4984fa79, 0x6e495d4b, 0x09166dda, 0x0b5eeea4, 0xa530d939);
    NextRound(h, b, 28, 0xd5a79147, 0x090ab713, 0xc1dd221d, 0x5b1d3c93, 0x1cfa5eb0, 0x6c49db9f,
              0xd958b529, 0x0d936bab, 0x9450fbbc, 0xaa6cb982, 0xc2fa99b1, 0x6e495d4b, 0x09166dda, 0x0b5eeea4);
    NextRound(h, b, 29, 0x06ca6351, 0x4c7539ca, 0xc9500aa9, 0x399f2fb6, 0x02ef3a5f, 0x5da10665,
              0x1cfa5eb0, 0xd958b529, 0x0d936bab, 0x9450fbbc, 0x6c49db9f, 0xc2fa99b1, 0x6e495d4b, 0x09166dda);
    NextRound(h, b, 30, 0x14292967, 0x0f19a8c9, 0xe945cda7, 0xc7a4e41e, 0xb0eab1c5, 0xf6d93952,
              0x02ef3a5f, 0x1cfa5eb0, 0xd958b529, 0x0d936bab, 0x5da10665, 0x6c49db9f, 0xc2fa99b1, 0x6e495d4b);
  }

  lemma BackFirst(h: Hash, b: Block)
    requires h == Hash(0x85e655d6, 0x417a1795, 0x3363376a, 0x624cde5c, 0x76e09589, 0xcac5f811, 0xcc4b32c1, 0xf20e533a)
    requires b == BackBlock()
    ensures After(h, b, 0,
              0x7c20c838, 0x85e655d6, 0x417a1795, 0x3363376a, 0x4670ae6e, 0x76e09589, 0xcac5f811, 0xcc4b32c1)
  {
    hide Schedule, Constant, Rounds, BackBlock;
    Constants0();
    BackWords0(b);
    FirstRound(h, b, 0x428a2f98, 0x00000000);
  }

  lemma BackRounds(h: Hash, b: Block)
    requires h == Hash(0x85e655d6, 0x417a1795, 0x3363376a, 0x624cde5c, 0x76e09589, 0xcac5f811, 0xcc4b32c1, 0xf20e533a)
    requires b == BackBlock()
    ensures After(h, b, 63,
              0x9ea7148b, 0x908c2123, 0xb25cef29, 0xa9f181dd, 0x2c5c4ed0, 0x9a392956, 0x2aa1bb13, 0x27ccb387)
  {
    hide Schedule, Constant, After, BackBlock;
    Constants2();
    BackWords2(b);
    Constants3();
    BackWords3(b);
    BackHalf(h, b);
    NextRound(h, b, 31, 0x27b70a85, 0x5df4b0c4, 0xb2412e80, 0x59ba78bc, 0x0bfba73c, 0x8b99e3a9,
              0xb0eab1c5, 0x02ef3a5f, 0x1cfa5eb0, 0xd958b529, 0xf6d93952, 0x5da10665, 0x6c49db9f, 0xc2fa99b1);
    NextRound(h, b, 32, 0x2e1b2138, 0xe257036a, 0x7363e5fc, 0xd86df99a, 0x4bd1df96, 0x905e44ac,
              0x0bfba73c, 0xb0eab1c5, 0x02ef3a5f, 0x1cfa5eb0, 0x8b99e3a9, 0xf6d93952, 0x5da10665, 0x6c49db9f);
    NextRound(h, b, 33, 0x4d2c6dfc, 0xc97bb6f1, 0x63d3c9de, 0x353427d8, 0x9907f1b6, 0x66c3043d,
              0x4bd1df96, 0x0bfba73c, 0xb0eab1c5, 0x02ef3a5f, 0x905e44ac, 0x8b99e3a9, 0xf6d93952, 0x5da10665);
    NextRound(h, b, 34, 0x53380d13, 0xc5b46f4d, 0xacd66821, 0x4007e5ec, 0xecde4e0d, 0x5dc119e6,
              0x9907f1b6, 0x4bd1df96, 0x0bfba73c, 0xb0eab1c5, 0x66c3043d, 0x905e44ac, 0x8b99e3a9, 0xf6d93952);
    NextRound(h, b, 35, 0x650a7354, 0xf8253c4e, 0xf2d926e1, 0x3c38a258, 0x2f11c939, 0xfed4ce1d,
              0xecde4e0d, 0x9907f1b6, 0x4bd1df96, 0x0bfba73c, 0x5dc119e6, 0x66c3043d, 0x905e44ac, 0x8b99e3a9);
    NextRound(h, b, 36, 0x766a0abb, 0xa558d189, 0xe707b072, 0xf241b7b9, 0xd949682b, 0x32d99008,
              0x2f11c939, 0xecde4e0d, 0x9907f1b6, 0x4bd1df96, 0xfed4ce1d, 0x5dc119e6, 0x66c3043d, 0x905e44ac);
    NextRound(h, b, 37, 0x81c2c92e, 0x78696285, 0x2dc4f349, 0x8005874d, 0xadca7a96, 0xc6cce4ff,
              0xd949682b, 0x2f11c939, 0xecde4e0d, 0x9907f1b6, 0x32d99008, 0xfed4ce1d, 0x5dc119e6, 0x66c3043d);
    NextRound(h, b, 38, 0x92722c85, 0xed07117f, 0x1ea477de, 0x0377127c, 0x221b8a5a, 0x0b82c5eb,
              0xadca7a96, 0xd949682b, 0x2f11c939, 0xecde4e0d, 0xc6cce4ff, 0x32d99008, 0xfed4ce1d, 0x5dc119e6);
    NextRound(h, b, 39, 0xa2bfe8a1, 0x107358f6, 0xb50f7369, 0x5dca04dc, 0x12d97845, 0xe4213ca2,
              0x221b8a5a, 0xadca7a96, 0xd949682b, 0x2f11c939, 0x0b82c5eb, 0xc6cce4ff, 0x32d99008, 0xfed4ce1d);
    NextRound(h, b, 40, 0xa81a664b, 0x390ae496, 0x261df18f, 0x065b56e7, 0x2c794876, 0xff6759ba,
              0x12d97845, 0x221b8a5a, 0xadca7a96, 0xd949682b, 0xe4213ca2, 0x0b82c5eb, 0xc6cce4ff, 0x32d99008);
    NextRound(h, b, 41, 0xc24b8b70, 0x565010a2, 0x3318cae6, 0x4fe831bc, 0x8300fca2, 0xe0e3457c,
              0x2c794876, 0x12d97845, 0x221b8a5a, 0xadca7a96, 0xff6759ba, 0xe4213ca2, 0x0b82c5eb, 0xc6cce4ff);
    NextRound(h, b, 42, 0xc76c51a3, 0xc51d7d44, 0xaa2d3d99, 0x48802589, 0xf2ad6322, 0xcc48c7f3,
              0x8300fca2, 0x2c794876, 0x12d97845, 0x221b8a5a, 0xe0e3457c, 0xff6759ba, 0xe4213ca2, 0x0b82c5eb);
    NextRound(h, b, 43, 0xd192e819, 0x9e74c972, 0x5cbb9f86, 0xb259ae8b, 0x0f154e11, 0x6f9517cb,
              0xf2ad6322, 0x8300fca2, 0x2c794876, 0x12d97845, 0xcc48c7f3, 0xe0e3457c, 0xff6759ba, 0xe4213ca2);
    NextRound(h, b, 44, 0xd6990624, 0x6614b561, 0x26cfa080, 0xe97add34, 0x104a7db4, 0x5348e8f6,
              0x0f154e11, 0xf2ad6322, 0x8300fca2, 0x2c794876, 0x6f9517cb, 0xcc48c7f3, 0xe0e3457c, 0xff6759ba);
    NextRound(h, b, 45, 0xf40e3585, 0x30fc129d, 0x38e0c6f8, 0xd2523caf, 0x0b3303a7, 0xbbe1c39a,
              0x104a7db4, 0x0f154e11, 0xf2ad6322, 0x8300fca2, 0x5348e8f6, 0x6f9517cb, 0xcc48c7f3, 0xe0e3457c);
    NextRound(h, b, 46, 0x106aa070, 0x9ac684a8, 0xb827f849, 0x1f0d5512, 0xd7354d5b, 0xaad55b6b,
              0x0b3303a7, 0x104a7db4, 0x0f154e11, 0xf2ad6322, 0xbbe1c39a, 0x5348e8f6, 0x6f9517cb, 0xcc48c7f3);
    NextRound(h, b, 47, 0x19a4c116, 0x2b658dbd, 0x59dd044f, 0x5d59d357, 0xb736d7a6, 0x68f25260,
              0xd7354d5b, 0x0b3303a7, 0x104a7db4, 0x0f154e11, 0xaad55b6b, 0xbbe1c39a, 0x5348e8f6, 0x6f9517cb);
    NextRound(h, b, 48, 0x1e376c08, 0xe290f793, 0xc46b07c2, 0x62ddde2a, 0x2748e5ec, 0xd4b58576,
              0xb736d7a6, 0xd7354d5b, 0x0b3303a7, 0x104a7db4, 0x68f25260, 0xaad55b6b, 0xbbe1c39a, 0x5348e8f6);
    NextRound(h, b, 49, 0x2748774c, 0x9eebb24c, 0x1c51436a, 0xbc59798f, 0xd8aabcf9, 0x27844711,
              0x2748e5ec, 0xb736d7a6, 0xd7354d5b, 0x0b3303a7, 0xd4b58576, 0x68f25260, 0xaad55b6b, 0xbbe1c39a);
    NextRound(h, b, 50, 0x34b0bcb5, 0x9713b5de, 0x28294c75, 0xf24282f5, 0x1a6bcf6a, 0xff5e99d0,
              0xd8aabcf9, 0x2748e5ec, 0xb736d7a6, 0xd7354d5b, 0x27844711, 0xd4b58576, 0x68f25260, 0xaad55b6b);
    NextRound(h, b, 51, 0x391c0cb3, 0x41061ab7, 0xe167f8cb, 0x6d6276d5, 0x4eca6fa0, 0x989ed071,
              0x1a6bcf6a, 0xd8aabcf9, 0x2748e5ec, 0xb736d7a6, 0xff5e99d0, 0x27844711, 0xd4b58576, 0x68f25260);
    NextRound(h, b, 52, 0x4ed8aa4a, 0xe022e23b, 0x4a08f9a2, 0xa1f95c68, 0xec02560a, 0x7151df8e,
              0x4eca6fa0, 0x1a6bcf6a, 0xd8aabcf9, 0x2748e5ec, 0x989ed071, 0xff5e99d0, 0x27844711, 0xd4b58576);
    NextRound(h, b, 53, 0x5b9cca4f, 0x0772079e, 0x899693cb, 0x505a2d4a, 0xd9f0c115, 0x624150c4,
              0xec02560a, 0x4eca6fa0, 0x1a6bcf6a, 0xd8aabcf9, 0x7151df8e, 0x989ed071, 0xff5e99d0, 0x27844711);
    NextRound(h, b, 54, 0x682e6ff3, 0x7de22d9c, 0x07fc376c, 0x8a98efa4, 0x92952710, 0x226806d6,
              0xd9f0c115, 0xec02560a, 0x4eca6fa0, 0x1a6bcf6a, 0x624150c4, 0x7151df8e, 0x989ed071, 0xff5e99d0);
    NextRound(h, b, 55, 0x748f82ee, 0xc8b83778, 0xff86eaad, 0x214de637, 0x20d4d0e4, 0x4e515a4d,
              0x92952710, 0xd9f0c115, 0xec02560a, 0x4eca6fa0, 0x226806d6, 0x624150c4, 0x7151df8e, 0x989ed071);
    NextRound(h, b, 56, 0x78a5636f, 0x75a79849, 0xd61c87ef, 0x6d2c6330, 0x4348eb1f, 0xc21eddf9,
              0x20d4d0e4, 0x92952710, 0xd9f0c115, 0xec02560a, 0x4e515a4d, 0x226806d6, 0x624150c4, 0x7151df8e);
    NextRound(h, b, 57, 0x84c87814, 0xd93dbddb, 0x7a16a54f, 0xae5940a1, 0x286fe5f0, 0x54076664,
              0x4348eb1f, 0x20d4d0e4, 0x92952710, 0xd9f0c115, 0xc21eddf9, 0x4e515a4d, 0x226806d6, 0x624150c4);
    NextRound(h, b, 58, 0x8cc70208, 0x0a036c9d, 0x61f28143, 0xba5a5c96, 0x1c4cddd9, 0xf487a853,
              0x286fe5f0, 0x4348eb1f, 0x20d4d0e4, 0x92952710, 0x54076664, 0xc21eddf9, 0x4e515a4d, 0x226806d6);
    NextRound(h, b, 59, 0x90befffa, 0xcb4f6ac6, 0x06f7e2a3, 0xa2f99f3a, 0xa9f181dd, 0x27ccb387,
              0x1c4cddd9, 0x286fe5f0, 0x4348eb1f, 0x20d4d0e4, 0xf487a853, 0x54076664, 0xc21eddf9, 0x4e515a4d);
    NextRound(h, b, 60, 0xa4506ceb, 0x823f97e2, 0xe758cff4, 0xcb041f35, 0xb25cef29, 0x2aa1bb13,
              0xa9f181dd, 0x1c4cddd9, 0x286fe5f0, 0x4348eb1f, 0x27ccb387, 0xf487a853, 0x54076664, 0xc21eddf9);
    NextRound(h, b, 61, 0xbef9a3f7, 0xea2f2a7a, 0x71c94366, 0x1ec2ddbd, 0x908c2123, 0x9a392956,
              0xb25cef29, 0xa9f181dd, 0x1c4cddd9, 0x286fe5f0, 0x2aa1bb13, 0x27ccb387, 0xf487a853, 0x54076664);
    NextRound(h, b, 62, 0xc67178f2, 0xb9018b52, 0x100f70f7, 0x8e97a394, 0x9ea7148b, 0x2c5c4ed0,
              0x908c2123, 0xb25cef29, 0xa9f181dd, 0x1c4cddd9, 0x9a392956, 0x2aa1bb13, 0x27ccb387, 0xf487a853);
  }

  lemma BackSum()
    ensures Sum(Hash(0x85e655d6, 0x417a1795, 0x3363376a, 0x624cde5c, 0x76e09589, 0xcac5f811, 0xcc4b32c1, 0xf20e533a),
                Hash(0x9ea7148b, 0x908c2123, 0xb25cef29, 0xa9f181dd, 0x2c5c4ed0, 0x9a392956, 0x2aa1bb13, 0x27ccb387))
            == Hash(0x248d6a61, 0xd20638b8, 0xe5c02693, 0x0c3e6039, 0xa33ce459, 0x64ff2167, 0xf6ecedd4, 0x19db06c1)
  {
  }

  lemma LettersBytes0()
    ensures Be32(0x248d6a61) == [0x24, 0x8D, 0x6A, 0x61]
    ensures Be32(0xd20638b8) == [0xD2, 0x06, 0x38, 0xB8]
  {
  }

  lemma LettersBytes1()
    ensures Be32(0xe5c02693) == [0xE5, 0xC0, 0x26, 0x93]
    ensures Be32(0x0c3e6039) == [0x0C, 0x3E, 0x60, 0x39]
  {
  }

  lemma LettersBytes2()
    ensures Be32(0xa33ce459) == [0xA3, 0x3C, 0xE4, 0x59]
    ensures Be32(0x64ff2167) == [0x64, 0xFF, 0x21, 0x67]
  {
  }

  lemma LettersBytes3()
    ensures Be32(0xf6ecedd4) == [0xF6, 0xEC, 0xED, 0xD4]
    ensures Be32(0x19db06c1) == [0x19, 0xDB, 0x06, 0xC1]
  {
  }

  lemma LettersBytes()
    ensures Digest(Hash(0x248d6a61, 0xd20638b8, 0xe5c02693, 0x0c3e6039, 0xa33ce459, 0x64ff2167, 0xf6ecedd4, 0x19db06c1))
            == [0x24, 0x8D, 0x6A, 0x61, 0xD2, 0x06, 0x38, 0xB8, 0xE5, 0xC0, 0x26, 0x93, 0x0C, 0x3E, 0x60, 0x39,
               0xA3, 0x3C, 0xE4, 0x59, 0x64, 0xFF, 0x21, 0x67, 0xF6, 0xEC, 0xED, 0xD4, 0x19, 0xDB, 0x06, 0xC1]
  {
    hide Be32;
    LettersBytes0();
    LettersBytes1();
    LettersBytes2();
    LettersBytes3();
  }

  lemma TwoBlocks(m: seq<Byte>, p: seq<Byte>)
    requires |p| == 128 && p == Padded(m)
    ensures HashOf(m) == Compress(Compress(INITIAL, p[..64]), p[64..])
  {
    assert BlockOf(p, 0) == p[..64] && BlockOf(p, 1) == p[64..];
    assert Blocks(p, 1) == Compress(INITIAL, BlockOf(p, 0));
    assert Blocks(p, 2) == Compress(Blocks(p, 1), BlockOf(p, 1));
  }

  lemma LettersIsHash()
    ensures HashOf(Letters())
            == Hash(0x248d6a61, 0xd20638b8, 0xe5c02693, 0x0c3e6039, 0xa33ce459, 0x64ff2167, 0xf6ecedd4, 0x19db06c1)
  {
    hide Compress, Padded, HashOf, After, Sum;
    LettersLength();
    FrontRounds(INITIAL, FrontBlock());
    LastRound(INITIAL, FrontBlock(),
              0x1bdc6f6f, 0x86126910, 0xf6f443f8, 0xbcfce922, 0x25d2430a, 0x2fc08f85, 0xacc75916, 0x962d8621);
    FrontSum();
    var h := Compress(INITIAL, FrontBlock());
    BackRounds(h, BackBlock());
    LastRound(h, BackBlock(),
              0x9ea7148b, 0x908c2123, 0xb25cef29, 0xa9f181dd, 0x2c5c4ed0, 0x9a392956, 0x2aa1bb13, 0x27ccb387);
    BackSum();
    TwoBlocks(Letters(), Padded(Letters()));
  }

  /** The digest of the message of 56 bytes, whose padding takes a second block. */
  lemma LettersDigest()
    ensures Digest(HashOf(Letters()))
            == [0x24, 0x8D, 0x6A, 0x61, 0xD2, 0x06, 0x38, 0xB8, 0xE5, 0xC0, 0x26, 0x93, 0x0C, 0x3E, 0x60, 0x39,
               0xA3, 0x3C, 0xE4, 0x59, 0x64, 0xFF, 0x21, 0x67, 0xF6, 0xEC, 0xED, 0xD4, 0x19, 0xDB, 0x06, 0xC1]
  {
    hide HashOf, Digest, Letters;
    LettersIsHash();
    LettersBytes();
  }
}
