/**
 * What encryption does to a message, and the block function on the example of section 2.3.2 of RFC 8439, computed
 * quarter round by quarter round: key bytes 00 to 1f, nonce 00 00 00 09 00 00 00 4a 00 00 00 00, counter 1.
 */
module ChaCha20Vectors {
  import opened Bytes
  import opened ChaCha20
  import opened ChaCha20Code

  // ----- what encryption does to a message -----

  lemma DifferentBits(x: bv8, y: bv8, r: bv8, i: bv4)
    requires i < 8 && r == x ^ y
    ensures IsSet(r, i) <==> IsSet(x, i) != IsSet(y, i)
  {
  }

  lemma XorByteBits(a: Byte, b: Byte)
    ensures Bits(XorByte(a, b)) == Bits(a) ^ Bits(b)
  {
    BitsBack(Bits(a) ^ Bits(b));
  }

  /** A bit of the cipher text is set exactly where message and key stream differ. */
  lemma XorByteDiffers(a: Byte, b: Byte, i: bv4)
    requires i < 8
    ensures ByteBit(XorByte(a, b), i) <==> ByteBit(a, i) != ByteBit(b, i)
  {
    hide Bits, XorByte, IsSet;
    XorByteBits(a, b);
    DifferentBits(Bits(a), Bits(b), Bits(XorByte(a, b)), i);
  }

  lemma ZeroGives(b: Byte)
    ensures XorByte(0, b) == b
  {
    assert Bits(0) ^ Bits(b) == Bits(b);
    BitsRoundTrip(b);
  }

  /** Zeros give the key stream: block n is that of the counter n further on, which wraps, all other words the same. */
  lemma ZerosGiveBlocks(s: State, n: nat, c: U32)
    requires c == s[12] + n || c + 0x1_0000_0000 == s[12] + n
    ensures Crypted(Block(), s, Zeros(64 * n + 64))[64 * n..] == BlockBy(Mixed, s[12 := c])
  {
    hide Mixed, XorByte;
    var m := Zeros(64 * n + 64);
    assert Advance(s, n) == s[12 := c];
    BlockIsStream(Block(), s, n);
    forall k | 0 <= k < 64
      ensures Crypted(Block(), s, m)[64 * n..][k] == BlockBy(Mixed, s[12 := c])[k]
    {
      ZeroGives(StreamByte(Block(), s, 64 * n + k));
      assert Block()(Advance(s, n)) == BlockBy(Mixed, Advance(s, n));
    }
  }

  function Zeros(n: nat): (r: seq<Byte>)
    ensures |r| == n
  {
    seq(n, _ => 0)
  }

  // ----- one quarter round on given words -----

  /** A word d that has taken in a and turned. */
  predicate TurnsTo(n: Turn, d: bv32, a: bv32, r: bv32) {
    r == Turned(n, BvXor(d, a))
  }

  lemma TurnOf(n: Turn, d: bv32, a: bv32, r: bv32)
    requires TurnsTo(n, d, a, r)
    ensures TurnIn(n)(N(d), N(a)) == N(r)
  {
    hide W, N, BvXor, Rol16, Rol12, Rol8, Rol7;
    WordBack(d);
    WordBack(a);
    WordBack(BvXor(d, a));
  }

  /** The words after each half: a, d, c, b in the order in which they are computed. */
  lemma QuarterIs(q: Quad, b: bv32, d: bv32, a1: bv32, d1: bv32, c1: bv32, b1: bv32,
      a2: bv32, d2: bv32, c2: bv32, b2: bv32)
    requires N(b) == q.b && N(d) == q.d
    requires N(a1) == Add(q.a, q.b) && TurnsTo(By16, d, a1, d1)
    requires N(c1) == Add(q.c, N(d1)) && TurnsTo(By12, b, c1, b1)
    requires N(a2) == Add(N(a1), N(b1)) && TurnsTo(By8, d1, a2, d2)
    requires N(c2) == Add(N(c1), N(d2)) && TurnsTo(By7, b1, c2, b2)
    ensures Quarter(q) == Quad(N(a2), N(b2), N(c2), N(d2))
  {
    hide N, Add, TurnIn, TurnsTo;
    TurnOf(By16, d, a1, d1);
    TurnOf(By12, b, c1, b1);
    TurnOf(By8, d1, a2, d2);
    TurnOf(By7, b1, c2, b2);
  }

  // ----- the state by columns and by diagonals -----

  predicate Columns(x: State, p: Quad, q: Quad, r: Quad, s: Quad) {
    Get(x, 0, 4, 8, 12) == p && Get(x, 1, 5, 9, 13) == q && Get(x, 2, 6, 10, 14) == r && Get(x, 3, 7, 11, 15) == s
  }

  predicate Diagonals(x: State, p: Quad, q: Quad, r: Quad, s: Quad) {
    Get(x, 0, 5, 10, 15) == p && Get(x, 1, 6, 11, 12) == q && Get(x, 2, 7, 8, 13) == r && Get(x, 3, 4, 9, 14) == s
  }

  lemma Rearranged(x: State, p: Quad, q: Quad, r: Quad, s: Quad)
    requires Columns(x, p, q, r, s)
    ensures Diagonals(x, Quad(p.a, q.b, r.c, s.d), Quad(q.a, r.b, s.c, p.d),
                      Quad(r.a, s.b, p.c, q.d), Quad(s.a, p.b, q.c, r.d))
  {
  }

  /** A double round of section 2.3: every column, then every diagonal. */
  lemma DoubleRound(s: State, t: nat, p: Quad, q: Quad, r: Quad, u: Quad)
    requires t % 8 == 0 && Columns(Steps(Step, s, t), p, q, r, u)
    ensures var (p', q', r', u') := (Quarter(p), Quarter(q), Quarter(r), Quarter(u));
      Diagonals(Steps(Step, s, t + 8),
                Quarter(Quad(p'.a, q'.b, r'.c, u'.d)), Quarter(Quad(q'.a, r'.b, u'.c, p'.d)),
                Quarter(Quad(r'.a, u'.b, p'.c, q'.d)), Quarter(Quad(u'.a, p'.b, q'.c, r'.d)))
  {
    hide Quarter, Steps, Columns, Diagonals;
    ColumnRound(s, t, p, q, r, u);
    var (p', q', r', u') := (Quarter(p), Quarter(q), Quarter(r), Quarter(u));
    Rearranged(Steps(Step, s, t + 4), p', q', r', u');
    DiagonalRound(s, t + 4, Quad(p'.a, q'.b, r'.c, u'.d), Quad(q'.a, r'.b, u'.c, p'.d),
                  Quad(r'.a, u'.b, p'.c, q'.d), Quad(u'.a, p'.b, q'.c, r'.d));
  }

  lemma OneStep(s: State, t: nat, p: Place)
    requires p == PlaceOf(t % 8)
    ensures Steps(Step, s, t + 1) == Apply(Quarter, Steps(Step, s, t), p)
  {
  }

  lemma ColumnRound(s: State, t: nat, p: Quad, q: Quad, r: Quad, u: Quad)
    requires t % 8 == 0 && Columns(Steps(Step, s, t), p, q, r, u)
    ensures Columns(Steps(Step, s, t + 4), Quarter(p), Quarter(q), Quarter(r), Quarter(u))
  {
    hide Quarter, Steps;
    OneStep(s, t, Place(0, 4, 8, 12));
    OneStep(s, t + 1, Place(1, 5, 9, 13));
    OneStep(s, t + 2, Place(2, 6, 10, 14));
    OneStep(s, t + 3, Place(3, 7, 11, 15));
  }

  lemma DiagonalRound(s: State, t: nat, p: Quad, q: Quad, r: Quad, u: Quad)
    requires t % 8 == 4 && Diagonals(Steps(Step, s, t), p, q, r, u)
    ensures Diagonals(Steps(Step, s, t + 4), Quarter(p), Quarter(q), Quarter(r), Quarter(u))
  {
    hide Quarter, Steps;
    OneStep(s, t, Place(0, 5, 10, 15));
    OneStep(s, t + 1, Place(1, 6, 11, 12));
    OneStep(s, t + 2, Place(2, 7, 8, 13));
    OneStep(s, t + 3, Place(3, 4, 9, 14));
  }

  // ----- the example, two double rounds at a time -----

  lemma Example0(s: State)
    requires Columns(Steps(Step, s, 0),
                     Quad(0x61707865, 0x03020100, 0x13121110, 0x00000001),
                     Quad(0x3320646e, 0x07060504, 0x17161514, 0x09000000),
                     Quad(0x79622d32, 0x0b0a0908, 0x1b1a1918, 0x4a000000),
                     Quad(0x6b206574, 0x0f0e0d0c, 0x1f1e1d1c, 0x00000000))
    ensures Columns(Steps(Step, s, 16),
                    Quad(0xcf1a7584, 0x901d2f40, 0x2dafb216, 0x10aef18d),
                    Quad(0x048927ec, 0x7974b81c, 0x27c89cd6, 0x16218765),
                    Quad(0x54051fda, 0x378dcfb4, 0xcd3c9aa0, 0x68f76705),
                    Quad(0xc244ff28, 0xcd47fd0e, 0x79fc89c7, 0x04d6ee22))
  {
    hide Quarter, Steps;
    DoubleRound(s, 0,
                Quad(0x61707865, 0x03020100, 0x13121110, 0x00000001),
                Quad(0x3320646e, 0x07060504, 0x17161514, 0x09000000),
                Quad(0x79622d32, 0x0b0a0908, 0x1b1a1918, 0x4a000000),
                Quad(0x6b206574, 0x0f0e0d0c, 0x1f1e1d1c, 0x00000000));
    QuarterIs(Quad(0x61707865, 0x03020100, 0x13121110, 0x00000001), 0x03020100, 0x00000001, 0x64727965,
              0x79646472, 0x8c767582, 0x474828f7, 0xabbaa25c, 0xdec62ed2, 0x6b3ca454, 0x3a465196);
    QuarterIs(Quad(0x3320646e, 0x07060504, 0x17161514, 0x09000000), 0x07060504, 0x09000000, 0x3a266972,
              0x69723326, 0x8088483a, 0xe4d3e878, 0x1efa51ea, 0x8862cc77, 0x08eb14b1, 0x1c7e64f6);
    QuarterIs(Quad(0x79622d32, 0x0b0a0908, 0x1b1a1918, 0x4a000000), 0x0b0a0908, 0x4a000000, 0x846c363a,
              0x363ace6c, 0x5154e784, 0xeee8c5a5, 0x7354fbdf, 0x6e35b345, 0xbf8a9ac9, 0xb12fb628);
    QuarterIs(Quad(0x6b206574, 0x0f0e0d0c, 0x1f1e1d1c, 0x00000000), 0x0f0e0d0c, 0x00000000, 0x7a2e7280,
              0x72807a2e, 0x919e974a, 0x09a469e9, 0x83d2dc69, 0x52a647f1, 0xe444df3b, 0xf05b6976);
    QuarterIs(Quad(0xabbaa25c, 0x1c7e64f6, 0xbf8a9ac9, 0x52a647f1), 0x1c7e64f6, 0x52a647f1, 0xc8390752,
              0x40a39a9f, 0x002e3568, 0x0519e1c5, 0xcd52e917, 0xf173888d, 0xf1a1bdf5, 0x5c2e187a);
    QuarterIs(Quad(0x1efa51ea, 0xb12fb628, 0xe444df3b, 0xdec62ed2), 0xb12fb628, 0xdec62ed2, 0xd02a0812,
              0x26c00eec, 0x0b04ee27, 0xb580fba2, 0x85ab03b4, 0x6b0d58a3, 0x761246ca, 0xc95eb461);
    QuarterIs(Quad(0x7354fbdf, 0xf05b6976, 0x6b3ca454, 0x8862cc77), 0xf05b6976, 0x8862cc77, 0x63b06555,
              0xa922ebd2, 0x145f9026, 0x4f950e40, 0xb3457395, 0x6798471a, 0x7bf7d740, 0x316c801a);
    QuarterIs(Quad(0x83d2dc69, 0x3a465196, 0x08eb14b1, 0x6e35b345), 0x3a465196, 0x6e35b345, 0xbe192dff,
              0x9ebad02c, 0xa7a5e4dd, 0x3b54b9de, 0xf96de7dd, 0xd737f167, 0x7eddd644, 0xc4b7cd22);
    DoubleRound(s, 8,
                Quad(0xcd52e917, 0xc4b7cd22, 0x7bf7d740, 0x6b0d58a3),
                Quad(0x85ab03b4, 0x5c2e187a, 0x7eddd644, 0x6798471a),
                Quad(0xb3457395, 0xc95eb461, 0xf1a1bdf5, 0xd737f167),
                Quad(0xf96de7dd, 0x316c801a, 0x761246ca, 0xf173888d));
    QuarterIs(Quad(0xcd52e917, 0xc4b7cd22, 0x7bf7d740, 0x6b0d58a3), 0xc4b7cd22, 0x6b0d58a3, 0x920ab639,
              0xee9af907, 0x6a92d047, 0x51d65ae2, 0xe3e1111b, 0x7be81c0d, 0xe67aec54, 0xd65b5b5b);
    QuarterIs(Quad(0x85ab03b4, 0x5c2e187a, 0x7eddd644, 0x6798471a), 0x5c2e187a, 0x6798471a, 0xe1d91c2e,
              0x5b348641, 0xda125c85, 0xc44ff863, 0xa6291491, 0x1d92d0fd, 0xf7a52d82, 0xf56af099);
    QuarterIs(Quad(0xb3457395, 0xc95eb461, 0xf1a1bdf5, 0xd737f167), 0xc95eb461, 0xd737f167, 0x7ca427f6,
              0xd691ab93, 0xc8336988, 0xddde9016, 0x5a82b80c, 0x13139f8c, 0xdb470914, 0x4ccc8103);
    QuarterIs(Quad(0xf96de7dd, 0x316c801a, 0x761246ca, 0xf173888d), 0x316c801a, 0xf173888d, 0x2ada67f7,
              0xef7adba9, 0x658d2273, 0x1a26954e, 0x4500fd45, 0x7a26ecaa, 0xdfb40f1d, 0xc94d29e2);
    QuarterIs(Quad(0xe3e1111b, 0xf56af099, 0xdb470914, 0x7a26ecaa), 0xf56af099, 0x7a26ecaa, 0xd94c01b4,
              0xed1ea36a, 0xc865ac7e, 0xf5ce73d0, 0xcf1a7584, 0x04d6ee22, 0xcd3c9aa0, 0x7974b81c);
    QuarterIs(Quad(0xa6291491, 0x4ccc8103, 0xdfb40f1d, 0x7be81c0d), 0x4ccc8103, 0x7be81c0d, 0xf2f59594,
              0x8999891d, 0x694d983a, 0x11939258, 0x048927ec, 0x10aef18d, 0x79fc89c7, 0x378dcfb4);
    QuarterIs(Quad(0x5a82b80c, 0xc94d29e2, 0xe67aec54, 0x1d92d0fd), 0xc94d29e2, 0x1d92d0fd, 0x23cfe1ee,
              0x31133e5d, 0x178e2ab1, 0x30353dec, 0x54051fda, 0x16218765, 0x2dafb216, 0xcd47fd0e);
    QuarterIs(Quad(0x4500fd45, 0xd65b5b5b, 0xf7a52d82, 0x13139f8c), 0xd65b5b5b, 0x13139f8c, 0x1b5c58a0,
              0xc72c084f, 0xbed135d1, 0xa6e8a688, 0xc244ff28, 0x68f76705, 0x27c89cd6, 0x901d2f40);
  }

  lemma Example1(s: State)
    requires Columns(Steps(Step, s, 16),
                     Quad(0xcf1a7584, 0x901d2f40, 0x2dafb216, 0x10aef18d),
                     Quad(0x048927ec, 0x7974b81c, 0x27c89cd6, 0x16218765),
                     Quad(0x54051fda, 0x378dcfb4, 0xcd3c9aa0, 0x68f76705),
                     Quad(0xc244ff28, 0xcd47fd0e, 0x79fc89c7, 0x04d6ee22))
    ensures Columns(Steps(Step, s, 32),
                    Quad(0x9a2d3589, 0x0a1bffc6, 0xe46c6354, 0x2687d476),
                    Quad(0x0b23fc4e, 0x5e5993f7, 0xc9503229, 0x54e65231),
                    Quad(0x40af3b6b, 0x9904c2e7, 0x04fef5aa, 0x3594ffc5),
                    Quad(0xceea8144, 0x0d334718, 0xf8933f72, 0x2b3bb2ca))
  {
    hide Quarter, Steps;
    DoubleRound(s, 16,
                Quad(0xcf1a7584, 0x901d2f40, 0x2dafb216, 0x10aef18d),
                Quad(0x048927ec, 0x7974b81c, 0x27c89cd6, 0x16218765),
                Quad(0x54051fda, 0x378dcfb4, 0xcd3c9aa0, 0x68f76705),
                Quad(0xc244ff28, 0xcd47fd0e, 0x79fc89c7, 0x04d6ee22));
    QuarterIs(Quad(0xcf1a7584, 0x901d2f40, 0x2dafb216, 0x10aef18d), 0x901d2f40, 0x10aef18d, 0x5f37a4c4,
              0x55494f99, 0x82f901af, 0x42eef12e, 0xa22695f2, 0x6fda6bf7, 0xf2d36da6, 0x1ece4458);
    QuarterIs(Quad(0x048927ec, 0x7974b81c, 0x27c89cd6, 0x16218765), 0x7974b81c, 0x16218765, 0x7dfde008,
              0x676d6bdc, 0x8f3608b2, 0x2b0aef64, 0xa908cf6c, 0x65a4b0ce, 0xf4dab980, 0xe82b726f);
    QuarterIs(Quad(0x54051fda, 0x378dcfb4, 0xcd3c9aa0, 0x68f76705), 0x378dcfb4, 0x68f76705, 0x8b92ef8e,
              0x888be365, 0x55c87e05, 0x5b1b1624, 0xe6ae05b2, 0x25e6d76e, 0x7baf5573, 0x5a21ab90);
    QuarterIs(Quad(0xc244ff28, 0xcd47fd0e, 0x79fc89c7, 0x04d6ee22), 0xcd47fd0e, 0x04d6ee22, 0x8f8cfc36,
              0x12148b5a, 0x8c111521, 0x6e82f415, 0xfe0ff04b, 0x1b7b11ec, 0xa78c270d, 0x87698c64);
    QuarterIs(Quad(0xa22695f2, 0xe82b726f, 0x7baf5573, 0x1b7b11ec), 0xe82b726f, 0x1b7b11ec, 0x8a520861,
              0x198d9129, 0x953ce69c, 0x794f37d1, 0x03a14032, 0x2cd11b1a, 0xc20e01b6, 0xa09b33dd);
    QuarterIs(Quad(0xa908cf6c, 0x5a21ab90, 0xa78c270d, 0x6fda6bf7), 0x5a21ab90, 0x6fda6bf7, 0x032a7afc,
              0x110b6cf0, 0xb89793fd, 0x6386de2b, 0x66b15927, 0xba35d777, 0x72cd6b74, 0xa5daaf88);
    QuarterIs(Quad(0xe6ae05b2, 0x87698c64, 0xf2d36da6, 0x65a4b0ce), 0x87698c64, 0x65a4b0ce, 0x6e179216,
              0x22d80bb3, 0x15ab7959, 0x2f53d92c, 0x9d6b6b42, 0xb360f1bf, 0xc90c6b18, 0x2fd91a73);
    QuarterIs(Quad(0xfe0ff04b, 0x1ece4458, 0xf4dab980, 0x25e6d76e), 0x1ece4458, 0x25e6d76e, 0x1cde34a3,
              0xe3cd3938, 0xd8a7f2b8, 0x9b6e0c66, 0xb84c4109, 0x8178315b, 0x5a202413, 0xa7143ae0);
    DoubleRound(s, 24,
                Quad(0x03a14032, 0xa7143ae0, 0xc90c6b18, 0xba35d777),
                Quad(0x66b15927, 0xa09b33dd, 0x5a202413, 0xb360f1bf),
                Quad(0x9d6b6b42, 0xa5daaf88, 0xc20e01b6, 0x8178315b),
                Quad(0xb84c4109, 0x2fd91a73, 0x72cd6b74, 0x2cd11b1a));
    QuarterIs(Quad(0x03a14032, 0xa7143ae0, 0xc90c6b18, 0xba35d777), 0xa7143ae0, 0xba35d777, 0xaab57b12,
              0xac651080, 0x75717b98, 0x54178d26, 0xfecd0838, 0xa818b852, 0x1d8a33ea, 0xcedf6624);
    QuarterIs(Quad(0x66b15927, 0xa09b33dd, 0x5a202413, 0xb360f1bf), 0xa09b33dd, 0xb360f1bf, 0x074c8d04,
              0x7cbbb42c, 0xd6dbd83f, 0x0ebe2764, 0x160ab468, 0xb100446a, 0x87dc1ca9, 0xb11de6c4);
    QuarterIs(Quad(0x9d6b6b42, 0xa5daaf88, 0xc20e01b6, 0x8178315b), 0xa5daaf88, 0x8178315b, 0x43461aca,
              0x2b91c23e, 0xed9fc3f4, 0x56c7c484, 0x9a0ddf4e, 0x9c1d70b1, 0x89bd34a5, 0xbd7810ef);
    QuarterIs(Quad(0xb84c4109, 0x2fd91a73, 0x72cd6b74, 0x2cd11b1a), 0x2fd91a73, 0x2cd11b1a, 0xe8255b7c,
              0x4066c4f4, 0xb3343068, 0xd2a1b9ce, 0xbac7154a, 0xa1d1befa, 0x5505ef62, 0xd22b5643);
    QuarterIs(Quad(0xfecd0838, 0xb11de6c4, 0x89bd34a5, 0xa1d1befa), 0xb11de6c4, 0xa1d1befa, 0xafeaeefc,
              0x50060e3b, 0xd9c342e0, 0xea42468d, 0x9a2d3589, 0x2b3bb2ca, 0x04fef5aa, 0x5e5993f7);
    QuarterIs(Quad(0x160ab468, 0xbd7810ef, 0x5505ef62, 0xa818b852), 0xbd7810ef, 0xa818b852, 0xd382c557,
              0x7d057b9a, 0xd20b6afc, 0x37a136f7, 0x0b23fc4e, 0x2687d476, 0xf8933f72, 0x9904c2e7);
    QuarterIs(Quad(0x9a0ddf4e, 0xd22b5643, 0x1d8a33ea, 0xb100446a), 0xd22b5643, 0xb100446a, 0x6c393591,
              0x71fbdd39, 0x8f861123, 0xd47605da, 0x40af3b6b, 0x54e65231, 0xe46c6354, 0x0d334718);
    QuarterIs(Quad(0xbac7154a, 0xcedf6624, 0x87dc1ca9, 0x9c1d70b1), 0xcedf6624, 0x9c1d70b1, 0x89a67b6e,
              0x0bdf15bb, 0x93bb3264, 0x454405d6, 0xceea8144, 0x3594ffc5, 0xc9503229, 0x0a1bffc6);
  }

  lemma Example2(s: State)
    requires Columns(Steps(Step, s, 32),
                     Quad(0x9a2d3589, 0x0a1bffc6, 0xe46c6354, 0x2687d476),
                     Quad(0x0b23fc4e, 0x5e5993f7, 0xc9503229, 0x54e65231),
                     Quad(0x40af3b6b, 0x9904c2e7, 0x04fef5aa, 0x3594ffc5),
                     Quad(0xceea8144, 0x0d334718, 0xf8933f72, 0x2b3bb2ca))
    ensures Columns(Steps(Step, s, 48),
                    Quad(0x04a3131a, 0x36cc86c7, 0x07d13aca, 0x33b6686d),
                    Quad(0x66176309, 0xbf8a4465, 0xeb0be9af, 0x795cc671),
                    Quad(0x0415bab1, 0xf77dd720, 0x61599491, 0xc0049972),
                    Quad(0x61b880a2, 0xfc0bdc90, 0x918512dc, 0xa0a81bde))
  {
    hide Quarter, Steps;
    DoubleRound(s, 32,
                Quad(0x9a2d3589, 0x0a1bffc6, 0xe46c6354, 0x2687d476),
                Quad(0x0b23fc4e, 0x5e5993f7, 0xc9503229, 0x54e65231),
                Quad(0x40af3b6b, 0x9904c2e7, 0x04fef5aa, 0x3594ffc5),
                Quad(0xceea8144, 0x0d334718, 0xf8933f72, 0x2b3bb2ca));
    QuarterIs(Quad(0x9a2d3589, 0x0a1bffc6, 0xe46c6354, 0x2687d476), 0x0a1bffc6, 0x2687d476, 0xa449354f,
              0xe13982ce, 0xc5a5e622, 0xe19e4cfb, 0x85e7824a, 0xde008464, 0xa3a66a86, 0x1c133ea1);
    QuarterIs(Quad(0x0b23fc4e, 0x5e5993f7, 0xc9503229, 0x54e65231), 0x5e5993f7, 0x54e65231, 0x697d9045,
              0xc2743d9b, 0x8bc46fc4, 0xdfc33d59, 0x4940cd9e, 0x34f0058b, 0xc0b4754f, 0xbba40b0f);
    QuarterIs(Quad(0x40af3b6b, 0x9904c2e7, 0x04fef5aa, 0x3594ffc5), 0x9904c2e7, 0x3594ffc5, 0xd9b3fe52,
              0x0197ec27, 0x0696e1d1, 0x223369f9, 0xfbe7684b, 0x70846cfa, 0x771b4ecb, 0x9413992a);
    QuarterIs(Quad(0xceea8144, 0x0d334718, 0xf8933f72, 0x2b3bb2ca), 0x0d334718, 0x2b3bb2ca, 0xdc1dc85c,
              0x7a96f726, 0x732a3698, 0x971807e1, 0x7335d03d, 0xa3271b09, 0x165151a1, 0xa4ab2040);
    QuarterIs(Quad(0x85e7824a, 0xbba40b0f, 0x771b4ecb, 0xa3271b09), 0xbba40b0f, 0xa3271b09, 0x418b8d59,
              0x9650e2ac, 0x0d6c3177, 0x83a78b6c, 0xc53318c5, 0x63fa6953, 0x71669aca, 0x6088d379);
    QuarterIs(Quad(0x4940cd9e, 0x9413992a, 0x165151a1, 0xde008464), 0x9413992a, 0xde008464, 0xdd5466c8,
              0xe2ac0354, 0xf8fd54f5, 0xecddf6ce, 0xca325d96, 0x9e5ec228, 0x975c171d, 0xc0f0e9bd);
    QuarterIs(Quad(0xfbe7684b, 0xa4ab2040, 0xa3a66a86, 0x34f0058b), 0xa4ab2040, 0x34f0058b, 0xa092888b,
              0x8d009462, 0x30a6fee8, 0xddea8940, 0x7e7d11cb, 0x7d85a9f3, 0xae2ca8db, 0xe310cdb9);
    QuarterIs(Quad(0x7335d03d, 0x1c133ea1, 0xc0b4754f, 0x70846cfa), 0x1c133ea1, 0x70846cfa, 0x8f490ede,
              0x6224ffcd, 0x22d9751c, 0xa4bbd3ec, 0x3404e2ca, 0x201d0756, 0x42f67c72, 0x26d7cf73);
    DoubleRound(s, 40,
                Quad(0xc53318c5, 0x26d7cf73, 0xae2ca8db, 0x9e5ec228),
                Quad(0xca325d96, 0x6088d379, 0x42f67c72, 0x7d85a9f3),
                Quad(0x7e7d11cb, 0xc0f0e9bd, 0x71669aca, 0x201d0756),
                Quad(0x3404e2ca, 0xe310cdb9, 0x975c171d, 0x63fa6953));
    QuarterIs(Quad(0xc53318c5, 0x26d7cf73, 0xae2ca8db, 0x9e5ec228), 0x26d7cf73, 0x9e5ec228, 0xec0ae838,
              0x2a107254, 0xd83d1b2f, 0xad45cfee, 0x9950b826, 0x40ca72b3, 0x19078de2, 0x2121065a);
    QuarterIs(Quad(0xca325d96, 0x6088d379, 0x42f67c72, 0x7d85a9f3), 0x6088d379, 0x7d85a9f3, 0x2abb310f,
              0x98fc573e, 0xdbf2d3b0, 0xa00c9bb7, 0xcac7ccc6, 0x3b9bf852, 0x178ecc02, 0xc12bdadb);
    QuarterIs(Quad(0x7e7d11cb, 0xc0f0e9bd, 0x71669aca, 0x201d0756), 0xc0f0e9bd, 0x201d0756, 0x3f6dfb88,
              0xfcde1f70, 0x6e44ba3a, 0x45387aeb, 0x84a67673, 0x78690378, 0xe6adbdb2, 0xcae3acd1);
    QuarterIs(Quad(0x3404e2ca, 0xe310cdb9, 0x975c171d, 0x63fa6953), 0xe310cdb9, 0x63fa6953, 0x1715b083,
              0xd9d074ef, 0x712c8c0c, 0xc41b5923, 0xdb3109a6, 0xe17d4902, 0x52a9d50e, 0x594616cb);
    QuarterIs(Quad(0x9950b826, 0xc12bdadb, 0xe6adbdb2, 0xe17d4902), 0xc12bdadb, 0xe17d4902, 0x5a7c9301,
              0xda03bb01, 0xc0b178b3, 0xaa268019, 0x04a3131a, 0xa0a81bde, 0x61599491, 0xbf8a4465);
    QuarterIs(Quad(0xcac7ccc6, 0xcae3acd1, 0x52a9d50e, 0x40ca72b3), 0xcae3acd1, 0x40ca72b3, 0x95ab7997,
              0x0b24d561, 0x5dceaa6f, 0xd06be972, 0x66176309, 0x33b6686d, 0x918512dc, 0xf77dd720);
    QuarterIs(Quad(0x84a67673, 0x594616cb, 0x19078de2, 0x3b9bf852), 0x594616cb, 0x3b9bf852, 0xddec8d3e,
              0x756ce677, 0x8e747459, 0x26292d73, 0x0415bab1, 0x795cc671, 0x07d13aca, 0xfc0bdc90);
    QuarterIs(Quad(0xdb3109a6, 0x2121065a, 0x178ecc02, 0x78690378), 0x2121065a, 0x78690378, 0xfc521000,
              0x1378843b, 0x2b07503d, 0x656670a2, 0x61b880a2, 0xc0049972, 0xeb0be9af, 0x36cc86c7);
  }

  lemma Example3(s: State)
    requires Columns(Steps(Step, s, 48),
                     Quad(0x04a3131a, 0x36cc86c7, 0x07d13aca, 0x33b6686d),
                     Quad(0x66176309, 0xbf8a4465, 0xeb0be9af, 0x795cc671),
                     Quad(0x0415bab1, 0xf77dd720, 0x61599491, 0xc0049972),
                     Quad(0x61b880a2, 0xfc0bdc90, 0x918512dc, 0xa0a81bde))
    ensures Columns(Steps(Step, s, 64),
                    Quad(0xca5c85dd, 0x982563f8, 0x1c25931a, 0xa9b751fb),
                    Quad(0x93a4f90e, 0x712aa9ff, 0x5180bb10, 0x382f3ce2),
                    Quad(0xd9f0df58, 0x279a61e8, 0x779c27e7, 0x8db1757d),
                    Quad(0x26dd82dd, 0x970f72bd, 0x54077e08, 0xcc38080b))
  {
    hide Quarter, Steps;
    DoubleRound(s, 48,
                Quad(0x04a3131a, 0x36cc86c7, 0x07d13aca, 0x33b6686d),
                Quad(0x66176309, 0xbf8a4465, 0xeb0be9af, 0x795cc671),
                Quad(0x0415bab1, 0xf77dd720, 0x61599491, 0xc0049972),
                Quad(0x61b880a2, 0xfc0bdc90, 0x918512dc, 0xa0a81bde));
    QuarterIs(Quad(0x04a3131a, 0x36cc86c7, 0x07d13aca, 0x33b6686d), 0x36cc86c7, 0x33b6686d, 0x3b6f99e1,
              0xf18c08d9, 0xf95d43a3, 0x1c564cf9, 0x57c5e6da, 0x49ee03a6, 0x434b4749, 0x8e85d82f);
    QuarterIs(Quad(0x66176309, 0xbf8a4465, 0xeb0be9af, 0x795cc671), 0xbf8a4465, 0x795cc671, 0x25a1a76e,
              0x611f5cfd, 0x4c2b46ac, 0x102c9f3a, 0x35ce46a8, 0xd11a5554, 0x1d459c00, 0xb4819d06);
    QuarterIs(Quad(0x0415bab1, 0xf77dd720, 0x61599491, 0xc0049972), 0xf77dd720, 0xc0049972, 0xfb9391d1,
              0x08a33b97, 0x69fcd028, 0x107089e8, 0x0c041bb9, 0xa7202e04, 0x111cfe2c, 0xb63be200);
    QuarterIs(Quad(0x61b880a2, 0xfc0bdc90, 0x918512dc, 0xa0a81bde), 0xfc0bdc90, 0xa0a81bde, 0x5dc45d32,
              0x46ecfd6c, 0xd8721048, 0x9ccd8247, 0xfa91df79, 0x7d2215bc, 0x55942604, 0xacd221e4);
    QuarterIs(Quad(0x57c5e6da, 0xb4819d06, 0x111cfe2c, 0x7d2215bc), 0xb4819d06, 0x7d2215bc, 0x0c4783e0,
              0x965c7165, 0xa7796f91, 0x8f29713f, 0x9b70f51f, 0x2c847a0d, 0xd3fde99e, 0x6a4c50ae);
    QuarterIs(Quad(0x35ce46a8, 0xb63be200, 0x55942604, 0x49ee03a6), 0xb63be200, 0x49ee03a6, 0xec0a28a8,
              0x2b0ea5e4, 0x80a2cbe8, 0x929e8369, 0x7ea8ac11, 0xa609f555, 0x26acc13d, 0x19212a5a);
    QuarterIs(Quad(0x0c041bb9, 0xacd221e4, 0x434b4749, 0xd11a5554), 0xacd221e4, 0xd11a5554, 0xb8d63d9d,
              0x68c969cc, 0xac14b115, 0x690f100c, 0x21e54da9, 0x2c246549, 0xd839165e, 0x9b032958);
    QuarterIs(Quad(0xfa91df79, 0x8e85d82f, 0x1d459c00, 0xa7202e04), 0x8e85d82f, 0xa7202e04, 0x8917b7a8,
              0x99ac2e37, 0xb6f1ca37, 0x41218387, 0xca393b2f, 0x95151853, 0x4c06e28a, 0x93b08686);
    DoubleRound(s, 56,
                Quad(0x9b70f51f, 0x93b08686, 0xd839165e, 0xa609f555),
                Quad(0x7ea8ac11, 0x6a4c50ae, 0x4c06e28a, 0x2c246549),
                Quad(0x21e54da9, 0x19212a5a, 0xd3fde99e, 0x95151853),
                Quad(0xca393b2f, 0x9b032958, 0x26acc13d, 0x2c847a0d));
    QuarterIs(Quad(0x9b70f51f, 0x93b08686, 0xd839165e, 0xa609f555), 0x93b08686, 0xa609f555, 0x2f217ba5,
              0x8ef08928, 0x67299f86, 0x91900f49, 0xc0b18aee, 0x4103c64e, 0xa82d65d4, 0xdeb54e9c);
    QuarterIs(Quad(0x7ea8ac11, 0x6a4c50ae, 0x4c06e28a, 0x2c246549), 0x6a4c50ae, 0x2c246549, 0xe8f4fcbf,
              0x99f6c4d0, 0xe5fda75a, 0x1f7f48fb, 0x087445ba, 0x82816a91, 0x687f11eb, 0x802c883b);
    QuarterIs(Quad(0x21e54da9, 0x19212a5a, 0xd3fde99e, 0x95151853), 0x19212a5a, 0x95151853, 0x3b067803,
              0x6050ae13, 0x344e97b1, 0xfbdeb2d6, 0x36e52ad9, 0xb584ca56, 0xe9d36207, 0x06e86889);
    QuarterIs(Quad(0xca393b2f, 0x9b032958, 0x26acc13d, 0x2c847a0d), 0x9b032958, 0x2c847a0d, 0x653c6487,
              0x1e8a49b8, 0x45370af5, 0x423adde3, 0xa777426a, 0xfd0bd2b9, 0x4242ddae, 0x3c002680);
    QuarterIs(Quad(0xc0b18aee, 0x802c883b, 0xe9d36207, 0xfd0bd2b9), 0x802c883b, 0xfd0bd2b9, 0x40de1329,
              0xc190bdd5, 0xab641fdc, 0x897e72b4, 0xca5c85dd, 0xcc38080b, 0x779c27e7, 0x712aa9ff);
    QuarterIs(Quad(0x087445ba, 0x06e86889, 0x4242ddae, 0x4103c64e), 0x06e86889, 0x4103c64e, 0x0f5cae43,
              0x680d4e5f, 0xaa502c0d, 0x84484acb, 0x93a4f90e, 0xa9b751fb, 0x54077e08, 0x279a61e8);
    QuarterIs(Quad(0x36e52ad9, 0x3c002680, 0xa82d65d4, 0x82816a91), 0x3c002680, 0x82816a91, 0x72e55159,
              0x3bc8f064, 0xe3f65638, 0x670b8dff, 0xd9f0df58, 0x382f3ce2, 0x1c25931a, 0x970f72bd);
    QuarterIs(Quad(0xa777426a, 0xdeb54e9c, 0x687f11eb, 0xb584ca56), 0xdeb54e9c, 0xb584ca56, 0x862c9106,
              0x5b5033a8, 0xc3cf4593, 0xa0b0f1d7, 0x26dd82dd, 0x8db1757d, 0x5180bb10, 0x982563f8);
  }

  lemma Example4(s: State)
    requires Columns(Steps(Step, s, 64),
                     Quad(0xca5c85dd, 0x982563f8, 0x1c25931a, 0xa9b751fb),
                     Quad(0x93a4f90e, 0x712aa9ff, 0x5180bb10, 0x382f3ce2),
                     Quad(0xd9f0df58, 0x279a61e8, 0x779c27e7, 0x8db1757d),
                     Quad(0x26dd82dd, 0x970f72bd, 0x54077e08, 0xcc38080b))
    ensures Columns(Steps(Step, s, 80),
                    Quad(0x837778ab, 0xc4f2d0c7, 0x335271c2, 0xd19c12b4),
                    Quad(0xe238d763, 0xfc62bb2f, 0xf29489f3, 0xb04e16de),
                    Quad(0xa67ae21e, 0x8fa018fc, 0xeabda8fc, 0x9e83d0cb),
                    Quad(0x5950bb2f, 0x3f5ec7b7, 0x82e46ebd, 0x4e3c50a2))
  {
    hide Quarter, Steps;
    DoubleRound(s, 64,
                Quad(0xca5c85dd, 0x982563f8, 0x1c25931a, 0xa9b751fb),
                Quad(0x93a4f90e, 0x712aa9ff, 0x5180bb10, 0x382f3ce2),
                Quad(0xd9f0df58, 0x279a61e8, 0x779c27e7, 0x8db1757d),
                Quad(0x26dd82dd, 0x970f72bd, 0x54077e08, 0xcc38080b));
    QuarterIs(Quad(0xca5c85dd, 0x982563f8, 0x1c25931a, 0xa9b751fb), 0x982563f8, 0xa9b751fb, 0x6281e9d5,
              0xb82ecb36, 0xd4545e50, 0x13da84c7, 0x765c6e9c, 0x72a5aace, 0x46fa091e, 0x9046ecaa);
    QuarterIs(Quad(0x93a4f90e, 0x712aa9ff, 0x5180bb10, 0x382f3ce2), 0x712aa9ff, 0x382f3ce2, 0x04cfa30d,
              0x9fef3ce0, 0xf16ff7f0, 0x55e0f804, 0x5ab09b11, 0x5fa7f1c5, 0x5117e9b5, 0x7b88d882);
    QuarterIs(Quad(0xd9f0df58, 0x279a61e8, 0x779c27e7, 0x8db1757d), 0x279a61e8, 0x8db1757d, 0x018b4140,
              0x343d8c3a, 0xabd9b421, 0x3d5c98c4, 0x3ee7da04, 0xda563e0a, 0x862ff22b, 0xb9b577dd);
    QuarterIs(Quad(0x26dd82dd, 0x970f72bd, 0x54077e08, 0xcc38080b), 0x970f72bd, 0xcc38080b, 0xbdecf59a,
              0xfd9171d4, 0x5198efdc, 0x79d61c69, 0x37c31203, 0x5263d7ca, 0xa3fcc7a6, 0x156de7ed);
    QuarterIs(Quad(0x765c6e9c, 0x7b88d882, 0x862ff22b, 0x5263d7ca), 0x7b88d882, 0x5263d7ca, 0xf1e5471e,
              0x90d4a386, 0x170495b1, 0xc4d336c8, 0xb6b87de6, 0x6cde6026, 0x83e2f5d7, 0x98e18fa3);
    QuarterIs(Quad(0x5ab09b11, 0xb9b577dd, 0xa3fcc7a6, 0x72a5aace), 0xb9b577dd, 0x72a5aace, 0x146612ee,
              0xb82066c3, 0x5c1d2e69, 0x859b4e5a, 0x9a016148, 0x21078b22, 0x7d24b98b, 0x5ffbe8fc);
    QuarterIs(Quad(0x3ee7da04, 0x156de7ed, 0x46fa091e, 0x5fa7f1c5), 0x156de7ed, 0x5fa7f1c5, 0x5455c1f1,
              0x30340bf2, 0x772e1510, 0x3f2fd624, 0x93859815, 0xb193e7a3, 0x28c1fcb3, 0xf7154b8b);
    QuarterIs(Quad(0x37c31203, 0x9046ecaa, 0x5117e9b5, 0xda563e0a), 0x9046ecaa, 0xda563e0a, 0xc809fead,
              0xc0a7125f, 0x11befc14, 0x810be81f, 0x4915e6cc, 0xb2f49389, 0xc4b38f9d, 0xdc33c122);
    DoubleRound(s, 72,
                Quad(0xb6b87de6, 0xdc33c122, 0x28c1fcb3, 0x21078b22),
                Quad(0x9a016148, 0x98e18fa3, 0xc4b38f9d, 0xb193e7a3),
                Quad(0x93859815, 0x5ffbe8fc, 0x83e2f5d7, 0xb2f49389),
                Quad(0x4915e6cc, 0xf7154b8b, 0x7d24b98b, 0x6cde6026));
    QuarterIs(Quad(0xb6b87de6, 0xdc33c122, 0x28c1fcb3, 0x21078b22), 0xdc33c122, 0x21078b22, 0x92ec3f08,
              0xb42ab3eb, 0xdcecb09e, 0xf71bc00d, 0x8a07ff15, 0x2d4cfe3e, 0x0a39aedc, 0x913768fe);
    QuarterIs(Quad(0x9a016148, 0x98e18fa3, 0xc4b38f9d, 0xb193e7a3), 0x98e18fa3, 0xb193e7a3, 0x32e2f0eb,
              0x17488371, 0xdbfc130e, 0xd9cad431, 0x0cadc51c, 0xe5466d1b, 0xc1428029, 0x442a0c0c);
    QuarterIs(Quad(0x93859815, 0x5ffbe8fc, 0x83e2f5d7, 0xb2f49389), 0x5ffbe8fc, 0xb2f49389, 0xf3818111,
              0x12984175, 0x967b374c, 0x0dfb0c98, 0x017c8da9, 0xe4ccdc13, 0x7b48135f, 0x598fe3bb);
    QuarterIs(Quad(0x4915e6cc, 0xf7154b8b, 0x7d24b98b, 0x6cde6026), 0xf7154b8b, 0x6cde6026, 0x402b3257,
              0x52712cf5, 0xcf95e680, 0x0ad0b388, 0x4afbe5df, 0x8ac92a18, 0x5a5f1098, 0x47d18828);
    QuarterIs(Quad(0x8a07ff15, 0x442a0c0c, 0x7b48135f, 0x8ac92a18), 0x442a0c0c, 0x8ac92a18, 0xce320b21,
              0x213944fb, 0x9c81585a, 0xb5456d8a, 0x837778ab, 0x4e3c50a2, 0xeabda8fc, 0xfc62bb2f);
    QuarterIs(Quad(0x0cadc51c, 0x598fe3bb, 0x5a5f1098, 0x2d4cfe3e), 0x598fe3bb, 0x2d4cfe3e, 0x663da8d7,
              0x56e94b71, 0xb1485c09, 0x7bfb2e8c, 0xe238d763, 0xd19c12b4, 0x82e46ebd, 0x8fa018fc);
    QuarterIs(Quad(0x017c8da9, 0x47d18828, 0x0a39aedc, 0xe5466d1b), 0x47d18828, 0xe5466d1b, 0x494e15d1,
              0x78caac08, 0x83045ae4, 0x5d2ccc4d, 0xa67ae21e, 0xb04e16de, 0x335271c2, 0x3f5ec7b7);
    QuarterIs(Quad(0x4afbe5df, 0x913768fe, 0xc1428029, 0xe4ccdc13), 0x913768fe, 0xe4ccdc13, 0xdc334edd,
              0x92ce38ff, 0x5410b928, 0x7d1d6c52, 0x5950bb2f, 0x9e83d0cb, 0xf29489f3, 0xc4f2d0c7);
  }

  // ----- initial state, sums and bytes -----

  function Example(): State {
    [0x61707865, 0x3320646e, 0x79622d32, 0x6b206574, 0x03020100, 0x07060504, 0x0b0a0908, 0x0f0e0d0c,
     0x13121110, 0x17161514, 0x1b1a1918, 0x1f1e1d1c, 0x00000001, 0x09000000, 0x4a000000, 0x00000000]
  }

  /** The key 00 to 1f, the nonce and the counter give the initial state. */
  lemma ExampleInitial(key: seq<Byte>)
    requires |key| == 32 && forall k :: 0 <= k < 32 ==> key[k] == k
    ensures Initial(key, [0, 0, 0, 0x09, 0, 0, 0, 0x4a, 0, 0, 0, 0], 1) == Example()
  {
  }

  lemma ExampleMixed(s: State)
    requires s == Example()
    ensures Columns(Mixed(s),
                    Quad(0x837778ab, 0xc4f2d0c7, 0x335271c2, 0xd19c12b4),
                    Quad(0xe238d763, 0xfc62bb2f, 0xf29489f3, 0xb04e16de),
                    Quad(0xa67ae21e, 0x8fa018fc, 0xeabda8fc, 0x9e83d0cb),
                    Quad(0x5950bb2f, 0x3f5ec7b7, 0x82e46ebd, 0x4e3c50a2))
  {
    hide Steps;
    assert Steps(Step, s, 0) == s by {
      StepsBegin(s);
    }

    Example0(s);
    Example1(s);
    Example2(s);
    Example3(s);
    Example4(s);
  }

  lemma StepsBegin(s: State)
    ensures Steps(Step, s, 0) == s
  {
  }

  lemma ExampleSummed(x: State)
    requires Columns(x,
                     Quad(0x837778ab, 0xc4f2d0c7, 0x335271c2, 0xd19c12b4),
                     Quad(0xe238d763, 0xfc62bb2f, 0xf29489f3, 0xb04e16de),
                     Quad(0xa67ae21e, 0x8fa018fc, 0xeabda8fc, 0x9e83d0cb),
                     Quad(0x5950bb2f, 0x3f5ec7b7, 0x82e46ebd, 0x4e3c50a2))
    ensures Summed(x, Example())
            == [0xe4e7f110, 0x15593bd1, 0x1fdd0f50, 0xc47120a3, 0xc7f4d1c7, 0x0368c033, 0x9aaa2204, 0x4e6cd4c3,
               0x466482d2, 0x09aa9f07, 0x05d7c214, 0xa2028bd9, 0xd19c12b5, 0xb94e16de, 0xe883d0cb, 0x4e3c50a2]
  {
  }

  function Row(x: State, k: nat): seq<Byte>
    requires k < 4
  {
    Le32(x[4 * k]) + Le32(x[4 * k + 1]) + Le32(x[4 * k + 2]) + Le32(x[4 * k + 3])
  }

  lemma RowAt(x: State, k: nat)
    requires k < 4
    ensures Serialized(x)[16 * k..16 * k + 16] == Row(x, k)
  {
    hide Le32;
  }

  lemma FourRows(b: seq<Byte>)
    requires |b| == 64
    ensures b == b[0..16] + b[16..32] + b[32..48] + b[48..64]
  {
  }

  lemma SerializedRows(x: State)
    ensures Serialized(x) == Row(x, 0) + Row(x, 1) + Row(x, 2) + Row(x, 3)
  {
    hide Row, Serialized;
    RowAt(x, 0);
    RowAt(x, 1);
    RowAt(x, 2);
    RowAt(x, 3);
    FourRows(Serialized(x));
  }

  lemma ExampleRow0(x: State)
    requires x == [0xe4e7f110, 0x15593bd1, 0x1fdd0f50, 0xc47120a3, 0xc7f4d1c7, 0x0368c033, 0x9aaa2204, 0x4e6cd4c3,
                   0x466482d2, 0x09aa9f07, 0x05d7c214, 0xa2028bd9, 0xd19c12b5, 0xb94e16de, 0xe883d0cb, 0x4e3c50a2]
    ensures Row(x, 0)
            == [0x10, 0xf1, 0xe7, 0xe4, 0xd1, 0x3b, 0x59, 0x15, 0x50, 0x0f, 0xdd, 0x1f, 0xa3, 0x20, 0x71, 0xc4]
  {
    assert Le32(0xe4e7f110) == [0x10, 0xf1, 0xe7, 0xe4];
    assert Le32(0x15593bd1) == [0xd1, 0x3b, 0x59, 0x15];
    assert Le32(0x1fdd0f50) == [0x50, 0x0f, 0xdd, 0x1f];
    assert Le32(0xc47120a3) == [0xa3, 0x20, 0x71, 0xc4];
  }

  lemma ExampleRow1(x: State)
    requires x == [0xe4e7f110, 0x15593bd1, 0x1fdd0f50, 0xc47120a3, 0xc7f4d1c7, 0x0368c033, 0x9aaa2204, 0x4e6cd4c3,
                   0x466482d2, 0x09aa9f07, 0x05d7c214, 0xa2028bd9, 0xd19c12b5, 0xb94e16de, 0xe883d0cb, 0x4e3c50a2]
    ensures Row(x, 1)
            == [0xc7, 0xd1, 0xf4, 0xc7, 0x33, 0xc0, 0x68, 0x03, 0x04, 0x22, 0xaa, 0x9a, 0xc3, 0xd4, 0x6c, 0x4e]
  {
    assert Le32(0xc7f4d1c7) == [0xc7, 0xd1, 0xf4, 0xc7];
    assert Le32(0x0368c033) == [0x33, 0xc0, 0x68, 0x03];
    assert Le32(0x9aaa2204) == [0x04, 0x22, 0xaa, 0x9a];
    assert Le32(0x4e6cd4c3) == [0xc3, 0xd4, 0x6c, 0x4e];
  }

  lemma ExampleRow2(x: State)
    requires x == [0xe4e7f110, 0x15593bd1, 0x1fdd0f50, 0xc47120a3, 0xc7f4d1c7, 0x0368c033, 0x9aaa2204, 0x4e6cd4c3,
                   0x466482d2, 0x09aa9f07, 0x05d7c214, 0xa2028bd9, 0xd19c12b5, 0xb94e16de, 0xe883d0cb, 0x4e3c50a2]
    ensures Row(x, 2)
            == [0xd2, 0x82, 0x64, 0x46, 0x07, 0x9f, 0xaa, 0x09, 0x14, 0xc2, 0xd7, 0x05, 0xd9, 0x8b, 0x02, 0xa2]
  {
    assert Le32(0x466482d2) == [0xd2, 0x82, 0x64, 0x46];
    assert Le32(0x09aa9f07) == [0x07, 0x9f, 0xaa, 0x09];
    assert Le32(0x05d7c214) == [0x14, 0xc2, 0xd7, 0x05];
    assert Le32(0xa2028bd9) == [0xd9, 0x8b, 0x02, 0xa2];
  }

  lemma ExampleRow3(x: State)
    requires x == [0xe4e7f110, 0x15593bd1, 0x1fdd0f50, 0xc47120a3, 0xc7f4d1c7, 0x0368c033, 0x9aaa2204, 0x4e6cd4c3,
                   0x466482d2, 0x09aa9f07, 0x05d7c214, 0xa2028bd9, 0xd19c12b5, 0xb94e16de, 0xe883d0cb, 0x4e3c50a2]
    ensures Row(x, 3)
            == [0xb5, 0x12, 0x9c, 0xd1, 0xde, 0x16, 0x4e, 0xb9, 0xcb, 0xd0, 0x83, 0xe8, 0xa2, 0x50, 0x3c, 0x4e]
  {
    assert Le32(0xd19c12b5) == [0xb5, 0x12, 0x9c, 0xd1];
    assert Le32(0xb94e16de) == [0xde, 0x16, 0x4e, 0xb9];
    assert Le32(0xe883d0cb) == [0xcb, 0xd0, 0x83, 0xe8];
    assert Le32(0x4e3c50a2) == [0xa2, 0x50, 0x3c, 0x4e];
  }

  /** The block of key stream. */
  lemma BlockVector()
    ensures BlockBy(Mixed, Example())
            == [0x10, 0xf1, 0xe7, 0xe4, 0xd1, 0x3b, 0x59, 0x15, 0x50, 0x0f, 0xdd, 0x1f, 0xa3, 0x20, 0x71, 0xc4]
               + [0xc7, 0xd1, 0xf4, 0xc7, 0x33, 0xc0, 0x68, 0x03, 0x04, 0x22, 0xaa, 0x9a, 0xc3, 0xd4, 0x6c, 0x4e]
               + [0xd2, 0x82, 0x64, 0x46, 0x07, 0x9f, 0xaa, 0x09, 0x14, 0xc2, 0xd7, 0x05, 0xd9, 0x8b, 0x02, 0xa2]
               + [0xb5, 0x12, 0x9c, 0xd1, 0xde, 0x16, 0x4e, 0xb9, 0xcb, 0xd0, 0x83, 0xe8, 0xa2, 0x50, 0x3c, 0x4e]
  {
    hide Mixed, Summed, Serialized, Example, Columns, Row;
    ExampleMixed(Example());
    ExampleSummed(Mixed(Example()));
    var x := Summed(Mixed(Example()), Example());
    SerializedRows(x);
    ExampleRow0(x);
    ExampleRow1(x);
    ExampleRow2(x);
    ExampleRow3(x);
  }

  /** Encrypting 64 zeros with that key, nonce and counter gives the block. */
  lemma EncryptVector(key: seq<Byte>)
    requires |key| == 32 && forall k :: 0 <= k < 32 ==> key[k] == k
    ensures Crypted(Block(), Initial(key, [0, 0, 0, 0x09, 0, 0, 0, 0x4a, 0, 0, 0, 0], 1), Zeros(64))
            == [0x10, 0xf1, 0xe7, 0xe4, 0xd1, 0x3b, 0x59, 0x15, 0x50, 0x0f, 0xdd, 0x1f, 0xa3, 0x20, 0x71, 0xc4]
               + [0xc7, 0xd1, 0xf4, 0xc7, 0x33, 0xc0, 0x68, 0x03, 0x04, 0x22, 0xaa, 0x9a, 0xc3, 0xd4, 0x6c, 0x4e]
               + [0xd2, 0x82, 0x64, 0x46, 0x07, 0x9f, 0xaa, 0x09, 0x14, 0xc2, 0xd7, 0x05, 0xd9, 0x8b, 0x02, 0xa2]
               + [0xb5, 0x12, 0x9c, 0xd1, 0xde, 0x16, 0x4e, 0xb9, 0xcb, 0xd0, 0x83, 0xe8, 0xa2, 0x50, 0x3c, 0x4e]
  {
    hide Mixed, BlockBy, Initial, Crypted;
    ExampleInitial(key);
    var s := Example();
    ZerosGiveBlocks(s, 0, 1);
    assert s[12 := 1] == s;
    var r := Crypted(Block(), s, Zeros(64));
    assert r[0..] == r;
    BlockVector();
  }
}
