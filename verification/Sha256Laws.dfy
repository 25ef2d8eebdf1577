/**
 * What the functions on words, the constants and the byte orders of SHA-256 are, without their formulas: bit by bit,
 * as weighted sums, and as the fractional bits of roots of the primes (sections 4.1.2, 4.2.2, 5.1.1, 5.2.1 and 5.3.3
 * of FIPS 180-4).
 */
module Sha256Laws {
  import opened Bytes
  import opened Sha256
  import Sha256Vectors
  import opened Words

  // ----- words as bits and as parts -----

  function One(i: bv6): bv32
    requires i < 32
  {
    1 << i
  }

  function Part(x: bv32, m: bv32): bv32 {
    x & m
  }

  /** Bit i of a word, counted from the lowest. */
  predicate Bit(x: bv32, i: bv6)
    requires i < 32
  {
    Part(x, One(i)) != 0
  }

  lemma Either(x: bv32, i: bv6)
    requires i < 32
    ensures Part(x, One(i)) == 0 || Part(x, One(i)) == One(i)
    ensures One(i) != 0
  {
  }

  // ----- choice and majority -----

  lemma ChOfOnes(x: bv32, y: bv32, z: bv32, m: bv32)
    requires Part(x, m) == m
    ensures Part(Ch(x, y, z), m) == Part(y, m)
  {
  }

  lemma ChOfZeros(x: bv32, y: bv32, z: bv32, m: bv32)
    requires Part(x, m) == 0
    ensures Part(Ch(x, y, z), m) == Part(z, m)
  {
  }

  /** The choice: where x has a one, the bit of y, else that of z. */
  lemma ChChooses(x: bv32, y: bv32, z: bv32, i: bv6)
    requires i < 32
    ensures Bit(Ch(x, y, z), i) == if Bit(x, i) then Bit(y, i) else Bit(z, i)
  {
    hide Ch, One, Part;
    Either(x, i);
    if Part(x, One(i)) == 0 {
      ChOfZeros(x, y, z, One(i));
    } else {
      ChOfOnes(x, y, z, One(i));
    }
  }

  lemma MajPart(x: bv32, y: bv32, z: bv32, m: bv32)
    ensures Part(Maj(x, y, z), m) == Maj(Part(x, m), Part(y, m), Part(z, m))
  {
  }

  lemma MajEqual(m: bv32)
    ensures Maj(m, m, m) == Maj(m, m, 0) == Maj(m, 0, m) == Maj(0, m, m) == m
    ensures Maj(0, 0, 0) == Maj(m, 0, 0) == Maj(0, 0, m) == Maj(0, m, 0) == 0
  {
  }

  function Count(a: bool, b: bool, c: bool): nat {
    (if a then 1 else 0) + (if b then 1 else 0) + if c then 1 else 0
  }

  /** The majority of three bits. */
  lemma MajDecides(x: bv32, y: bv32, z: bv32, i: bv6)
    requires i < 32
    ensures Bit(Maj(x, y, z), i) <==> Count(Bit(x, i), Bit(y, i), Bit(z, i)) >= 2
  {
    hide Maj, One, Part;
    Either(x, i);
    Either(y, i);
    Either(z, i);
    MajPart(x, y, z, One(i));
    MajEqual(One(i));
  }

  // ----- rotations -----

  function Twice(x: bv32): bv32 {
    x << 1
  }

  function Half(x: bv32): bv32 {
    x >> 1
  }

  function Join(a: bv32, b: bv32): bv32 {
    a | b
  }

  /** What the right shift of a loses is the highest bit of b. */
  predicate Carry(a: bv32, b: bv32) {
    a << 31 == b & 0x8000_0000
  }

  function Right(x: bv32, n: bv6): bv32
    requires n <= 32
  {
    x >> n
  }

  function Left(x: bv32, n: bv6): bv32
    requires n <= 32
  {
    x << n
  }

  lemma RotrIs(x: bv32, n: bv6)
    requires 0 < n < 32
    ensures Rotr(x, n) == Join(Right(x, n), Left(x, 32 - n))
  {
  }

  lemma ShiftLess(x: bv32, n: bv6)
    requires 1 < n < 32
    ensures Right(x, n) == Half(Right(x, n - 1))
    ensures Left(x, 32 - (n - 1)) == Twice(Left(x, 32 - n))
  {
  }

  lemma Carried(x: bv32, n: bv6)
    requires 1 < n < 32
    ensures Carry(Right(x, n - 1), Left(x, 32 - n))
  {
  }

  lemma Joined(a: bv32, b: bv32)
    requires Carry(a, b)
    ensures Rotr(Join(a, Twice(b)), 1) == Join(Half(a), b)
  {
  }

  lemma TurnNext(x: bv32, n: bv6)
    requires 1 < n < 32
    ensures Rotr(x, n) == Rotr(Rotr(x, n - 1), 1)
  {
    hide Rotr, Right, Left, Join, Half, Twice, Carry;
    RotrIs(x, n);
    RotrIs(x, n - 1);
    ShiftLess(x, n);
    Carried(x, n);
    Joined(Right(x, n - 1), Left(x, 32 - n));
  }

  lemma OneNext(i: bv6)
    requires i < 32
    ensures One((i + 1) & 31) == if One(i) == 0x8000_0000 then 1 else Twice(One(i))
    ensures One(i) <= 0x8000_0000
  {
  }

  lemma TurnOnce(x: bv32, m: bv32)
    ensures Part(Rotr(x, 1), 0x8000_0000) != 0 <==> Part(x, 1) != 0
    ensures m < 0x8000_0000 ==> (Part(Rotr(x, 1), m) != 0 <==> Part(x, Twice(m)) != 0)
  {
  }

  lemma BitTurned(x: bv32, i: bv6)
    requires i < 32
    ensures Bit(Rotr(x, 1), i) == Bit(x, (i + 1) & 31)
  {
    hide Rotr, One, Part, Twice;
    OneNext(i);
    TurnOnce(x, One(i));
  }

  /** The rotation: bit i is bit i + n of the word, counted around. */
  lemma {:induction false} RotrTurns(x: bv32, n: bv6, i: bv6)
    requires 0 < n < 32 && i < 32
    ensures Bit(Rotr(x, n), i) == Bit(x, (i + n) & 31)
    decreases n
  {
    hide Rotr, Bit;
    if n == 1 {
      BitTurned(x, i);
    } else {
      TurnNext(x, n);
      BitTurned(Rotr(x, n - 1), i);
      RotrTurns(x, n - 1, (i + 1) & 31);
    }
  }

  // ----- the four sums of rotations -----

  function Three(a: bv32, b: bv32, c: bv32): bv32 {
    a ^ b ^ c
  }

  predicate Odd(a: bool, b: bool, c: bool) {
    Count(a, b, c) % 2 == 1
  }

  lemma XorBit(a: bv32, b: bv32, c: bv32, i: bv6)
    requires i < 32
    ensures Bit(a ^ b ^ c, i) <==> Odd(Bit(a, i), Bit(b, i), Bit(c, i))
  {
  }

  lemma ThreeBits(a: bv32, b: bv32, c: bv32, i: bv6)
    requires i < 32
    ensures Bit(Three(a, b, c), i) <==> Odd(Bit(a, i), Bit(b, i), Bit(c, i))
  {
    hide Bit, Odd;
    XorBit(a, b, c, i);
  }

  lemma DroppedBits(x: bv32, i: bv6)
    requires i < 32
    ensures Bit(x >> 3, i) <==> i < 29 && Bit(x, (i + 3) & 31)
    ensures Bit(x >> 10, i) <==> i < 22 && Bit(x, (i + 10) & 31)
  {
  }

  lemma BigSigmaTerms(x: bv32)
    ensures BigSigma0(x) == Three(Rotr(x, 2), Rotr(x, 13), Rotr(x, 22))
    ensures BigSigma1(x) == Three(Rotr(x, 6), Rotr(x, 11), Rotr(x, 25))
  {
    hide Rotr;
  }

  lemma SmallSigmaTerms(x: bv32)
    ensures SmallSigma0(x) == Three(Rotr(x, 7), Rotr(x, 18), x >> 3)
    ensures SmallSigma1(x) == Three(Rotr(x, 17), Rotr(x, 19), x >> 10)
  {
    hide Rotr;
  }

  lemma TurnedBits(x: bv32, j: bv6, k: bv6, c: bv32, i: bv6)
    requires 0 < j < 32 && 0 < k < 32 && i < 32
    ensures Bit(Three(Rotr(x, j), Rotr(x, k), c), i) <==> Odd(Bit(x, (i + j) & 31), Bit(x, (i + k) & 31), Bit(c, i))
  {
    hide Rotr, Bit, Three, Odd;
    ThreeBits(Rotr(x, j), Rotr(x, k), c, i);
    RotrTurns(x, j, i);
    RotrTurns(x, k, i);
  }

  lemma BigSigmaBits(x: bv32, i: bv6)
    requires i < 32
    ensures Bit(BigSigma0(x), i) <==> Odd(Bit(x, (i + 2) & 31), Bit(x, (i + 13) & 31), Bit(x, (i + 22) & 31))
    ensures Bit(BigSigma1(x), i) <==> Odd(Bit(x, (i + 6) & 31), Bit(x, (i + 11) & 31), Bit(x, (i + 25) & 31))
  {
    hide Rotr, Bit, Three, Odd, BigSigma0, BigSigma1;
    BigSigmaTerms(x);
    TurnedBits(x, 2, 13, Rotr(x, 22), i);
    RotrTurns(x, 22, i);
    TurnedBits(x, 6, 11, Rotr(x, 25), i);
    RotrTurns(x, 25, i);
  }

  /** In the small ones the third term is a shift, which drops bits. */
  lemma SmallSigmaBits(x: bv32, i: bv6)
    requires i < 32
    ensures Bit(SmallSigma0(x), i)
            <==> Odd(Bit(x, (i + 7) & 31), Bit(x, (i + 18) & 31), i < 29 && Bit(x, (i + 3) & 31))
    ensures Bit(SmallSigma1(x), i)
            <==> Odd(Bit(x, (i + 17) & 31), Bit(x, (i + 19) & 31), i < 22 && Bit(x, (i + 10) & 31))
  {
    hide Rotr, Bit, Three, Odd, SmallSigma0, SmallSigma1;
    SmallSigmaTerms(x);
    DroppedBits(x, i);
    TurnedBits(x, 7, 18, x >> 3, i);
    TurnedBits(x, 17, 19, x >> 10, i);
  }

  // ----- byte orders -----

  lemma WideValue(x: bv8)
    ensures (x as bv32) as int == x as int
  {
  }

  /** A word is the sum of its four bytes, the first of which weighs most. */
  lemma WordWeighs(b: seq<Byte>, at: nat)
    requires at + 4 <= |b|
    ensures Word(b, at) == 0x100_0000 * Bits(b[at]) as bv32 + 0x1_0000 * Bits(b[at + 1]) as bv32
                           + 0x100 * Bits(b[at + 2]) as bv32 + Bits(b[at + 3]) as bv32
  {
  }

  lemma Unpacked(a: bv8, b: bv8, c: bv8, d: bv8)
    ensures var w := (a as bv32 << 24) | (b as bv32 << 16) | (c as bv32 << 8) | d as bv32;
      && (w >> 24) & 0xFF == a as bv32 && (w >> 16) & 0xFF == b as bv32
      && (w >> 8) & 0xFF == c as bv32 && w & 0xFF == d as bv32
  {
  }

  /** Writing a word that was read gives its four bytes again. */
  lemma BytesOfWord(b: seq<Byte>, at: nat)
    requires at + 4 <= |b|
    ensures Be32(Word(b, at)) == b[at..at + 4]
  {
    hide Bits;
    Unpacked(Bits(b[at]), Bits(b[at + 1]), Bits(b[at + 2]), Bits(b[at + 3]));
    WideByte(b[at]);
    WideByte(b[at + 1]);
    WideByte(b[at + 2]);
    WideByte(b[at + 3]);
  }

  lemma WideByte(b: Byte)
    ensures (Bits(b) as bv32) as int == b
  {
    WideValue(Bits(b));
    BitsRoundTrip(b);
  }

  lemma Repacked(x: bv32)
    ensures x == (((x >> 24) & 0xFF) << 24) | (((x >> 16) & 0xFF) << 16) | (((x >> 8) & 0xFF) << 8) | (x & 0xFF)
  {
  }

  lemma NarrowBack(x: bv32)
    requires x <= 0xFF
    ensures Bits(x as int) as bv32 == x
  {
    WideValue(x as bv8);
    BitsBack(x as bv8);
  }

  /** And reading a word that was written gives the word. */
  lemma WordOfBytes(x: bv32)
    ensures Word(Be32(x), 0) == x
  {
    hide Bits;
    Repacked(x);
    NarrowBack((x >> 24) & 0xFF);
    NarrowBack((x >> 16) & 0xFF);
    NarrowBack((x >> 8) & 0xFF);
    NarrowBack(x & 0xFF);
  }

  /** The number that bytes stand for, the first of them weighing most. */
  function Number(s: seq<Byte>): nat {
    if s == [] then 0 else 256 * Number(s[..|s| - 1]) + s[|s| - 1]
  }

  lemma Spread(d: nat, a: nat, b: nat, r: nat)
    requires r < d && b < 256
    ensures d * (256 * a + b) + r == a * (256 * d) + (d * b + r) && d * b + r < 256 * d
  {
    assert d * b <= d * 255;
  }

  lemma DivideOnce(n: nat, d: nat)
    requires 0 < d
    ensures n / d == 256 * (n / (256 * d)) + n / d % 256
  {
    var q, r := n / d, n % d;
    var a, b := q / 256, q % 256;
    Spread(d, a, b, r);
    ModUnique(n, 256 * d, a, d * b + r);
  }

  lemma ScaleEight(n: nat)
    requires n < WIDE
    ensures Scale(8) == WIDE && n / WIDE == 0
  {
    assert Scale(4) == 256 * (256 * Scale(2)) && Scale(8) == 256 * (256 * (256 * (256 * Scale(4))));
  }

  lemma {:induction false} FrontNumber(n: nat, i: nat)
    requires n < WIDE && i <= 8
    ensures Scale(8 - i) > 0 && Number(Be64(n)[..i]) == n / Scale(8 - i)
  {
    hide Scale, ByteOf;
    ScalePositive(8 - i);
    if i == 0 {
      ScaleEight(n);
    } else {
      FrontNumber(n, i - 1);
      assert Be64(n)[..i][..i - 1] == Be64(n)[..i - 1];
      ByteIs(n, i - 1);
    }
  }

  lemma ByteIs(n: nat, i: nat)
    requires i < 8
    ensures Scale(7 - i) > 0 && Scale(8 - i) > 0
    ensures n / Scale(7 - i) == 256 * (n / Scale(8 - i)) + ByteOf(n, i)
  {
    ScalePositive(7 - i);
    DivideOnce(n, Scale(7 - i));
  }

  /** The length field is the length. */
  lemma Be64Number(n: nat)
    requires n < WIDE
    ensures Number(Be64(n)) == n
  {
    hide Be64;
    FrontNumber(n, 8);
    assert Scale(0) == 1;
    assert Be64(n)[..8] == Be64(n);
  }

  /** The padded message: whole blocks, no block too many, the bit length in the last eight bytes. */
  lemma PaddedReads(m: seq<Byte>)
    ensures var p, n := Padded(m), |m|;
      && |p| % 64 == 0 && n + 9 <= |p| < n + 9 + 64
      && p[..n] == m && p[n] == 0x80 && (forall k :: n < k < |p| - 8 ==> p[k] == 0)
      && Number(p[|p| - 8..]) == 8 * n % WIDE
  {
    hide Be64;
    PaddedLength(m);
    var p := Padded(m);
    assert p[|p| - 8..] == Be64(8 * |m| % WIDE);
    Be64Number(8 * |m| % WIDE);
  }

  // ----- the constants -----

  /** The first 32 bits behind the point of the cube root of p, whose whole part is given. */
  predicate CubeRoot(k: bv32, p: nat, whole: nat) {
    var r := whole * 0x1_0000_0000 + k as int;
    r * r * r <= p * 0x1_0000_0000_0000_0000_0000_0000 < (r + 1) * (r + 1) * (r + 1)
  }

  /** And of the square root. */
  predicate SquareRoot(k: bv32, p: nat, whole: nat) {
    var r := whole * 0x1_0000_0000 + k as int;
    r * r <= p * 0x1_0000_0000_0000_0000 < (r + 1) * (r + 1)
  }

  /** The initial value: the square roots of the first eight primes. */
  lemma InitialRoots()
    ensures SquareRoot(INITIAL.a, 2, 1) && SquareRoot(INITIAL.b, 3, 1)
    ensures SquareRoot(INITIAL.c, 5, 2) && SquareRoot(INITIAL.d, 7, 2)
    ensures SquareRoot(INITIAL.e, 11, 3) && SquareRoot(INITIAL.f, 13, 3)
    ensures SquareRoot(INITIAL.g, 17, 4) && SquareRoot(INITIAL.h, 19, 4)
  {
  }

  /** The 64 constants: the cube roots of the first 64 primes. */

  lemma Roots0()
    ensures CubeRoot(Constant(0), 2, 1) && CubeRoot(Constant(1), 3, 1)
    ensures CubeRoot(Constant(2), 5, 1) && CubeRoot(Constant(3), 7, 1)
  {
    hide Constant;
    Sha256Vectors.Constants0();
  }

  lemma Roots1()
    ensures CubeRoot(Constant(4), 11, 2) && CubeRoot(Constant(5), 13, 2)
    ensures CubeRoot(Constant(6), 17, 2) && CubeRoot(Constant(7), 19, 2)
  {
    hide Constant;
    Sha256Vectors.Constants0();
  }

  lemma Roots2()
    ensures CubeRoot(Constant(8), 23, 2) && CubeRoot(Constant(9), 29, 3)
    ensures CubeRoot(Constant(10), 31, 3) && CubeRoot(Constant(11), 37, 3)
  {
    hide Constant;
    Sha256Vectors.Constants0();
  }

  lemma Roots3()
    ensures CubeRoot(Constant(12), 41, 3) && CubeRoot(Constant(13), 43, 3)
    ensures CubeRoot(Constant(14), 47, 3) && CubeRoot(Constant(15), 53, 3)
  {
    hide Constant;
    Sha256Vectors.Constants0();
  }

  lemma Roots4()
    ensures CubeRoot(Constant(16), 59, 3) && CubeRoot(Constant(17), 61, 3)
    ensures CubeRoot(Constant(18), 67, 4) && CubeRoot(Constant(19), 71, 4)
  {
    hide Constant;
    Sha256Vectors.Constants1();
  }

  lemma Roots5()
    ensures CubeRoot(Constant(20), 73, 4) && CubeRoot(Constant(21), 79, 4)
    ensures CubeRoot(Constant(22), 83, 4) && CubeRoot(Constant(23), 89, 4)
  {
    hide Constant;
    Sha256Vectors.Constants1();
  }

  lemma Roots6()
    ensures CubeRoot(Constant(24), 97, 4) && CubeRoot(Constant(25), 101, 4)
    ensures CubeRoot(Constant(26), 103, 4) && CubeRoot(Constant(27), 107, 4)
  {
    hide Constant;
    Sha256Vectors.Constants1();
  }

  lemma Roots7()
    ensures CubeRoot(Constant(28), 109, 4) && CubeRoot(Constant(29), 113, 4)
    ensures CubeRoot(Constant(30), 127, 5) && CubeRoot(Constant(31), 131, 5)
  {
    hide Constant;
    Sha256Vectors.Constants1();
  }

  lemma Roots8()
    ensures CubeRoot(Constant(32), 137, 5) && CubeRoot(Constant(33), 139, 5)
    ensures CubeRoot(Constant(34), 149, 5) && CubeRoot(Constant(35), 151, 5)
  {
    hide Constant;
    Sha256Vectors.Constants2();
  }

  lemma Roots9()
    ensures CubeRoot(Constant(36), 157, 5) && CubeRoot(Constant(37), 163, 5)
    ensures CubeRoot(Constant(38), 167, 5) && CubeRoot(Constant(39), 173, 5)
  {
    hide Constant;
    Sha256Vectors.Constants2();
  }

  lemma Roots10()
    ensures CubeRoot(Constant(40), 179, 5) && CubeRoot(Constant(41), 181, 5)
    ensures CubeRoot(Constant(42), 191, 5) && CubeRoot(Constant(43), 193, 5)
  {
    hide Constant;
    Sha256Vectors.Constants2();
  }

  lemma Roots11()
    ensures CubeRoot(Constant(44), 197, 5) && CubeRoot(Constant(45), 199, 5)
    ensures CubeRoot(Constant(46), 211, 5) && CubeRoot(Constant(47), 223, 6)
  {
    hide Constant;
    Sha256Vectors.Constants2();
  }

  lemma Roots12()
    ensures CubeRoot(Constant(48), 227, 6) && CubeRoot(Constant(49), 229, 6)
    ensures CubeRoot(Constant(50), 233, 6) && CubeRoot(Constant(51), 239, 6)
  {
    hide Constant;
    Sha256Vectors.Constants3();
  }

  lemma Roots13()
    ensures CubeRoot(Constant(52), 241, 6) && CubeRoot(Constant(53), 251, 6)
    ensures CubeRoot(Constant(54), 257, 6) && CubeRoot(Constant(55), 263, 6)
  {
    hide Constant;
    Sha256Vectors.Constants3();
  }

  lemma Roots14()
    ensures CubeRoot(Constant(56), 269, 6) && CubeRoot(Constant(57), 271, 6)
    ensures CubeRoot(Constant(58), 277, 6) && CubeRoot(Constant(59), 281, 6)
  {
    hide Constant;
    Sha256Vectors.Constants3();
  }

  lemma Roots15()
    ensures CubeRoot(Constant(60), 283, 6) && CubeRoot(Constant(61), 293, 6)
    ensures CubeRoot(Constant(62), 307, 6) && CubeRoot(Constant(63), 311, 6)
  {
    hide Constant;
    Sha256Vectors.Constants3();
  }

}
