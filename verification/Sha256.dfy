/** SHA-256: the streaming code against the hash of the padded message, sections 5 and 6.2 of FIPS 180-4. */
module Sha256 {
  import opened Bytes

  // ----- section 4.1.2: the functions on words -----

  function Rotr(x: bv32, n: bv6): bv32
    requires 0 < n < 32
  {
    (x >> n) | (x << (32 - n))
  }

  function Ch(x: bv32, y: bv32, z: bv32): bv32 {
    (x & y) ^ (!x & z)
  }

  function Maj(x: bv32, y: bv32, z: bv32): bv32 {
    (x & y) ^ (x & z) ^ (y & z)
  }

  function BigSigma0(x: bv32): bv32 {
    Rotr(x, 2) ^ Rotr(x, 13) ^ Rotr(x, 22)
  }

  function BigSigma1(x: bv32): bv32 {
    Rotr(x, 6) ^ Rotr(x, 11) ^ Rotr(x, 25)
  }

  function SmallSigma0(x: bv32): bv32 {
    Rotr(x, 7) ^ Rotr(x, 18) ^ (x >> 3)
  }

  function SmallSigma1(x: bv32): bv32 {
    Rotr(x, 17) ^ Rotr(x, 19) ^ (x >> 10)
  }

  /** The 64 constants, eight in a row. */
  const K: seq<seq<bv32>> := [
    [0x428a2f98, 0x71374491, 0xb5c0fbcf, 0xe9b5dba5, 0x3956c25b, 0x59f111f1, 0x923f82a4, 0xab1c5ed5],
    [0xd807aa98, 0x12835b01, 0x243185be, 0x550c7dc3, 0x72be5d74, 0x80deb1fe, 0x9bdc06a7, 0xc19bf174],
    [0xe49b69c1, 0xefbe4786, 0x0fc19dc6, 0x240ca1cc, 0x2de92c6f, 0x4a7484aa, 0x5cb0a9dc, 0x76f988da],
    [0x983e5152, 0xa831c66d, 0xb00327c8, 0xbf597fc7, 0xc6e00bf3, 0xd5a79147, 0x06ca6351, 0x14292967],
    [0x27b70a85, 0x2e1b2138, 0x4d2c6dfc, 0x53380d13, 0x650a7354, 0x766a0abb, 0x81c2c92e, 0x92722c85],
    [0xa2bfe8a1, 0xa81a664b, 0xc24b8b70, 0xc76c51a3, 0xd192e819, 0xd6990624, 0xf40e3585, 0x106aa070],
    [0x19a4c116, 0x1e376c08, 0x2748774c, 0x34b0bcb5, 0x391c0cb3, 0x4ed8aa4a, 0x5b9cca4f, 0x682e6ff3],
    [0x748f82ee, 0x78a5636f, 0x84c87814, 0x8cc70208, 0x90befffa, 0xa4506ceb, 0xbef9a3f7, 0xc67178f2]
  ]

  lemma KShape(i: nat)
    requires i < 8
    ensures |K| == 8 && |K[i]| == 8
  {
  }

  function Constant(t: nat): bv32
    requires t < 64
  {
    KShape(t / 8);
    K[t / 8][t % 8]
  }

  // ----- section 6.2.2: one block -----

  type Block = b: seq<Byte> | |b| == 64 witness seq(64, _ => 0)

  /** A big-endian word. */
  function Word(b: seq<Byte>, at: nat): bv32
    requires at + 4 <= |b|
  {
    (Bits(b[at]) as bv32 << 24) | (Bits(b[at + 1]) as bv32 << 16)
    | (Bits(b[at + 2]) as bv32 << 8) | Bits(b[at + 3]) as bv32
  }

  function Extend(w2: bv32, w7: bv32, w15: bv32, w16: bv32): bv32 {
    SmallSigma1(w2) + w7 + SmallSigma0(w15) + w16
  }

  /** The message schedule. */
  function Schedule(b: Block, t: nat): bv32
    requires t < 64
  {
    if t < 16 then Word(b, 4 * t)
    else Extend(Schedule(b, t - 2), Schedule(b, t - 7), Schedule(b, t - 15), Schedule(b, t - 16))
  }

  datatype Hash = Hash(a: bv32, b: bv32, c: bv32, d: bv32, e: bv32, f: bv32, g: bv32, h: bv32)

  function Temp1(e: bv32, f: bv32, g: bv32, h: bv32, k: bv32, w: bv32): bv32 {
    h + BigSigma1(e) + Ch(e, f, g) + k + w
  }

  function Temp2(a: bv32, b: bv32, c: bv32): bv32 {
    BigSigma0(a) + Maj(a, b, c)
  }

  function Add(x: bv32, y: bv32): bv32 {
    x + y
  }

  function Round(v: Hash, k: bv32, w: bv32): Hash {
    var t1, t2 := Temp1(v.e, v.f, v.g, v.h, k, w), Temp2(v.a, v.b, v.c);
    Hash(Add(t1, t2), v.a, v.b, v.c, Add(v.d, t1), v.e, v.f, v.g)
  }

  function Rounds(v: Hash, b: Block, t: nat): Hash
    requires t <= 64
  {
    if t == 0 then v else Round(Rounds(v, b, t - 1), Constant(t - 1), Schedule(b, t - 1))
  }

  function Sum(v: Hash, w: Hash): Hash {
    Hash(Add(v.a, w.a), Add(v.b, w.b), Add(v.c, w.c), Add(v.d, w.d),
         Add(v.e, w.e), Add(v.f, w.f), Add(v.g, w.g), Add(v.h, w.h))
  }

  function Compress(v: Hash, b: Block): Hash {
    Sum(v, Rounds(v, b, 64))
  }

  // ----- sections 5.1.1 and 5.3.3: padding, initial value, all blocks -----

  const INITIAL: Hash :=
    Hash(0x6a09e667, 0xbb67ae85, 0x3c6ef372, 0xa54ff53a, 0x510e527f, 0x9b05688c, 0x1f83d9ab, 0x5be0cd19)

  function Zeros(n: nat): (r: seq<Byte>)
    ensures |r| == n
  {
    seq(n, _ => 0)
  }

  const WIDE: nat := 0x1_0000_0000_0000_0000

  function Scale(i: nat): nat {
    if i == 0 then 1 else 256 * Scale(i - 1)
  }

  function ByteOf(n: nat, i: nat): Byte
    requires i < 8
  {
    ScalePositive(7 - i);
    n / Scale(7 - i) % 256
  }

  lemma {:induction false} ScalePositive(i: nat)
    ensures Scale(i) > 0
  {
    if i > 0 {
      ScalePositive(i - 1);
    }
  }

  /** The bit length as eight bytes, most significant first. */
  function Be64(n: nat): (r: seq<Byte>)
    ensures |r| == 8
  {
    seq(8, i requires 0 <= i < 8 => ByteOf(n, i))
  }

  /** The number of zero bytes that bring message, marker and length to whole blocks. */
  function Gap(n: nat): nat {
    (119 - n % 64) % 64
  }

  function Padded(m: seq<Byte>): seq<Byte> {
    m + [0x80] + Zeros(Gap(|m|)) + Be64(8 * |m| % WIDE)
  }

  function BlockOf(m: seq<Byte>, i: nat): Block
    requires 64 * i + 64 <= |m|
  {
    m[64 * i..64 * i + 64]
  }

  function Blocks(m: seq<Byte>, n: nat): Hash
    requires 64 * n <= |m|
  {
    if n == 0 then INITIAL else Compress(Blocks(m, n - 1), BlockOf(m, n - 1))
  }

  lemma GapFits(n: nat)
    ensures (n + 1 + Gap(n) + 8) % 64 == 0
  {
  }

  lemma PaddedLength(m: seq<Byte>)
    ensures |Padded(m)| % 64 == 0
  {
    GapFits(|m|);
    assert |Padded(m)| == |m| + 1 + Gap(|m|) + 8;
  }

  /** The hash of a message. */
  function HashOf(m: seq<Byte>): Hash {
    PaddedLength(m);
    Blocks(Padded(m), |Padded(m)| / 64)
  }

  function Be32(x: bv32): (r: seq<Byte>)
    ensures |r| == 4
  {
    [((x >> 24) & 0xFF) as int, ((x >> 16) & 0xFF) as int, ((x >> 8) & 0xFF) as int, (x & 0xFF) as int]
  }

  function Digest(v: Hash): (r: seq<Byte>)
    ensures |r| == 32
  {
    Be32(v.a) + Be32(v.b) + Be32(v.c) + Be32(v.d) + Be32(v.e) + Be32(v.f) + Be32(v.g) + Be32(v.h)
  }

  // ----- more bytes do not change what was hashed -----

  lemma BlockOfFront(m: seq<Byte>, t: seq<Byte>, i: nat)
    requires 64 * i + 64 <= |m|
    ensures BlockOf(m + t, i) == BlockOf(m, i)
  {
  }

  lemma {:induction false} BlocksOfFront(m: seq<Byte>, t: seq<Byte>, n: nat)
    requires 64 * n <= |m|
    ensures Blocks(m + t, n) == Blocks(m, n)
  {
    hide BlockOf;
    if n > 0 {
      BlocksOfFront(m, t, n - 1);
      BlockOfFront(m, t, n - 1);
    }
  }
}
