/** Bytes and the fixed-width little-endian integers that the on-flash and on-wire formats use. */
module Bytes {

  type Byte = x: int | 0 <= x < 0x100
  type U16 = x: int | 0 <= x < 0x1_0000
  type U32 = x: int | 0 <= x < 0x1_0000_0000

  datatype Option<+T> = None | Some(value: T)

  /** The status codes of the framework that the modelled functions return. */
  datatype Status = Ok | InvalidArg | OutOfMemory | NotFound | BufferOverflow | Corrupted | Io

  /** The little-endian numbers at an offset. */
  function U16At(b: seq<Byte>, at: nat): U16
    requires at + 2 <= |b|
  {
    var b0: int, b1: int := b[at], b[at + 1];
    b0 + 0x100 * b1
  }

  function U32At(b: seq<Byte>, at: nat): U32
    requires at + 4 <= |b|
  {
    var b0: int, b1: int, b2: int, b3: int := b[at], b[at + 1], b[at + 2], b[at + 3];
    b0 + 0x100 * b1 + 0x1_0000 * b2 + 0x100_0000 * b3
  }

  /** The same n bytes, here and there. */
  predicate SameBytes(bank: seq<Byte>, at: nat, bank': seq<Byte>, at': nat, n: nat) {
    && at + n <= |bank| && at' + n <= |bank'|
    && forall k :: at <= k < at + n ==> bank[k] == bank'[k - at + at']
  }

  function Le16(x: U16): (r: seq<Byte>)
    ensures |r| == 2
  {
    [x % 0x100, x / 0x100]
  }

  function Le32(x: U32): (r: seq<Byte>)
    ensures |r| == 4
  {
    [x % 0x100, x / 0x100 % 0x100, x / 0x1_0000 % 0x100, x / 0x100_0000]
  }

  lemma Le16RoundTrip(x: U16)
    ensures U16At(Le16(x), 0) == x
  {
  }

  /** A number stands there exactly if its two bytes do. */
  lemma Le16Stands(b: seq<Byte>, at: nat, x: U16)
    requires at + 2 <= |b|
    ensures U16At(b, at) == x <==> b[at..at + 2] == Le16(x)
  {
    var c := b[at..at + 2];
    assert c[0] == b[at] && c[1] == b[at + 1];
    if c == Le16(x) {
      Le16RoundTrip(x);
    }
  }

  lemma Le32RoundTrip(x: U32)
    ensures U32At(Le32(x), 0) == x
  {
    assert x / 0x1_0000 == x / 0x100 / 0x100;
    assert x / 0x100_0000 == x / 0x1_0000 / 0x100;
  }

  /** A run of erased flash cells. */
  function Erased(n: nat): (r: seq<Byte>)
    ensures |r| == n
    ensures forall i :: 0 <= i < n ==> r[i] == 0xFF
  {
    seq(n, _ => 0xFF)
  }

  predicate IsErased(s: seq<Byte>, at: nat, n: nat) {
    at + n <= |s| && forall k :: at <= k < at + n ==> s[k] == 0xFF
  }

  // ----- bytes as bit vectors -----

  function Bits(b: Byte): bv8 {
    b as bv8
  }

  lemma BitsSuccessor(x: bv8)
    requires x != 0xFF
    ensures (x + 1) as int == x as int + 1
  {
  }

  lemma BitsBack(x: bv8)
    ensures (x as int) as bv8 == x
  {
  }

  lemma {:induction false} BitsReach(b: Byte) returns (x: bv8)
    ensures x as int == b
    decreases b
  {
    x := 0;
    if b > 0 {
      var y := BitsReach(b - 1);
      BitsSuccessor(y);
      x := y + 1;
    }
  }

  lemma BitsRoundTrip(b: Byte)
    ensures Bits(b) as int == b
  {
    var x := BitsReach(b);
    BitsBack(x);
  }

  lemma BitsInjective(a: Byte, b: Byte)
    requires Bits(a) == Bits(b)
    ensures a == b
  {
    BitsRoundTrip(a);
    BitsRoundTrip(b);
    assert Bits(a) as int == Bits(b) as int;
  }

  predicate IsSet(x: bv8, i: bv4)
    requires i < 8
  {
    (x >> i) & 1 == 1
  }

  /** Bit i of a byte, counted from the lowest. */
  predicate ByteBit(b: Byte, i: bv4)
    requires i < 8
  {
    IsSet(Bits(b), i)
  }

  /** Bitwise conjunction of two bytes: what programming a NOR cell computes. */
  function And(a: Byte, b: Byte): Byte {
    (Bits(a) & Bits(b)) as int
  }

  lemma CommonBits(x: bv8, y: bv8, r: bv8, i: bv4)
    requires i < 8 && r == x & y
    ensures IsSet(r, i) <==> IsSet(x, i) && IsSet(y, i)
  {
  }

  lemma AndIs(a: Byte, b: Byte)
    ensures Bits(And(a, b)) == Bits(a) & Bits(b)
  {
    BitsBack(Bits(a) & Bits(b));
  }

  lemma AndBits(a: Byte, b: Byte, i: bv4)
    requires i < 8
    ensures ByteBit(And(a, b), i) <==> ByteBit(a, i) && ByteBit(b, i)
  {
    hide Bits, And, IsSet;
    AndIs(a, b);
    CommonBits(Bits(a), Bits(b), Bits(And(a, b)), i);
  }

  lemma SameBits(x: bv8, y: bv8)
    requires forall i: bv4 :: i < 8 ==> (IsSet(x, i) <==> IsSet(y, i))
    ensures x == y
  {
    assert IsSet(x, 0) == IsSet(y, 0) && IsSet(x, 1) == IsSet(y, 1) && IsSet(x, 2) == IsSet(y, 2);
    assert IsSet(x, 3) == IsSet(y, 3) && IsSet(x, 4) == IsSet(y, 4) && IsSet(x, 5) == IsSet(y, 5);
    assert IsSet(x, 6) == IsSet(y, 6) && IsSet(x, 7) == IsSet(y, 7);
  }

  /** A byte can be programmed over another one exactly if no bit of it has to come back. */
  lemma AndKeepsExactly(a: Byte, b: Byte)
    ensures And(a, b) == b <==> forall i: bv4 :: i < 8 && ByteBit(b, i) ==> ByteBit(a, i)
  {
    hide Bits, And, IsSet;
    forall i: bv4 | i < 8 ensures ByteBit(And(a, b), i) <==> ByteBit(a, i) && ByteBit(b, i) {
      AndBits(a, b, i);
    }
    if forall i: bv4 :: i < 8 && ByteBit(b, i) ==> ByteBit(a, i) {
      forall i: bv4 | i < 8 ensures IsSet(Bits(And(a, b)), i) <==> IsSet(Bits(b), i) {
        assert ByteBit(And(a, b), i) <==> ByteBit(b, i);
      }
      SameBits(Bits(And(a, b)), Bits(b));
      BitsInjective(And(a, b), b);
    }
  }

  /** Programming an erased byte stores the byte as it is. */
  lemma AndErased(b: Byte)
    ensures And(0xFF, b) == b
  {
    BitsRoundTrip(b);
    assert 0xFF & Bits(b) == Bits(b);
  }
}
