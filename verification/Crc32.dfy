/** CRC-32 as in section 3.2.9 of IEEE 802.3, bit by bit in reflected form: its algebra and what it detects. */
module Crc32 {
  import opened Bytes

  const POLY: bv32 := 0xEDB8_8320
  const ONES: bv32 := 0xFFFF_FFFF

  /** One step of the register: the bit that leaves at the bottom decides about the polynomial. */
  function Shift(c: bv32): bv32 {
    Both(Half(c), Chosen(Bit(c)))
  }

  function Both(x: bv32, y: bv32): bv32 {
    x ^ y
  }

  function Chosen(t: bv32): bv32 {
    if t == 0 then 0 else POLY
  }

  function Half(c: bv32): bv32 {
    c >> 1
  }

  function Bit(c: bv32): bv32 {
    c & 1
  }

  function Shifts(c: bv32, n: nat): bv32
    decreases n
  {
    if n == 0 then c else Shift(Shifts(c, n - 1))
  }

  function Enter(c: bv32, b: bv32): bv32 {
    Shifts(c ^ b, 8)
  }

  function Low(b: Byte): bv32 {
    Bits(b) as bv32
  }

  /** The register after a whole message. */
  function Fold(c: bv32, data: seq<Byte>): bv32 {
    if |data| == 0 then c else Enter(Fold(c, data[..|data| - 1]), Low(data[|data| - 1]))
  }

  function Final(c: bv32): U32 {
    (!c) as int
  }

  function Crc(data: seq<Byte>): U32 {
    Final(Fold(ONES, data))
  }

  /** The arithmetic mask of the source selects the polynomial. */
  lemma MaskSelects(c: bv32)
    ensures (c >> 1) ^ (POLY & (0 - (c & 1))) == Shift(c)
  {
  }

  /** The loops of the source. */
  method Step(crc0: bv32, data: seq<Byte>) returns (crc: bv32)
    ensures crc == Fold(crc0, data)
  {
    crc := crc0;
    for k := 0 to |data|
      invariant crc == Fold(crc0, data[..k])
    {
      assert data[..k + 1][..k] == data[..k];
      crc := EightSteps(crc ^ Low(data[k]));
    }
    assert data[..|data|] == data;
  }

  method EightSteps(c: bv32) returns (crc: bv32)
    ensures crc == Shifts(c, 8)
  {
    crc := c;
    for i := 0 to 8
      invariant crc == Shifts(c, i)
    {
      MaskSelects(crc);
      crc := (crc >> 1) ^ (POLY & (0 - (crc & 1)));
    }
  }

  /** The one-shot function; the empty message is a special case. */
  method Compute(data: seq<Byte>) returns (crc: U32)
    ensures crc == if |data| == 0 then 0 else Crc(data)
  {
    if |data| == 0 {
      return 0;
    }
    var c := Step(ONES, data);
    crc := Final(c);
  }

  /** The special case is no exception: the checksum of the empty message is zero. */
  lemma EmptyIsZero()
    ensures Crc([]) == 0
  {
    assert !ONES == 0;
  }

  lemma {:induction false} FoldConcat(c: bv32, s: seq<Byte>, t: seq<Byte>)
    ensures Fold(c, s + t) == Fold(Fold(c, s), t)
    decreases |t|
  {
    if |t| == 0 {
      assert s + t == s;
    } else {
      FoldConcat(c, s, t[..|t| - 1]);
      assert (s + t)[..|s + t| - 1] == s + t[..|t| - 1];
    }
  }

  // ----- a value -----

  function Absorb(c: bv32, b: Byte): bv32 {
    Enter(c, Low(b))
  }

  lemma FoldPush(c: bv32, s: seq<Byte>, b: Byte)
    ensures Fold(c, s + [b]) == Absorb(Fold(c, s), b)
  {
    assert (s + [b])[..|s|] == s;
  }

  lemma FoldThree(c: bv32, x: Byte, y: Byte, z: Byte)
    ensures Fold(c, [x]) == Absorb(c, x)
    ensures Fold(c, [x, y]) == Absorb(Absorb(c, x), y)
    ensures Fold(c, [x, y, z]) == Absorb(Absorb(Absorb(c, x), y), z)
  {
    hide Absorb;
    FoldPush(c, [], x);
    FoldPush(c, [x], y);
    FoldPush(c, [x, y], z);
    assert [] + [x] == [x] && [x] + [y] == [x, y] && [x, y] + [z] == [x, y, z];
  }

  lemma CheckDigit1()
    ensures Absorb(0xFFFF_FFFF, 0x31) == 0x7C23_1048
  {
    assert Shifts(0xFFFF_FFCE, 2) == 0xD247_7CD3;
    assert Shifts(0xFFFF_FFCE, 4) == 0xAFF5_1D84;
    assert Shifts(0xFFFF_FFCE, 6) == 0x2BFD_4761;
  }

  lemma CheckDigit2()
    ensures Absorb(0x7C23_1048, 0x32) == 0xB0AC_BB32
  {
    assert Shifts(0x7C23_107A, 2) == 0xF2B0_473E;
    assert Shifts(0x7C23_107A, 4) == 0xD114_92EF;
    assert Shifts(0x7C23_107A, 6) == 0xAF21_E60B;
  }

  lemma CheckDigit3()
    ensures Absorb(0xB0AC_BB32, 0x33) == 0x77B7_9C2D
  {
    assert Shifts(0xB0AC_BB01, 2) == 0x5AF7_6F50;
    assert Shifts(0xB0AC_BB01, 4) == 0x16BD_DBD4;
    assert Shifts(0xB0AC_BB01, 6) == 0x05AF_76F5;
  }

  lemma CheckDigit4()
    ensures Absorb(0x77B7_9C2D, 0x34) == 0x641C_1F5C
  {
    assert Shifts(0x77B7_9C19, 2) == 0x6B31_A696;
    assert Shifts(0x77B7_9C19, 4) == 0xF774_EA85;
    assert Shifts(0x77B7_9C19, 6) == 0x4B01_7B31;
  }

  lemma CheckDigit5()
    ensures Absorb(0x641C_1F5C, 0x35) == 0x340A_C5E3
  {
    assert Shifts(0x641C_1F69, 2) == 0x6FDB_464A;
    assert Shifts(0x641C_1F69, 4) == 0xF64E_52B2;
    assert Shifts(0x641C_1F69, 6) == 0xD02B_178C;
  }

  lemma CheckDigit6()
    ensures Absorb(0x340A_C5E3, 0x36) == 0xF68D_2C9E
  {
    assert Shifts(0x340A_C5D5, 2) == 0x7BDE_F0E5;
    assert Shifts(0x340A_C5D5, 4) == 0x682B_FDA9;
    assert Shifts(0x340A_C5D5, 6) == 0x6CD6_BEFA;
  }

  lemma CheckDigit7()
    ensures Absorb(0xF68D_2C9E, 0x37) == 0xAFFC_9660
  {
    assert Shifts(0xF68D_2CA9, 2) == 0x4B7F_0ABA;
    assert Shifts(0xF68D_2CA9, 4) == 0xFF67_418E;
    assert Shifts(0xF68D_2CA9, 6) == 0xD261_5343;
  }

  lemma CheckDigit8()
    ensures Absorb(0xAFFC_9660, 0x38) == 0x651F_2550
  {
    assert Shifts(0xAFFC_9658, 2) == 0x2BFF_2596;
    assert Shifts(0xAFFC_9658, 4) == 0xE747_4A45;
    assert Shifts(0xAFFC_9658, 6) == 0x4F0D_9301;
  }

  lemma CheckDigit9()
    ensures Absorb(0x651F_2550, 0x39) == 0x340B_C6D9
  {
    assert Shifts(0x651F_2569, 2) == 0x6F9B_88CA;
    assert Shifts(0x651F_2569, 4) == 0xF65E_6112;
    assert Shifts(0x651F_2569, 6) == 0xD02F_1B64;
  }

  lemma CheckFinal()
    ensures Final(0x340B_C6D9) == 0xCBF4_3926
  {
  }

  /** The checksum of the digits one to nine, by which CRC algorithms are told apart. */
  lemma CheckValue()
    ensures Crc([0x31, 0x32, 0x33, 0x34, 0x35, 0x36, 0x37, 0x38, 0x39]) == 0xCBF4_3926
  {
    hide Absorb, Fold, Final;
    var a: seq<Byte>, b: seq<Byte>, c: seq<Byte> := [0x31, 0x32, 0x33], [0x34, 0x35, 0x36], [0x37, 0x38, 0x39];
    FoldThree(0xFFFF_FFFF, 0x31, 0x32, 0x33);
    FoldThree(0x77B7_9C2D, 0x34, 0x35, 0x36);
    FoldThree(0xF68D_2C9E, 0x37, 0x38, 0x39);
    CheckDigit1();
    CheckDigit2();
    CheckDigit3();
    CheckDigit4();
    CheckDigit5();
    CheckDigit6();
    CheckDigit7();
    CheckDigit8();
    CheckDigit9();
    CheckFinal();
    FoldConcat(0xFFFF_FFFF, a, b);
    FoldConcat(0xFFFF_FFFF, a + b, c);
    assert a + b + c == [0x31, 0x32, 0x33, 0x34, 0x35, 0x36, 0x37, 0x38, 0x39];
  }

  // ----- a step is linear and injective -----

  predicate Sum(s: bv32, a: bv32, b: bv32) {
    s == a ^ b
  }

  lemma HalfSum(s: bv32, a: bv32, b: bv32)
    requires Sum(s, a, b)
    ensures Sum(Half(s), Half(a), Half(b)) && Sum(Bit(s), Bit(a), Bit(b))
  {
  }

  lemma BitIsBit(c: bv32)
    ensures Bit(c) == 0 || Bit(c) == 1
  {
  }

  lemma ChosenSum(s: bv32, a: bv32, b: bv32)
    requires Sum(s, a, b) && (a == 0 || a == 1) && (b == 0 || b == 1)
    ensures Sum(Chosen(s), Chosen(a), Chosen(b))
  {
    if a == 0 {
      assert s == b;
      assert Chosen(a) == 0;
    } else if b == 0 {
      assert s == a;
      assert Chosen(b) == 0;
    } else {
      assert s == 0;
      assert Chosen(s) == 0;
    }
  }

  lemma RawSums(p: bv32, q: bv32, a: bv32, b: bv32, c: bv32, d: bv32)
    requires Sum(p, a, b) && Sum(q, c, d)
    ensures Sum(p ^ q, a ^ c, b ^ d)
  {
  }

  lemma BothIs(x: bv32, y: bv32)
    ensures Both(x, y) == x ^ y
  {
  }

  lemma SumOfSums(p: bv32, q: bv32, a: bv32, b: bv32, c: bv32, d: bv32)
    requires Sum(p, a, b) && Sum(q, c, d)
    ensures Sum(Both(p, q), Both(a, c), Both(b, d))
  {
    RawSums(p, q, a, b, c, d);
    BothIs(p, q);
    BothIs(a, c);
    BothIs(b, d);
  }

  lemma ShiftSum(s: bv32, a: bv32, b: bv32)
    requires Sum(s, a, b)
    ensures Sum(Shift(s), Shift(a), Shift(b))
  {
    HalfSum(s, a, b);
    BitIsBit(a);
    BitIsBit(b);
    ChosenSum(Bit(s), Bit(a), Bit(b));
    SumOfSums(Half(s), Chosen(Bit(s)), Half(a), Half(b), Chosen(Bit(a)), Chosen(Bit(b)));
  }

  lemma {:induction false} ShiftsSum(s: bv32, a: bv32, b: bv32, n: nat)
    requires Sum(s, a, b)
    ensures Sum(Shifts(s, n), Shifts(a, n), Shifts(b, n))
    decreases n
  {
    if n > 0 {
      ShiftsSum(s, a, b, n - 1);
      ShiftSum(Shifts(s, n - 1), Shifts(a, n - 1), Shifts(b, n - 1));
    }
  }

  lemma ShiftInjective(a: bv32, b: bv32)
    requires Shift(a) == Shift(b)
    ensures a == b
  {
  }

  lemma {:induction false} ShiftsInjective(a: bv32, b: bv32, n: nat)
    requires Shifts(a, n) == Shifts(b, n)
    ensures a == b
    decreases n
  {
    if n > 0 {
      ShiftInjective(Shifts(a, n - 1), Shifts(b, n - 1));
      ShiftsInjective(a, b, n - 1);
    }
  }

  lemma {:induction false} ShiftsAdd(c: bv32, a: nat, b: nat)
    ensures Shifts(Shifts(c, a), b) == Shifts(c, a + b)
  {
    if b > 0 {
      ShiftsAdd(c, a, b - 1);
    }
  }

  // ----- up to four bytes enter like one word -----

  lemma EightShifts(c: bv32)
    ensures Shifts(c, 8) == Shift(Shift(Shift(Shift(Shift(Shift(Shift(Shift(c))))))))
  {
    assert Shifts(c, 2) == Shift(Shift(c));
    assert Shifts(c, 4) == Shift(Shift(Shifts(c, 2)));
    assert Shifts(c, 6) == Shift(Shift(Shifts(c, 4)));
  }

  /** A word whose low byte is clear just moves down. */
  lemma ByteDrops(x: bv32)
    requires x < 0x100_0000
    ensures Shifts(x << 8, 8) == x
  {
    EightShifts(x << 8);
  }

  function Lift(b: Byte, n: nat): bv32 {
    if n == 0 then Low(b) else Lift(b, n - 1) << 8
  }

  lemma LiftIs(b: Byte)
    ensures Low(b) < 0x100 && Lift(b, 1) == Low(b) << 8 && Lift(b, 2) == Low(b) << 16 && Lift(b, 3) == Low(b) << 24
  {
    assert Lift(b, 1) == Low(b) << 8;
    assert Lift(b, 2) == Lift(b, 1) << 8;
    assert Lift(b, 3) == Lift(b, 2) << 8;
  }

  lemma SmallLifts(x: bv32)
    requires x < 0x100
    ensures x << 8 < 0x1_0000 && x << 16 < 0x100_0000
  {
  }

  lemma LiftBelow(b: Byte, n: nat)
    requires n < 3
    ensures Lift(b, n) < 0x100_0000
  {
    LiftIs(b);
    SmallLifts(Low(b));
  }

  lemma ByteDown(c: bv32, y: bv32, m: nat)
    requires c == y << 8 && y < 0x100_0000
    ensures Shifts(c, 8 + m) == Shifts(y, m)
  {
    ByteDrops(y);
    ShiftsAdd(c, 8, m);
  }

  lemma {:induction false} LiftDrops(b: Byte, n: nat)
    requires n < 4
    ensures Shifts(Lift(b, n), 8 * n) == Low(b)
  {
    hide Shift, Low;
    if n > 0 {
      LiftBelow(b, n - 1);
      LiftDrops(b, n - 1);
      ByteDown(Lift(b, n), Lift(b, n - 1), 8 * (n - 1));
    }
  }

  /** Up to four bytes as one word, the first one lowest. */
  function Packed(s: seq<Byte>): bv32
    requires |s| <= 4
  {
    if |s| == 0 then 0 else Both(Packed(s[..|s| - 1]), Lift(s[|s| - 1], |s| - 1))
  }

  lemma Regroups(c: bv32, p: bv32, v: bv32, w: bv32, x: bv32, y: bv32)
    requires w == p ^ v && x == c ^ w && y == c ^ p
    ensures Sum(x, y, v)
  {
  }

  lemma EnterSum(c: bv32, p: bv32, v: bv32)
    ensures Sum(Both(c, Both(p, v)), Both(c, p), v)
  {
    BothIs(p, v);
    BothIs(c, Both(p, v));
    BothIs(c, p);
    Regroups(c, p, v, Both(p, v), Both(c, Both(p, v)), Both(c, p));
  }

  lemma EnterIs(x: bv32, u: bv32, b: bv32)
    requires Sum(x, u, b)
    ensures Enter(u, b) == Shifts(x, 8)
  {
  }

  lemma OneMore(c: bv32, p: bv32, v: bv32, b: bv32, m: nat)
    requires Shifts(v, m) == b
    ensures Enter(Shifts(Both(c, p), m), b) == Shifts(Both(c, Both(p, v)), m + 8)
  {
    EnterSum(c, p, v);
    ShiftsSum(Both(c, Both(p, v)), Both(c, p), v, m);
    EnterIs(Shifts(Both(c, Both(p, v)), m), Shifts(Both(c, p), m), b);
    ShiftsAdd(Both(c, Both(p, v)), m, 8);
  }

  lemma XorZero(c: bv32)
    ensures Both(c, 0) == c
  {
  }

  lemma {:induction false} FoldPacked(c: bv32, s: seq<Byte>)
    requires |s| <= 4
    ensures Fold(c, s) == Shifts(Both(c, Packed(s)), 8 * |s|)
    decreases |s|
  {
    if |s| == 0 {
      XorZero(c);
    } else {
      var n, last, p := |s| - 1, s[|s| - 1], Packed(s[..|s| - 1]);
      FoldPacked(c, s[..n]);
      LiftDrops(last, n);
      OneMore(c, p, Lift(last, n), Low(last), 8 * n);
      assert Fold(c, s) == Enter(Fold(c, s[..n]), Low(last));
      assert Packed(s) == Both(p, Lift(last, n));
    }
  }

  predicate Below(x: bv32, n: nat)
    requires n < 4
  {
    if n == 0 then x == 0 else if n == 1 then x < 0x100 else if n == 2 then x < 0x1_0000 else x < 0x100_0000
  }

  lemma Split0(a: Byte, b: Byte)
    ensures Both(0, Lift(a, 0)) == Both(0, Lift(b, 0)) ==> Low(a) == Low(b)
    ensures Both(0, Lift(a, 0)) < 0x100
  {
    LiftIs(a);
    LiftIs(b);
    assert Both(0, Low(a)) == Low(a) && Both(0, Low(b)) == Low(b);
  }

  lemma Raw1(p: bv32, q: bv32, a: bv32, b: bv32, x: bv32, y: bv32)
    requires p < 0x100 && q < 0x100 && a < 0x100 && b < 0x100 && x == a << 8 && y == b << 8
    ensures Both(p, x) == Both(q, y) ==> p == q && a == b
    ensures Both(p, x) < 0x1_0000
  {
  }

  lemma Split1(p: bv32, q: bv32, a: Byte, b: Byte)
    requires p < 0x100 && q < 0x100
    ensures Both(p, Lift(a, 1)) == Both(q, Lift(b, 1)) ==> p == q && Low(a) == Low(b)
    ensures Both(p, Lift(a, 1)) < 0x1_0000
  {
    LiftIs(a);
    LiftIs(b);
    Raw1(p, q, Low(a), Low(b), Lift(a, 1), Lift(b, 1));
  }

  lemma Raw2(p: bv32, q: bv32, a: bv32, b: bv32, x: bv32, y: bv32)
    requires p < 0x1_0000 && q < 0x1_0000 && a < 0x100 && b < 0x100 && x == a << 16 && y == b << 16
    ensures Both(p, x) == Both(q, y) ==> p == q && a == b
    ensures Both(p, x) < 0x100_0000
  {
  }

  lemma Split2(p: bv32, q: bv32, a: Byte, b: Byte)
    requires p < 0x1_0000 && q < 0x1_0000
    ensures Both(p, Lift(a, 2)) == Both(q, Lift(b, 2)) ==> p == q && Low(a) == Low(b)
    ensures Both(p, Lift(a, 2)) < 0x100_0000
  {
    LiftIs(a);
    LiftIs(b);
    Raw2(p, q, Low(a), Low(b), Lift(a, 2), Lift(b, 2));
  }

  lemma Raw3(p: bv32, q: bv32, a: bv32, b: bv32, x: bv32, y: bv32)
    requires p < 0x100_0000 && q < 0x100_0000 && a < 0x100 && b < 0x100 && x == a << 24 && y == b << 24
    ensures Both(p, x) == Both(q, y) ==> p == q && a == b
  {
  }

  lemma Split3(p: bv32, q: bv32, a: Byte, b: Byte)
    requires p < 0x100_0000 && q < 0x100_0000
    ensures Both(p, Lift(a, 3)) == Both(q, Lift(b, 3)) ==> p == q && Low(a) == Low(b)
  {
    LiftIs(a);
    LiftIs(b);
    Raw3(p, q, Low(a), Low(b), Lift(a, 3), Lift(b, 3));
  }

  /** The last byte and the rest do not mix. */
  lemma SplitTop(n: nat, p: bv32, q: bv32, a: Byte, b: Byte)
    requires n < 4 && Below(p, n) && Below(q, n)
    ensures Both(p, Lift(a, n)) == Both(q, Lift(b, n)) ==> p == q && Low(a) == Low(b)
    ensures n < 3 ==> Below(Both(p, Lift(a, n)), n + 1)
  {
    if n == 0 {
      Split0(a, b);
    } else if n == 1 {
      Split1(p, q, a, b);
    } else if n == 2 {
      Split2(p, q, a, b);
    } else {
      Split3(p, q, a, b);
    }
  }

  lemma {:induction false} PackedBelow(s: seq<Byte>)
    requires |s| < 4
    ensures Below(Packed(s), |s|)
    decreases |s|
  {
    if |s| > 0 {
      var n, p := |s| - 1, Packed(s[..|s| - 1]);
      PackedBelow(s[..n]);
      SplitTop(n, p, p, s[n], s[n]);
    }
  }

  lemma LowInjective(a: Byte, b: Byte)
    requires Low(a) == Low(b)
    ensures a == b
  {
    assert Bits(a) == Bits(b);
    BitsInjective(a, b);
  }

  lemma LastByte(n: nat, p: bv32, q: bv32, a: Byte, b: Byte)
    requires n < 4 && Below(p, n) && Below(q, n) && Both(p, Lift(a, n)) == Both(q, Lift(b, n))
    ensures p == q && a == b
  {
    SplitTop(n, p, q, a, b);
    LowInjective(a, b);
  }

  lemma {:induction false} PackedInjective(s: seq<Byte>, t: seq<Byte>)
    requires |s| == |t| <= 4 && Packed(s) == Packed(t)
    ensures s == t
    decreases |s|
  {
    if |s| > 0 {
      var n := |s| - 1;
      PackedBelow(s[..n]);
      PackedBelow(t[..n]);
      LastByte(n, Packed(s[..n]), Packed(t[..n]), s[n], t[n]);
      PackedInjective(s[..n], t[..n]);
      assert s == s[..n] + [s[n]] && t == t[..n] + [t[n]];
    }
  }

  lemma XorCancel(c: bv32, d: bv32, x: bv32)
    ensures c ^ x == d ^ x ==> c == d
    ensures x ^ c == x ^ d ==> c == d
  {
  }

  lemma EnterInjective(c: bv32, d: bv32, b: bv32)
    requires Enter(c, b) == Enter(d, b)
    ensures c == d
  {
    ShiftsInjective(c ^ b, d ^ b, 8);
    XorCancel(c, d, b);
  }

  lemma {:induction false} FoldInjective(c: bv32, d: bv32, s: seq<Byte>)
    requires Fold(c, s) == Fold(d, s)
    ensures c == d
    decreases |s|
  {
    if |s| > 0 {
      EnterInjective(Fold(c, s[..|s| - 1]), Fold(d, s[..|s| - 1]), Low(s[|s| - 1]));
      FoldInjective(c, d, s[..|s| - 1]);
    }
  }

  lemma SameShifts(c: bv32, p: bv32, q: bv32, n: nat)
    requires Shifts(Both(c, p), n) == Shifts(Both(c, q), n)
    ensures p == q
  {
    ShiftsInjective(Both(c, p), Both(c, q), n);
  }

  /** Up to four bytes can be read back from the register they went into. */
  lemma FewBytesInjective(c: bv32, x: seq<Byte>, y: seq<Byte>)
    requires |x| == |y| <= 4 && Fold(c, x) == Fold(c, y)
    ensures x == y
  {
    FoldPacked(c, x);
    FoldPacked(c, y);
    SameShifts(c, Packed(x), Packed(y), 8 * |x|);
    PackedInjective(x, y);
  }

  // ----- what the checksum detects -----

  /** Messages of the same length that differ, but only in n bytes from position `at` on. */
  predicate Burst(s: seq<Byte>, t: seq<Byte>, at: nat, n: nat) {
    && |s| == |t| && s != t && at + n <= |s|
    && forall k :: 0 <= k < |s| && !(at <= k < at + n) ==> s[k] == t[k]
  }

  lemma FinalInjective(c: bv32, d: bv32)
    requires Final(c) == Final(d)
    ensures c == d
  {
    IntBack(!c);
    IntBack(!d);
  }

  lemma IntBack(x: bv32)
    ensures (x as int) as bv32 == x
  {
  }

  /** A burst of at most four adjacent bytes always changes the checksum, whatever the length. */
  lemma BurstDetected(s: seq<Byte>, t: seq<Byte>, at: nat, n: nat)
    requires Burst(s, t, at, n) && n <= 4
    ensures Crc(s) != Crc(t)
  {
    var pre, post := s[..at], s[at + n..];
    var x, y := s[at..at + n], t[at..at + n];
    assert s == pre + x + post && t == pre + y + post;
    if Crc(s) == Crc(t) {
      FinalInjective(Fold(ONES, s), Fold(ONES, t));
      var f := Fold(ONES, pre);
      FoldConcat(ONES, pre + x, post);
      FoldConcat(ONES, pre + y, post);
      FoldConcat(ONES, pre, x);
      FoldConcat(ONES, pre, y);
      FoldInjective(Fold(f, x), Fold(f, y), post);
      FewBytesInjective(f, x, y);
      assert false;
    }
  }
}
