/**
 * CRC16-CCITT (polynomial 0x1021, initial value 0xFFFF): the bit-by-bit loop of the flash store, and the
 * algebra behind it. A step of the register is linear and injective; that is why the table form agrees with
 * the loop, and why a burst inside two adjacent bytes is always visible.
 */
module Crc16 {
  import opened Bytes

  const INIT: bv16 := 0xFFFF

  /** One step of the shift register: the bit that leaves at the top is fed back at bits 12, 5 and 0. */
  function Shift(c: bv16): bv16 {
    (c << 1) ^ Taps(c >> 15)
  }

  function Taps(t: bv16): bv16 {
    t ^ (t << 5) ^ (t << 12)
  }

  function Shifts(c: bv16, n: nat): bv16
    decreases n
  {
    if n == 0 then c else Shift(Shifts(c, n - 1))
  }

  /** A byte enters in the top half of the register. */
  function Top(b: Byte): bv16 {
    Bits(b) as bv16 << 8
  }

  function Enter(c: bv16, t: bv16): bv16 {
    Shifts(c ^ t, 8)
  }

  function Absorb(c: bv16, b: Byte): bv16 {
    Enter(c, Top(b))
  }

  /** The register after a whole message. */
  function Fold(c: bv16, data: seq<Byte>): bv16 {
    if |data| == 0 then c else Absorb(Fold(c, data[..|data| - 1]), data[|data| - 1])
  }

  function Crc(data: seq<Byte>): U16 {
    Fold(INIT, data) as int
  }

  /** The branch of the source computes the same step. */
  lemma ShiftIsBranch(c: bv16)
    ensures c & 0x8000 != 0 ==> Shift(c) == (c << 1) ^ 0x1021
    ensures c & 0x8000 == 0 ==> Shift(c) == c << 1
  {
  }

  /** The inner loop: eight conditional shifts. */
  method EightSteps(c: bv16) returns (crc: bv16)
    ensures crc == Shifts(c, 8)
  {
    crc := c;
    for i := 0 to 8
      invariant crc == Shifts(c, i)
    {
      ShiftIsBranch(crc);
      if crc & 0x8000 != 0 {
        crc := (crc << 1) ^ 0x1021;
      } else {
        crc := crc << 1;
      }
    }
  }

  /** The byte loop. */
  method Step(crc0: bv16, data: seq<Byte>) returns (crc: bv16)
    ensures crc == Fold(crc0, data)
  {
    crc := crc0;
    for k := 0 to |data|
      invariant crc == Fold(crc0, data[..k])
    {
      assert data[..k + 1][..k] == data[..k];
      crc := EightSteps(crc ^ Top(data[k]));
    }
    assert data[..|data|] == data;
  }

  lemma {:induction false} FoldConcat(c: bv16, s: seq<Byte>, t: seq<Byte>)
    ensures Fold(c, s + t) == Fold(Fold(c, s), t)
    decreases |t|
  {
    if |t| == 0 {
      assert s + t == s;
    } else {
      FoldConcat(c, s, t[..|t| - 1]);
      assert (s + t)[..|s + t| - 1] == s + t[..|t| - 1];
    }
  }

  // ----- values -----

  lemma FoldPush(c: bv16, s: seq<Byte>, b: Byte)
    ensures Fold(c, s + [b]) == Absorb(Fold(c, s), b)
  {
    assert (s + [b])[..|s|] == s;
  }

  lemma FoldThree(c: bv16, x: Byte, y: Byte, z: Byte)
    ensures Fold(c, [x]) == Absorb(c, x)
    ensures Fold(c, [x, y]) == Absorb(Absorb(c, x), y)
    ensures Fold(c, [x, y, z]) == Absorb(Absorb(Absorb(c, x), y), z)
  {
    hide Absorb;
    FoldPush(c, [], x);
    FoldPush(c, [x], y);
    FoldPush(c, [x, y], z);
    assert [] + [x] == [x] && [x] + [y] == [x, y] && [x, y] + [z] == [x, y, z];
  }

  lemma CheckFront()
    ensures Absorb(Absorb(Absorb(0xFFFF, 0x31), 0x32), 0x33) == 0x5BCE
  {
    assert Absorb(0xFFFF, 0x31) == 0xC782;
    assert Absorb(0xC782, 0x32) == 0x3DBA;
  }

  lemma CheckMiddle()
    ensures Absorb(Absorb(Absorb(0x5BCE, 0x34), 0x35), 0x36) == 0x2EF4
  {
    assert Absorb(0x5BCE, 0x34) == 0x5349;
    assert Absorb(0x5349, 0x35) == 0x4560;
  }

  lemma CheckBack()
    ensures Absorb(Absorb(Absorb(0x2EF4, 0x37), 0x38), 0x39) == 0x29B1
  {
    assert Absorb(0x2EF4, 0x37) == 0x7718;
    assert Absorb(0x7718, 0x38) == 0xA12B;
  }

  /** The checksum of the digits one to nine, by which CRC algorithms are told apart. */
  lemma CheckValue()
    ensures Crc([0x31, 0x32, 0x33, 0x34, 0x35, 0x36, 0x37, 0x38, 0x39]) == 0x29B1
  {
    hide Absorb, Fold;
    var a: seq<Byte>, b: seq<Byte>, c: seq<Byte> := [0x31, 0x32, 0x33], [0x34, 0x35, 0x36], [0x37, 0x38, 0x39];
    FoldThree(0xFFFF, 0x31, 0x32, 0x33);
    FoldThree(0x5BCE, 0x34, 0x35, 0x36);
    FoldThree(0x2EF4, 0x37, 0x38, 0x39);
    CheckFront();
    CheckMiddle();
    CheckBack();
    FoldConcat(0xFFFF, a, b);
    FoldConcat(0xFFFF, a + b, c);
    assert a + b + c == [0x31, 0x32, 0x33, 0x34, 0x35, 0x36, 0x37, 0x38, 0x39];
  }

  // ----- a step is linear and injective -----

  predicate Sum(s: bv16, a: bv16, b: bv16) {
    s == a ^ b
  }

  lemma ShiftLinear(a: bv16, b: bv16)
    ensures Shift(a ^ b) == Shift(a) ^ Shift(b)
  {
  }

  lemma ShiftSum(s: bv16, a: bv16, b: bv16)
    requires Sum(s, a, b)
    ensures Sum(Shift(s), Shift(a), Shift(b))
  {
    ShiftLinear(a, b);
  }

  lemma {:induction false} ShiftsSum(s: bv16, a: bv16, b: bv16, n: nat)
    requires Sum(s, a, b)
    ensures Sum(Shifts(s, n), Shifts(a, n), Shifts(b, n))
    decreases n
  {
    if n > 0 {
      ShiftsSum(s, a, b, n - 1);
      ShiftSum(Shifts(s, n - 1), Shifts(a, n - 1), Shifts(b, n - 1));
    }
  }

  lemma ShiftInjective(a: bv16, b: bv16)
    requires Shift(a) == Shift(b)
    ensures a == b
  {
  }

  lemma {:induction false} ShiftsInjective(a: bv16, b: bv16, n: nat)
    requires Shifts(a, n) == Shifts(b, n)
    ensures a == b
    decreases n
  {
    if n > 0 {
      ShiftInjective(Shifts(a, n - 1), Shifts(b, n - 1));
      ShiftsInjective(a, b, n - 1);
    }
  }

  lemma XorCancel(c: bv16, p: bv16, q: bv16)
    ensures c ^ p == c ^ q ==> p == q
    ensures c ^ q == p ^ q ==> c == p
    ensures Sum(p ^ q, c ^ p, c ^ q)
    ensures p ^ q == 0 ==> p == q
  {
  }

  lemma TopInjective(a: Byte, b: Byte)
    requires Top(a) == Top(b)
    ensures a == b
  {
    assert Bits(a) == Bits(b);
    BitsInjective(a, b);
  }

  lemma EightShifts(c: bv16)
    ensures Shifts(c, 8) == Shift(Shift(Shift(Shift(Shift(Shift(Shift(Shift(c))))))))
  {
    assert Shifts(c, 2) == Shift(Shift(c));
    assert Shifts(c, 4) == Shift(Shift(Shifts(c, 2)));
    assert Shifts(c, 6) == Shift(Shift(Shifts(c, 4)));
  }

  /** A nonzero byte in the top half reaches the bottom half after eight shifts. */
  lemma TopReachesBottom(p: bv16)
    requires LowClear(p) && LowClear(Shifts(p, 8))
    ensures p == 0
  {
    EightShifts(p);
  }

  lemma EnterInjective(c: bv16, d: bv16, t: bv16)
    requires Enter(c, t) == Enter(d, t)
    ensures c == d
  {
    ShiftsInjective(c ^ t, d ^ t, 8);
    XorCancel(c, d, t);
  }

  lemma {:induction false} FoldInjective(c: bv16, d: bv16, s: seq<Byte>)
    requires Fold(c, s) == Fold(d, s)
    ensures c == d
    decreases |s|
  {
    if |s| > 0 {
      EnterInjective(Fold(c, s[..|s| - 1]), Fold(d, s[..|s| - 1]), Top(s[|s| - 1]));
      FoldInjective(c, d, s[..|s| - 1]);
    }
  }

  lemma SameTop(c: bv16, p: bv16, q: bv16)
    requires Enter(c, p) == Enter(c, q)
    ensures p == q
  {
    ShiftsInjective(c ^ p, c ^ q, 8);
    XorCancel(c, p, q);
  }

  predicate LowClear(c: bv16) {
    c & 0xFF == 0
  }

  function Diff(p: bv16, q: bv16): bv16 {
    p ^ q
  }

  lemma DiffZero(p: bv16, q: bv16)
    requires Diff(p, q) == 0
    ensures p == q
  {
  }

  lemma TopsClear(a: Byte, b: Byte)
    ensures LowClear(Diff(Top(a), Top(b)))
  {
  }

  lemma SumClear(s: bv16, u: bv16, v: bv16)
    requires Sum(s, u, v) && LowClear(Diff(u, v))
    ensures LowClear(s)
  {
  }

  lemma XorClear(u: bv16, v: bv16, r: bv16, s: bv16)
    requires u ^ r == v ^ s && LowClear(Diff(r, s))
    ensures LowClear(Diff(u, v))
  {
  }

  lemma DifferenceSum(c: bv16, p: bv16, q: bv16)
    ensures Sum(Shifts(Diff(p, q), 8), Enter(c, p), Enter(c, q))
  {
    XorCancel(c, p, q);
    ShiftsSum(p ^ q, c ^ p, c ^ q, 8);
  }

  lemma FirstTop(c: bv16, p: bv16, q: bv16)
    requires LowClear(Diff(p, q)) && LowClear(Diff(Enter(c, p), Enter(c, q)))
    ensures p == q
  {
    hide Shifts, LowClear, Enter, Sum, Diff;
    DifferenceSum(c, p, q);
    SumClear(Shifts(Diff(p, q), 8), Enter(c, p), Enter(c, q));
    TopReachesBottom(Diff(p, q));
    DiffZero(p, q);
  }

  lemma SecondTop(u: bv16, v: bv16, r: bv16, s: bv16)
    requires Enter(u, r) == Enter(v, s) && LowClear(Diff(r, s))
    ensures LowClear(Diff(u, v))
  {
    ShiftsInjective(u ^ r, v ^ s, 8);
    XorClear(u, v, r, s);
  }

  /** Two bytes can be read back from the register they were absorbed into. */
  lemma TwoBytesInjective(c: bv16, a1: Byte, a2: Byte, b1: Byte, b2: Byte)
    requires Absorb(Absorb(c, a1), a2) == Absorb(Absorb(c, b1), b2)
    ensures a1 == b1 && a2 == b2
  {
    TopsClear(a2, b2);
    SecondTop(Absorb(c, a1), Absorb(c, b1), Top(a2), Top(b2));
    TopsClear(a1, b1);
    FirstTop(c, Top(a1), Top(b1));
    TopInjective(a1, b1);
    SameTop(Absorb(c, a1), Top(a2), Top(b2));
    TopInjective(a2, b2);
  }

  /** Equal-length messages that differ, but only inside two adjacent bytes. */
  predicate Burst(s: seq<Byte>, t: seq<Byte>, at: nat) {
    |s| == |t| && s != t && SameElsewhere(s, t, at)
  }

  predicate SameElsewhere(s: seq<Byte>, t: seq<Byte>, at: nat) {
    |s| == |t| && forall k :: 0 <= k < |s| && k != at && k != at + 1 ==> s[k] == t[k]
  }

  /** Every burst of at most two adjacent bytes changes the checksum, whatever the length. */
  lemma BurstDetected(s: seq<Byte>, t: seq<Byte>, at: nat)
    requires Burst(s, t, at) && |s| >= 2
    ensures Crc(s) != Crc(t)
  {
    if at + 2 > |s| {
      PairDetected(s, t, |s| - 2);
    } else {
      PairDetected(s, t, at);
    }
  }

  lemma PairDetected(s: seq<Byte>, t: seq<Byte>, at: nat)
    requires Burst(s, t, at) && at + 2 <= |s|
    ensures Crc(s) != Crc(t)
  {
    if Crc(s) == Crc(t) {
      var pre, post := s[..at], s[at + 2..];
      assert s == pre + [s[at], s[at + 1]] + post && t == pre + [t[at], t[at + 1]] + post;
      var f := Fold(INIT, pre);
      PairThenRest(INIT, pre, s[at], s[at + 1], post);
      PairThenRest(INIT, pre, t[at], t[at + 1], post);
      SameInt(Fold(INIT, s), Fold(INIT, t));
      FoldInjective(Absorb(Absorb(f, s[at]), s[at + 1]), Absorb(Absorb(f, t[at]), t[at + 1]), post);
      TwoBytesInjective(f, s[at], s[at + 1], t[at], t[at + 1]);
    }
  }

  lemma SameInside(s: seq<Byte>, t: seq<Byte>, at: nat, i: nat, j: nat)
    requires SameElsewhere(s, t, at) && i <= at && at + 2 <= j <= |s| && s[i..j] == t[i..j]
    ensures s == t
  {
    assert s[at] == s[i..j][at - i] && s[at + 1] == s[i..j][at + 1 - i];
    assert t[at] == t[i..j][at - i] && t[at + 1] == t[i..j][at + 1 - i];
  }

  /** A burst of the whole is a burst of any part that holds it. */
  lemma BurstInside(s: seq<Byte>, t: seq<Byte>, at: nat, i: nat, j: nat)
    requires Burst(s, t, at) && i <= at && at + 2 <= j <= |s|
    ensures Burst(s[i..j], t[i..j], at - i)
  {
    if s[i..j] == t[i..j] {
      SameInside(s, t, at, i, j);
      assert false;
    }
  }

  lemma SameInt(c: bv16, d: bv16)
    requires c as int == d as int
    ensures c == d
  {
    assert (c as int) as bv16 == c && (d as int) as bv16 == d;
  }

  lemma PairThenRest(c: bv16, pre: seq<Byte>, x: Byte, y: Byte, post: seq<Byte>)
    ensures Fold(c, pre + [x, y] + post) == Fold(Absorb(Absorb(Fold(c, pre), x), y), post)
  {
    FoldConcat(c, pre + [x, y], post);
    FoldConcat(c, pre, [x, y]);
    assert [x, y][..1] == [x] && [x][..0] == [];
    assert Fold(Fold(c, pre), [x]) == Absorb(Fold(c, pre), x);
  }
}
