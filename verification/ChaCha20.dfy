/** ChaCha20: quarter rounds, block function and stream, as in sections 2.1 to 2.4 of RFC 8439. */
module ChaCha20 {
  import opened Bytes

  // ----- 32-bit words: sums on numbers, the rest on bit vectors -----

  lemma Doubles(y: bv32)
    requires y as int < 0x8000_0000
    ensures (y << 1) as int == 2 * (y as int) && ((y << 1) | 1) as int == 2 * (y as int) + 1
  {
    BelowHalf(y);
  }

  lemma BelowHalf(y: bv32)
    requires y as int < 0x8000_0000
    ensures y < 0x8000_0000
  {
  }

  lemma {:induction false} WordReach(n: U32) returns (x: bv32)
    ensures x as int == n
    decreases n
  {
    x := 0;
    if n > 0 {
      var y := WordReach(n / 2);
      Doubles(y);
      x := if n % 2 == 0 then y << 1 else (y << 1) | 1;
    }
  }

  function W(n: U32): bv32 {
    n as bv32
  }

  function N(x: bv32): U32 {
    x as int
  }

  lemma WordBack(x: bv32)
    ensures W(N(x)) == x
  {
  }

  lemma WordRoundTrip(n: U32)
    ensures N(W(n)) == n
  {
    var x := WordReach(n);
    WordBack(x);
  }

  function Add(x: U32, y: U32): U32 {
    if x + y < 0x1_0000_0000 then x + y else x + y - 0x1_0000_0000
  }

  function Sub(x: U32, y: U32): U32 {
    if x >= y then x - y else x + 0x1_0000_0000 - y
  }

  function BvXor(x: bv32, y: bv32): bv32 {
    x ^ y
  }

  function Xor(x: U32, y: U32): U32 {
    N(BvXor(W(x), W(y)))
  }

  function Rol16(x: bv32): bv32 { (x << 16) | (x >> 16) }
  function Rol12(x: bv32): bv32 { (x << 12) | (x >> 20) }
  function Rol8(x: bv32): bv32 { (x << 8) | (x >> 24) }
  function Rol7(x: bv32): bv32 { (x << 7) | (x >> 25) }
  function Ror12(x: bv32): bv32 { (x >> 12) | (x << 20) }
  function Ror8(x: bv32): bv32 { (x >> 8) | (x << 24) }
  function Ror7(x: bv32): bv32 { (x >> 7) | (x << 25) }

  /** The rotations of the quarter round. */
  datatype Turn = By16 | By12 | By8 | By7

  function Rotl(x: U32, n: Turn): U32 {
    match n
    case By16 => N(Rol16(W(x)))
    case By12 => N(Rol12(W(x)))
    case By8 => N(Rol8(W(x)))
    case By7 => N(Rol7(W(x)))
  }

  function Rotr(x: U32, n: Turn): U32 {
    match n
    case By16 => N(Rol16(W(x)))
    case By12 => N(Ror12(W(x)))
    case By8 => N(Ror8(W(x)))
    case By7 => N(Ror7(W(x)))
  }

  lemma Undo16(x: bv32, r: bv32)
    ensures r == Rol16(x) ==> Rol16(r) == x
  {
  }

  lemma Undo12(x: bv32, r: bv32)
    ensures r == Rol12(x) ==> Ror12(r) == x
    ensures r == Ror12(x) ==> Rol12(r) == x
  {
  }

  lemma Undo8(x: bv32, r: bv32)
    ensures r == Rol8(x) ==> Ror8(r) == x
    ensures r == Ror8(x) ==> Rol8(r) == x
  {
  }

  lemma Undo7(x: bv32, r: bv32)
    ensures r == Rol7(x) ==> Ror7(r) == x
    ensures r == Ror7(x) ==> Rol7(r) == x
  {
  }

  lemma RotlThenRotr(x: U32, n: Turn)
    ensures Rotr(Rotl(x, n), n) == x
  {
    var b := W(x);
    WordRoundTrip(x);
    match n {
      case By16 => WordBack(Rol16(b)); Undo16(b, Rol16(b));
      case By12 => WordBack(Rol12(b)); Undo12(b, Rol12(b));
      case By8 => WordBack(Rol8(b)); Undo8(b, Rol8(b));
      case By7 => WordBack(Rol7(b)); Undo7(b, Rol7(b));
    }
  }

  lemma RotrThenRotl(x: U32, n: Turn)
    ensures Rotl(Rotr(x, n), n) == x
  {
    var b := W(x);
    WordRoundTrip(x);
    match n {
      case By16 => WordBack(Rol16(b)); Undo16(b, Rol16(b));
      case By12 => WordBack(Ror12(b)); Undo12(b, Ror12(b));
      case By8 => WordBack(Ror8(b)); Undo8(b, Ror8(b));
      case By7 => WordBack(Ror7(b)); Undo7(b, Ror7(b));
    }
  }

  lemma BvXorTwice(x: bv32, y: bv32, r: bv32)
    requires r == BvXor(x, y)
    ensures BvXor(r, y) == x
  {
  }

  lemma XorTwice(x: U32, y: U32)
    ensures Xor(Xor(x, y), y) == x
  {
    WordBack(BvXor(W(x), W(y)));
    BvXorTwice(W(x), W(y), BvXor(W(x), W(y)));
    WordRoundTrip(x);
  }

  // ----- section 2.1: the quarter round, and how to undo it -----

  datatype Quad = Quad(a: U32, b: U32, c: U32, d: U32)

  /** A word takes in another one and turns; and the way back. */
  function TurnIn(n: Turn): (U32, U32) -> U32 {
    (d, a) => Rotl(Xor(d, a), n)
  }

  function TurnOut(n: Turn): (U32, U32) -> U32 {
    (d, a) => Xor(Rotr(d, n), a)
  }

  lemma Turns(n: Turn, d: U32, a: U32)
    ensures TurnOut(n)(TurnIn(n)(d, a), a) == d && TurnIn(n)(TurnOut(n)(d, a), a) == d
  {
    RotlThenRotr(Xor(d, a), n);
    XorTwice(d, a);
    XorTwice(Rotr(d, n), a);
    RotrThenRotl(d, n);
  }

  /** Half a quarter round: a grows by b, d takes a in and turns; then the same with c, d, b. */
  function Mix(q: Quad, f: (U32, U32) -> U32, g: (U32, U32) -> U32): Quad {
    var a := Add(q.a, q.b);
    var d := f(q.d, a);
    var c := Add(q.c, d);
    var b := g(q.b, c);
    Quad(a, b, c, d)
  }

  function Unmix(q: Quad, f: (U32, U32) -> U32, g: (U32, U32) -> U32): Quad {
    var b := g(q.b, q.c);
    var c := Sub(q.c, q.d);
    var d := f(q.d, q.a);
    var a := Sub(q.a, b);
    Quad(a, b, c, d)
  }

  function Quarter(q: Quad): Quad {
    Mix(Mix(q, TurnIn(By16), TurnIn(By12)), TurnIn(By8), TurnIn(By7))
  }

  function Unquarter(q: Quad): Quad {
    Unmix(Unmix(q, TurnOut(By8), TurnOut(By7)), TurnOut(By16), TurnOut(By12))
  }

  /** One turn, computed on bit vectors. */
  lemma TurnIs(n: Turn, d: U32, a: U32, x: bv32, y: bv32, r: bv32)
    requires x as int == d && y as int == a && r == Turned(n, x ^ y)
    ensures TurnIn(n)(d, a) == N(r)
  {
    WordBack(x);
    WordBack(y);
    WordBack(BvXor(x, y));
  }

  function Turned(n: Turn, x: bv32): bv32 {
    match n
    case By16 => Rol16(x)
    case By12 => Rol12(x)
    case By8 => Rol8(x)
    case By7 => Rol7(x)
  }

  /** The test vector of section 2.1.1. */
  lemma QuarterVector()
    ensures Quarter(Quad(0x11111111, 0x01020304, 0x9b8d6f43, 0x01234567))
            == Quad(0xea2a92f4, 0xcb1cf8ce, 0x4581472e, 0x5881c4bb)
  {
    TurnIs(By16, 0x01234567, 0x12131415, 0x01234567, 0x12131415, 0x51721330);
    TurnIs(By12, 0x01020304, 0xecff8273, 0x01020304, 0xecff8273, 0xd8177edf);
    TurnIs(By8, 0x51721330, 0xea2a92f4, 0x51721330, 0xea2a92f4, 0x5881c4bb);
    TurnIs(By7, 0xd8177edf, 0x4581472e, 0xd8177edf, 0x4581472e, 0xcb1cf8ce);
  }

  lemma AddSub(x: U32, y: U32)
    ensures Sub(Add(x, y), y) == x && Add(Sub(x, y), y) == x
  {
  }

  /** The second function undoes the first one. */
  ghost predicate Undoes(back: (U32, U32) -> U32, f: (U32, U32) -> U32) {
    forall d, a :: back(f(d, a), a) == d
  }

  lemma TurnsUndo(n: Turn)
    ensures Undoes(TurnOut(n), TurnIn(n)) && Undoes(TurnIn(n), TurnOut(n))
  {
    forall d, a ensures TurnOut(n)(TurnIn(n)(d, a), a) == d && TurnIn(n)(TurnOut(n)(d, a), a) == d {
      Turns(n, d, a);
    }
  }

  lemma MixBack(q: Quad, f: (U32, U32) -> U32, g: (U32, U32) -> U32, f': (U32, U32) -> U32, g': (U32, U32) -> U32)
    requires Undoes(f', f) && Undoes(g', g)
    ensures Unmix(Mix(q, f, g), f', g') == q
  {
    var r := Mix(q, f, g);
    AddSub(q.a, q.b);
    AddSub(q.c, r.d);
  }

  lemma UnmixBack(q: Quad, f: (U32, U32) -> U32, g: (U32, U32) -> U32, f': (U32, U32) -> U32, g': (U32, U32) -> U32)
    requires Undoes(f, f') && Undoes(g, g')
    ensures Mix(Unmix(q, f', g'), f, g) == q
  {
    var r := Unmix(q, f', g');
    AddSub(q.a, r.b);
    AddSub(q.c, q.d);
  }

  /** The quarter round is a bijection on four words. */
  lemma QuarterBack(q: Quad)
    ensures Unquarter(Quarter(q)) == q && Quarter(Unquarter(q)) == q
  {
    TurnsUndo(By16);
    TurnsUndo(By12);
    TurnsUndo(By8);
    TurnsUndo(By7);
    var (i16, i12, i8, i7) := (TurnIn(By16), TurnIn(By12), TurnIn(By8), TurnIn(By7));
    var (o16, o12, o8, o7) := (TurnOut(By16), TurnOut(By12), TurnOut(By8), TurnOut(By7));
    MixBack(q, i16, i12, o16, o12);
    MixBack(Mix(q, i16, i12), i8, i7, o8, o7);
    UnmixBack(q, i8, i7, o8, o7);
    UnmixBack(Unmix(q, o8, o7), i16, i12, o16, o12);
  }

  // ----- the state: sixteen words, and quarter rounds on four of them -----

  type State = s: seq<U32> | |s| == 16 witness seq(16, _ => 0)

  datatype Place = Place(i: nat, j: nat, k: nat, l: nat)

  /** Four different places. */
  predicate Places(i: nat, j: nat, k: nat, l: nat) {
    i < 16 && j < 16 && k < 16 && l < 16 && i != j && i != k && i != l && j != k && j != l && k != l
  }

  function Get(s: State, i: nat, j: nat, k: nat, l: nat): Quad
    requires Places(i, j, k, l)
  {
    Quad(s[i], s[j], s[k], s[l])
  }

  function Put(s: State, i: nat, j: nat, k: nat, l: nat, q: Quad): State
    requires Places(i, j, k, l)
  {
    s[i := q.a][j := q.b][k := q.c][l := q.d]
  }

  /** A function of four words, applied at four places. */
  function Apply(f: Quad -> Quad, s: State, p: Place): State
    requires Places(p.i, p.j, p.k, p.l)
  {
    Put(s, p.i, p.j, p.k, p.l, f(Get(s, p.i, p.j, p.k, p.l)))
  }

  lemma PutGet(s: State, i: nat, j: nat, k: nat, l: nat, q: Quad)
    requires Places(i, j, k, l)
    ensures Get(Put(s, i, j, k, l, q), i, j, k, l) == q
    ensures Put(Put(s, i, j, k, l, q), i, j, k, l, Get(s, i, j, k, l)) == s
  {
  }

  /** What undoes the function undoes its application. */
  lemma ApplyBack(f: Quad -> Quad, g: Quad -> Quad, s: State, p: Place)
    requires Places(p.i, p.j, p.k, p.l) && forall q :: g(f(q)) == q
    ensures Apply(g, Apply(f, s, p), p) == s
  {
    PutGet(s, p.i, p.j, p.k, p.l, f(Get(s, p.i, p.j, p.k, p.l)));
  }

  // ----- section 2.3: the rounds -----

  /** The eight quarter rounds of a double round: four columns, then four diagonals. */
  function PlaceOf(t: nat): (p: Place)
    requires t < 8
    ensures Places(p.i, p.j, p.k, p.l)
  {
    if t < 4 then
      (if t == 0 then Place(0, 4, 8, 12) else if t == 1 then Place(1, 5, 9, 13)
       else if t == 2 then Place(2, 6, 10, 14) else Place(3, 7, 11, 15))
    else
      (if t == 4 then Place(0, 5, 10, 15) else if t == 5 then Place(1, 6, 11, 12)
       else if t == 6 then Place(2, 7, 8, 13) else Place(3, 4, 9, 14))
  }

  /** Quarter round number t of the block function, and its inverse. */
  function Step(s: State, t: nat): State {
    Apply(Quarter, s, PlaceOf(t % 8))
  }

  function Unstep(s: State, t: nat): State {
    Apply(Unquarter, s, PlaceOf(t % 8))
  }

  /** The first t steps. */
  function Steps(step: (State, nat) -> State, s: State, t: nat): State
    decreases t
  {
    if t == 0 then s else step(Steps(step, s, t - 1), t - 1)
  }

  /** The last t of them, undone. */
  function Unsteps(back: (State, nat) -> State, s: State, t: nat): State
    decreases t
  {
    if t == 0 then s else Unsteps(back, back(s, t - 1), t - 1)
  }

  lemma {:induction false} StepsUndo(step: (State, nat) -> State, back: (State, nat) -> State, s: State, t: nat)
    requires forall r, k :: back(step(r, k), k) == r
    ensures Unsteps(back, Steps(step, s, t), t) == s
    decreases t
  {
    if t > 0 {
      StepsUndo(step, back, s, t - 1);
    }
  }

  lemma {:induction false} StepsRedo(step: (State, nat) -> State, back: (State, nat) -> State, s: State, t: nat)
    requires forall r, k :: step(back(r, k), k) == r
    ensures Steps(step, Unsteps(back, s, t), t) == s
    decreases t
  {
    if t > 0 {
      StepsRedo(step, back, back(s, t - 1), t - 1);
    }
  }

  lemma StepBack(s: State, t: nat)
    ensures Unstep(Step(s, t), t) == s && Step(Unstep(s, t), t) == s
  {
    forall q ensures Unquarter(Quarter(q)) == q && Quarter(Unquarter(q)) == q {
      QuarterBack(q);
    }
    ApplyBack(Quarter, Unquarter, s, PlaceOf(t % 8));
    ApplyBack(Unquarter, Quarter, s, PlaceOf(t % 8));
  }

  /** The rounds are a bijection on states: they can be undone, and every state is reached. */
  lemma RoundsBijective(s: State, t: nat)
    ensures Unsteps(Unstep, Steps(Step, s, t), t) == s
    ensures Steps(Step, Unsteps(Unstep, s, t), t) == s
  {
    forall r, k ensures Unstep(Step(r, k), k) == r && Step(Unstep(r, k), k) == r {
      StepBack(r, k);
    }
    StepsUndo(Step, Unstep, s, t);
    StepsRedo(Step, Unstep, s, t);
  }

  // ----- sections 2.3 and 2.4: block function and stream -----

  /** Twenty rounds, each of which turns every word once, four at a time. */
  function Mixed(s: State): State {
    Steps(Step, s, 20 * (|s| / 4))
  }

  function Summed(x: State, s: State): State {
    seq(16, i requires 0 <= i < 16 => Add(x[i], s[i]))
  }

  type KeyBlock = b: seq<Byte> | |b| == 64 witness seq(64, _ => 0)

  /** Sixteen words, least significant byte first. */
  function Serialized(x: State): KeyBlock {
    seq(64, i requires 0 <= i < 64 => Le32(x[i / 4])[i % 4])
  }

  /** The block function: mixed words added to the original ones. */
  function BlockBy(mixed: State -> State, s: State): KeyBlock {
    Serialized(Summed(mixed(s), s))
  }

  function BlockOf(mixed: State -> State): State -> KeyBlock {
    s => BlockBy(mixed, s)
  }

  /** The block function of section 2.3. */
  function Block(): State -> KeyBlock {
    BlockOf(Mixed)
  }

  /** The state n blocks later: the counter is a 32-bit word. */
  function Advance(s: State, n: nat): State {
    s[12 := (s[12] + n) % 0x1_0000_0000]
  }

  /** Byte i of the key stream that starts in this state, for any block function. */
  function StreamByte(block: State -> KeyBlock, s: State, i: nat): Byte {
    block(Advance(s, i / 64))[i % 64]
  }

  function XorByte(a: Byte, b: Byte): Byte {
    (Bits(a) ^ Bits(b)) as int
  }

  lemma XorByteTwice(a: Byte, b: Byte)
    ensures XorByte(XorByte(a, b), b) == a
  {
    BitsBack(Bits(a) ^ Bits(b));
    assert (Bits(a) ^ Bits(b)) ^ Bits(b) == Bits(a);
    BitsRoundTrip(a);
  }

  /** The cipher on a message: section 2.4. */
  function Crypted(block: State -> KeyBlock, s: State, m: seq<Byte>): (r: seq<Byte>)
    ensures |r| == |m|
  {
    seq(|m|, i requires 0 <= i < |m| => XorByte(m[i], StreamByte(block, s, i)))
  }

  /** The number of blocks that a call uses up: a partly used one is used up, too. */
  function BlocksFor(n: nat): nat {
    (n + 63) / 64
  }

  /** Decryption is encryption from the same state. */
  lemma CryptTwice(block: State -> KeyBlock, s: State, m: seq<Byte>)
    ensures Crypted(block, s, Crypted(block, s, m)) == m
  {
    forall i | 0 <= i < |m| ensures Crypted(block, s, Crypted(block, s, m))[i] == m[i] {
      XorByteTwice(m[i], StreamByte(block, s, i));
    }
  }

  lemma AdvanceTwice(s: State, a: nat, b: nat)
    ensures Advance(Advance(s, a), b) == Advance(s, a + b)
  {
    var c: int := s[12];
    assert c + a == (c + a) / 0x1_0000_0000 * 0x1_0000_0000 + (c + a) % 0x1_0000_0000;
  }

  /** The stream goes on behind n blocks. */
  lemma StreamContinues(block: State -> KeyBlock, s: State, n: nat, i: nat)
    ensures StreamByte(block, Advance(s, n), i) == StreamByte(block, s, 64 * n + i)
  {
    AdvanceTwice(s, n, i / 64);
    assert (64 * n + i) / 64 == n + i / 64 && (64 * n + i) % 64 == i % 64;
  }

  /** The n-th block of the stream. */
  lemma BlockIsStream(block: State -> KeyBlock, s: State, n: nat)
    ensures forall i :: 64 * n <= i < 64 * n + 64 ==> StreamByte(block, s, i) == block(Advance(s, n))[i - 64 * n]
  {
    forall i | 64 * n <= i < 64 * n + 64 ensures StreamByte(block, s, i) == block(Advance(s, n))[i - 64 * n] {
      assert i / 64 == n && i % 64 == i - 64 * n;
    }
  }

  /** Two calls: the second one starts at the next whole block. */
  lemma SecondCall(block: State -> KeyBlock, s: State, n: nat, i: nat)
    ensures StreamByte(block, Advance(s, BlocksFor(n)), i) == StreamByte(block, s, 64 * BlocksFor(n) + i)
    ensures n % 64 == 0 ==> 64 * BlocksFor(n) == n
  {
    StreamContinues(block, s, BlocksFor(n), i);
  }

  lemma BlocksAdd(n: nat, k: nat)
    requires n % 64 == 0
    ensures BlocksFor(n) + BlocksFor(k) == BlocksFor(n + k)
  {
  }

  /** Hence a split call equals one call when the first part is a multiple of 64 bytes. */
  lemma SplitCall(block: State -> KeyBlock, s: State, m: seq<Byte>, n: nat)
    requires n <= |m| && n % 64 == 0
    ensures Crypted(block, s, m) == Crypted(block, s, m[..n]) + Crypted(block, Advance(s, BlocksFor(n)), m[n..])
    ensures Advance(Advance(s, BlocksFor(n)), BlocksFor(|m| - n)) == Advance(s, BlocksFor(|m|))
  {
    var r := Crypted(block, s, m[..n]) + Crypted(block, Advance(s, BlocksFor(n)), m[n..]);
    forall i | 0 <= i < |m| ensures Crypted(block, s, m)[i] == r[i] {
      if i >= n {
        SecondCall(block, s, n, i - n);
      }
    }
    AdvanceTwice(s, BlocksFor(n), BlocksFor(|m| - n));
    BlocksAdd(n, |m| - n);
  }
}
