/** The ChaCha20 context: rounds in place on sixteen words, and the chunk loop over the message. */
module ChaCha20Code {
  import opened Bytes
  import opened ChaCha20

  /** Half of the quarter round, in place. */
  method MixInPlace(x: array<U32>, p: Place, f: (U32, U32) -> U32, g: (U32, U32) -> U32)
    requires x.Length == 16 && Places(p.i, p.j, p.k, p.l)
    modifies x
    ensures x[..] == Put(old(x[..]), p.i, p.j, p.k, p.l, Mix(Get(old(x[..]), p.i, p.j, p.k, p.l), f, g))
  {
    x[p.i] := Add(x[p.i], x[p.j]);
    x[p.l] := f(x[p.l], x[p.i]);
    x[p.k] := Add(x[p.k], x[p.l]);
    x[p.j] := g(x[p.j], x[p.k]);
  }

  lemma PutTwice(s: State, p: Place, q: Quad, r: Quad)
    requires Places(p.i, p.j, p.k, p.l)
    ensures Put(Put(s, p.i, p.j, p.k, p.l, q), p.i, p.j, p.k, p.l, r) == Put(s, p.i, p.j, p.k, p.l, r)
  {
  }

  lemma TwoMixes(s: State, p: Place, f: (U32, U32) -> U32, g: (U32, U32) -> U32,
      h: (U32, U32) -> U32, k: (U32, U32) -> U32)
    requires Places(p.i, p.j, p.k, p.l)
    ensures var t := Put(s, p.i, p.j, p.k, p.l, Mix(Get(s, p.i, p.j, p.k, p.l), f, g));
      Put(t, p.i, p.j, p.k, p.l, Mix(Get(t, p.i, p.j, p.k, p.l), h, k))
      == Put(s, p.i, p.j, p.k, p.l, Mix(Mix(Get(s, p.i, p.j, p.k, p.l), f, g), h, k))
  {
    var q := Mix(Get(s, p.i, p.j, p.k, p.l), f, g);
    PutGet(s, p.i, p.j, p.k, p.l, q);
    PutTwice(s, p, q, Mix(q, h, k));
  }

  /** The quarter round, in place. */
  method QuarterInPlace(x: array<U32>, p: Place)
    requires x.Length == 16 && Places(p.i, p.j, p.k, p.l)
    modifies x
    ensures x[..] == Apply(Quarter, old(x[..]), p)
  {
    TwoMixes(x[..], p, TurnIn(By16), TurnIn(By12), TurnIn(By8), TurnIn(By7));
    MixInPlace(x, p, TurnIn(By16), TurnIn(By12));
    MixInPlace(x, p, TurnIn(By8), TurnIn(By7));
  }

  /** The function given is the quarter round of the block function. */
  ghost predicate IsStep(step: (State, nat) -> State) {
    forall r: State, t: nat {:trigger Step(r, t)} :: step(r, t) == Step(r, t)
  }

  method Turn(x: array<U32>, p: Place, ghost step: (State, nat) -> State, ghost s: State, ghost t: nat)
    requires x.Length == 16 && IsStep(step) && x[..] == Steps(step, s, t) && p == PlaceOf(t % 8)
    modifies x
    ensures x[..] == Steps(step, s, t + 1)
  {
    QuarterInPlace(x, p);
    assert x[..] == Step(Steps(step, s, t), t);
  }

  method ColumnRound(x: array<U32>, ghost step: (State, nat) -> State, ghost s: State, ghost t: nat)
    requires x.Length == 16 && IsStep(step) && t % 8 == 0 && x[..] == Steps(step, s, t)
    modifies x
    ensures x[..] == Steps(step, s, t + 4)
  {
    hide IsStep;
    Turn(x, Place(0, 4, 8, 12), step, s, t);
    Turn(x, Place(1, 5, 9, 13), step, s, t + 1);
    Turn(x, Place(2, 6, 10, 14), step, s, t + 2);
    Turn(x, Place(3, 7, 11, 15), step, s, t + 3);
  }

  method DiagonalRound(x: array<U32>, ghost step: (State, nat) -> State, ghost s: State, ghost t: nat)
    requires x.Length == 16 && IsStep(step) && t % 8 == 4 && x[..] == Steps(step, s, t)
    modifies x
    ensures x[..] == Steps(step, s, t + 4)
  {
    hide IsStep;
    Turn(x, Place(0, 5, 10, 15), step, s, t);
    Turn(x, Place(1, 6, 11, 12), step, s, t + 1);
    Turn(x, Place(2, 7, 8, 13), step, s, t + 2);
    Turn(x, Place(3, 4, 9, 14), step, s, t + 3);
  }

  method TwentyRounds(x: array<U32>, ghost step: (State, nat) -> State, ghost s: State)
    requires x.Length == 16 && IsStep(step) && x[..] == s
    modifies x
    ensures x[..] == Steps(step, s, 20 * (|s| / 4))
  {
    hide IsStep;
    for i := 0 to 10
      invariant x[..] == Steps(step, s, 8 * i)
    {
      ColumnRound(x, step, s, 8 * i);
      DiagonalRound(x, step, s, 8 * i + 4);
    }
  }

  /** A little-endian word, stored. */
  method StoreLe32(dst: array<Byte>, at: nat, v: U32)
    requires at + 4 <= dst.Length
    modifies dst
    ensures forall k :: 0 <= k < dst.Length ==> dst[k] == if at <= k < at + 4 then Le32(v)[k - at] else old(dst[k])
  {
    var bytes := Le32(v);
    dst[at], dst[at + 1], dst[at + 2], dst[at + 3] := bytes[0], bytes[1], bytes[2], bytes[3];
  }

  const EXPAND: seq<U32> := [0x61707865, 0x3320646e, 0x79622d32, 0x6b206574]

  /** Section 2.3: constants, key, counter, nonce. */
  function Initial(key: seq<Byte>, nonce: seq<Byte>, counter: U32): State
    requires |key| == 32 && |nonce| == 12
  {
    EXPAND + seq(8, i requires 0 <= i < 8 => U32At(key, 4 * i)) + [counter]
    + [U32At(nonce, 0), U32At(nonce, 4), U32At(nonce, 8)]
  }

  class Cipher {
    const state: array<U32>

    ghost predicate Valid() {
      state.Length == 16
    }

    constructor (key: seq<Byte>, nonce: seq<Byte>, counter: U32)
      requires |key| == 32 && |nonce| == 12
      ensures Valid() && fresh(state) && state[..] == Initial(key, nonce, counter)
    {
      state := new U32[16];
      new;
      state[0], state[1], state[2], state[3] := 0x61707865, 0x3320646e, 0x79622d32, 0x6b206574;
      for i := 0 to 8
        invariant state[..4] == EXPAND
        invariant forall k :: 0 <= k < i ==> state[4 + k] == U32At(key, 4 * k)
      {
        state[4 + i] := U32At(key, i * 4);
      }
      state[12] := counter;
      state[13], state[14], state[15] := U32At(nonce, 0), U32At(nonce, 4), U32At(nonce, 8);
    }

    /** A copy of the state. */
    method Copy() returns (x: array<U32>)
      requires Valid()
      ensures fresh(x) && x.Length == 16 && x[..] == state[..]
    {
      x := new U32[16];
      for i := 0 to 16
        invariant forall k :: 0 <= k < i ==> x[k] == state[k]
      {
        x[i] := state[i];
      }
    }

    /** One block of key stream; the counter moves on, and wraps. */
    method NextBlock(output: array<Byte>, ghost mixed: State -> State)
      requires Valid() && output.Length == 64 && IsMixed(mixed)
      modifies state, output
      ensures output[..] == BlockBy(mixed, old(state[..])) && state[..] == Advance(old(state[..]), 1)
    {
      var x := Copy();
      MixCopy(x, mixed, state[..]);
      Serialize(x[..], state[..], output);
      state[12] := if state[12] == 0xFFFF_FFFF then 0 else state[12] + 1;
    }

    /** One chunk of the message: each byte is combined with the key stream byte of its place. */
    method Chunk(inp: array<Byte>, out: array<Byte>, at: nat, n: nat, key: array<Byte>)
      requires key.Length == 64 && n <= 64 && at + n <= inp.Length && at + n <= out.Length
      requires key != inp && key != out
      modifies out
      ensures forall k :: 0 <= k < out.Length
                ==> out[k] == if at <= k < at + n then XorByte(old(inp[k]), key[k - at]) else old(out[k])
    {
      for i := 0 to n
        invariant forall k :: 0 <= k < out.Length
                    ==> out[k] == if at <= k < at + i then XorByte(old(inp[k]), key[k - at]) else old(out[k])
      {
        out[at + i] := XorByte(inp[at + i], key[i]);
      }
    }

    /** The chunk loop. Input and output may be the same array; bytes beyond the length are not touched. */
    method CryptWith(inp: array<Byte>, out: array<Byte>, length: nat, ghost mixed: State -> State)
      requires Valid() && IsMixed(mixed) && length <= inp.Length && length <= out.Length
      modifies state, out
      ensures out[..length] == Crypted(BlockOf(mixed), old(state[..]), old(inp[..length]))
      ensures forall k :: length <= k < out.Length ==> out[k] == old(out[k])
      ensures state[..] == Advance(old(state[..]), BlocksFor(length))
    {
      hide XorByte, StreamByte;
      ghost var s, block := state[..], BlockOf(mixed);
      var key := new Byte[64];
      var pos := 0;
      ghost var n := 0;
      while pos < length
        invariant pos <= length && pos == if 64 * n < length then 64 * n else length
        invariant n <= BlocksFor(length)
        invariant state[..] == Advance(s, n)
        invariant forall k :: 0 <= k < pos ==> out[k] == XorByte(old(inp[k]), StreamByte(block, s, k))
        invariant forall k :: pos <= k < inp.Length ==> inp[k] == old(inp[k])
        invariant forall k :: pos <= k < out.Length ==> out[k] == old(out[k])
        decreases length - pos
      {
        NextBlock(key, mixed);
        AdvanceTwice(s, n, 1);
        var chunk := if length - pos > 64 then 64 else length - pos;
        Chunk(inp, out, pos, chunk, key);
        BlockIsStream(block, s, n);
        assert key[..] == block(Advance(s, n));
        assert forall k :: pos <= k < pos + chunk ==> key[k - pos] == StreamByte(block, s, k);
        pos := pos + chunk;
        n := n + 1;
      }
    }

    /** The call as the header declares it. */
    method Crypt(inp: array<Byte>, out: array<Byte>, length: nat)
      requires Valid() && length <= inp.Length && length <= out.Length
      modifies state, out
      ensures out[..length] == Crypted(Block(), old(state[..]), old(inp[..length]))
      ensures forall k :: length <= k < out.Length ==> out[k] == old(out[k])
      ensures state[..] == Advance(old(state[..]), BlocksFor(length))
    {
      CryptWith(inp, out, length, Mixed);
    }
  }

  /** The function given is the mixing of the block function. */
  ghost predicate IsMixed(mixed: State -> State) {
    forall s: State {:trigger Mixed(s)} :: mixed(s) == Mixed(s)
  }

  method MixCopy(x: array<U32>, ghost mixed: State -> State, ghost s: State)
    requires x.Length == 16 && IsMixed(mixed) && x[..] == s
    modifies x
    ensures x[..] == mixed(s)
  {
    TwentyRounds(x, Step, s);
    assert x[..] == Mixed(s);
  }

  /** The sums of mixed and original words, stored one after the other. */
  method Serialize(x: State, s: State, output: array<Byte>)
    requires output.Length == 64
    modifies output
    ensures output[..] == Serialized(Summed(x, s))
  {
    for i := 0 to 16
      invariant forall k :: 0 <= k < 4 * i ==> output[k] == Serialized(Summed(x, s))[k]
    {
      StoreLe32(output, i * 4, Add(x[i], s[i]));
    }
  }
}
