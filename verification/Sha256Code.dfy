/** The SHA-256 context: bytes are buffered to blocks, and the hash of everything absorbed is the standard's. */
module Sha256Code {
  import opened Bytes
  import opened Sha256

  /** The sixteen words of the block. */
  method Load(data: Block, w: array<bv32>)
    requires w.Length == 64
    modifies w
    ensures forall t :: 0 <= t < 16 ==> w[t] == Schedule(data, t)
  {
    for i := 0 to 16
      invariant forall t :: 0 <= t < i ==> w[t] == Schedule(data, t)
    {
      w[i] := Word(data, i * 4);
    }
  }

  lemma ScheduleStep(b: Block, t: nat, w2: bv32, w7: bv32, w15: bv32, w16: bv32)
    requires 16 <= t < 64 && w2 == Schedule(b, t - 2) && w7 == Schedule(b, t - 7)
    requires w15 == Schedule(b, t - 15) && w16 == Schedule(b, t - 16)
    ensures Schedule(b, t) == Extend(w2, w7, w15, w16)
  {
  }

  /** The rest of the 64-word schedule. */
  method Expand(data: Block, w: array<bv32>)
    requires w.Length == 64 && forall t :: 0 <= t < 16 ==> w[t] == Schedule(data, t)
    modifies w
    ensures forall t :: 0 <= t < 64 ==> w[t] == Schedule(data, t)
  {
    for i := 16 to 64
      invariant forall t :: 0 <= t < i ==> w[t] == Schedule(data, t)
    {
      ScheduleStep(data, i, w[i - 2], w[i - 7], w[i - 15], w[i - 16]);
      w[i] := Extend(w[i - 2], w[i - 7], w[i - 15], w[i - 16]);
    }
  }

  /** The 64 rounds on eight rotating variables. */
  method Transform(state: Hash, data: Block) returns (r: Hash)
    ensures r == Compress(state, data)
  {
    var w := new bv32[64];
    Load(data, w);
    Expand(data, w);
    var a, b, c, d, e, f, g, h := state.a, state.b, state.c, state.d, state.e, state.f, state.g, state.h;
    for i := 0 to 64
      invariant Hash(a, b, c, d, e, f, g, h) == Rounds(state, data, i)
    {
      ghost var v := Hash(a, b, c, d, e, f, g, h);
      var t1 := Temp1(e, f, g, h, Constant(i), w[i]);
      var t2 := Temp2(a, b, c);
      h := g;
      g := f;
      f := e;
      e := Add(d, t1);
      d := c;
      c := b;
      b := a;
      a := Add(t1, t2);
      assert Hash(a, b, c, d, e, f, g, h) == Round(v, Constant(i), Schedule(data, i));
    }
    r := Sum(state, Hash(a, b, c, d, e, f, g, h));
  }

  /** Whole blocks of m are hashed, the first idx bytes of the buffer are the rest. */
  ghost predicate Absorbed(state: Hash, buffer: seq<Byte>, idx: nat, m: seq<Byte>, n: nat) {
    && |buffer| == 64 && idx <= 64 && |m| == 64 * n + idx
    && state == Blocks(m, n) && forall k :: 0 <= k < idx ==> buffer[k] == m[64 * n + k]
  }

  lemma BufferGrows(state: Hash, buffer: seq<Byte>, idx: nat, m: seq<Byte>, n: nat, buffer': seq<Byte>, t: seq<Byte>)
    requires Absorbed(state, buffer, idx, m, n) && idx + |t| <= 64 && |buffer'| == 64
    requires forall k :: 0 <= k < idx ==> buffer'[k] == buffer[k]
    requires forall k :: 0 <= k < |t| ==> buffer'[idx + k] == t[k]
    ensures Absorbed(state, buffer', idx + |t|, m + t, n)
  {
    BlocksOfFront(m, t, n);
    forall k | 0 <= k < idx + |t| ensures buffer'[k] == (m + t)[64 * n + k] {
      if k >= idx {
        assert buffer'[idx + (k - idx)] == t[k - idx];
      }
    }
  }

  lemma BufferFlushes(state: Hash, buffer: Block, m: seq<Byte>, n: nat)
    requires Absorbed(state, buffer, 64, m, n)
    ensures Absorbed(Compress(state, buffer), buffer, 0, m, n + 1)
  {
    assert BlockOf(m, n) == buffer;
  }

  // ----- padding -----

  lemma Regroup(m: seq<Byte>)
    ensures Padded(m) == m + [0x80] + Zeros(Gap(|m|)) + Be64(8 * |m| % WIDE)
    ensures ((m + [0x80]) + Zeros(Gap(|m|))) + Be64(8 * |m| % WIDE) == Padded(m)
  {
  }

  lemma TakeMore(a: seq<Byte>, data: seq<Byte>, k: nat, n: nat)
    requires k + n <= |data|
    ensures (a + data[..k]) + data[k..k + n] == a + data[..k + n]
  {
  }

  lemma GapIs(n: nat, idx: nat)
    requires idx == n % 64
    ensures Gap(n) == if idx + 1 > 56 then 64 - (idx + 1) + 56 else 56 - (idx + 1)
  {
  }

  lemma ZerosJoin(m: seq<Byte>, a: nat, b: nat)
    ensures (m + Zeros(a)) + Zeros(b) == m + Zeros(a + b)
  {
  }

  /** The index into the buffer, from the wrapping bit count, is the length modulo 64. */
  lemma IndexIsLength(n: nat)
    ensures 8 * n % WIDE / 8 % 64 == n % 64
  {
    var q, r := 8 * n / WIDE, 8 * n % WIDE;
    assert 8 * n == q * WIDE + r;
    assert r == 8 * (n - q * 0x2000_0000_0000_0000);
  }

  lemma CountAdds(x: nat, y: nat)
    ensures (x % WIDE + y) % WIDE == (x + y) % WIDE
  {
    assert x == x / WIDE * WIDE + x % WIDE;
  }

  lemma SplitLength(len: nat, n: nat, idx: nat)
    requires len == 64 * n + idx && idx < 64
    ensures len % 64 == idx && len / 64 == n
  {
  }

  /** The hash of the padded message is there when the buffer has been flushed for the last time. */
  lemma HashedAll(state: Hash, buffer: seq<Byte>, m: seq<Byte>, n: nat)
    requires Absorbed(state, buffer, 0, Padded(m), n)
    ensures state == HashOf(m)
  {
    PaddedLength(m);
    SplitLength(|Padded(m)|, n, 0);
  }

  // ----- the context -----

  class Context {
    var state: Hash
    var bitCount: nat
    const buffer: array<Byte>
    ghost var msg: seq<Byte>
    ghost var blocks: nat

    /** Hashing what has been absorbed, with idx bytes in the buffer. */
    ghost predicate Holding(idx: nat)
      reads this, buffer
    {
      Absorbed(state, buffer[..], idx, msg, blocks)
    }

    ghost predicate Valid()
      reads this, buffer
    {
      Holding(|msg| % 64) && bitCount == 8 * |msg| % WIDE
    }

    constructor ()
      ensures Valid() && msg == [] && fresh(buffer)
    {
      state, bitCount := INITIAL, 0;
      buffer := new Byte[64](_ => 0);
      msg, blocks := [], 0;
    }

    /** Stores bytes behind the buffered ones. */
    method Fill(idx: nat, data: seq<Byte>)
      requires Holding(idx) && idx + |data| <= 64
      modifies this`msg, buffer
      ensures Holding(idx + |data|) && msg == old(msg) + data
    {
      ghost var was := buffer[..];
      for j := 0 to |data|
        modifies buffer
        invariant forall k :: 0 <= k < idx ==> buffer[k] == was[k]
        invariant forall k :: 0 <= k < j ==> buffer[idx + k] == data[k]
      {
        buffer[idx + j] := data[j];
      }
      BufferGrows(state, was, idx, msg, blocks, buffer[..], data);
      msg := msg + data;
    }

    /** Hashes a full buffer. */
    method Flush()
      requires Holding(64)
      modifies this`state, this`blocks
      ensures Holding(0)
    {
      BufferFlushes(state, buffer[..], msg, blocks);
      state := Transform(state, buffer[..]);
      blocks := blocks + 1;
    }

    /** The copy loop: chunks of at most what is left of the block. */
    method Absorb(data: seq<Byte>, at: nat) returns (idx: nat)
      requires Holding(at) && at < 64
      modifies this`msg, this`state, this`blocks, buffer
      ensures idx < 64 && Holding(idx) && msg == old(msg) + data
    {
      hide Blocks;
      ghost var m := msg;
      idx := at;
      var k := 0;
      assert data[..0] == [] && m + [] == m;
      while k < |data|
        invariant 0 <= k <= |data| && idx < 64 && Holding(idx) && msg == m + data[..k]
      {
        var n := if 64 - idx > |data| - k then |data| - k else 64 - idx;
        Fill(idx, data[k..k + n]);
        TakeMore(m, data, k, n);
        k := k + n;
        idx := idx + n;
        if idx == 64 {
          Flush();
          idx := 0;
        }
      }
      assert data[..k] == data;
    }

    method Update(data: seq<Byte>)
      requires Valid()
      modifies this, buffer
      ensures Valid() && msg == old(msg) + data
    {
      if |data| == 0 {
        assert old(msg) + data == old(msg);
        return;
      }
      IndexIsLength(|msg|);
      CountAdds(8 * |msg|, 8 * |data|);
      var idx := Absorb(data, bitCount / 8 % 64);
      bitCount := (bitCount + 8 * |data|) % WIDE;
      SplitLength(|msg|, blocks, idx);
    }

    /** Marker and zeros, up to the place of the length: this may fill a block. */
    method PadToLength(idx: nat)
      requires Holding(idx) && idx == |msg| % 64
      modifies this`msg, this`state, this`blocks, buffer
      ensures Holding(56) && msg == old(msg) + [0x80] + Zeros(Gap(|old(msg)|))
    {
      GapIs(|msg|, idx);
      ghost var m := msg + [0x80];
      Fill(idx, [0x80]);
      if idx + 1 > 56 {
        Fill(idx + 1, Zeros(64 - (idx + 1)));
        Flush();
        Fill(0, Zeros(56));
        ZerosJoin(m, 64 - (idx + 1), 56);
      } else {
        Fill(idx + 1, Zeros(56 - (idx + 1)));
      }
    }

    /** The last block ends with the length. */
    method Pad()
      requires Valid()
      modifies this`msg, this`state, this`blocks, buffer
      ensures Holding(0) && msg == Padded(old(msg))
    {
      IndexIsLength(|msg|);
      Regroup(msg);
      PadToLength(bitCount / 8 % 64);
      Fill(56, Be64(bitCount));
      Flush();
    }

    /** The digest of everything absorbed; the context is used up. */
    method Final(digest: array<Byte>)
      requires Valid() && digest.Length == 32 && digest != buffer
      modifies this, buffer, digest
      ensures digest[..] == Digest(HashOf(old(msg)))
    {
      ghost var m := msg;
      Pad();
      HashedAll(state, buffer[..], m, blocks);
      StoreAll(digest, Digest(state));
    }
  }

  method StoreAll(dst: array<Byte>, data: seq<Byte>)
    requires dst.Length == |data|
    modifies dst
    ensures dst[..] == data
  {
    for i := 0 to |data|
      invariant dst[..i] == data[..i]
    {
      dst[i] := data[i];
    }
  }

  function Concat(parts: seq<seq<Byte>>): seq<Byte> {
    if |parts| == 0 then [] else Concat(parts[..|parts| - 1]) + parts[|parts| - 1]
  }

  /** Any split of a message into updates: the digest depends on the whole only. */
  method DigestOfParts(parts: seq<seq<Byte>>) returns (digest: array<Byte>)
    ensures digest[..] == Digest(HashOf(Concat(parts)))
  {
    var ctx := new Context();
    digest := new Byte[32];
    for i := 0 to |parts|
      invariant ctx.Valid() && fresh(ctx) && fresh(ctx.buffer) && fresh(digest) && digest != ctx.buffer
      invariant ctx.msg == Concat(parts[..i])
    {
      ctx.Update(parts[i]);
      assert parts[..i + 1][..i] == parts[..i];
    }
    assert parts[..|parts|] == parts;
    ctx.Final(digest);
  }

  /** The one-shot call. */
  method OneShot(data: seq<Byte>) returns (digest: array<Byte>)
    ensures digest[..] == Digest(HashOf(data))
  {
    var ctx := new Context();
    digest := new Byte[32];
    ctx.Update(data);
    assert [] + data == data;
    ctx.Final(digest);
  }
}
