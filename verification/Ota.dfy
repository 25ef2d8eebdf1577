/** Verification of a downloaded image: its checksum, read in chunks, against the one of the descriptor. */
module Ota {
  import opened Bytes
  import opened Words
  import Crc32

  const CHUNK: nat := 128
  const WORD: nat := 0x1_0000_0000

  /** Reading flash: a range that is not in the device is refused by the driver. */
  function Read(flash: seq<Byte>, addr: nat, n: nat): Option<seq<Byte>> {
    if addr + n > |flash| then None else Some(flash[addr..addr + n])
  }

  /** The verdict, from the one-shot checksum of the whole image. */
  function Verdict(flash: seq<Byte>, slot: nat, size: nat, crc: U32): Status {
    if size == 0 || slot + size > |flash| then InvalidArg
    else if Crc32.Crc(flash[slot..slot + size]) == crc then Ok
    else Corrupted
  }

  /** The register after k bytes of the image. */
  function Partial(flash: seq<Byte>, slot: nat, k: nat): bv32
    requires slot + k <= |flash|
  {
    Crc32.Fold(Crc32.ONES, flash[slot..slot + k])
  }

  lemma PartialEnds(flash: seq<Byte>, slot: nat, size: nat)
    requires slot + size <= |flash|
    ensures Partial(flash, slot, 0) == Crc32.ONES
    ensures Crc32.Final(Partial(flash, slot, size)) == Crc32.Crc(flash[slot..slot + size])
  {
  }

  lemma PartialGrows(flash: seq<Byte>, slot: nat, k: nat, n: nat)
    requires slot + k + n <= |flash|
    ensures Crc32.Fold(Partial(flash, slot, k), flash[slot + k..slot + k + n]) == Partial(flash, slot, k + n)
  {
    Crc32.FoldConcat(Crc32.ONES, flash[slot..slot + k], flash[slot + k..slot + k + n]);
    assert flash[slot..slot + k] + flash[slot + k..slot + k + n] == flash[slot..slot + k + n];
  }

  /** The function given says what the register holds after k bytes. */
  ghost predicate IsPartial(part: nat -> bv32, flash: seq<Byte>, slot: nat) {
    forall k: nat {:trigger Partial(flash, slot, k)} :: slot + k <= |flash| ==> part(k) == Partial(flash, slot, k)
  }

  /** One chunk: read, and fold what was read into the register. */
  method Chunk(flash: seq<Byte>, slot: nat, k: nat, n: nat, acc: bv32, ghost part: nat -> bv32)
    returns (r: Option<bv32>)
    requires IsPartial(part, flash, slot) && (slot + k <= |flash| ==> acc == part(k))
    ensures r == if slot + k + n <= |flash| then Some(part(k + n)) else None
  {
    var data := Read(flash, slot + k, n);
    if data.None? {
      return None;
    }
    PartialGrows(flash, slot, k, n);
    var c := Crc32.Step(acc, data.value);
    r := Some(c);
  }

  /** The chunk loop over address and remaining bytes. The device is smaller than the 32-bit address space. */
  method Accumulate(flash: seq<Byte>, slot: nat, size: nat, start: bv32, ghost part: nat -> bv32)
    returns (r: Option<bv32>)
    requires |flash| < WORD && slot < WORD && 0 < size < WORD
    requires IsPartial(part, flash, slot) && start == part(0)
    ensures r == if slot + size <= |flash| then Some(part(size)) else None
  {
    var remaining, curr, acc := size, slot, start;
    while remaining > 0
      invariant 0 <= remaining <= size && curr == slot + (size - remaining)
      invariant remaining < size ==> curr <= |flash|
      invariant acc == part(size - remaining)
    {
      var n := if remaining > CHUNK then CHUNK else remaining;
      var next := Chunk(flash, slot, curr - slot, n, acc, part);
      if next.None? {
        return None;
      }
      acc := next.value;
      curr := Plus(curr, n, WORD);
      remaining := remaining - n;
    }
    r := Some(acc);
  }

  /** The chunked verification decides as the one-shot checksum does. */
  method VerifyImage(flash: seq<Byte>, slot: nat, size: nat, crc: U32) returns (st: Status)
    requires |flash| < WORD && slot < WORD && size < WORD
    ensures st == Verdict(flash, slot, size, crc)
    ensures st == InvalidArg <==> size == 0 || slot + size > |flash|
    ensures st == Ok <==> size > 0 && slot + size <= |flash| && Crc32.Crc(flash[slot..slot + size]) == crc
    ensures st in {Ok, Corrupted, InvalidArg}
  {
    if size == 0 {
      return InvalidArg;
    }
    ghost var part := (k: nat) => if slot + k <= |flash| then Partial(flash, slot, k) else Crc32.ONES;
    var acc := Accumulate(flash, slot, size, Crc32.ONES, part);
    if acc.None? {
      return InvalidArg;
    }
    PartialEnds(flash, slot, size);
    st := if Crc32.Final(acc.value) != crc then Corrupted else Ok;
  }

  lemma PartIsBurst(flash: seq<Byte>, flash': seq<Byte>, slot: nat, size: nat, at: nat, n: nat)
    requires Crc32.Burst(flash, flash', at, n) && slot <= at && at + n <= slot + size <= |flash|
    ensures Crc32.Burst(flash[slot..slot + size], flash'[slot..slot + size], at - slot, n)
  {
    var s, t := flash[slot..slot + size], flash'[slot..slot + size];
    var k :| 0 <= k < |flash| && flash[k] != flash'[k];
    assert s[k - slot] != t[k - slot];
  }

  /** Damage inside four adjacent bytes of an image that was good is always noticed. */
  lemma DamageIsNoticed(flash: seq<Byte>, flash': seq<Byte>, slot: nat, size: nat, crc: U32, at: nat, n: nat)
    requires Verdict(flash, slot, size, crc) == Ok
    requires Crc32.Burst(flash, flash', at, n) && n <= 4 && slot <= at && at + n <= slot + size
    ensures Verdict(flash', slot, size, crc) == Corrupted
  {
    PartIsBurst(flash, flash', slot, size, at, n);
    Crc32.BurstDetected(flash[slot..slot + size], flash'[slot..slot + size], at - slot, n);
  }
}
