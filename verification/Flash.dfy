/**
 * NOR flash behind its driver, as a row of equal sectors: erasing sets a sector to 0xFF, programming only
 * clears bits. A position is a sector and an offset in it; the byte after the last one of a sector is the
 * first one of the next sector.
 */
module Flash {
  import opened Bytes

  type Image = seq<seq<Byte>>

  /** One completed driver call; `after` is what a power cut right after it leaves behind. */
  datatype Event =
    | Erase(sector: nat, after: Image)
    | Program(sector: nat, off: nat, data: seq<Byte>, before: Image, after: Image)

  /** The first n bytes of data are stored from `start` on; a negative start is in the sector before. */
  predicate StoredTo(before: seq<Byte>, start: int, data: seq<Byte>, n: nat, after: seq<Byte>) {
    && n <= |data| && |before| == |after|
    && forall k :: 0 <= k < |before| ==>
         after[k] == if start <= k < start + n then data[k - start] else before[k]
  }

  /** The effect of storing data at an offset: nothing else changes. */
  predicate Stored(before: seq<Byte>, off: nat, data: seq<Byte>, after: seq<Byte>) {
    off + |data| <= |before| && StoredTo(before, off, data, |data|, after)
  }

  /** At most the bytes that the data was meant for have changed, and only to the data. */
  predicate Touched(before: seq<Byte>, start: int, data: seq<Byte>, after: seq<Byte>) {
    && |before| == |after|
    && forall k :: 0 <= k < |before| ==>
         after[k] == before[k] || (start <= k < start + |data| && after[k] == data[k - start])
  }

  predicate Shaped(img: Image, size: nat) {
    forall t :: 0 <= t < |img| ==> |img[t]| == size
  }

  // ----- programming, byte by byte -----

  /** Offset `at` of sector s, or of the sector behind it. */
  predicate Reaches(img: Image, size: nat, s: nat, at: nat) {
    Shaped(img, size) && s < |img| && at < 2 * size && (at < size || s + 1 < |img|)
  }

  function Cell(img: Image, size: nat, s: nat, at: nat): Byte
    requires Reaches(img, size, s, at)
  {
    if at < size then img[s][at] else img[s + 1][at - size]
  }

  function With(sector: seq<Byte>, at: nat, v: Byte): seq<Byte>
    requires at < |sector|
  {
    sector[at := v]
  }

  function Poke(img: Image, size: nat, s: nat, at: nat, v: Byte): Image
    requires Reaches(img, size, s, at)
  {
    if at < size then img[s := With(img[s], at, v)] else img[s + 1 := With(img[s + 1], at - size, v)]
  }

  /** The data starts in sector s and ends in it or in the sector behind it. */
  predicate Spans(img: Image, size: nat, s: nat, off: nat, data: seq<Byte>) {
    && Shaped(img, size) && s < |img| && off <= size && |data| <= size
    && (off + |data| <= size || s + 1 < |img|)
  }

  /** The first byte from i on that needs a 0 to become a 1, or the end of the data. */
  function FirstStuck(img: Image, size: nat, s: nat, off: nat, data: seq<Byte>, i: nat): (r: nat)
    requires Spans(img, size, s, off, data) && i <= |data|
    ensures i <= r <= |data|
    decreases |data| - i
  {
    if i == |data| || And(Cell(img, size, s, off + i), data[i]) != data[i] then i
    else FirstStuck(img, size, s, off, data, i + 1)
  }

  /** Some bit of the cell would have to become a 1 again. */
  ghost predicate Sticks(cell: Byte, v: Byte) {
    exists k: bv4 :: k < 8 && ByteBit(v, k) && !ByteBit(cell, k)
  }

  /** Programming stops at the first byte that sticks. */
  lemma {:induction false} StuckExactly(img: Image, size: nat, s: nat, off: nat, data: seq<Byte>, i: nat)
    requires Spans(img, size, s, off, data) && i <= |data|
    ensures var n := FirstStuck(img, size, s, off, data, i);
      && (n < |data| ==> Sticks(Cell(img, size, s, off + n), data[n]))
      && forall j :: i <= j < n ==> !Sticks(Cell(img, size, s, off + j), data[j])
    decreases |data| - i
  {
    hide And, ByteBit, Cell;
    if i < |data| {
      AndKeepsExactly(Cell(img, size, s, off + i), data[i]);
      StuckExactly(img, size, s, off, data, i + 1);
    }
  }

  predicate CellsErased(img: Image, size: nat, s: nat, off: nat, data: seq<Byte>)
    requires Spans(img, size, s, off, data)
  {
    if off + |data| <= size then IsErased(img[s], off, |data|)
    else IsErased(img[s], off, size - off) && IsErased(img[s + 1], 0, off + |data| - size)
  }

  /** On erased cells programming always succeeds. */
  lemma {:induction false} ErasedNeverSticks(img: Image, size: nat, s: nat, off: nat, data: seq<Byte>, i: nat)
    requires Spans(img, size, s, off, data) && i <= |data| && CellsErased(img, size, s, off, data)
    ensures FirstStuck(img, size, s, off, data, i) == |data|
    decreases |data| - i
  {
    if i < |data| {
      AndErased(data[i]);
      ErasedNeverSticks(img, size, s, off, data, i + 1);
    }
  }

  /** Exactly the first n bytes of the data are programmed. */
  predicate Programmed(img: Image, size: nat, s: nat, off: nat, data: seq<Byte>, n: nat, img': Image)
    requires Spans(img, size, s, off, data)
  {
    && |img'| == |img| && Shaped(img', size)
    && StoredTo(img[s], off, data, n, img'[s])
    && (s + 1 < |img| ==> StoredTo(img[s + 1], off - size, data, n, img'[s + 1]))
    && forall t :: 0 <= t < |img| && t != s && t != s + 1 ==> img'[t] == img[t]
  }

  lemma ProgrammedNothing(img: Image, size: nat, s: nat, off: nat, data: seq<Byte>)
    requires Spans(img, size, s, off, data)
    ensures Programmed(img, size, s, off, data, 0, img)
  {
  }

  lemma ProgrammedCell(img: Image, size: nat, s: nat, off: nat, data: seq<Byte>, n: nat, img': Image)
    requires Spans(img, size, s, off, data) && n < |data| && Programmed(img, size, s, off, data, n, img')
    ensures Reaches(img', size, s, off + n) && Cell(img', size, s, off + n) == Cell(img, size, s, off + n)
  {
  }

  lemma ProgrammedNext(img: Image, size: nat, s: nat, off: nat, data: seq<Byte>, n: nat, img': Image)
    requires Spans(img, size, s, off, data) && n < |data| && Programmed(img, size, s, off, data, n, img')
    requires Reaches(img', size, s, off + n)
    ensures Programmed(img, size, s, off, data, n + 1, Poke(img', size, s, off + n, data[n]))
  {
  }

  /** Data that stays inside its sector changes no other one. */
  lemma ProgrammedInside(img: Image, size: nat, s: nat, off: nat, data: seq<Byte>, n: nat, img': Image)
    requires Spans(img, size, s, off, data) && n <= |data| && off + |data| <= size
    requires Programmed(img, size, s, off, data, n, img')
    ensures img' == img[s := img'[s]] && (n == |data| ==> Stored(img[s], off, data, img'[s]))
  {
    assert s + 1 < |img| ==> img'[s + 1] == img[s + 1];
  }

  lemma ProgrammedTouches(img: Image, size: nat, s: nat, off: nat, data: seq<Byte>, n: nat, img': Image)
    requires Spans(img, size, s, off, data) && n <= |data| && Programmed(img, size, s, off, data, n, img')
    ensures Touched(img[s], off, data, img'[s])
    ensures s + 1 < |img| ==> Touched(img[s + 1], off - size, data, img'[s + 1])
  {
  }

  class Device {
    const size: nat
    var sectors: Image
    var trace: seq<Event>

    constructor (size: nat, sectors: Image)
      ensures this.size == size && this.sectors == sectors && trace == []
    {
      this.size := size;
      this.sectors := sectors;
      trace := [];
    }

    /** Programs one byte, if that needs no 0 to become a 1. */
    method Clear(s: nat, at: nat, v: Byte) returns (ok: bool)
      requires Reaches(sectors, size, s, at)
      modifies this`sectors
      ensures ok == (And(Cell(old(sectors), size, s, at), v) == v)
      ensures sectors == if ok then Poke(old(sectors), size, s, at, v) else old(sectors)
    {
      var cell := And(Cell(sectors, size, s, at), v);
      ok := cell == v;
      if ok {
        sectors := Poke(sectors, size, s, at, cell);
      }
    }

    /** Programs byte by byte up to the first byte that would need a 0 to become a 1. */
    method Burn(s: nat, off: nat, data: seq<Byte>) returns (n: nat)
      requires Spans(sectors, size, s, off, data)
      modifies this`sectors
      ensures n == FirstStuck(old(sectors), size, s, off, data, 0)
      ensures Programmed(old(sectors), size, s, off, data, n, sectors)
    {
      hide And, Poke, Cell, Programmed;
      ghost var img := sectors;
      n := 0;
      ProgrammedNothing(img, size, s, off, data);
      while n < |data|
        invariant n <= |data| && Programmed(img, size, s, off, data, n, sectors)
        invariant FirstStuck(img, size, s, off, data, n) == FirstStuck(img, size, s, off, data, 0)
      {
        ProgrammedCell(img, size, s, off, data, n, sectors);
        ProgrammedNext(img, size, s, off, data, n, sectors);
        var ok := Clear(s, off + n, data[n]);
        if !ok {
          return;
        }
        n := n + 1;
      }
    }

    /**
     * Programs the data; at the first byte that would need a 0 to become a 1 it stops with an I/O error, and
     * exactly the bytes before it are stored. A range that leaves the device is refused as a whole.
     */
    method Write(s: nat, off: nat, data: seq<Byte>) returns (st: Status)
      requires s < |sectors| && Shaped(sectors, size) && off <= size && |data| <= size
      modifies this
      ensures |sectors| == |old(sectors)| && Shaped(sectors, size)
      ensures !Spans(old(sectors), size, s, off, data) <==> off + |data| > size && s + 1 == |sectors|
      ensures !Spans(old(sectors), size, s, off, data) ==>
                st == InvalidArg && sectors == old(sectors) && trace == old(trace)
      ensures Spans(old(sectors), size, s, off, data) ==>
                var n := FirstStuck(old(sectors), size, s, off, data, 0);
                && st == (if n == |data| then Ok else Io)
                && Programmed(old(sectors), size, s, off, data, n, sectors)
                && trace == old(trace) + [Program(s, off, data, old(sectors), sectors)]
    {
      if off + |data| > size && s + 1 == |sectors| {
        return InvalidArg;
      }
      var before := sectors;
      var n := Burn(s, off, data);
      st := if n == |data| then Ok else Io;
      trace := trace + [Program(s, off, data, before, sectors)];
    }

    method EraseSector(s: nat)
      requires s < |sectors| && Shaped(sectors, size)
      modifies this
      ensures sectors == old(sectors)[s := Erased(size)]
      ensures trace == old(trace) + [Erase(s, sectors)]
    {
      sectors := sectors[s := Erased(size)];
      trace := trace + [Erase(s, sectors)];
    }
  }
}
