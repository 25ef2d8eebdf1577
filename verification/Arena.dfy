/** The bump allocator: an offset that only grows, until it is wound back to a mark. Addresses are words that wrap. */
module Arena {
  import opened Bytes
  import opened Words

  /** A piece of memory handed out: [start, end). */
  datatype Region = Region(start: nat, end: nat)

  /** `live` lists the regions handed out and not wound back, oldest first. */
  datatype ArenaState = ArenaState(base: nat, capacity: nat, offset: nat, peak: nat, live: seq<Region>) {

    /** The live regions are in address order, apart, and inside what is used; the peak covers the offset. */
    ghost predicate WellFormed(word: nat) {
      && PowerOfTwo(word) && 0 < base && base + capacity <= word && offset <= capacity && offset <= peak <= capacity
      && (forall k :: 0 <= k < |live| ==> base <= live[k].start < live[k].end <= base + offset)
      && (forall j, k :: 0 <= j < k < |live| ==> live[j].end <= live[k].start)
    }

    /** The alignment asked for: zero stands for the pointer size; what is no power of two is refused. */
    function Effective(align: nat, ptr: nat): nat {
      if align == 0 then ptr else if BitAnd(align, align - 1) != 0 then 0 else align
    }

    /** Zero, or the address; with the words of the machine as they wrap. */
    function Alloc(size: nat, align: nat, word: nat, ptr: nat): (nat, ArenaState)
      requires base < word && capacity <= word && offset <= capacity && ptr < word && align < word
    {
      var a := Effective(align, ptr);
      if size == 0 || a == 0 then (0, this) else Bump(size, a, word)
    }

    function Bump(size: nat, a: nat, word: nat): (nat, ArenaState)
      requires base < word && capacity <= word && offset <= capacity && 0 < a <= word
    {
      var curr := Plus(base, offset, word);
      var aligned := AlignUp(curr, a, word);
      var padding := Minus(aligned, curr, word);
      if padding > capacity - offset || size > capacity - offset - padding then (0, this)
      else
        var used := offset + padding + size;
        (aligned, this.(offset := used, peak := if used > peak then used else peak,
                        live := live + [Region(aligned, aligned + size)]))
    }

    /** A mark beyond the offset is ignored. */
    function Rewind(mark: nat): ArenaState {
      if mark <= offset then this.(offset := mark, live := Kept(live, base + mark)) else this
    }

    function Reset(): ArenaState {
      this.(offset := 0, live := [])
    }
  }

  /** The front of the list that ends at the limit. */
  function Kept(live: seq<Region>, limit: nat): seq<Region> {
    if |live| == 0 || live[|live| - 1].end <= limit then live else Kept(live[..|live| - 1], limit)
  }

  predicate Ordered(live: seq<Region>) {
    && (forall k :: 0 <= k < |live| ==> live[k].start < live[k].end)
    && (forall j, k :: 0 <= j < k < |live| ==> live[j].end <= live[k].start)
  }

  /** Winding back forgets exactly the regions that reach beyond the mark. */
  lemma {:induction false} KeptExactly(live: seq<Region>, limit: nat)
    requires Ordered(live)
    ensures Kept(live, limit) <= live
    ensures forall k :: 0 <= k < |live| ==> (k < |Kept(live, limit)| <==> live[k].end <= limit)
    decreases |live|
  {
    if |live| > 0 && live[|live| - 1].end > limit {
      KeptExactly(live[..|live| - 1], limit);
    }
  }

  // ----- what allocation promises -----

  lemma PaddingFound(curr: nat, a: nat, word: nat)
    requires PowerOfTwo(word) && PowerOfTwo(a) && a <= word && curr < word
    ensures Minus(AlignUp(curr, a, word), curr, word) == Padding(curr, a)
    ensures curr + Padding(curr, a) < word ==> AlignUp(curr, a, word) == curr + Padding(curr, a)
  {
    AlignUpPads(curr, a, word);
    if curr == 0 {
      ModUnique(0, a, 0, 0);
    }
  }

  lemma BumpExactly(s: ArenaState, size: nat, a: nat, word: nat)
    requires s.WellFormed(word) && PowerOfTwo(a) && a <= word && s.base < word && size > 0
    ensures var (p, t) := s.Bump(size, a, word); var pad := Padding(s.base + s.offset, a);
      if pad + size > s.capacity - s.offset then (p, t) == (0, s)
      else p == s.base + s.offset + pad && t.live == s.live + [Region(p, p + size)]
           && t.offset == s.offset + pad + size && t.base == s.base && t.capacity == s.capacity
           && t.peak == if t.offset > s.peak then t.offset else s.peak
  {
    hide PowerOfTwo, Padding, AlignUp;
    var here := s.base + s.offset;
    if here < word {
      PaddingFound(here, a, word);
    } else {
      PaddingFound(0, a, word);
    }
  }

  lemma LiveGrows(s: ArenaState, t: ArenaState, word: nat, p: nat, size: nat)
    requires s.WellFormed(word) && 0 < size && s.base + s.offset <= p && p + size <= s.base + s.capacity
    requires t == s.(offset := p + size - s.base, live := s.live + [Region(p, p + size)], peak := t.peak)
    requires t.peak == if t.offset > s.peak then t.offset else s.peak
    ensures t.WellFormed(word)
  {
  }

  /** The alignment of a request: none stands for that of a pointer, and only a power of two is one. */
  lemma EffectiveExactly(s: ArenaState, align: nat, word: nat, ptr: nat)
    requires PowerOfTwo(ptr) && ptr < word && align < word
    ensures s.Effective(align, ptr) == if align == 0 then ptr else if PowerOfTwo(align) then align else 0
    ensures var a := s.Effective(align, ptr); a > 0 ==> PowerOfTwo(a) && a < word
  {
    PowerIsPositive(ptr);
    if align > 0 {
      MaskTest(align);
    }
  }

  lemma BumpPlaces(s: ArenaState, size: nat, a: nat, word: nat)
    requires s.WellFormed(word) && PowerOfTwo(a) && a <= word && s.base < word && size > 0
    requires Padding(s.base + s.offset, a) + size <= s.capacity - s.offset
    ensures var (p, t) := s.Bump(size, a, word);
      && t.WellFormed(word) && p != 0 && Aligned(p, a)
      && p == s.base + s.offset + Padding(s.base + s.offset, a)
      && p + size == t.base + t.offset <= s.base + s.capacity
      && t == s.(offset := t.offset, peak := t.peak, live := s.live + [Region(p, p + size)])
  {
    hide PowerOfTwo, Padding, Aligned, AlignUp;
    var here := s.base + s.offset;
    BumpExactly(s, size, a, word);
    PaddingAligns(here, a);
    AlignedIsMod(here + Padding(here, a), a);
    LiveGrows(s, s.Bump(size, a, word).1, word, here + Padding(here, a), size);
  }

  /**
   * Allocation succeeds exactly when padding and size fit behind the offset, also where the aligned address wraps.
   * The region is aligned, behind everything handed out before, inside the buffer, and as low as can be.
   */
  lemma AllocExactly(s: ArenaState, size: nat, align: nat, word: nat, ptr: nat)
    requires s.WellFormed(word) && PowerOfTwo(ptr) && ptr < word && align < word && s.base < word
    ensures var a := if align == 0 then ptr else if PowerOfTwo(align) then align else 0;
      var (p, t) := s.Alloc(size, align, word, ptr);
      && t.WellFormed(word)
      && (p != 0 <==> size > 0 && a > 0 && Padding(s.base + s.offset, a) + size <= s.capacity - s.offset)
      && (p == 0 ==> t == s)
      && (p != 0 ==> p == s.base + s.offset + Padding(s.base + s.offset, a) && Aligned(p, a)
                     && p + size == t.base + t.offset <= s.base + s.capacity
                     && t.peak == (if t.offset > s.peak then t.offset else s.peak)
                     && t == s.(offset := t.offset, peak := t.peak, live := s.live + [Region(p, p + size)]))
  {
    hide PowerOfTwo, Padding, Aligned, ArenaState.Bump, ArenaState.Effective, ArenaState.WellFormed;
    PowerIsPositive(ptr);
    EffectiveExactly(s, align, word, ptr);
    var a := s.Effective(align, ptr);
    if a > 0 && size > 0 {
      BumpExactly(s, size, a, word);
      if Padding(s.base + s.offset, a) + size <= s.capacity - s.offset {
        BumpPlaces(s, size, a, word);
      }
    }
  }

  lemma Bounds(s: ArenaState, word: nat)
    requires s.WellFormed(word)
    ensures 0 < s.base && s.base + s.capacity <= word && s.offset <= s.capacity && s.offset <= s.peak
    ensures PowerOfTwo(word)
  {
  }

  /** Winding back to the mark taken before undoes an allocation, but for the peak. */
  lemma RewindUndoes(s: ArenaState, size: nat, align: nat, word: nat, ptr: nat)
    requires s.WellFormed(word) && PowerOfTwo(ptr) && ptr < word && align < word && s.base < word
    ensures var t := s.Alloc(size, align, word, ptr).1; t.Rewind(s.offset) == s.(peak := t.peak)
  {
    hide PowerOfTwo, Padding, Aligned, ArenaState.Alloc;
    AllocExactly(s, size, align, word, ptr);
    var (p, t) := s.Alloc(size, align, word, ptr);
    assert Kept(s.live, s.base + s.offset) == s.live;
    if p != 0 {
      assert t.live[..|t.live| - 1] == s.live;
      assert Kept(t.live, s.base + s.offset) == Kept(s.live, s.base + s.offset);
    }
  }

  predicate Survives(s: ArenaState, mark: nat, r: Region) {
    mark > s.offset || r.end <= s.base + mark
  }

  /** Winding back forgets exactly what reaches beyond the mark. */
  lemma RewindKeeps(s: ArenaState, mark: nat, word: nat)
    requires s.WellFormed(word)
    ensures s.Rewind(mark).WellFormed(word)
    ensures forall k :: 0 <= k < |s.live| ==> (k < |s.Rewind(mark).live| <==> Survives(s, mark, s.live[k]))
  {
    KeptExactly(s.live, s.base + mark);
  }

  // ----- the allocator itself -----

  class Arena {
    const word: nat
    const ptr: nat
    var base: nat
    var capacity: nat
    var offset: nat
    var peak: nat
    ghost var live: seq<Region>

    ghost function View(): ArenaState
      reads this
    {
      ArenaState(base, capacity, offset, peak, live)
    }

    ghost predicate Valid()
      reads this
    {
      View().WellFormed(word) && base < word && PowerOfTwo(ptr) && ptr < word
    }

    constructor (w: nat, p: nat, buffer: nat, size: nat)
      requires PowerOfTwo(w) && PowerOfTwo(p) && p < w && 0 < buffer < w && 0 < size && buffer + size <= w
      ensures Valid() && View() == ArenaState(buffer, size, 0, 0, []) && word == w && ptr == p
    {
      word, ptr := w, p;
      base, capacity, offset, peak := buffer, size, 0, 0;
      live := [];
    }

    method Alloc(size: nat, alignment: nat) returns (p: nat)
      requires Valid() && size < word && alignment < word
      modifies this
      ensures Valid() && (p, View()) == old(View().Alloc(size, alignment, word, ptr))
    {
      hide PowerOfTwo, Padding, Aligned, ArenaState.WellFormed;
      PowerIsPositive(ptr);
      Bounds(View(), word);
      AllocExactly(View(), size, alignment, word, ptr);
      if size == 0 {
        return 0;
      }
      var align := alignment;
      if align == 0 {
        align := ptr;
      } else if BitAnd(align, align - 1) != 0 {
        return 0;
      }
      var curr := Plus(base, offset, word);
      p := AlignUp(curr, align, word);
      var padding := Minus(p, curr, word);
      if padding > capacity - offset || size > capacity - offset - padding {
        return 0;
      }
      offset := offset + (padding + size);
      if offset > peak {
        peak := offset;
      }
      live := live + [Region(p, p + size)];
    }

    method Rewind(mark: nat)
      requires Valid()
      modifies this
      ensures Valid() && View() == old(View()).Rewind(mark)
      ensures offset == if mark <= old(offset) then mark else old(offset)
      ensures base == old(base) && capacity == old(capacity) && peak == old(peak)
    {
      RewindKeeps(View(), mark, word);
      if mark <= offset {
        offset := mark;
        live := Kept(live, base + mark);
      }
    }

    method Reset()
      requires Valid()
      modifies this
      ensures Valid() && View() == old(View()).Reset()
      ensures offset == 0 && live == [] && base == old(base) && capacity == old(capacity) && peak == old(peak)
    {
      offset := 0;
      live := [];
    }
  }

  /** A null buffer or an empty one is refused. */
  method Init(word: nat, ptr: nat, buffer: nat, size: nat) returns (st: Status, arena: Arena?)
    requires PowerOfTwo(word) && PowerOfTwo(ptr) && ptr < word && buffer < word && buffer + size <= word
    ensures st == if buffer == 0 || size == 0 then InvalidArg else Ok
    ensures st == Ok <==> arena != null
    ensures st == Ok ==> arena.Valid() && arena.View() == ArenaState(buffer, size, 0, 0, [])
  {
    if buffer == 0 || size == 0 {
      return InvalidArg, null;
    }
    st := Ok;
    arena := new Arena(word, ptr, buffer, size);
  }
}
