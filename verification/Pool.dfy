/**
 * The block pool: a free list threaded through the free blocks themselves, beside a bitmap of the blocks that are
 * out. Addresses are words; a block is known by its number. The first word of every block is modelled, since that
 * is where the list lives while the block is free and where the client writes while it is not.
 */
module Pool {
  import opened Bytes
  import opened Words
  import opened Bitmap
  import opened PoolLayout

  // ----- the pool as its clients see it -----

  /**
   * `free` lists the numbers of the free blocks, the next one to be handed out first; addresses are below `word`,
   * and the blocks may end exactly there.
   */
  datatype PoolState = PoolState(word: nat, storage: nat, blockSize: nat, capacity: nat, free: seq<nat>) {

    ghost predicate WellFormed() {
      && storage > 0 && blockSize > 0 && storage < word && Top() <= word
      && (forall k :: 0 <= k < |free| ==> free[k] < capacity)
      && (forall j, k :: 0 <= j < k < |free| ==> free[j] != free[k])
    }

    predicate Out(i: nat) {
      i < capacity && i !in free
    }

    function Addr(i: nat): nat {
      storage + i * blockSize
    }

    /** The first byte behind the blocks. */
    function Top(): nat {
      storage + capacity * blockSize
    }

    /** The same as the code computes it, in a word. */
    function End(): nat {
      if Top() < word then Top() else Top() - word
    }

    /** The first byte behind the blocks has an address. */
    predicate EndsBelowWord() {
      Top() < word
    }

    predicate InRange(p: nat) {
      storage <= p < End()
    }

    /** The address is that of a block, as far as the range check can tell. */
    predicate IsBlock(p: nat)
      requires blockSize > 0
    {
      InRange(p) && (p - storage) % blockSize == 0
    }

    function Number(p: nat): nat
      requires blockSize > 0 && storage <= p
    {
      (p - storage) / blockSize
    }

    /** The next free block, or 0. */
    function Alloc(): (nat, PoolState) {
      if |free| == 0 then (0, this) else (Addr(free[0]), this.(free := free[1..]))
    }

    function Free(p: nat): (Status, PoolState)
      requires blockSize > 0
    {
      if !IsBlock(p) || !Out(Number(p)) then (InvalidArg, this)
      else (Ok, this.(free := [Number(p)] + free))
    }
  }

  lemma AddrInside(s: PoolState, i: nat)
    requires s.blockSize > 0 && i < s.capacity
    ensures s.storage <= s.Addr(i) < s.Addr(i) + s.blockSize <= s.Top()
  {
    MulMonotone(i + 1, s.capacity, s.blockSize);
    assert (i + 1) * s.blockSize == i * s.blockSize + s.blockSize;
  }

  /** The range check knows the blocks if and only if the end of the pool has an address. */
  lemma AddrNumber(s: PoolState, i: nat)
    requires s.WellFormed() && i < s.capacity
    ensures s.IsBlock(s.Addr(i)) <==> s.EndsBelowWord()
    ensures s.Number(s.Addr(i)) == i
  {
    ModUnique(i * s.blockSize, s.blockSize, i, 0);
    AddrInside(s, i);
  }

  lemma NumberAddr(s: PoolState, p: nat)
    requires s.WellFormed() && s.IsBlock(p)
    ensures s.Number(p) < s.capacity && s.Addr(s.Number(p)) == p && s.EndsBelowWord()
  {
    var off := p - s.storage;
    assert off == off / s.blockSize * s.blockSize + off % s.blockSize;
    if s.Number(p) >= s.capacity {
      MulMonotone(s.capacity, s.Number(p), s.blockSize);
      assert false;
    }
  }

  // ----- what the operations promise -----

  /** Alloc hands out a block that was not out, and marks exactly that one. */
  lemma AllocTakesFree(s: PoolState)
    requires s.WellFormed()
    ensures s.Alloc().1.WellFormed() && (s.Alloc().0 == 0 <==> s.free == [])
    ensures s.free == [] <==> forall i :: 0 <= i < s.capacity ==> s.Out(i)
    ensures s.free != [] ==> var i := s.free[0];
      && s.Alloc().0 == s.Addr(i) && i < s.capacity && !s.Out(i)
      && forall j :: 0 <= j < s.capacity ==> (s.Alloc().1.Out(j) <==> j == i || s.Out(j))
  {
    if s.free != [] {
      var i, t := s.free[0], s.Alloc().1;
      assert i in s.free && !s.Out(i);
      forall j | 0 <= j < s.capacity ensures t.Out(j) <==> j == i || s.Out(j) {
        assert s.free == [i] + t.free;
        assert forall k :: 0 <= k < |t.free| ==> t.free[k] == s.free[k + 1];
      }
    }
  }

  /** Different numbers below n: there are at most n of them. */
  lemma {:induction false} Pigeonhole(xs: seq<nat>, n: nat)
    requires forall k :: 0 <= k < |xs| ==> xs[k] < n
    requires forall j, k :: 0 <= j < k < |xs| ==> xs[j] != xs[k]
    ensures |xs| <= n
    decreases n
  {
    if |xs| > 0 {
      assert xs[0] < n;
      if exists k :: 0 <= k < |xs| && xs[k] == n - 1 {
        var k :| 0 <= k < |xs| && xs[k] == n - 1;
        Pigeonhole(xs[..k] + xs[k + 1..], n - 1);
      } else {
        Pigeonhole(xs, n - 1);
      }
    }
  }

  /** While a block is out, the pool is not all free. */
  lemma OutIsNotFree(s: PoolState, i: nat)
    requires s.WellFormed() && s.Out(i)
    ensures |s.free| < s.capacity
  {
    Pigeonhole([i] + s.free, s.capacity);
  }

  /**
   * Free accepts exactly the addresses of blocks that are out, if the end of the pool has an address, and nothing
   * otherwise; the block is then the next one to go out.
   */
  lemma FreeAcceptsExactly(s: PoolState, p: nat)
    requires s.WellFormed()
    ensures s.Free(p).0 == Ok <==>
              s.EndsBelowWord() && exists i :: 0 <= i < s.capacity && s.Out(i) && p == s.Addr(i)
    ensures s.Free(p).0 != Ok ==> s.Free(p) == (InvalidArg, s)
    ensures s.Free(p).0 == Ok ==> var t := s.Free(p).1;
      && t.WellFormed() && t.Alloc() == (p, s)
      && forall j :: 0 <= j < s.capacity ==> (t.Out(j) <==> p != s.Addr(j) && s.Out(j))
  {
    forall i | 0 <= i < s.capacity
      ensures (s.IsBlock(s.Addr(i)) <==> s.EndsBelowWord()) && s.Number(s.Addr(i)) == i
    {
      AddrNumber(s, i);
    }
    if s.Free(p).0 == Ok {
      NumberAddr(s, p);
      assert s.Out(s.Number(p));
      assert s.Free(p).1.free[1..] == s.free;
    }
  }

  /** Distinct blocks do not overlap. */
  lemma BlocksDisjoint(s: PoolState, i: nat, j: nat)
    requires i < j
    ensures s.Addr(i) + s.blockSize <= s.Addr(j)
  {
    MulMonotone(i + 1, j, s.blockSize);
    assert (i + 1) * s.blockSize == i * s.blockSize + s.blockSize;
  }

  // ----- whole runs -----

  datatype Call = Get | Put(p: nat)

  function Run(s: PoolState, calls: seq<Call>, n: nat): PoolState
    requires n <= |calls| && s.blockSize > 0
    ensures Run(s, calls, n).blockSize == s.blockSize
  {
    if n == 0 then s
    else
      var t := Run(s, calls, n - 1);
      match calls[n - 1]
      case Get => t.Alloc().1
      case Put(p) => t.Free(p).1
  }

  lemma {:induction false} RunKeeps(s: PoolState, calls: seq<Call>, n: nat)
    requires n <= |calls| && s.WellFormed()
    ensures Run(s, calls, n).WellFormed() && Run(s, calls, n) == s.(free := Run(s, calls, n).free)
  {
    if n > 0 {
      RunKeeps(s, calls, n - 1);
      var t := Run(s, calls, n - 1);
      AllocTakesFree(t);
      if calls[n - 1].Put? {
        FreeAcceptsExactly(t, calls[n - 1].p);
      }
    }
  }

  /** The n-th call gives the block back. */
  predicate GivesBack(s: PoolState, calls: seq<Call>, n: nat, p: nat)
    requires n < |calls| && s.blockSize > 0
  {
    calls[n] == Put(p) && Run(s, calls, n).Free(p).0 == Ok
  }

  lemma {:induction false} StaysOut(s: PoolState, calls: seq<Call>, i: nat, j: nat, k: nat)
    requires j <= k <= |calls| && s.WellFormed() && Run(s, calls, j).Out(i)
    requires forall m :: j <= m < k ==> !GivesBack(s, calls, m, s.Addr(i))
    ensures Run(s, calls, k).Out(i)
  {
    if j < k {
      StaysOut(s, calls, i, j, k - 1);
      RunKeeps(s, calls, k - 1);
      assert !GivesBack(s, calls, k - 1, s.Addr(i));
      match calls[k - 1] {
        case Get => AllocKeepsOut(Run(s, calls, k - 1), i);
        case Put(p) => FreeKeepsOut(Run(s, calls, k - 1), i, p);
      }
    }
  }

  lemma AllocKeepsOut(t: PoolState, i: nat)
    requires t.WellFormed() && t.Out(i)
    ensures t.Alloc().1.Out(i)
  {
    AllocTakesFree(t);
  }

  lemma FreeKeepsOut(t: PoolState, i: nat, p: nat)
    requires t.WellFormed() && t.Out(i) && (p != t.Addr(i) || t.Free(p).0 != Ok)
    ensures t.Free(p).1.Out(i)
  {
    FreeAcceptsExactly(t, p);
  }

  /** No block is handed out twice: between two calls that return the same address, it was given back. */
  lemma NeverTwice(s: PoolState, calls: seq<Call>, j: nat, k: nat)
    requires j < k < |calls| && s.WellFormed() && calls[j] == Get && calls[k] == Get
    requires var p := Run(s, calls, j).Alloc().0; p != 0 && Run(s, calls, k).Alloc().0 == p
    ensures exists m :: j < m < k && GivesBack(s, calls, m, Run(s, calls, j).Alloc().0)
  {
    RunKeeps(s, calls, j);
    RunKeeps(s, calls, k);
    var t, u := Run(s, calls, j), Run(s, calls, k);
    var i := HandedOut(s, t);
    var i' := HandedOut(s, u);
    AddrNumber(s, i);
    AddrNumber(s, i');
    if forall m :: j + 1 <= m < k ==> !GivesBack(s, calls, m, s.Addr(i)) {
      StaysOut(s, calls, i, j + 1, k);
      assert false;
    }
  }

  lemma HandedOut(s: PoolState, t: PoolState) returns (i: nat)
    requires t == s.(free := t.free) && t.WellFormed() && t.Alloc().0 != 0
    ensures i < s.capacity && t.Alloc().0 == s.Addr(i) && !t.Out(i) && t.Alloc().1.Out(i)
  {
    AllocTakesFree(t);
    i := t.free[0];
  }

  // ----- the representation -----

  /** Where the list goes behind its k-th entry. */
  function Link(s: PoolState, k: nat): nat {
    if k < |s.free| then s.Addr(s.free[k]) else 0
  }

  /** The list visits the free blocks in order and ends. */
  ghost predicate Threaded(s: PoolState, head: nat, first: seq<nat>) {
    && s.WellFormed() && |first| == s.capacity && head == Link(s, 0)
    && forall k :: 0 <= k < |s.free| ==> first[s.free[k]] == Link(s, k + 1)
  }

  /** The bitmap marks the blocks that are out. */
  ghost predicate Marked(s: PoolState, bitmap: seq<bv32>) {
    && s.capacity <= 32 * |bitmap|
    && forall i :: 0 <= i < s.capacity ==> (BitAt(bitmap, i) <==> s.Out(i))
  }

  lemma ThreadedAlloc(s: PoolState, head: nat, first: seq<nat>)
    requires Threaded(s, head, first) && head != 0
    ensures s.free != [] && head == s.Addr(s.free[0])
    ensures Threaded(s.Alloc().1, first[s.free[0]], first)
  {
    var t := s.Alloc().1;
    AllocTakesFree(s);
    forall k | 0 <= k < |t.free| ensures first[t.free[k]] == Link(t, k + 1) {
      assert t.free[k] == s.free[k + 1];
      assert Link(t, k + 1) == Link(s, k + 2);
    }
  }

  lemma ThreadedFree(s: PoolState, head: nat, first: seq<nat>, p: nat)
    requires Threaded(s, head, first) && s.Free(p).0 == Ok
    ensures s.Number(p) < s.capacity
    ensures Threaded(s.Free(p).1, p, first[s.Number(p) := head])
  {
    var t, i := s.Free(p).1, s.Number(p);
    NumberAddr(s, p);
    FreeAcceptsExactly(s, p);
    forall k | 0 <= k < |t.free| ensures first[i := head][t.free[k]] == Link(t, k + 1) {
      if k > 0 {
        assert t.free[k] == s.free[k - 1] && s.free[k - 1] in s.free;
        assert Link(t, k + 1) == Link(s, k);
      }
    }
  }

  lemma HeadIsFree(s: PoolState, head: nat, first: seq<nat>)
    requires Threaded(s, head, first)
    ensures s.WellFormed() && |first| == s.capacity && s.blockSize > 0
    ensures if s.free == [] then head == 0 else head == s.Addr(s.free[0]) && s.free[0] < s.capacity && head > 0
  {
    hide PoolState.Addr, PoolState.Top;
    if s.free != [] {
      AddrInside(s, s.free[0]);
    }
  }

  /** Whatever the client stores in a block that is out, the list stays. */
  lemma ThreadedWrite(s: PoolState, head: nat, first: seq<nat>, i: nat, x: nat)
    requires Threaded(s, head, first) && s.Out(i)
    ensures Threaded(s, head, first[i := x])
  {
    forall k | 0 <= k < |s.free| ensures first[i := x][s.free[k]] == Link(s, k + 1) {
      assert s.free[k] in s.free;
    }
  }

  lemma MarkedAlloc(s: PoolState, was: seq<bv32>, now: seq<bv32>)
    requires s.WellFormed() && s.free != [] && Marked(s, was) && |now| == |was|
    requires forall j :: 0 <= j < 32 * |now| ==> (BitAt(now, j) <==> j == s.free[0] || BitAt(was, j))
    ensures Marked(s.Alloc().1, now)
  {
    AllocTakesFree(s);
  }

  lemma MarkedFree(s: PoolState, p: nat, was: seq<bv32>, now: seq<bv32>)
    requires s.WellFormed() && s.Free(p).0 == Ok && Marked(s, was) && |now| == |was|
    requires forall j :: 0 <= j < 32 * |now| ==> (BitAt(now, j) <==> j != s.Number(p) && BitAt(was, j))
    ensures Marked(s.Free(p).1, now)
  {
  }

  /** All blocks free, in address order. */
  function Unused(word: nat, l: Layout): PoolState {
    PoolState(word, l.storage, l.blockSize, l.capacity, seq(l.capacity, i => i))
  }

  /** The bytes that the blocks take. */
  function BlockBytes(l: Layout): nat {
    l.capacity * l.blockSize
  }

  lemma TopBlock(s: PoolState)
    requires s == Unused(64, Layout(32, 1, 4, 36, 4, 7))
    ensures s.WellFormed() && !s.EndsBelowWord()
    ensures s.Alloc().0 == 36 && s.Alloc().1.Out(0) && s.Alloc().1.Free(36) == (InvalidArg, s.Alloc().1)
  {
    assert s.free[0] == 0 && s.Addr(0) == 36;
    AllocTakesFree(s);
    assert !s.Alloc().1.InRange(36);
  }

  /** A pool at the top of the address space: it hands out a block and does not take it back. */
  lemma TopPoolKeepsBlocks()
    ensures Machine(64, 4) && BlockFits(64, 4, 4, 4) && LayoutOf(64, 4, 32, 32, 4, 4).Some?
    ensures var s := Unused(64, LayoutOf(64, 4, 32, 32, 4, 4).value);
      && s.WellFormed() && !s.EndsBelowWord()
      && s.Alloc().0 == 36 && s.Alloc().1.Out(0) && s.Alloc().1.Free(36) == (InvalidArg, s.Alloc().1)
  {
    hide LayoutOf, Machine, BlockFits, PoolState.WellFormed, PoolState.Alloc, PoolState.Out;
    LayoutAtTop();
    TopBlock(Unused(64, Layout(32, 1, 4, 36, 4, 7)));
  }

  lemma ThreadedUnused(word: nat, l: Layout, head: nat, first: seq<nat>)
    requires 0 < l.storage < word && 0 < l.blockSize && 0 < l.capacity == |first| && Unused(word, l).Top() <= word
    requires head == Unused(word, l).Addr(0)
    requires forall k :: 0 <= k < l.capacity ==>
               first[k] == if k + 1 < l.capacity then Unused(word, l).Addr(k + 1) else 0
    ensures Threaded(Unused(word, l), head, first)
  {
  }

  lemma MarkedUnused(word: nat, l: Layout, words: seq<bv32>)
    requires l.capacity <= 32 * |words| && forall k :: 0 <= k < |words| ==> words[k] == 0
    ensures Marked(Unused(word, l), words)
  {
    forall i | 0 <= i < l.capacity ensures !BitAt(words, i) && !Unused(word, l).Out(i) {
      ZeroHasNone(words, i);
      assert Unused(word, l).free[i] == i;
    }
  }

  lemma NextAddr(word: nat, l: Layout, i: nat)
    ensures Unused(word, l).Addr(i + 1) == Unused(word, l).Addr(i) + l.blockSize
  {
    assert (i + 1) * l.blockSize == i * l.blockSize + l.blockSize;
  }

  lemma HalfPower(t: nat)
    requires PowerOfTwo(t) && t > 1
    ensures t == 2 * (t / 2) && PowerOfTwo(t / 2)
  {
  }

  lemma ShiftDoubles(shift: nat, t: nat, b: nat)
    requires Pow2(shift) * t == b && t % 2 == 0
    ensures Pow2(shift + 1) * (t / 2) == b
  {
    assert t == 2 * (t / 2);
    assert 2 * Pow2(shift) * (t / 2) == Pow2(shift) * (2 * (t / 2));
  }

  /** The number of binary digits behind the one bit, or zero for a size that is not a power of two. */
  method ShiftOf(b: nat) returns (shift: nat)
    requires b > 1
    ensures shift > 0 <==> PowerOfTwo(b)
    ensures shift > 0 ==> b == Pow2(shift)
  {
    shift := 0;
    MaskTest(b);
    if BitAnd(b, b - 1) == 0 {
      var temp := b;
      while temp > 1
        invariant PowerOfTwo(temp) && Pow2(shift) * temp == b && (temp == b || shift > 0)
        decreases temp
      {
        HalfPower(temp);
        ShiftDoubles(shift, temp, b);
        temp := temp / 2;
        shift := shift + 1;
      }
    }
  }

  method Quotient(offset: nat, size: nat, shift: nat) returns (i: nat)
    requires size > 0 && (shift > 0 ==> size == Pow2(shift))
    ensures i == offset / size
  {
    if shift > 0 {
      ShrIsDiv(offset, shift);
      i := Shr(offset, shift);
    } else {
      i := offset / size;
    }
  }

  /** Chains the blocks in address order. */
  method LinkAll(word: nat, l: Layout, first: array<nat>) returns (head: nat)
    requires 0 < l.blockSize && 0 < l.storage < word && 0 < l.capacity == first.Length && Unused(word, l).Top() <= word
    modifies first
    ensures Threaded(Unused(word, l), head, first[..])
  {
    var curr := l.storage;
    head := 0;
    for i := 0 to l.capacity
      invariant curr == Unused(word, l).Addr(i)
      invariant i > 0 ==> head == Unused(word, l).Addr(0)
      invariant forall k :: 0 <= k < i - 1 ==> first[k] == Unused(word, l).Addr(k + 1)
    {
      if i == 0 {
        head := curr;
      } else {
        first[i - 1] := curr;
      }
      NextAddr(word, l, i);
      curr := curr + l.blockSize;
    }
    first[l.capacity - 1] := 0;
    ThreadedUnused(word, l, head, first[..]);
  }

  // ----- the pool itself -----

  class Pool {
    const word: nat
    var storage: nat
    var storageSize: nat
    var blockSize: nat
    var capacity: nat
    var freeCount: nat
    var freeList: nat
    var blockShift: nat
    var bitmap: array<bv32>
    var first: array<nat>
    ghost var free: seq<nat>

    ghost function View(): PoolState
      reads this
    {
      PoolState(word, storage, blockSize, capacity, free)
    }

    /** Free list, bitmap and count agree on which blocks are free. */
    ghost predicate Valid()
      reads this, bitmap, first
    {
      && Threaded(View(), freeList, first[..]) && Marked(View(), bitmap[..]) && freeCount == |free|
      && bitmap as object != first
      && storageSize == capacity * blockSize && (blockShift > 0 ==> blockSize == Pow2(blockShift))
    }

    constructor (word: nat)
      ensures this.word == word
    {
      this.word := word;
      bitmap := new bv32[0];
      first := new nat[0];
    }

    /** The pool over a layout: empty bitmap, all blocks chained. */
    method Adopt(l: Layout)
      requires 0 < l.storage < word && Unused(word, l).Top() <= word
      requires 1 < l.blockSize && 0 < l.capacity <= 32 * l.words
      modifies this
      ensures Valid() && fresh(bitmap) && fresh(first) && View() == Unused(word, l)
    {
      hide Link, Threaded, Marked, PoolState.WellFormed;
      var bytes := BlockBytes(l);
      var marks := new bv32[l.words](_ => 0);
      MarkedUnused(word, l, marks[..]);
      var shift := ShiftOf(l.blockSize);
      var words := new nat[l.capacity];
      var head := LinkAll(word, l, words);
      bitmap, first, freeList, blockShift := marks, words, head, shift;
      storage, storageSize, blockSize, capacity := l.storage, bytes, l.blockSize, l.capacity;
      freeCount := l.capacity;
      free := Unused(word, l).free;
      assert View() == Unused(word, l);
    }

    /** Initialisation: all or nothing. */
    method Init(ptr: nat, buffer: nat, size: nat, block: nat, align: nat) returns (st: Status)
      requires Machine(word, ptr) && buffer + size <= word && BlockFits(word, ptr, block, align)
      modifies this
      ensures st == if LayoutOf(word, ptr, buffer, size, block, align).Some? then Ok else InvalidArg
      ensures st == Ok <==> Enough(ptr, buffer, size, block, align)
      ensures st == Ok ==> Valid() && fresh(bitmap) && fresh(first)
                           && View() == Unused(word, LayoutOf(word, ptr, buffer, size, block, align).value)
      ensures st == Ok ==> |View().free| == View().capacity
                           && forall i :: 0 <= i < View().capacity ==> View().free[i] == i
      ensures st == Ok && buffer + size < word ==> View().EndsBelowWord()
      ensures st != Ok ==> unchanged(this)
    {
      var layout := LayoutOf(word, ptr, buffer, size, block, align);
      LayoutExactly(word, ptr, buffer, size, block, align);
      if layout.None? {
        return InvalidArg;
      }
      LayoutFits(word, ptr, buffer, size, block, align);
      TotalIsProduct(layout.value.capacity, layout.value.blockSize);
      Adopt(layout.value);
      st := Ok;
    }

    /** The number of the block at an offset: a shift when the block size is a power of two. */
    method Number(offset: nat) returns (i: nat)
      requires Valid()
      ensures i == offset / blockSize
    {
      i := Quotient(offset, blockSize, blockShift);
    }

    /** Whether an offset is a multiple of the block size: a mask when that is a power of two. */
    method OnBoundary(offset: nat) returns (b: bool)
      requires Valid()
      ensures b <==> offset % blockSize == 0
    {
      if blockShift > 0 {
        Pow2IsPower(blockShift);
        MaskIsMod(offset, blockSize);
        b := BitAnd(offset, Pow2(blockShift) - 1) == 0;
      } else {
        b := offset % blockSize == 0;
      }
    }

    method Alloc() returns (p: nat)
      requires Valid()
      modifies this`freeList, this`freeCount, this`free, bitmap
      ensures Valid() && (p, View()) == old(View().Alloc())
    {
      hide BitAt, Link, PoolState.IsBlock, PoolState.Top, Threaded, PoolState.WellFormed;
      ghost var s := View();
      HeadIsFree(s, freeList, first[..]);
      AllocTakesFree(s);
      if freeList == 0 {
        return 0;
      }
      ThreadedAlloc(s, freeList, first[..]);
      AddrNumber(s, free[0]);
      p := freeList;
      var n := Number(p - storage);
      assert n == s.Number(p) == s.free[0];
      ghost var was := bitmap[..];
      Set(bitmap, n);
      MarkedAlloc(s, was, bitmap[..]);
      freeList := first[n];
      freeCount := freeCount - 1;
      free := free[1..];
      assert View() == s.Alloc().1;
    }

    /** Range and boundary check, then the block's number. */
    method Locate(p: nat) returns (n: Option<nat>)
      requires Valid()
      ensures n == if View().IsBlock(p) then Some(View().Number(p)) else None
    {
      if p < storage || p >= Plus(storage, storageSize, word) {
        return None;
      }
      var aligned := OnBoundary(p - storage);
      if !aligned {
        return None;
      }
      var i := Number(p - storage);
      n := Some(i);
    }

    method Free(p: nat) returns (st: Status)
      requires Valid()
      modifies this`freeList, this`freeCount, this`free, bitmap, first
      ensures Valid() && (st, View()) == old(View().Free(p))
    {
      hide Link, PoolState.IsBlock, PoolState.Number;
      ghost var s := View();
      var found := Locate(p);
      if found.None? {
        return InvalidArg;
      }
      var n := found.value;
      NumberAddr(s, p);
      assert BitAt(bitmap[..], n) <==> s.Out(n);
      if !Has(bitmap[n / 32], n % 32) {
        return InvalidArg;
      }
      ThreadedFree(s, freeList, first[..], p);
      ghost var marks, words := bitmap[..], first[..];
      Clear(bitmap, n);
      MarkedFree(s, p, marks, bitmap[..]);
      first[n] := freeList;
      assert first[..] == words[n := freeList];
      freeList := p;
      freeCount := freeCount + 1;
      free := [n] + free;
      st := Ok;
      assert View() == s.Free(p).1;
    }

    /** A client writes to a block that it holds. */
    method ClientWrite(i: nat, x: nat)
      requires Valid() && View().Out(i)
      modifies first
      ensures Valid()
    {
      ghost var was := first[..];
      ThreadedWrite(View(), freeList, was, i, x);
      first[i] := x;
      assert first[..] == was[i := x];
    }
  }
}
