/** How initialisation of a block pool cuts up the caller's buffer: bitmap first, then the blocks. */
module PoolLayout {
  import opened Bytes
  import opened Words

  /** Pointer size and address space. */
  predicate Machine(word: nat, ptr: nat) {
    PowerOfTwo(word) && PowerOfTwo(ptr) && 4 <= ptr && 4 * ptr <= word && 64 <= word
  }

  datatype Layout = Layout(start: nat, words: nat, bitmapBytes: nat, storage: nat, blockSize: nat, capacity: nat)

  function Max(a: nat, b: nat): nat {
    if a < b then b else a
  }

  // ----- alignment, as far as the layout depends on it -----

  type Aligner = (nat, nat) -> nat

  /** Aligning gives the next multiple, which is the address itself if it is one, or wraps to zero. */
  ghost predicate Rounds(up: Aligner, word: nat) {
    forall p: nat, a: nat {:trigger Rounded(p, a, up(p, a), word)} ::
      p < word && PowerOfTwo(a) && a <= word ==> Rounded(p, a, up(p, a), word)
  }

  predicate Rounded(p: nat, a: nat, r: nat, word: nat)
    requires 0 < a
  {
    && r < word && Aligned(r, a) && (r == 0 || p <= r < p + a) && (Aligned(p, a) ==> r == p)
    && (p + a <= word || p == 0 ==> p <= r)
  }

  /** The alignment function of the source. */
  function AlignerOf(word: nat): Aligner {
    (p: nat, a: nat) => if p < word && 0 < a <= word then AlignUp(p, a, word) else 0
  }

  lemma AlignerRounds(word: nat)
    requires PowerOfTwo(word)
    ensures Rounds(AlignerOf(word), word)
  {
    forall p: nat, a: nat | p < word && PowerOfTwo(a) && a <= word
      ensures Rounded(p, a, AlignerOf(word)(p, a), word)
    {
      AlignUpRounds(p, a, word);
      AlignUpPads(p, a, word);
    }
  }

  lemma UpStart(up: Aligner, word: nat, p: nat, a: nat)
    requires Rounds(up, word) && PowerOfTwo(a) && a <= word && 0 < p < word
    ensures up(p, a) < word && (up(p, a) == 0 || p <= up(p, a)) && Aligned(up(p, a), a)
    ensures up(p, a) > 0 ==> a <= up(p, a)
    ensures p + a <= word ==> p <= up(p, a)
  {
    assert Rounded(p, a, up(p, a), word);
  }

  lemma UpSmall(up: Aligner, word: nat, p: nat, a: nat)
    requires Rounds(up, word) && PowerOfTwo(a) && a <= word && p < word && (p == 0 || p + a <= word)
    ensures p <= up(p, a) && Aligned(up(p, a), a)
  {
    assert Rounded(p, a, up(p, a), word);
  }

  lemma UpAligned(up: Aligner, word: nat, p: nat, a: nat)
    requires Rounds(up, word) && PowerOfTwo(a) && a <= word && p < word && Aligned(p, a)
    ensures up(p, a) == p
  {
    assert Rounded(p, a, up(p, a), word);
  }

  // ----- blocks -----

  /** How many blocks of b bytes there are in x bytes. */
  function Blocks(x: nat, b: nat): nat
    requires 0 < b
  {
    if x < b then 0 else 1 + Blocks(x - b, b)
  }

  /** The bytes of n blocks. */
  function Total(n: nat, b: nat): nat {
    if n == 0 then 0 else b + Total(n - 1, b)
  }

  lemma {:induction false} TotalIsProduct(n: nat, b: nat)
    ensures Total(n, b) == n * b
  {
    if n > 0 {
      TotalIsProduct(n - 1, b);
    }
  }

  lemma {:induction false} BlocksBound(x: nat, b: nat)
    requires 0 < b
    ensures Total(Blocks(x, b), b) <= x < Total(Blocks(x, b), b) + b
    decreases x
  {
    if x >= b {
      BlocksBound(x - b, b);
    }
  }

  /** It is the quotient that the source computes. */
  lemma BlocksIsQuotient(x: nat, b: nat)
    requires 0 < b
    ensures Blocks(x, b) == x / b
  {
    BlocksBound(x, b);
    TotalIsProduct(Blocks(x, b), b);
    ModUnique(x, b, Blocks(x, b), x - Total(Blocks(x, b), b));
  }

  lemma {:induction false} BlocksMonotone(x: nat, y: nat, b: nat)
    requires 0 < b && x <= y
    ensures Blocks(x, b) <= Blocks(y, b)
    decreases y
  {
    if x >= b {
      BlocksMonotone(x - b, y - b, b);
    }
  }

  lemma {:induction false} BlocksQuarter(x: nat, b: nat)
    requires 4 <= b
    ensures 4 * Blocks(x, b) <= x
    decreases x
  {
    if x >= b {
      BlocksQuarter(x - b, b);
    }
  }

  /** The bitmap has a bit for every block there could be, and its size does not wrap. */
  lemma WordsFit(word: nat, usable: nat, b: nat, a: nat)
    requires 64 <= word && 4 <= b && 0 < a <= b && usable + a <= word
    ensures var words := (Blocks(usable, b) + 31) / 32;
      words * 4 < word && (words == 0 || words * 4 + a <= word)
  {
    BlocksQuarter(usable, b);
  }

  // ----- the layout -----

  /** The block size survives alignment: it does not wrap. */
  predicate BlockFits(word: nat, ptr: nat, block: nat, align: nat) {
    Max(block, ptr) + Max(align, ptr) <= word
  }

  /** The aligned part of the buffer: bitmap, rounded up, then as many blocks as fit. */
  function Cut(up: Aligner, start: nat, usable: nat, a: nat, b: nat): Option<Layout>
    requires 0 < b
  {
    var words := (Blocks(usable, b) + 31) / 32;
    var bytes := up(words * 4, a);
    if usable <= bytes then None
    else
      var capacity := Blocks(usable - bytes, b);
      if capacity == 0 then None else Some(Layout(start, words, bytes, up(start + bytes, a), b, capacity))
  }

  /** A buffer [buffer, buffer + size), blocks of at least `block` bytes, and an alignment that is checked. */
  function LayoutWith(up: Aligner, word: nat, ptr: nat, buffer: nat, size: nat, block: nat, align: nat): Option<Layout>
    requires Machine(word, ptr) && buffer + size <= word && BlockFits(word, ptr, block, align) && Rounds(up, word)
  {
    if buffer == 0 || align == 0 || BitAnd(align, align - 1) != 0 || size == 0 then None
    else
      MaskTest(align);
      MaxPower(align, ptr);
      var a := Max(align, ptr);
      UpStart(up, word, Max(block, ptr), a);
      UpStart(up, word, buffer, a);
      var b := up(Max(block, ptr), a);
      var start := up(buffer, a);
      var overhead := Minus(start, buffer, word);
      if size <= overhead then None else Cut(up, start, size - overhead, a, b)
  }

  function LayoutOf(word: nat, ptr: nat, buffer: nat, size: nat, block: nat, align: nat): Option<Layout>
    requires Machine(word, ptr) && buffer + size <= word && BlockFits(word, ptr, block, align)
  {
    AlignerRounds(word);
    LayoutWith(AlignerOf(word), word, ptr, buffer, size, block, align)
  }

  lemma MaxPower(a: nat, b: nat)
    requires PowerOfTwo(a) && PowerOfTwo(b)
    ensures PowerOfTwo(Max(a, b))
  {
  }

  /** Inside the buffer, the bitmap covers every block, and bitmap and blocks do not overlap. */
  ghost predicate Fits(l: Layout, buffer: nat, size: nat, a: nat, b: nat)
    requires 0 < a
  {
    && buffer <= l.start && l.start + l.bitmapBytes == l.storage
    && l.storage + Total(l.capacity, l.blockSize) <= buffer + size
    && 4 * l.words <= l.bitmapBytes && 0 < l.capacity <= 32 * l.words
    && Aligned(l.storage, a) && l.blockSize == b
  }

  lemma CutAligned(up: Aligner, word: nat, start: nat, usable: nat, a: nat, b: nat)
    requires 64 <= word && 4 <= b && 0 < a <= b && a <= start && start + usable <= word
    requires Rounds(up, word) && PowerOfTwo(a) && Aligned(start, a) && Cut(up, start, usable, a, b).Some?
    ensures var l := Cut(up, start, usable, a, b).value;
      start + l.bitmapBytes == l.storage && 4 * l.words <= l.bitmapBytes && Aligned(l.storage, a)
  {
    var l := Cut(up, start, usable, a, b).value;
    WordsFit(word, usable, b, a);
    UpSmall(up, word, l.words * 4, a);
    SumAligned(start, l.bitmapBytes, a);
    UpAligned(up, word, start + l.bitmapBytes, a);
  }

  lemma CutFits(up: Aligner, start: nat, usable: nat, a: nat, b: nat)
    requires 0 < b && Cut(up, start, usable, a, b).Some?
    ensures var l := Cut(up, start, usable, a, b).value;
      && l.start == start && l.blockSize == b && 0 < l.capacity <= 32 * l.words
      && start + l.bitmapBytes + Total(l.capacity, b) <= start + usable
  {
    var l := Cut(up, start, usable, a, b).value;
    BlocksMonotone(usable - l.bitmapBytes, usable, b);
    BlocksBound(usable - l.bitmapBytes, b);
  }

  lemma CutInside(up: Aligner, word: nat, buffer: nat, size: nat, start: nat, usable: nat, a: nat, b: nat)
    requires 64 <= word && 4 <= b && 0 < a <= b && a <= start && buffer <= start
    requires start + usable == buffer + size <= word
    requires Rounds(up, word) && PowerOfTwo(a) && Aligned(start, a) && Cut(up, start, usable, a, b).Some?
    ensures Fits(Cut(up, start, usable, a, b).value, buffer, size, a, b)
  {
    CutAligned(up, word, start, usable, a, b);
    CutFits(up, start, usable, a, b);
  }

  lemma LayoutWithFits(up: Aligner, word: nat, ptr: nat, buffer: nat, size: nat, block: nat, align: nat)
    requires Machine(word, ptr) && buffer + size <= word && BlockFits(word, ptr, block, align) && Rounds(up, word)
    requires LayoutWith(up, word, ptr, buffer, size, block, align).Some?
    ensures PowerOfTwo(align)
    ensures var l, a := LayoutWith(up, word, ptr, buffer, size, block, align).value, Max(align, ptr);
      var b := up(Max(block, ptr), a);
      Fits(l, buffer, size, a, b) && Aligned(b, a) && block <= b && ptr <= b
  {
    MaskTest(align);
    MaxPower(align, ptr);
    var a := Max(align, ptr);
    var b, start := up(Max(block, ptr), a), up(buffer, a);
    UpStart(up, word, Max(block, ptr), a);
    UpStart(up, word, buffer, a);
    var usable := size - Minus(start, buffer, word);
    assert LayoutWith(up, word, ptr, buffer, size, block, align) == Cut(up, start, usable, a, b);
    CutInside(up, word, buffer, size, start, usable, a, b);
  }

  /**
   * The layout: inside the caller's buffer, bitmap and blocks do not overlap, the bitmap has a bit for every
   * block, and storage and block size are multiples of the alignment and of the pointer size's at least.
   */
  lemma LayoutFits(word: nat, ptr: nat, buffer: nat, size: nat, block: nat, align: nat)
    requires Machine(word, ptr) && buffer + size <= word && BlockFits(word, ptr, block, align)
    requires LayoutOf(word, ptr, buffer, size, block, align).Some?
    ensures PowerOfTwo(align)
    ensures var l, a := LayoutOf(word, ptr, buffer, size, block, align).value, Max(align, ptr);
      Fits(l, buffer, size, a, l.blockSize) && Aligned(l.blockSize, a) && block <= l.blockSize && ptr <= l.blockSize
  {
    AlignerRounds(word);
    LayoutWithFits(AlignerOf(word), word, ptr, buffer, size, block, align);
  }

  /** In particular every block lies inside the caller's buffer, behind the bitmap. */
  lemma BlocksInside(word: nat, ptr: nat, buffer: nat, size: nat, block: nat, align: nat, i: nat)
    requires Machine(word, ptr) && buffer + size <= word && BlockFits(word, ptr, block, align)
    requires LayoutOf(word, ptr, buffer, size, block, align).Some?
    requires i < LayoutOf(word, ptr, buffer, size, block, align).value.capacity
    ensures var l := LayoutOf(word, ptr, buffer, size, block, align).value;
      buffer <= l.start && l.start + 4 * l.words <= l.storage + i * l.blockSize
      && l.storage + i * l.blockSize + l.blockSize <= buffer + size
  {
    LayoutFits(word, ptr, buffer, size, block, align);
    BlockWithin(LayoutOf(word, ptr, buffer, size, block, align).value, buffer, size, Max(align, ptr), i);
  }

  lemma BlockWithin(l: Layout, buffer: nat, size: nat, a: nat, i: nat)
    requires 0 < a && Fits(l, buffer, size, a, l.blockSize) && i < l.capacity
    ensures l.start + 4 * l.words <= l.storage + i * l.blockSize
    ensures l.storage + i * l.blockSize + l.blockSize <= buffer + size
  {
    TotalGrows(i + 1, l.capacity, l.blockSize);
    TotalIsProduct(i, l.blockSize);
  }

  lemma {:induction false} TotalGrows(m: nat, n: nat, b: nat)
    requires m <= n
    ensures Total(m, b) <= Total(n, b)
    decreases n
  {
    if m < n {
      TotalGrows(m, n - 1, b);
    }
  }

  // ----- when there is a layout, and how large it is -----

  /** The block size that clients get. */
  function BlockSize(ptr: nat, block: nat, align: nat): nat
    requires 0 < ptr
  {
    Max(block, ptr) + Padding(Max(block, ptr), Max(align, ptr))
  }

  /** A bit for every block that there could be in the usable part, in whole words. */
  function BitmapWords(usable: nat, b: nat): nat
    requires 0 < b
  {
    (usable / b + 31) / 32
  }

  function BitmapBytes(usable: nat, a: nat, b: nat): nat
    requires 0 < a && 0 < b
  {
    4 * BitmapWords(usable, b) + Padding(4 * BitmapWords(usable, b), a)
  }

  /** What initialisation asks for: behind the padding and the bitmap there is room for one block. */
  predicate Enough(ptr: nat, buffer: nat, size: nat, block: nat, align: nat)
    requires 0 < ptr
  {
    && buffer > 0 && PowerOfTwo(align)
    && var a, b := Max(align, ptr), BlockSize(ptr, block, align);
    var pad := Padding(buffer, a);
    pad < size && BitmapBytes(size - pad, a, b) + b <= size - pad
  }

  /** No byte too much for padding, bitmap and block, and one more block would not fit. */
  predicate Tight(l: Layout, ptr: nat, buffer: nat, size: nat, block: nat, align: nat)
    requires 0 < ptr && Enough(ptr, buffer, size, block, align)
  {
    var a, b := Max(align, ptr), BlockSize(ptr, block, align);
    && l.start == buffer + Padding(buffer, a) && l.blockSize == b
    && l.bitmapBytes == BitmapBytes(size - Padding(buffer, a), a, b)
    && buffer + size < l.storage + Total(l.capacity + 1, b)
  }

  lemma AlignerPads(word: nat, p: nat, a: nat)
    requires PowerOfTwo(word) && PowerOfTwo(a) && a <= word && p < word
    ensures p + Padding(p, a) <= word
    ensures AlignerOf(word)(p, a) == if p + Padding(p, a) < word then p + Padding(p, a) else 0
  {
    AlignUpPads(p, a, word);
  }

  /** The part behind the padding: it holds a layout exactly if bitmap and one block fit, and then as many as do. */
  lemma CutExactly(up: Aligner, word: nat, start: nat, usable: nat, a: nat, b: nat, bytes: nat)
    requires 64 <= word && 4 <= b && 0 < a <= b && a <= start && start + usable <= word
    requires Rounds(up, word) && PowerOfTwo(a) && Aligned(start, a)
    requires bytes == up((Blocks(usable, b) + 31) / 32 * 4, a)
    ensures Cut(up, start, usable, a, b).Some? <==> bytes + b <= usable
    ensures Cut(up, start, usable, a, b).Some? ==>
              var l := Cut(up, start, usable, a, b).value;
              && l.start == start && l.bitmapBytes == bytes && l.blockSize == b
              && start + usable < l.storage + Total(l.capacity + 1, b)
  {
    var c := Cut(up, start, usable, a, b);
    if c.Some? {
      CutAligned(up, word, start, usable, a, b);
      BlocksBound(usable - bytes, b);
    }
  }

  /** Initialisation succeeds exactly if there is enough, and then wastes nothing. */
  lemma LayoutExactly(word: nat, ptr: nat, buffer: nat, size: nat, block: nat, align: nat)
    requires Machine(word, ptr) && buffer + size <= word && BlockFits(word, ptr, block, align)
    ensures LayoutOf(word, ptr, buffer, size, block, align).Some? <==> Enough(ptr, buffer, size, block, align)
    ensures LayoutOf(word, ptr, buffer, size, block, align).Some? ==>
              Tight(LayoutOf(word, ptr, buffer, size, block, align).value, ptr, buffer, size, block, align)
  {
    if buffer > 0 && size > 0 && align > 0 {
      MaskTest(align);
      if PowerOfTwo(align) {
        LayoutOfPower(word, ptr, buffer, size, block, align);
      }
    }
  }

  lemma LayoutIsCut(word: nat, ptr: nat, buffer: nat, size: nat, block: nat, align: nat)
    requires Machine(word, ptr) && buffer + size <= word && BlockFits(word, ptr, block, align)
    requires PowerOfTwo(align) && buffer > 0 && size > 0
    ensures var a, b, pad := Max(align, ptr), BlockSize(ptr, block, align), Padding(buffer, Max(align, ptr));
      && 4 <= a <= b && (pad < size ==> a <= buffer + pad && Aligned(buffer + pad, a))
      && LayoutOf(word, ptr, buffer, size, block, align)
         == if size <= pad then None else Cut(AlignerOf(word), buffer + pad, size - pad, a, b)
  {
    hide Rounds, Cut, AlignUp, PowerOfTwo, AlignerOf, Padding;
    PowerIsPositive(align);
    MaskTest(align);
    MaxPower(align, ptr);
    AlignerRounds(word);
    var up, a := AlignerOf(word), Max(align, ptr);
    AlignerPads(word, Max(block, ptr), a);
    AlignerPads(word, buffer, a);
    UpStart(up, word, Max(block, ptr), a);
    UpStart(up, word, buffer, a);
  }

  lemma LayoutOfPower(word: nat, ptr: nat, buffer: nat, size: nat, block: nat, align: nat)
    requires Machine(word, ptr) && buffer + size <= word && BlockFits(word, ptr, block, align)
    requires PowerOfTwo(align) && buffer > 0 && size > 0
    ensures LayoutOf(word, ptr, buffer, size, block, align).Some? <==> Enough(ptr, buffer, size, block, align)
    ensures LayoutOf(word, ptr, buffer, size, block, align).Some? ==>
              Tight(LayoutOf(word, ptr, buffer, size, block, align).value, ptr, buffer, size, block, align)
  {
    hide Rounds, BitmapBytes, BitmapWords, Cut, PowerOfTwo, AlignerOf, LayoutOf, BlockSize;
    LayoutIsCut(word, ptr, buffer, size, block, align);
    MaxPower(align, ptr);
    AlignerRounds(word);
    var a, b, pad := Max(align, ptr), BlockSize(ptr, block, align), Padding(buffer, Max(align, ptr));
    if pad < size {
      PadsBitmap(word, buffer + pad, size - pad, a, b);
      CutExactly(AlignerOf(word), word, buffer + pad, size - pad, a, b, BitmapBytes(size - pad, a, b));
    }
  }

  lemma PadsBitmap(word: nat, start: nat, usable: nat, a: nat, b: nat)
    requires 64 <= word && PowerOfTwo(word) && 4 <= b && 0 < a <= b && PowerOfTwo(a)
    requires a <= start && start + usable <= word
    ensures AlignerOf(word)((Blocks(usable, b) + 31) / 32 * 4, a) == BitmapBytes(usable, a, b)
  {
    hide AlignerOf, Padding, AlignUp, PowerOfTwo;
    WordsFit(word, usable, b, a);
    BlocksIsQuotient(usable, b);
    AlignerPads(word, BitmapWords(usable, b) * 4, a);
  }

  lemma CutAtTop(up: Aligner)
    requires up(4, 4) == 4 && up(36, 4) == 36
    ensures Cut(up, 32, 32, 4, 4) == Some(Layout(32, 1, 4, 36, 4, 7))
  {
    assert Blocks(32, 4) == 8 && Blocks(28, 4) == 7;
  }

  lemma FourthsAligned(up: Aligner, word: nat)
    requires Rounds(up, word) && word == 64
    ensures up(4, 4) == 4 && up(32, 4) == 32 && up(36, 4) == 36
  {
    assert PowerOfTwo(4);
    assert Aligned(4, 4) && Aligned(32, 4) && Aligned(36, 4);
    UpAligned(up, word, 4, 4);
    UpAligned(up, word, 32, 4);
    UpAligned(up, word, 36, 4);
  }

  lemma SmallMachine()
    ensures Machine(64, 4) && BlockFits(64, 4, 4, 4) && BitAnd(4, 3) == 0
  {
    assert PowerOfTwo(4) && PowerOfTwo(16);
    MaskTest(4);
  }

  /** A layout whose blocks end exactly where the address space ends. */
  lemma LayoutAtTop()
    ensures Machine(64, 4) && BlockFits(64, 4, 4, 4)
    ensures LayoutOf(64, 4, 32, 32, 4, 4) == Some(Layout(32, 1, 4, 36, 4, 7))
  {
    hide Rounds, AlignUp, PowerOfTwo, Cut, AlignerOf;
    SmallMachine();
    AlignerRounds(64);
    FourthsAligned(AlignerOf(64), 64);
    CutAtTop(AlignerOf(64));
  }
}
