/** Machine words: unsigned arithmetic that wraps, masks and powers of two. */
module Words {

  // ----- wrapping arithmetic -----

  /** Unsigned difference of two words. */
  function Minus(a: nat, b: nat, word: nat): (r: nat)
    requires a < word && b < word
    ensures r < word
  {
    if a >= b then a - b else a + word - b
  }

  function Plus(a: nat, n: nat, word: nat): (r: nat)
    requires a < word && n <= word
    ensures r < word
  {
    if a + n < word then a + n else a + n - word
  }

  function Min(a: nat, b: nat): nat {
    if a < b then a else b
  }

  // ----- remainders -----

  lemma MulFar(m: int, d: int)
    requires m > 0
    ensures d > 0 ==> m * d >= m
    ensures d < 0 ==> m * d <= -m
  {
  }

  lemma MulMonotone(a: nat, b: nat, m: nat)
    requires a <= b
    ensures a * m <= b * m
  {
    assert b * m == a * m + (b - a) * m;
    assert (b - a) * m >= 0;
  }

  lemma ModUnique(x: nat, m: nat, q: nat, r: nat)
    requires m > 0 && r < m && x == q * m + r
    ensures x % m == r && x / m == q
  {
    assert x == m * (x / m) + x % m;
    assert m * (x / m - q) == r - x % m;
    MulFar(m, x / m - q);
  }

  lemma PlusIsMod(x: nat, n: nat, word: nat)
    requires word > 0 && n <= word
    ensures Plus(x % word, n, word) == (x + n) % word
  {
    var q := x / word;
    assert x == q * word + x % word;
    if x % word + n < word {
      ModUnique(x + n, word, q, x % word + n);
    } else {
      assert (q + 1) * word == q * word + word;
      ModUnique(x + n, word, q + 1, x % word + n - word);
    }
  }

  lemma MinusIsDifference(h: nat, t: nat, word: nat)
    requires word > 0 && t <= h < t + word
    ensures Minus(h % word, t % word, word) == h - t
  {
    PlusIsMod(t, h - t, word);
  }

  lemma MulLaws(q: int, m: int, a: int, c: int)
    ensures q * (m * c) + a * c == (q * m + a) * c
  {
    assert (q * m + a) * c == (q * m) * c + a * c;
    assert (q * m) * c == q * (m * c);
  }

  lemma ModAdds(k: nat, r: nat, c: nat)
    requires c > 0
    ensures (k * c + r) % c == r % c
  {
    assert r == r / c * c + r % c;
    MulLaws(1, k, r / c, c);
    assert k * c + r / c * c == (k + r / c) * c;
    ModUnique(k * c + r, c, k + r / c, r % c);
  }

  lemma ModOfMod(x: nat, word: nat, capacity: nat)
    requires 0 < capacity <= word && word % capacity == 0
    ensures x % word % capacity == x % capacity
  {
    var q, m, r := x / word, word / capacity, x % word;
    NestedMod(x, word, capacity, q, m, r);
  }

  lemma NestedMod(x: nat, word: nat, c: nat, q: nat, m: nat, r: nat)
    requires 0 < c && word == m * c && x == q * word + r
    ensures x % c == r % c
  {
    MulLaws(q, m, 0, c);
    MulMonotone(0, q, m);
    ModAdds(q * m, r, c);
  }

  // ----- powers of two and masks -----

  predicate PowerOfTwo(n: nat) {
    n == 1 || (n > 1 && n % 2 == 0 && PowerOfTwo(n / 2))
  }

  lemma PowerIsPositive(n: nat)
    requires PowerOfTwo(n)
    ensures n > 0
  {
  }

  lemma {:induction false} PowerOfTwoDivides(c: nat, w: nat)
    requires PowerOfTwo(c) && PowerOfTwo(w) && c <= w
    ensures c > 0 && w % c == 0
    decreases c
  {
    if c > 1 {
      PowerOfTwoDivides(c / 2, w / 2);
      var q := w / 2 / (c / 2);
      assert w / 2 == q * (c / 2) && w == 2 * (w / 2) && c == 2 * (c / 2);
      assert w == q * c;
      ModUnique(w, c, q, 0);
    }
  }

  /** Bitwise conjunction of two words. */
  function BitAnd(a: nat, b: nat): (r: nat)
    ensures r <= a && r <= b
  {
    if a == 0 || b == 0 then 0 else 2 * BitAnd(a / 2, b / 2) + if a % 2 == 1 && b % 2 == 1 then 1 else 0
  }

  lemma {:induction false} BitAndSame(a: nat)
    ensures BitAnd(a, a) == a
  {
    if a > 0 {
      BitAndSame(a / 2);
    }
  }

  lemma Halves(c: nat)
    requires c > 1
    ensures c % 2 == 0 ==> (c - 1) / 2 == c / 2 - 1 && (c - 1) % 2 == 1
    ensures c % 2 == 1 ==> (c - 1) / 2 == c / 2 && (c - 1) % 2 == 0
  {
  }

  /** The check of initialisation accepts exactly the powers of two. */
  lemma {:induction false} MaskTest(c: nat)
    requires c > 0
    ensures BitAnd(c, c - 1) == 0 <==> PowerOfTwo(c)
  {
    if c > 1 {
      Halves(c);
      if c % 2 == 0 {
        MaskTest(c / 2);
      } else {
        BitAndSame(c / 2);
      }
    }
  }

  lemma ModOfDouble(x: nat, h: nat)
    requires h > 0
    ensures x % (2 * h) == 2 * (x / 2 % h) + x % 2
  {
    var q, r := x / 2 / h, x / 2 % h;
    assert x / 2 == q * h + r;
    assert q * (2 * h) == 2 * (q * h);
    ModUnique(x, 2 * h, q, 2 * r + x % 2);
  }

  /** Masking with the capacity minus one is the remainder. */
  lemma {:induction false} MaskIsMod(x: nat, c: nat)
    requires PowerOfTwo(c)
    ensures BitAnd(x, c - 1) == x % c
    decreases c
  {
    if c > 1 {
      Halves(c);
      MaskIsMod(x / 2, c / 2);
      ModOfDouble(x, c / 2);
    }
  }

  // ----- shifts -----

  function Pow2(n: nat): (r: nat)
    ensures r > 0
  {
    if n == 0 then 1 else 2 * Pow2(n - 1)
  }

  function Shr(x: nat, n: nat): nat {
    if n == 0 then x else Shr(x, n - 1) / 2
  }

  lemma DivTwice(x: nat, m: nat)
    requires m > 0
    ensures x / m / 2 == x / (2 * m)
  {
    var q := x / m;
    assert x == q * m + x % m && q == q / 2 * 2 + q % 2;
    assert q * m == q / 2 * (2 * m) + q % 2 * m;
    ModUnique(x, 2 * m, q / 2, q % 2 * m + x % m);
  }

  /** Shifting right divides by the power of two. */
  lemma {:induction false} ShrIsDiv(x: nat, n: nat)
    ensures Shr(x, n) == x / Pow2(n)
  {
    if n > 0 {
      ShrIsDiv(x, n - 1);
      DivTwice(x, Pow2(n - 1));
    }
  }

  lemma {:induction false} Pow2IsPower(n: nat)
    ensures PowerOfTwo(Pow2(n))
  {
    if n > 0 {
      Pow2IsPower(n - 1);
    }
  }

  // ----- alignment -----

  /** The alignment function of the allocators: add, wrap, mask. */
  function AlignUp(p: nat, align: nat, word: nat): nat
    requires p < word && 0 < align <= word
  {
    var t := Plus(p, align - 1, word);
    t - BitAnd(t, align - 1)
  }

  /** The padding that brings an address up to the alignment. */
  function Padding(p: nat, align: nat): (r: nat)
    requires 0 < align
    ensures r < align
  {
    if p % align == 0 then 0 else align - p % align
  }

  lemma PaddingAligns(p: nat, align: nat)
    requires 0 < align
    ensures (p + Padding(p, align)) % align == 0
  {
    var q, r := p / align, p % align;
    assert p == q * align + r;
    if r > 0 {
      assert (q + 1) * align == q * align + align;
      ModUnique(p + (align - r), align, q + 1, 0);
    }
  }

  /** No smaller padding will do. */
  lemma PaddingIsLeast(p: nat, align: nat, k: nat)
    requires 0 < align && (p + k) % align == 0
    ensures Padding(p, align) <= k
  {
    var q, r := p / align, p % align;
    assert p == q * align + r;
    if r > 0 && k < align - r {
      ModUnique(p + k, align, q, r + k);
      assert false;
    }
  }

  lemma RoundDown(t: nat, align: nat)
    requires PowerOfTwo(align)
    ensures t - BitAnd(t, align - 1) == t / align * align
  {
    MaskIsMod(t, align);
  }

  lemma UpThenDown(p: nat, align: nat)
    requires 0 < align
    ensures (p + align - 1) / align * align == p + Padding(p, align)
  {
    var q, r := p / align, p % align;
    assert p == q * align + r;
    if r == 0 {
      ModUnique(p + align - 1, align, q, align - 1);
    } else {
      assert (q + 1) * align == q * align + align;
      ModUnique(p + align - 1, align, q + 1, r - 1);
    }
  }

  /** Alignment adds the padding, unless that reaches the end of the address space: then it wraps to zero. */
  lemma AlignUpPads(p: nat, align: nat, word: nat)
    requires PowerOfTwo(align) && PowerOfTwo(word) && p < word && align <= word
    ensures p + Padding(p, align) <= word
    ensures AlignUp(p, align, word) == if p + Padding(p, align) < word then p + Padding(p, align) else 0
  {
    PowerOfTwoDivides(align, word);
    PaddingAligns(p, align);
    UpThenDown(p, align);
    MultipleBelow(p, align, word);
    var t := Plus(p, align - 1, word);
    RoundDown(t, align);
    if p + align - 1 >= word {
      assert p + Padding(p, align) == word;
      assert t < align;
      ModUnique(t, align, 0, t);
    }
  }

  /** The end of the address space is aligned, so padding stops there at the latest. */
  lemma MultipleBelow(p: nat, align: nat, word: nat)
    requires 0 < align <= word && word % align == 0 && p < word
    ensures p + Padding(p, align) <= word && (p + align - 1 >= word ==> p + Padding(p, align) == word)
  {
    assert p + (word - p) == word;
    PaddingIsLeast(p, align, word - p);
    PaddingAligns(p, align);
    if p + align - 1 >= word {
      MultiplesApart(p + Padding(p, align), word, align);
    }
  }

  lemma MultiplesApart(x: nat, y: nat, m: nat)
    requires 0 < m && x % m == 0 && y % m == 0 && x <= y
    ensures x == y || x + m <= y
  {
    assert x == x / m * m && y == y / m * m;
    assert (y / m - x / m) * m == y - x;
    MulFar(m, y / m - x / m);
  }

  /** A multiple, by repeated subtraction. */
  predicate Aligned(x: nat, align: nat)
    requires 0 < align
  {
    x == 0 || (align <= x && Aligned(x - align, align))
  }

  lemma {:induction false} AlignedIsMod(x: nat, align: nat)
    requires 0 < align
    ensures Aligned(x, align) <==> x % align == 0
    decreases x
  {
    if x >= align {
      AlignedIsMod(x - align, align);
      ModAdds(1, x - align, align);
    }
  }

  lemma {:induction false} SumAligned(x: nat, y: nat, align: nat)
    requires 0 < align && Aligned(x, align) && Aligned(y, align)
    ensures Aligned(x + y, align)
    decreases y
  {
    if y > 0 {
      SumAligned(x, y - align, align);
    }
  }

  /** Alignment that does not wrap: the next multiple, which is the address itself if it is one. */
  lemma AlignUpRounds(p: nat, align: nat, word: nat)
    requires PowerOfTwo(align) && PowerOfTwo(word) && p < word && align <= word
    ensures AlignUp(p, align, word) == 0 || p <= AlignUp(p, align, word) < p + align
    ensures Aligned(AlignUp(p, align, word), align)
    ensures p + align <= word || p == 0 ==> p <= AlignUp(p, align, word)
    ensures Aligned(p, align) ==> AlignUp(p, align, word) == p
  {
    AlignUpPads(p, align, word);
    PaddingAligns(p, align);
    AlignedIsMod(AlignUp(p, align, word), align);
    AlignedIsMod(p, align);
  }
}
