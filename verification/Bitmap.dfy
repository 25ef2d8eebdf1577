/** The allocation bitmap: bit `i mod 32` of word `i div 32`, with the mask operations of the source. */
module Bitmap {

  function Mask(k: nat): bv32
    requires k < 32
  {
    if k == 0 then 1 else Mask(k - 1) << 1
  }

  predicate Test(w: bv32, m: bv32) {
    w & m != 0
  }

  function With(w: bv32, m: bv32): bv32 {
    w | m
  }

  function Without(w: bv32, m: bv32): bv32 {
    w & !m
  }

  predicate Has(w: bv32, k: nat)
    requires k < 32
  {
    Test(w, Mask(k))
  }

  function Doubled(x: bv32, n: nat): bv32 {
    if n == 0 then x else Doubled(x, n - 1) << 1
  }

  lemma {:induction false} MaskDoubles(k: nat, n: nat)
    requires k + n < 32
    ensures Doubled(Mask(k), n) == Mask(k + n)
  {
    if n > 0 {
      MaskDoubles(k, n - 1);
    }
  }

  lemma {:induction false} ZeroDoubles(n: nat)
    ensures Doubled(0, n) == 0
  {
    if n > 0 {
      ZeroDoubles(n - 1);
    }
  }

  lemma TopMask()
    ensures Mask(31) == 0x8000_0000
  {
    assert Mask(4) == 0x10;
    assert Mask(8) == 0x100;
    assert Mask(12) == 0x1000;
    assert Mask(16) == 0x1_0000;
    assert Mask(20) == 0x10_0000;
    assert Mask(24) == 0x100_0000;
    assert Mask(28) == 0x1000_0000;
  }

  lemma MaskNonzero(k: nat)
    requires k < 32
    ensures Mask(k) != 0
  {
    MaskDoubles(k, 31 - k);
    TopMask();
    ZeroDoubles(31 - k);
  }

  lemma DoubleApart(a: bv32, b: bv32)
    requires !Test(a, b)
    ensures !Test(a << 1, b << 1)
  {
  }

  lemma LowApart(b: bv32)
    ensures !Test(1, b << 1) && !Test(b << 1, 1)
  {
  }

  lemma {:induction false} MasksApart(j: nat, k: nat)
    requires j < 32 && k < 32 && j != k
    ensures !Test(Mask(j), Mask(k))
  {
    if j == 0 {
      LowApart(Mask(k - 1));
    } else if k == 0 {
      LowApart(Mask(j - 1));
    } else {
      MasksApart(j - 1, k - 1);
      DoubleApart(Mask(j - 1), Mask(k - 1));
    }
  }

  lemma WithSame(w: bv32, m: bv32)
    requires m != 0
    ensures Test(With(w, m), m)
  {
  }

  lemma Distribute(w: bv32, m: bv32, n: bv32)
    ensures (w | m) & n == (w & n) | (m & n)
  {
  }

  lemma OrZero(x: bv32)
    ensures x | 0 == x
  {
  }

  lemma WithApart(w: bv32, m: bv32, n: bv32)
    requires !Test(m, n)
    ensures Test(With(w, m), n) <==> Test(w, n)
  {
    Distribute(w, m, n);
    OrZero(w & n);
  }

  lemma WithoutSame(w: bv32, m: bv32)
    ensures !Test(Without(w, m), m)
  {
  }

  lemma WithoutApart(w: bv32, m: bv32, n: bv32)
    requires !Test(m, n)
    ensures Test(Without(w, m), n) <==> Test(w, n)
  {
    assert Without(w, m) & n == w & n;
  }

  /** Setting a bit changes that bit only. */
  lemma SetsOne(w: bv32, k: nat, j: nat)
    requires k < 32 && j < 32
    ensures Has(With(w, Mask(k)), j) <==> j == k || Has(w, j)
  {
    if j == k {
      MaskNonzero(k);
      WithSame(w, Mask(k));
    } else {
      MasksApart(k, j);
      WithApart(w, Mask(k), Mask(j));
    }
  }

  lemma ClearsOne(w: bv32, k: nat, j: nat)
    requires k < 32 && j < 32
    ensures Has(Without(w, Mask(k)), j) <==> j != k && Has(w, j)
  {
    if j == k {
      WithoutSame(w, Mask(k));
    } else {
      MasksApart(k, j);
      WithoutApart(w, Mask(k), Mask(j));
    }
  }

  // ----- many words -----

  predicate BitAt(words: seq<bv32>, i: nat)
    requires i < 32 * |words|
  {
    Has(words[i / 32], i % 32)
  }

  lemma WordSet(words: seq<bv32>, i: nat, j: nat)
    requires i < 32 * |words| && j < 32 * |words|
    ensures BitAt(words[i / 32 := With(words[i / 32], Mask(i % 32))], j) <==> j == i || BitAt(words, j)
  {
    if i / 32 == j / 32 {
      SetsOne(words[i / 32], i % 32, j % 32);
    }
  }

  lemma WordCleared(words: seq<bv32>, i: nat, j: nat)
    requires i < 32 * |words| && j < 32 * |words|
    ensures BitAt(words[i / 32 := Without(words[i / 32], Mask(i % 32))], j) <==> j != i && BitAt(words, j)
  {
    if i / 32 == j / 32 {
      ClearsOne(words[i / 32], i % 32, j % 32);
    }
  }

  lemma ZeroTest(m: bv32)
    ensures !Test(0, m)
  {
  }

  lemma ZeroHasNone(words: seq<bv32>, i: nat)
    requires i < 32 * |words| && forall k :: 0 <= k < |words| ==> words[k] == 0
    ensures !BitAt(words, i)
  {
    ZeroTest(Mask(i % 32));
  }

  method Set(words: array<bv32>, i: nat)
    requires i < 32 * words.Length
    modifies words
    ensures forall j :: 0 <= j < 32 * words.Length ==> (BitAt(words[..], j) <==> j == i || BitAt(old(words[..]), j))
  {
    ghost var was := words[..];
    words[i / 32] := With(words[i / 32], Mask(i % 32));
    assert words[..] == was[i / 32 := With(was[i / 32], Mask(i % 32))];
    forall j | 0 <= j < 32 * words.Length ensures BitAt(words[..], j) <==> j == i || BitAt(was, j) {
      WordSet(was, i, j);
    }
  }

  method Clear(words: array<bv32>, i: nat)
    requires i < 32 * words.Length
    modifies words
    ensures forall j :: 0 <= j < 32 * words.Length ==> (BitAt(words[..], j) <==> j != i && BitAt(old(words[..]), j))
  {
    ghost var was := words[..];
    words[i / 32] := Without(words[i / 32], Mask(i % 32));
    assert words[..] == was[i / 32 := Without(was[i / 32], Mask(i % 32))];
    forall j | 0 <= j < 32 * words.Length ensures BitAt(words[..], j) <==> j != i && BitAt(was, j) {
      WordCleared(was, i, j);
    }
  }
}
