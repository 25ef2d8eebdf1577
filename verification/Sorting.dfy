/** The exchange sort of the hook and init engines: among the selected slots, any two in the wrong order are swapped. */
module Sorting {

  ghost predicate SortedBy<T(!new)>(s: seq<T>, sel: T -> bool, key: T -> int) {
    forall i, j :: 0 <= i < j < |s| && sel(s[i]) && sel(s[j]) ==> key(s[i]) <= key(s[j])
  }

  /** A rearrangement of the selected slots among themselves. */
  ghost predicate Rearranged<T(!new)>(s: seq<T>, t: seq<T>, sel: T -> bool) {
    && |s| == |t| && multiset(s) == multiset(t)
    && forall k :: 0 <= k < |s| ==> sel(s[k]) == sel(t[k]) && (!sel(s[k]) ==> s[k] == t[k])
  }

  /** Slot i holds a least element of what comes behind it, up to j. */
  ghost predicate LeastFrom<T(!new)>(s: seq<T>, sel: T -> bool, key: T -> int, i: nat, j: nat)
    requires j <= |s|
  {
    forall q :: i < q < j && sel(s[i]) && sel(s[q]) ==> key(s[i]) <= key(s[q])
  }

  lemma SwapKeeps<T(!new)>(s: seq<T>, i: nat, j: nat)
    requires i < j < |s|
    ensures multiset(s[i := s[j]][j := s[i]]) == multiset(s)
  {
  }

  lemma SwapRearranges<T(!new)>(s: seq<T>, t: seq<T>, sel: T -> bool, i: nat, j: nat)
    requires Rearranged(s, t, sel) && i < j < |t| && sel(t[i]) && sel(t[j])
    ensures Rearranged(s, t[i := t[j]][j := t[i]], sel)
  {
    SwapKeeps(t, i, j);
  }

  lemma SwapKeepsLeast<T(!new)>(t: seq<T>, sel: T -> bool, key: T -> int, p: nat, i: nat, j: nat)
    requires p < i < j < |t| && sel(t[i]) && sel(t[j]) && LeastFrom(t, sel, key, p, |t|)
    ensures LeastFrom(t[i := t[j]][j := t[i]], sel, key, p, |t|)
  {
  }

  /** The inner loop: after it, slot i is settled. */
  method Settle<T(!new)>(a: array<T>, n: nat, i: nat, sel: T -> bool, key: T -> int)
    requires i < n <= a.Length && forall p :: 0 <= p < i ==> LeastFrom(a[..n], sel, key, p, n)
    modifies a
    ensures Rearranged(old(a[..n]), a[..n], sel) && a[n..] == old(a[n..])
    ensures forall p :: 0 <= p < i + 1 ==> LeastFrom(a[..n], sel, key, p, n)
  {
    for j := i + 1 to n
      invariant Rearranged(old(a[..n]), a[..n], sel) && a[n..] == old(a[n..])
      invariant forall p :: 0 <= p < i ==> LeastFrom(a[..n], sel, key, p, n)
      invariant LeastFrom(a[..n], sel, key, i, j)
    {
      if sel(a[i]) && sel(a[j]) && key(a[i]) > key(a[j]) {
        ghost var t := a[..n];
        ghost var t' := t[i := t[j]][j := t[i]];
        SwapRearranges(old(a[..n]), t, sel, i, j);
        forall p | 0 <= p < i ensures LeastFrom(t', sel, key, p, n) {
          SwapKeepsLeast(t, sel, key, p, i, j);
        }
        a[i], a[j] := a[j], a[i];
        assert a[..n] == t';
      }
    }
  }

  lemma RearrangedTwice<T(!new)>(r: seq<T>, s: seq<T>, t: seq<T>, sel: T -> bool)
    requires Rearranged(r, s, sel) && Rearranged(s, t, sel)
    ensures Rearranged(r, t, sel)
  {
  }

  /** The sort: a rearrangement of the selected slots of the first n, after which these are in order. */
  method ExchangeSort<T(!new)>(a: array<T>, n: nat, sel: T -> bool, key: T -> int)
    requires n <= a.Length
    modifies a
    ensures Rearranged(old(a[..n]), a[..n], sel) && SortedBy(a[..n], sel, key) && a[n..] == old(a[n..])
  {
    for i := 0 to n
      invariant Rearranged(old(a[..n]), a[..n], sel) && a[n..] == old(a[n..])
      invariant forall p :: 0 <= p < i ==> LeastFrom(a[..n], sel, key, p, n)
    {
      ghost var s := a[..n];
      Settle(a, n, i, sel, key);
      RearrangedTwice(old(a[..n]), s, a[..n], sel);
    }
    ghost var t := a[..n];
    forall p, q | 0 <= p < q < n && sel(t[p]) && sel(t[q]) ensures key(t[p]) <= key(t[q]) {
      assert LeastFrom(t, sel, key, p, n);
    }
  }
}
