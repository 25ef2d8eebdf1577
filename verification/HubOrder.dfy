/** What the hub promises its callers: which backend serves a request, and how much a tier still has to give. */
module HubOrder {
  import opened Bytes
  import opened Words
  import opened Pool
  import opened Arena
  import opened Hub
  import opened HubRouting

  // ----- which backend serves -----

  /** Backend k belongs to the tier and grants the request, and none registered before it does. */
  predicate FirstOf(bs: seq<Backend>, tier: Tier, size: nat, m: Machine, k: nat) {
    && k < |bs| && bs[k].tier == tier && Grants(bs[k], size, m)
    && forall j :: 0 <= j < k && bs[j].tier == tier ==> !Grants(bs[j], size, m)
  }

  predicate NoneOf(bs: seq<Backend>, tier: Tier, size: nat, m: Machine) {
    forall j :: 0 <= j < |bs| && bs[j].tier == tier ==> !Grants(bs[j], size, m)
  }

  /** The request is served by backend k, and by no other. */
  predicate ServedBy(bs: seq<Backend>, size: nat, hints: bv32, m: Machine, k: nat)
  {
    && k < |bs| && Grants(bs[k], size, m)
    && Allocated(bs, size, hints, m) == (Tried(bs[k], size, m).0, bs[k := Tried(bs[k], size, m).1])
    && Tried(bs[k], size, m).0 != 0
  }

  /** If a tier grants at all, then one of its backends is the first to. */
  lemma {:induction false} SomeFirst(bs: seq<Backend>, tier: Tier, size: nat, m: Machine, n: nat) returns (k: nat)
    requires n <= |bs|
    ensures if k < n then FirstOf(bs, tier, size, m, k)
            else forall j :: 0 <= j < n && bs[j].tier == tier ==> !Grants(bs[j], size, m)
  {
    if n == 0 {
      k := 0;
    } else {
      k := SomeFirst(bs, tier, size, m, n - 1);
      if k >= n - 1 {
        k := if bs[n - 1].tier == tier && Grants(bs[n - 1], size, m) then n - 1 else n;
      }
    }
  }

  lemma SearchFinds(bs: seq<Backend>, order: seq<Tier>, size: nat, m: Machine, i: nat, k: nat)
    requires i < |order| && FirstOf(bs, order[i], size, m, k)
    requires forall h :: 0 <= h < i ==> NoneOf(bs, order[h], size, m)
    ensures Routed(bs, order, size, m, 0, 0) == Some(k)
  {
    hide Grants;
    assert Serves(bs, order, size, m, i, k);
    if Routed(bs, order, size, m, 0, 0).None? {
      RoutedFails(bs, order, size, m, 0, 0);
      assert false;
    } else {
      var r := RoutedIsFirst(bs, order, size, m, 0, 0);
      var j := Routed(bs, order, size, m, 0, 0).value;
      assert Serves(bs, order, size, m, r, j);
    }
  }

  lemma SearchFails(bs: seq<Backend>, order: seq<Tier>, size: nat, m: Machine)
    requires forall h :: 0 <= h < |order| ==> NoneOf(bs, order[h], size, m)
    ensures Routed(bs, order, size, m, 0, 0).None?
  {
    hide Grants;
    if Routed(bs, order, size, m, 0, 0).Some? {
      var r := RoutedIsFirst(bs, order, size, m, 0, 0);
    }
  }

  /** The first tier that grants serves, by the first backend of it that does; with none of them, nothing happens. */
  ghost predicate InTurn(bs: seq<Backend>, size: nat, hints: bv32, m: Machine, first: Tier, second: Tier, third: Tier) {
    && (forall k :: FirstOf(bs, first, size, m, k) ==> ServedBy(bs, size, hints, m, k))
    && (NoneOf(bs, first, size, m) ==>
          forall k :: FirstOf(bs, second, size, m, k) ==> ServedBy(bs, size, hints, m, k))
    && (NoneOf(bs, first, size, m) && NoneOf(bs, second, size, m) ==>
          forall k :: FirstOf(bs, third, size, m, k) ==> ServedBy(bs, size, hints, m, k))
    && (Allocated(bs, size, hints, m).0 == 0 <==>
          NoneOf(bs, first, size, m) && NoneOf(bs, second, size, m) && NoneOf(bs, third, size, m))
  }

  lemma ServedAt(bs: seq<Backend>, size: nat, hints: bv32, m: Machine, i: nat)
    requires size > 0 && i < |Order(hints)| && forall h :: 0 <= h < i ==> NoneOf(bs, Order(hints)[h], size, m)
    ensures forall k :: FirstOf(bs, Order(hints)[i], size, m, k) ==> ServedBy(bs, size, hints, m, k)
  {
    hide Routed, Order, NoneOf, Tried;
    forall k: nat | FirstOf(bs, Order(hints)[i], size, m, k) ensures ServedBy(bs, size, hints, m, k) {
      SearchFinds(bs, Order(hints), size, m, i, k);
    }
  }

  lemma ServedInTurn(bs: seq<Backend>, size: nat, hints: bv32, m: Machine, order: seq<Tier>,
      first: Tier, second: Tier, third: Tier)
    requires size > 0 && Order(hints) == order
    requires order == [first, second, third] || (order == [first] && second == first && third == first)
    ensures InTurn(bs, size, hints, m, first, second, third)
  {
    hide FirstOf, NoneOf, Routed, Order, Tried;
    ServedAt(bs, size, hints, m, 0);
    if NoneOf(bs, first, size, m) && |order| == 3 {
      ServedAt(bs, size, hints, m, 1);
      if NoneOf(bs, second, size, m) {
        ServedAt(bs, size, hints, m, 2);
      }
    }
    if NoneOf(bs, first, size, m) && NoneOf(bs, second, size, m) && NoneOf(bs, third, size, m) {
      SearchFails(bs, order, size, m);
    }
    var k0 := NoneOrFirst(bs, first, size, m);
    var k1 := NoneOrFirst(bs, second, size, m);
    var k2 := NoneOrFirst(bs, third, size, m);
    assert order[0] == first;
    if !NoneOf(bs, first, size, m) {
      assert ServedBy(bs, size, hints, m, k0);
    } else if !NoneOf(bs, second, size, m) {
      assert ServedBy(bs, size, hints, m, k1);
    } else if !NoneOf(bs, third, size, m) {
      assert ServedBy(bs, size, hints, m, k2);
    }
  }

  lemma NoneOrFirst(bs: seq<Backend>, tier: Tier, size: nat, m: Machine) returns (k: nat)
    ensures NoneOf(bs, tier, size, m) || FirstOf(bs, tier, size, m, k)
  {
    k := SomeFirst(bs, tier, size, m, |bs|);
  }

  /**
   * Bit 0 of the hints asks for fast memory, bit 1 for memory that DMA can reach. Without either, bulk memory
   * comes first, then fast, then DMA memory; with the first one fast memory comes before bulk; with the second
   * one only DMA memory will do.
   */
  lemma TierOrder(bs: seq<Backend>, size: nat, hints: bv32, m: Machine)
    requires size > 0
    ensures hints & 3 == 0 ==> InTurn(bs, size, hints, m, Bulk, Fast, Dma)
    ensures hints & 3 == 1 ==> InTurn(bs, size, hints, m, Fast, Bulk, Dma)
    ensures hints & 2 != 0 ==> InTurn(bs, size, hints, m, Dma, Dma, Dma)
  {
    hide InTurn;
    HintBits(hints);
    if hints & 2 != 0 {
      ServedInTurn(bs, size, hints, m, [Dma], Dma, Dma, Dma);
    } else if hints & 1 != 0 {
      ServedInTurn(bs, size, hints, m, [Fast, Bulk, Dma], Fast, Bulk, Dma);
    } else {
      ServedInTurn(bs, size, hints, m, [Bulk, Fast, Dma], Bulk, Fast, Dma);
    }
  }

  lemma HintBits(hints: bv32)
    ensures hints & 3 == 0 <==> hints & 1 == 0 && hints & 2 == 0
    ensures hints & 3 == 1 <==> hints & 1 != 0 && hints & 2 == 0
  {
  }

  /** A request of no bytes gets nothing. */
  lemma NothingForNothing(bs: seq<Backend>, hints: bv32, m: Machine)
    ensures Allocated(bs, 0, hints, m) == (0, bs)
  {
  }

  // ----- what a tier still has to give -----

  /** A pool grants exactly if the request fits into a block, and a block into what is free above the reserve. */
  lemma PoolGrantsExactly(b: Backend, size: nat, m: Machine)
    requires MachineOk(m) && BackendOk(b, m) && b.store.PoolStore? && 0 < size
    ensures var p := b.store.pool;
      Grants(b, size, m) <==> size <= p.blockSize && b.reserve + p.blockSize <= |p.free| * p.blockSize
  {
    PoolAlloc(b, size, m);
  }

  /** An arena grants exactly if the request fits above the reserve, and with its padding into what is free. */
  lemma ArenaGrantsExactly(b: Backend, size: nat, m: Machine)
    requires MachineOk(m) && BackendOk(b, m) && b.store.ArenaStore? && 0 < size
    ensures var a := b.store.arena;
      Grants(b, size, m) <==>
        && b.reserve + size <= a.capacity - a.offset
        && Padding(a.base + a.offset, 4) + size <= a.capacity - a.offset
  {
    ArenaAlloc(b, size, m);
  }

  /** What is free above the reserve: a pool can give a block exactly if it is that much. */
  lemma SpareIsEnough(b: Backend, size: nat, m: Machine)
    requires MachineOk(m) && BackendOk(b, m) && 0 < size
    ensures Grants(b, size, m) ==> Charge(b, size) <= Spare(b)
    ensures b.store.PoolStore? && size <= b.store.pool.blockSize && b.store.pool.blockSize <= Spare(b) ==>
              Grants(b, size, m)
  {
    if b.store.PoolStore? {
      PoolGrantsExactly(b, size, m);
    } else {
      ArenaGrantsExactly(b, size, m);
    }
  }

  /** A grant takes a block from what a pool can spare, and size and padding from an arena, down to nothing. */
  lemma GrantTakesSpare(b: Backend, size: nat, m: Machine)
    requires MachineOk(m) && BackendOk(b, m) && 0 < size && Grants(b, size, m)
    ensures var t := Tried(b, size, m).1;
      && (b.store.PoolStore? ==> Spare(t) + b.store.pool.blockSize == Spare(b))
      && (b.store.ArenaStore? ==>
            var taken := Padding(b.store.arena.base + b.store.arena.offset, 4) + size;
            Spare(t) == if taken <= Spare(b) then Spare(b) - taken else 0)
  {
    hide Aligned, PowerOfTwo, Padding, ArenaState.Alloc;
    if b.store.PoolStore? {
      PoolAlloc(b, size, m);
      PoolGrantsExactly(b, size, m);
      OneBlockLess(|b.store.pool.free|, b.store.pool.blockSize);
    } else {
      ArenaServed(b.store.arena, size, m);
      ArenaGrantsExactly(b, size, m);
    }
  }

  lemma OneBlockLess(n: nat, size: nat)
    ensures n > 0 ==> n * size == (n - 1) * size + size
  {
  }

  /** The free space of a tier is that of its backends alone, one by one. */
  lemma {:induction false} SpaceChanges(bs: seq<Backend>, bs': seq<Backend>, tier: Tier, k: nat, n: nat)
    requires n <= |bs| == |bs'| && k < |bs| && bs' == bs[k := bs'[k]] && bs'[k].tier == bs[k].tier
    ensures FreeSpace(bs', tier, n)
            == FreeSpace(bs, tier, n) + if k < n && bs[k].tier == tier then Spare(bs'[k]) - Spare(bs[k]) else 0
  {
    hide Spare;
    if n > 0 {
      SpaceChanges(bs, bs', tier, k, n - 1);
    }
  }

  /** No backend of the tier has anything to spare exactly if the free space is zero. */
  lemma {:induction false} NoSpaceExactly(bs: seq<Backend>, tier: Tier, n: nat)
    requires n <= |bs|
    ensures FreeSpace(bs, tier, n) == 0 <==>
              forall k :: 0 <= k < n && bs[k].tier == tier ==> FreeBytes(bs[k]) <= bs[k].reserve
  {
    if n > 0 {
      NoSpaceExactly(bs, tier, n - 1);
    }
  }

  /** A request served from a pool takes one block from the free space of the pool's tier, and nothing elsewhere. */
  lemma AllocTakesSpace(bs: seq<Backend>, size: nat, hints: bv32, m: Machine, k: nat, tier: Tier)
    requires HubOk(bs, m) && 0 < size && ServedBy(bs, size, hints, m, k) && bs[k].store.PoolStore?
    ensures FreeSpace(bs, tier, |bs|)
            == FreeSpace(Allocated(bs, size, hints, m).1, tier, |bs|)
               + if bs[k].tier == tier then bs[k].store.pool.blockSize else 0
  {
    TriedKeeps(bs[k], size, m);
    GrantTakesSpare(bs[k], size, m);
    SpaceChanges(bs, Allocated(bs, size, hints, m).1, tier, k, |bs|);
  }
}
