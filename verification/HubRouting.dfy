/** The hub over all its backends: the search order, freeing, the accounts, and whole runs. */
module HubRouting {
  import opened Bytes
  import opened Words
  import opened Pool
  import opened Arena
  import opened Hub

  ghost predicate HubOk(bs: seq<Backend>, m: Machine) {
    && MachineOk(m)
    && (forall k :: 0 <= k < |bs| ==> BackendOk(bs[k], m))
    && (forall j, k :: 0 <= j < k < |bs| ==> Apart(Area(bs[j]), Area(bs[k])))
  }

  // ----- live blocks -----

  /** Any two live blocks, of the same backend or not, are the same or do not overlap. */
  lemma LiveApart(bs: seq<Backend>, m: Machine, j: nat, r: Region, k: nat, q: Region)
    requires HubOk(bs, m) && j < |bs| && k < |bs| && Live(bs[j], r) && Live(bs[k], q)
    ensures Area(bs[j]).start <= r.start < r.end <= Area(bs[j]).end
    ensures Apart(r, q) || (j == k && r == q)
  {
    LiveInside(bs[j], m, r);
    LiveInside(bs[k], m, q);
    if j == k {
      LiveApartInside(bs[j], m, r, q);
    } else if j < k {
      assert Apart(Area(bs[j]), Area(bs[k]));
    } else {
      assert Apart(Area(bs[k]), Area(bs[j]));
    }
  }

  lemma UpdateKeeps(bs: seq<Backend>, m: Machine, k: nat, t: Backend)
    requires HubOk(bs, m) && k < |bs| && BackendOk(t, m) && Area(t) == Area(bs[k])
    ensures HubOk(bs[k := t], m)
  {
  }

  // ----- routing -----

  predicate Triable(b: Backend, m: Machine) {
    && m.ptr < m.word && 4 < m.word
    && (b.store.ArenaStore? ==>
          && b.store.arena.base < m.word && b.store.arena.capacity <= m.word
          && b.store.arena.offset <= b.store.arena.capacity)
  }

  predicate Grants(b: Backend, size: nat, m: Machine) {
    Triable(b, m) && Tried(b, size, m).0 != 0
  }

  const HINT_FAST: bv32 := 1
  const HINT_DMA: bv32 := 2

  /** DMA requests never fall back; fast ones fall back to bulk, then to DMA memory. */
  function Order(hints: bv32): seq<Tier> {
    if hints & HINT_DMA != 0 then [Dma]
    else if hints & HINT_FAST != 0 then [Fast, Bulk, Dma]
    else [Bulk, Fast, Dma]
  }

  /** Backend k would serve the request if the search reached it for the i-th tier. */
  predicate Serves(bs: seq<Backend>, order: seq<Tier>, size: nat, m: Machine, i: nat, k: nat)
    requires i < |order| && k < |bs|
  {
    bs[k].tier == order[i] && Grants(bs[k], size, m)
  }

  /** The search from tier i and backend j on. */
  function Routed(bs: seq<Backend>, order: seq<Tier>, size: nat, m: Machine, i: nat, j: nat): (r: Option<nat>)
    ensures r.Some? ==> r.value < |bs|
    decreases |order| - i, |bs| - j
  {
    if i >= |order| then None
    else if j >= |bs| then Routed(bs, order, size, m, i + 1, 0)
    else if Serves(bs, order, size, m, i, j) then Some(j)
    else Routed(bs, order, size, m, i, j + 1)
  }

  predicate Before(i: nat, j: nat, i': nat, j': nat) {
    i < i' || (i == i' && j < j')
  }

  /** The search finds the first backend that serves, in tier order and then in order of registration. */
  lemma {:induction false} RoutedIsFirst(bs: seq<Backend>, order: seq<Tier>, size: nat, m: Machine, i: nat, j: nat)
    returns (r: nat)
    requires Routed(bs, order, size, m, i, j).Some?
    ensures var k := Routed(bs, order, size, m, i, j).value;
      && i <= r < |order| && Serves(bs, order, size, m, r, k) && !Before(r, k, i, j)
      && forall i', j' :: i <= i' < |order| && 0 <= j' < |bs| && !Before(i', j', i, j) && Before(i', j', r, k)
                          ==> !Serves(bs, order, size, m, i', j')
    decreases |order| - i, |bs| - j
  {
    if j >= |bs| {
      r := RoutedIsFirst(bs, order, size, m, i + 1, 0);
    } else if Serves(bs, order, size, m, i, j) {
      r := i;
    } else {
      r := RoutedIsFirst(bs, order, size, m, i, j + 1);
    }
  }

  /** It fails only if no backend of the tiers serves. */
  lemma {:induction false} RoutedFails(bs: seq<Backend>, order: seq<Tier>, size: nat, m: Machine, i: nat, j: nat)
    requires Routed(bs, order, size, m, i, j).None?
    ensures forall i', j' :: i <= i' < |order| && 0 <= j' < |bs| && !Before(i', j', i, j)
                             ==> !Serves(bs, order, size, m, i', j')
    decreases |order| - i, |bs| - j
  {
    if i < |order| {
      if j >= |bs| {
        RoutedFails(bs, order, size, m, i + 1, 0);
      } else {
        RoutedFails(bs, order, size, m, i, j + 1);
      }
    }
  }

  /** A request with the DMA hint is served from a DMA backend, or not at all. */
  lemma DmaStaysDma(bs: seq<Backend>, hints: bv32, size: nat, m: Machine)
    requires hints & HINT_DMA != 0
    ensures var r := Routed(bs, Order(hints), size, m, 0, 0);
      && (r.Some? ==> bs[r.value].tier == Dma && Grants(bs[r.value], size, m))
      && (r.None? ==> forall k :: 0 <= k < |bs| && bs[k].tier == Dma ==> !Grants(bs[k], size, m))
  {
    var r := Routed(bs, Order(hints), size, m, 0, 0);
    if r.Some? {
      var i := RoutedIsFirst(bs, Order(hints), size, m, 0, 0);
    } else {
      RoutedFails(bs, Order(hints), size, m, 0, 0);
      forall k | 0 <= k < |bs| && bs[k].tier == Dma ensures !Grants(bs[k], size, m) {
        assert !Serves(bs, Order(hints), size, m, 0, k);
      }
    }
  }

  /** The request as a whole: the address or zero, and all backends. */
  function Allocated(bs: seq<Backend>, size: nat, hints: bv32, m: Machine): (nat, seq<Backend>) {
    var r := Routed(bs, Order(hints), size, m, 0, 0);
    if size == 0 || r.None? || !Triable(bs[r.value], m) then (0, bs)
    else (Tried(bs[r.value], size, m).0, bs[r.value := Tried(bs[r.value], size, m).1])
  }

  /** Allocation keeps the hub in order; the request is charged to the backend that serves it. */
  lemma AllocKeeps(bs: seq<Backend>, size: nat, hints: bv32, m: Machine)
    requires HubOk(bs, m)
    ensures var (p, bs') := Allocated(bs, size, hints, m);
      && HubOk(bs', m) && |bs'| == |bs|
      && (p == 0 ==> bs' == bs)
      && (p != 0 ==> var k := Routed(bs, Order(hints), size, m, 0, 0).value;
                     && bs' == bs[k := Tried(bs[k], size, m).1]
                     && bs'[k].charged == bs[k].charged + Charge(bs[k], size))
  {
    var r := Routed(bs, Order(hints), size, m, 0, 0);
    if size > 0 && r.Some? {
      var k := r.value;
      var i := RoutedIsFirst(bs, Order(hints), size, m, 0, 0);
      TriedKeeps(bs[k], size, m);
      UpdateKeeps(bs, m, k, Tried(bs[k], size, m).1);
    }
  }

  /** Exactly one block becomes live. */
  lemma AllocLive(bs: seq<Backend>, size: nat, hints: bv32, m: Machine, k: nat, r: Region)
    requires HubOk(bs, m) && Allocated(bs, size, hints, m).0 != 0 && k < |bs|
    ensures var (p, bs') := Allocated(bs, size, hints, m); var o := Routed(bs, Order(hints), size, m, 0, 0).value;
      |bs'| == |bs| && (Live(bs'[k], r) <==> (k == o && r == Region(p, p + Charge(bs[k], size))) || Live(bs[k], r))
  {
    var o := Routed(bs, Order(hints), size, m, 0, 0).value;
    if k == o {
      TriedLive(bs[k], size, m, r);
    }
  }

  /** The new block overlaps no block that was live before. */
  lemma AllocApart(bs: seq<Backend>, size: nat, hints: bv32, m: Machine, k: nat, r: Region)
    requires HubOk(bs, m) && Allocated(bs, size, hints, m).0 != 0 && k < |bs| && Live(bs[k], r)
    ensures var p := Allocated(bs, size, hints, m).0; var o := Routed(bs, Order(hints), size, m, 0, 0).value;
      Apart(r, Region(p, p + Charge(bs[o], size)))
  {
    var p := Allocated(bs, size, hints, m).0;
    var o := Routed(bs, Order(hints), size, m, 0, 0).value;
    var q := Region(p, p + Charge(bs[o], size));
    AllocKeeps(bs, size, hints, m);
    AllocLive(bs, size, hints, m, k, r);
    AllocLive(bs, size, hints, m, o, q);
    NewIsNew(bs[o], size, m);
    LiveApart(Allocated(bs, size, hints, m).1, m, k, r, o, q);
  }

  // ----- freeing -----

  /** The address is in the range of a pool, whose end is computed in a word. */
  predicate Owns(b: Backend, p: nat) {
    b.store.PoolStore? && b.store.pool.InRange(p)
  }

  /** The first pool whose storage holds the address. */
  function Owner(bs: seq<Backend>, p: nat, j: nat): (r: Option<nat>)
    requires j <= |bs|
    ensures r.Some? ==> j <= r.value < |bs| && Owns(bs[r.value], p)
    ensures r.None? ==> forall k :: j <= k < |bs| ==> !Owns(bs[k], p)
    decreases |bs| - j
  {
    if j == |bs| then None else if Owns(bs[j], p) then Some(j) else Owner(bs, p, j + 1)
  }

  /** Disjoint pools: there is at most one owner. */
  lemma OneOwner(bs: seq<Backend>, m: Machine, p: nat, j: nat, k: nat)
    requires HubOk(bs, m) && j < |bs| && k < |bs| && j != k && Owns(bs[j], p)
    ensures !Owns(bs[k], p)
  {
    if j < k {
      assert Apart(Area(bs[j]), Area(bs[k]));
    } else {
      assert Apart(Area(bs[k]), Area(bs[j]));
    }
  }

  lemma OwnedHasBlocks(b: Backend, p: nat)
    requires Owns(b, p)
    ensures b.store.pool.blockSize > 0
  {
  }

  function Returned(b: Backend, p: nat): (Status, Backend)
    requires Owns(b, p)
  {
    OwnedHasBlocks(b, p);
    var size, (st, t) := b.store.pool.blockSize, b.store.pool.Free(p);
    (st, b.(store := PoolStore(t), charged := if st == Ok && b.charged >= size then b.charged - size else b.charged))
  }

  /** Freeing as a whole. */
  function Freed(bs: seq<Backend>, p: nat): (Status, seq<Backend>) {
    var o := Owner(bs, p, 0);
    if p == 0 then (InvalidArg, bs)
    else if o.None? then (NotFound, bs)
    else (Returned(bs[o.value], p).0, bs[o.value := Returned(bs[o.value], p).1])
  }

  /** The address is that of a live block of the pool. */
  ghost predicate LiveAt(b: Backend, p: nat) {
    b.store.PoolStore? && exists i :: 0 <= i < b.store.pool.capacity && b.store.pool.Out(i) && p == b.store.pool.Addr(i)
  }

  ghost predicate Freeable(b: Backend, p: nat) {
    LiveAt(b, p) && b.store.pool.EndsBelowWord()
  }

  lemma ReturnedKeeps(b: Backend, p: nat, m: Machine)
    requires BackendOk(b, m) && Owns(b, p)
    ensures var (st, t) := Returned(b, p);
      && BackendOk(t, m) && Area(t) == Area(b)
      && (st == Ok <==> LiveAt(b, p))
      && (st == Ok ==> t.charged == b.charged - b.store.pool.blockSize)
      && (st != Ok ==> st == InvalidArg && t == b)
      && t.store.PoolStore? && t.reserve == b.reserve && FreeBytes(t) >= FreeBytes(b)
  {
    var s := b.store.pool;
    FreeAcceptsExactly(s, p);
    if s.Free(p).0 == Ok {
      var i :| 0 <= i < s.capacity && s.Out(i) && p == s.Addr(i);
      OutIsNotFree(s, i);
      Roomy(s.capacity, |s.free|, s.blockSize);
    }
  }

  lemma Roomy(capacity: nat, free: nat, size: nat)
    requires free < capacity
    ensures capacity * size - free * size >= size && (free + 1) * size == free * size + size
  {
    MulMonotone(free + 1, capacity, size);
  }

  lemma LiveIsOwned(b: Backend, p: nat, m: Machine)
    requires BackendOk(b, m) && LiveAt(b, p)
    ensures Owns(b, p) <==> b.store.pool.EndsBelowWord()
  {
    var s := b.store.pool;
    var i :| 0 <= i < s.capacity && s.Out(i) && p == s.Addr(i);
    AddrNumber(s, i);
  }

  /**
   * Free succeeds exactly on the addresses of live blocks of pools that end below the end of the address space,
   * and takes the charge back from the pool that owns the block. Any other address changes nothing; one that no
   * pool owns is not found.
   */
  lemma FreeExactly(bs: seq<Backend>, p: nat, m: Machine)
    requires HubOk(bs, m) && p != 0
    ensures var (st, bs') := Freed(bs, p);
      && HubOk(bs', m) && |bs'| == |bs|
      && (st == Ok <==> exists k :: 0 <= k < |bs| && Freeable(bs[k], p))
      && (st == NotFound <==> forall k :: 0 <= k < |bs| ==> !Owns(bs[k], p))
      && (st != Ok ==> bs' == bs)
      && (st == Ok ==> var o := Owner(bs, p, 0).value;
                       && bs' == bs[o := Returned(bs[o], p).1] && LiveAt(bs[o], p)
                       && bs'[o].charged == bs[o].charged - bs[o].store.pool.blockSize)
  {
    var o := Owner(bs, p, 0);
    if o.Some? {
      ReturnedKeeps(bs[o.value], p, m);
      UpdateKeeps(bs, m, o.value, Returned(bs[o.value], p).1);
      forall k | 0 <= k < |bs| && Freeable(bs[k], p) ensures k == o.value {
        LiveIsOwned(bs[k], p, m);
        if k != o.value {
          OneOwner(bs, m, p, o.value, k);
          assert false;
        }
      }
    } else {
      forall k | 0 <= k < |bs| ensures !Freeable(bs[k], p) {
        if Freeable(bs[k], p) {
          LiveIsOwned(bs[k], p, m);
          assert false;
        }
      }
    }
  }

  /**
   * What is allocated can be freed, which restores every account, if and only if its pool ends below the end of
   * the address space; otherwise no backend is found for it.
   */
  lemma AllocThenFree(bs: seq<Backend>, size: nat, hints: bv32, m: Machine)
    requires HubOk(bs, m) && Allocated(bs, size, hints, m).0 != 0
    requires bs[Routed(bs, Order(hints), size, m, 0, 0).value].store.PoolStore?
    ensures var (p, bs') := Allocated(bs, size, hints, m);
      var below := bs[Routed(bs, Order(hints), size, m, 0, 0).value].store.pool.EndsBelowWord();
      && Freed(bs', p).0 == (if below then Ok else NotFound)
      && (below ==> TotalUsed(Freed(bs', p).1, |bs|) == TotalUsed(bs, |bs|))
      && (!below ==> Freed(bs', p).1 == bs')
  {
    var (p, bs') := Allocated(bs, size, hints, m);
    var k := Routed(bs, Order(hints), size, m, 0, 0).value;
    AllocKeeps(bs, size, hints, m);
    PoolAlloc(bs[k], size, m);
    HandedOutIsLive(bs[k].store.pool, bs'[k]);
    LiveIsOwned(bs'[k], p, m);
    FreeExactly(bs', p, m);
    if bs[k].store.pool.EndsBelowWord() {
      assert Freeable(bs'[k], p);
      var o := Owner(bs', p, 0).value;
      if o != k {
        OneOwner(bs', m, p, k, o);
        assert false;
      }
      TotalChanges(bs, bs', k, |bs|);
      TotalChanges(bs', Freed(bs', p).1, k, |bs|);
    } else {
      InsideOnly(bs', m, p, k);
    }
  }

  /** A live block lies in no other pool. */
  lemma InsideOnly(bs: seq<Backend>, m: Machine, p: nat, k: nat)
    requires HubOk(bs, m) && k < |bs| && LiveAt(bs[k], p) && !Owns(bs[k], p)
    ensures forall j :: 0 <= j < |bs| ==> !Owns(bs[j], p)
  {
    var s := bs[k].store.pool;
    var i :| 0 <= i < s.capacity && s.Out(i) && p == s.Addr(i);
    AddrInside(s, i);
    forall j | 0 <= j < |bs| && j != k ensures !Owns(bs[j], p) {
      if j < k {
        assert Apart(Area(bs[j]), Area(bs[k]));
      } else {
        assert Apart(Area(bs[k]), Area(bs[j]));
      }
    }
  }

  lemma HandedOutIsLive(s: PoolState, t: Backend)
    requires s.WellFormed() && s.free != [] && t.store == PoolStore(s.Alloc().1)
    ensures LiveAt(t, s.Alloc().0)
  {
    AllocTakesFree(s);
    var i := s.free[0];
    assert t.store.pool.Out(i) && s.Alloc().0 == t.store.pool.Addr(i);
  }

  // ----- totals -----

  function TotalUsed(bs: seq<Backend>, n: nat): nat
    requires n <= |bs|
  {
    if n == 0 then 0 else TotalUsed(bs, n - 1) + bs[n - 1].charged
  }

  /** What a tier still has to give, reserves set aside. */
  function FreeSpace(bs: seq<Backend>, tier: Tier, n: nat): nat
    requires n <= |bs|
  {
    if n == 0 then 0
    else FreeSpace(bs, tier, n - 1) + if bs[n - 1].tier == tier then Spare(bs[n - 1]) else 0
  }

  function Spare(b: Backend): nat {
    if FreeBytes(b) > b.reserve then FreeBytes(b) - b.reserve else 0
  }

  lemma {:induction false} TotalChanges(bs: seq<Backend>, bs': seq<Backend>, k: nat, n: nat)
    requires n <= |bs| == |bs'| && k < |bs| && bs' == bs[k := bs'[k]]
    ensures TotalUsed(bs', n) == TotalUsed(bs, n) + if k < n then bs'[k].charged - bs[k].charged else 0
  {
    if n > 0 {
      TotalChanges(bs, bs', k, n - 1);
    }
  }

  // ----- whole runs -----

  datatype Request = Take(size: nat, hints: bv32) | Give(p: nat)

  function Step(bs: seq<Backend>, r: Request, m: Machine): seq<Backend> {
    match r
    case Take(size, hints) => Allocated(bs, size, hints, m).1
    case Give(p) => Freed(bs, p).1
  }

  function After(bs: seq<Backend>, rs: seq<Request>, n: nat, m: Machine): seq<Backend>
    requires n <= |rs|
  {
    if n == 0 then bs else Step(After(bs, rs, n - 1, m), rs[n - 1], m)
  }

  /** Over every run the hub stays in order: accounts balance, and all live blocks are apart and inside. */
  lemma {:induction false} RunKeeps(bs: seq<Backend>, rs: seq<Request>, n: nat, m: Machine)
    requires HubOk(bs, m) && n <= |rs|
    ensures HubOk(After(bs, rs, n, m), m) && |After(bs, rs, n, m)| == |bs|
  {
    if n > 0 {
      RunKeeps(bs, rs, n - 1, m);
      match rs[n - 1] {
        case Take(size, hints) => AllocKeeps(After(bs, rs, n - 1, m), size, hints, m);
        case Give(p) => if p != 0 { FreeExactly(After(bs, rs, n - 1, m), p, m); }
      }
    }
  }

  /** A backend within the slack of its reserve. */
  predicate Keeps(b: Backend, t: Backend) {
    t.reserve == b.reserve && Slack(t) == Slack(b) && (Reserved(b, Slack(b)) ==> Reserved(t, Slack(b)))
  }

  lemma StepReserves(bs: seq<Backend>, r: Request, m: Machine, k: nat)
    requires HubOk(bs, m) && k < |bs|
    ensures |Step(bs, r, m)| == |bs| && Keeps(bs[k], Step(bs, r, m)[k])
  {
    match r {
      case Take(size, hints) =>
        var o := Routed(bs, Order(hints), size, m, 0, 0);
        if size > 0 && o.Some? {
          TriedKeeps(bs[o.value], size, m);
        }
      case Give(p) =>
        var o := Owner(bs, p, 0);
        if p != 0 && o.Some? {
          ReturnedKeeps(bs[o.value], p, m);
        }
    }
  }

  /** Over every run a pool at or above its reserve stays there, and an arena stays within three bytes of it. */
  lemma {:induction false} RunReserves(bs: seq<Backend>, rs: seq<Request>, n: nat, m: Machine, k: nat)
    requires HubOk(bs, m) && n <= |rs| && k < |bs|
    ensures |After(bs, rs, n, m)| == |bs| && Keeps(bs[k], After(bs, rs, n, m)[k])
  {
    if n > 0 {
      RunKeeps(bs, rs, n - 1, m);
      RunReserves(bs, rs, n - 1, m, k);
      StepReserves(After(bs, rs, n - 1, m), rs[n - 1], m, k);
    }
  }

  lemma RunApart(bs: seq<Backend>, rs: seq<Request>, n: nat, m: Machine, j: nat, r: Region, k: nat, q: Region)
    requires HubOk(bs, m) && n <= |rs| && j < |bs| && k < |bs| && |After(bs, rs, n, m)| == |bs|
    requires Live(After(bs, rs, n, m)[j], r) && Live(After(bs, rs, n, m)[k], q) && (j != k || r != q)
    ensures Apart(r, q)
  {
    RunKeeps(bs, rs, n, m);
    LiveApart(After(bs, rs, n, m), m, j, r, k, q);
  }

  // ----- the hub itself -----

  class MemoryHub {
    const m: Machine
    var backends: seq<Backend>
    var allocOps: nat
    var rejectedOps: nat

    ghost predicate Valid()
      reads this
    {
      HubOk(backends, m) && |backends| <= MAX_BACKENDS && allocOps < m.word && rejectedOps < m.word
    }

    constructor (machine: Machine)
      requires MachineOk(machine)
      ensures Valid() && backends == [] && m == machine
    {
      m := machine;
      backends, allocOps, rejectedOps := [], 0, 0;
    }

    /** A store that nobody uses yet, apart from those registered before. */
    method Register(tier: Tier, store: Store, reserve: nat) returns (st: Status)
      requires Valid() && BackendOk(Backend(tier, store, reserve, 0, 0), m)
      requires forall k :: 0 <= k < |backends| ==> Apart(Area(backends[k]), Area(Backend(tier, store, reserve, 0, 0)))
      modifies this
      ensures Valid() && st == if |old(backends)| < MAX_BACKENDS then Ok else BufferOverflow
      ensures backends == old(backends) + if st == Ok then [Backend(tier, store, reserve, 0, 0)] else []
    {
      if |backends| >= MAX_BACKENDS {
        return BufferOverflow;
      }
      backends := backends + [Backend(tier, store, reserve, 0, 0)];
      st := Ok;
    }

    /** One attempt at one backend, as a part of the search. */
    method TryAt(k: nat, size: nat) returns (p: nat)
      requires Valid() && k < |backends| && 0 < size
      modifies this`backends
      ensures (p, backends) == old((Tried(backends[k], size, m).0, backends[k := Tried(backends[k], size, m).1]))
      ensures Valid() && (p != 0 <==> old(Grants(backends[k], size, m))) && (p == 0 ==> backends == old(backends))
    {
      TriedKeeps(backends[k], size, m);
      UpdateKeeps(backends, m, k, Tried(backends[k], size, m).1);
      var (q, t) := Tried(backends[k], size, m);
      p := q;
      backends := backends[k := t];
    }

    method Alloc(size: nat, hints: bv32) returns (p: nat)
      requires Valid()
      modifies this
      ensures Valid() && (p, backends) == old(Allocated(backends, size, hints, m))
      ensures size == 0 ==> p == 0 && backends == old(backends)
      ensures allocOps == if size == 0 then old(allocOps) else Plus(old(allocOps), 1, m.word)
      ensures rejectedOps == if size == 0 || p != 0 then old(rejectedOps) else Plus(old(rejectedOps), 1, m.word)
    {
      if size == 0 {
        return 0;
      }
      allocOps := Plus(allocOps, 1, m.word);
      var order := Order(hints);
      var i := 0;
      while i < |order|
        invariant 0 <= i <= |order| && Valid() && backends == old(backends) && rejectedOps == old(rejectedOps)
        invariant allocOps == Plus(old(allocOps), 1, m.word)
        invariant Routed(backends, order, size, m, 0, 0) == Routed(backends, order, size, m, i, 0)
      {
        var j := 0;
        while j < |backends|
          invariant 0 <= j <= |backends| && Valid() && backends == old(backends) && rejectedOps == old(rejectedOps)
          invariant allocOps == Plus(old(allocOps), 1, m.word)
          invariant Routed(backends, order, size, m, 0, 0) == Routed(backends, order, size, m, i, j)
        {
          if backends[j].tier == order[i] {
            p := TryAt(j, size);
            if p != 0 {
              return;
            }
          }
          j := j + 1;
        }
        i := i + 1;
      }
      p := 0;
      rejectedOps := Plus(rejectedOps, 1, m.word);
    }

    method Free(p: nat) returns (st: Status)
      requires Valid()
      modifies this`backends
      ensures Valid() && (st, backends) == old(Freed(backends, p))
      ensures p == 0 ==> st == InvalidArg && backends == old(backends)
    {
      hide HubOk;
      if p == 0 {
        return InvalidArg;
      }
      FreeExactly(backends, p, m);
      for i := 0 to |backends|
        invariant backends == old(backends) && Owner(backends, p, 0) == Owner(backends, p, i)
      {
        if Owns(backends[i], p) {
          var (res, t) := Returned(backends[i], p);
          backends := backends[i := t];
          return res;
        }
      }
      st := NotFound;
    }

    method GetTotalUsed() returns (used: nat)
      ensures used == TotalUsed(backends, |backends|)
    {
      used := 0;
      for i := 0 to |backends|
        invariant used == TotalUsed(backends, i)
      {
        used := used + backends[i].charged;
      }
    }

    method GetFreeSpace(tier: Tier) returns (free: nat)
      ensures free == FreeSpace(backends, tier, |backends|)
    {
      free := 0;
      for i := 0 to |backends|
        invariant free == FreeSpace(backends, tier, i)
      {
        if backends[i].tier == tier {
          free := free + Spare(backends[i]);
        }
      }
    }
  }
}
