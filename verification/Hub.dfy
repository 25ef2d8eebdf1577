/** The memory hub: requests are routed over tiers of pools and arenas, with a reserve and an account for each. */
module Hub {
  import opened Words
  import opened Pool
  import opened Arena

  datatype Tier = Fast | Dma | Bulk

  datatype Store = PoolStore(pool: PoolState) | ArenaStore(arena: ArenaState)

  datatype Backend = Backend(tier: Tier, store: Store, reserve: nat, charged: nat, peak: nat)

  const MAX_BACKENDS := 8

  /** Address space and pointer size. */
  datatype Machine = Machine(word: nat, ptr: nat)

  ghost predicate MachineOk(m: Machine) {
    PowerOfTwo(m.word) && PowerOfTwo(m.ptr) && m.ptr < m.word && 4 < m.word
  }

  // ----- one backend -----

  function FreeBytes(b: Backend): nat {
    match b.store
    case PoolStore(p) => |p.free| * p.blockSize
    case ArenaStore(a) => if a.capacity > a.offset then a.capacity - a.offset else 0
  }

  /** What a backend charges for a request. */
  function Charge(b: Backend, size: nat): nat {
    if b.store.PoolStore? then b.store.pool.blockSize else size
  }

  /** The reserve check. */
  predicate Allows(b: Backend, size: nat) {
    match b.store
    case PoolStore(p) =>
      size <= p.blockSize && FreeBytes(b) > b.reserve && FreeBytes(b) - p.blockSize >= b.reserve
    case ArenaStore(a) =>
      FreeBytes(b) > b.reserve && size <= FreeBytes(b) && FreeBytes(b) - size >= b.reserve
  }

  ghost predicate StoreOk(s: Store, m: Machine) {
    match s
    case PoolStore(p) => p.WellFormed() && p.word == m.word
    case ArenaStore(a) => a.WellFormed(m.word) && a.base < m.word
  }

  function Served(s: Store, size: nat, m: Machine): (nat, Store)
    requires s.ArenaStore? ==> s.arena.base < m.word && s.arena.capacity <= m.word && s.arena.offset <= s.arena.capacity
    requires m.ptr < m.word && 4 < m.word
  {
    match s
    case PoolStore(p) => (p.Alloc().0, PoolStore(p.Alloc().1))
    case ArenaStore(a) => (a.Alloc(size, 4, m.word, m.ptr).0, ArenaStore(a.Alloc(size, 4, m.word, m.ptr).1))
  }

  /** One attempt: the address or zero, and the backend with its account. */
  function Tried(b: Backend, size: nat, m: Machine): (nat, Backend)
    requires b.store.ArenaStore? ==>
      b.store.arena.base < m.word && b.store.arena.capacity <= m.word && b.store.arena.offset <= b.store.arena.capacity
    requires m.ptr < m.word && 4 < m.word
  {
    if !Allows(b, size) then (0, b)
    else
      var (p, s) := Served(b.store, size, m);
      if p == 0 then (0, b)
      else
        var used := b.charged + Charge(b, size);
        (p, b.(store := s, charged := used, peak := if used > b.peak then used else b.peak))
  }

  function Area(b: Backend): Region {
    match b.store
    case PoolStore(p) => Region(p.storage, p.storage + p.capacity * p.blockSize)
    case ArenaStore(a) => Region(a.base, a.base + a.capacity)
  }

  /** The same memory, tier and reserve. */
  predicate SamePlace(b: Backend, t: Backend) {
    && Area(t) == Area(b) && t.tier == b.tier && t.reserve == b.reserve
    && (t.store.PoolStore? <==> b.store.PoolStore?)
  }

  // ----- the account -----

  function Sizes(live: seq<Region>): int {
    if |live| == 0 then 0 else Sizes(live[..|live| - 1]) + (live[|live| - 1].end - live[|live| - 1].start)
  }

  /** Pool: what is charged and what is free make up the whole. Arena: the account is the sum of the live sizes. */
  ghost predicate Accounted(b: Backend) {
    match b.store
    case PoolStore(p) => b.charged + |p.free| * p.blockSize == p.capacity * p.blockSize
    case ArenaStore(a) => b.charged == Sizes(a.live) && b.charged <= a.offset
  }

  ghost predicate BackendOk(b: Backend, m: Machine) {
    StoreOk(b.store, m) && Accounted(b)
  }

  /** What alignment padding can take from the reserve of an arena. */
  function Slack(b: Backend): nat {
    if b.store.PoolStore? then 0 else 3
  }

  /** The reserve margin: pools never fall below it, arenas by at most the padding. */
  predicate Reserved(b: Backend, slack: nat) {
    FreeBytes(b) + slack >= b.reserve
  }

  lemma PoolAlloc(b: Backend, size: nat, m: Machine)
    requires MachineOk(m) && BackendOk(b, m) && b.store.PoolStore? && 0 < size
    ensures var (p, t) := Tried(b, size, m);
      && BackendOk(t, m) && SamePlace(b, t)
      && (p != 0 <==> Allows(b, size))
      && (p != 0 ==> t.charged == b.charged + b.store.pool.blockSize && Reserved(t, 0)
                     && t.store == PoolStore(b.store.pool.Alloc().1) && p == b.store.pool.Alloc().0)
      && (p == 0 ==> t == b)
  {
    var s := b.store.pool;
    AllocTakesFree(s);
    if Allows(b, size) {
      var n := |s.free|;
      assert n > 0;
      assert n * s.blockSize == (n - 1) * s.blockSize + s.blockSize;
    }
  }

  lemma FourIsPower()
    ensures PowerOfTwo(4) && BitAnd(4, 3) == 0
  {
    MaskTest(4);
  }

  /** The arena under the hub: every request asks for alignment four. */
  lemma ArenaServed(a: ArenaState, size: nat, m: Machine)
    requires MachineOk(m) && a.WellFormed(m.word) && a.base < m.word && 0 < size
    ensures var (p, t) := a.Alloc(size, 4, m.word, m.ptr); var pad := Padding(a.base + a.offset, 4);
      && t.WellFormed(m.word) && pad < 4
      && (if pad + size > a.capacity - a.offset then p == 0 && t == a
          else p == a.base + a.offset + pad && p != 0 && Aligned(p, 4)
               && t.offset == a.offset + pad + size && t.base == a.base && t.capacity == a.capacity
               && t.live == a.live + [Region(p, p + size)])
  {
    FourIsPower();
    AllocExactly(a, size, 4, m.word, m.ptr);
  }

  lemma SizesGrow(live: seq<Region>, p: nat, size: nat)
    ensures Sizes(live + [Region(p, p + size)]) == Sizes(live) + size
  {
    assert (live + [Region(p, p + size)])[..|live|] == live;
  }

  lemma ArenaAlloc(b: Backend, size: nat, m: Machine)
    requires MachineOk(m) && BackendOk(b, m) && b.store.ArenaStore? && 0 < size
    ensures var (p, t) := Tried(b, size, m);
      && BackendOk(t, m) && t.store.ArenaStore? && SamePlace(b, t)
      && (p != 0 <==> Allows(b, size)
                      && Padding(b.store.arena.base + b.store.arena.offset, 4) + size <= FreeBytes(b))
      && (p != 0 ==> t.charged == b.charged + size && Reserved(t, 3)
                     && t.store.arena.live == b.store.arena.live + [Region(p, p + size)] && Aligned(p, 4))
      && (p == 0 ==> t == b)
  {
    hide PowerOfTwo, Padding, Aligned, ArenaState.Alloc, ArenaState.WellFormed, Sizes;
    var a := b.store.arena;
    ArenaServed(a, size, m);
    SizesGrow(a.live, a.Alloc(size, 4, m.word, m.ptr).0, size);
  }

  /** The request granted or not: a pool at or above its reserve stays there, an arena above it by the padding. */
  lemma TriedKeeps(b: Backend, size: nat, m: Machine)
    requires MachineOk(m) && BackendOk(b, m) && 0 < size
    ensures var (p, t) := Tried(b, size, m);
      && BackendOk(t, m) && SamePlace(b, t)
      && (p == 0 ==> t == b)
      && (p != 0 ==> t.charged == b.charged + Charge(b, size) && Reserved(t, Slack(b)))
      && (p != 0 ==> t.charged <= t.peak && t.peak >= b.peak && (t.peak == b.peak || t.peak == t.charged))
  {
    hide PowerOfTwo, Padding, Aligned, ArenaState.Alloc, Sizes, Accounted, Allows;
    if b.store.PoolStore? {
      PoolAlloc(b, size, m);
    } else {
      ArenaAlloc(b, size, m);
    }
  }

  /** An arena that grants a request keeps its reserve if and only if the padding fits above it as well. */
  lemma ReserveKeptExactly(b: Backend, size: nat, m: Machine)
    requires MachineOk(m) && BackendOk(b, m) && b.store.ArenaStore? && 0 < size && Tried(b, size, m).0 != 0
    ensures Reserved(Tried(b, size, m).1, 0) <==>
              Padding(b.store.arena.base + b.store.arena.offset, 4) + size + b.reserve <= FreeBytes(b)
  {
    hide PowerOfTwo, Padding, Aligned, ArenaState.Alloc;
    ArenaServed(b.store.arena, size, m);
  }

  /** An arena at its reserve plus the request can end up three bytes below the reserve. */
  lemma PaddingEatsReserve() returns (b: Backend, m: Machine)
    ensures MachineOk(m) && BackendOk(b, m) && Reserved(b, 0)
    ensures Tried(b, 1, m).0 != 0 && !Reserved(Tried(b, 1, m).1, 2)
  {
    m := Machine(64, 4);
    var a := ArenaState(4, 16, 1, 1, [Region(4, 5)]);
    b := Backend(Bulk, ArenaStore(a), 14, 1, 1);
    SmallPowers();
    assert a.live[..0] == [];
    ArenaSteps(a);
  }

  lemma SmallPowers()
    ensures PowerOfTwo(4) && PowerOfTwo(64)
  {
    assert PowerOfTwo(16);
  }

  lemma ArenaSteps(a: ArenaState)
    requires a == ArenaState(4, 16, 1, 1, [Region(4, 5)])
    ensures a.Alloc(1, 4, 64, 4).0 == 8 && a.Alloc(1, 4, 64, 4).1.offset == 5 && a.Alloc(1, 4, 64, 4).1.capacity == 16
  {
    SmallPowers();
    MaskTest(4);
    BumpExactly(a, 1, 4, 64);
  }

  // ----- live blocks -----

  predicate Apart(r: Region, q: Region) {
    r.end <= q.start || q.end <= r.start
  }

  /** The region is a block that the backend has handed out and not taken back. */
  ghost predicate Live(b: Backend, r: Region) {
    match b.store
    case PoolStore(p) => exists i :: 0 <= i < p.capacity && p.Out(i) && r == Region(p.Addr(i), p.Addr(i) + p.blockSize)
    case ArenaStore(a) => r in a.live
  }

  lemma LiveInside(b: Backend, m: Machine, r: Region)
    requires BackendOk(b, m) && Live(b, r)
    ensures Area(b).start <= r.start < r.end <= Area(b).end
  {
    if b.store.PoolStore? {
      var p := b.store.pool;
      var i :| 0 <= i < p.capacity && p.Out(i) && r == Region(p.Addr(i), p.Addr(i) + p.blockSize);
      BlocksDisjoint(p, i, i + 1);
      MulMonotone(i + 1, p.capacity, p.blockSize);
    }
  }

  /** Two live blocks of a backend are the same or do not overlap. */
  lemma LiveApartInside(b: Backend, m: Machine, r: Region, q: Region)
    requires BackendOk(b, m) && Live(b, r) && Live(b, q)
    ensures r == q || Apart(r, q)
  {
    if b.store.PoolStore? {
      var p := b.store.pool;
      var i :| 0 <= i < p.capacity && p.Out(i) && r == Region(p.Addr(i), p.Addr(i) + p.blockSize);
      var j :| 0 <= j < p.capacity && p.Out(j) && q == Region(p.Addr(j), p.Addr(j) + p.blockSize);
      if i < j {
        BlocksDisjoint(p, i, j);
      } else if j < i {
        BlocksDisjoint(p, j, i);
      }
    }
  }

  /** A granted request adds one live block and leaves the others. */
  lemma TriedLive(b: Backend, size: nat, m: Machine, r: Region)
    requires MachineOk(m) && BackendOk(b, m) && 0 < size && Tried(b, size, m).0 != 0
    ensures var (p, t) := Tried(b, size, m);
      Live(t, r) <==> r == Region(p, p + Charge(b, size)) || Live(b, r)
  {
    hide PowerOfTwo, Padding, Aligned, ArenaState.Alloc, Sizes;
    var (p, t) := Tried(b, size, m);
    if b.store.PoolStore? {
      PoolAlloc(b, size, m);
      PoolLiveGrows(b.store.pool, r, b, t);
    } else {
      ArenaAlloc(b, size, m);
    }
  }

  lemma PoolLiveGrows(p: PoolState, r: Region, b: Backend, t: Backend)
    requires p.WellFormed() && p.free != [] && b.store == PoolStore(p) && t.store == PoolStore(p.Alloc().1)
    ensures Live(t, r) <==> r == Region(p.Alloc().0, p.Alloc().0 + p.blockSize) || Live(b, r)
  {
    AllocTakesFree(p);
    var q, i := p.Alloc().1, p.free[0];
    assert forall j :: 0 <= j < p.capacity ==> q.Addr(j) == p.Addr(j);
    if r == Region(p.Addr(i), p.Addr(i) + p.blockSize) {
      assert q.Out(i) && r == Region(q.Addr(i), q.Addr(i) + q.blockSize);
    }
    if Live(b, r) {
      var j :| 0 <= j < p.capacity && p.Out(j) && r == Region(p.Addr(j), p.Addr(j) + p.blockSize);
      assert q.Out(j) && r == Region(q.Addr(j), q.Addr(j) + q.blockSize);
    }
    if Live(t, r) {
      var j :| 0 <= j < q.capacity && q.Out(j) && r == Region(q.Addr(j), q.Addr(j) + q.blockSize);
      assert j == i || p.Out(j);
    }
  }

  /** The block handed out was not live before. */
  lemma NewIsNew(b: Backend, size: nat, m: Machine)
    requires MachineOk(m) && BackendOk(b, m) && 0 < size && Tried(b, size, m).0 != 0
    ensures !Live(b, Region(Tried(b, size, m).0, Tried(b, size, m).0 + Charge(b, size)))
  {
    if b.store.PoolStore? {
      PoolAlloc(b, size, m);
      PoolNew(b, b.store.pool);
    } else {
      ArenaServed(b.store.arena, size, m);
    }
  }

  lemma PoolNew(b: Backend, p: PoolState)
    requires b.store == PoolStore(p) && p.WellFormed() && p.free != []
    ensures !Live(b, Region(p.Alloc().0, p.Alloc().0 + p.blockSize))
  {
    AllocTakesFree(p);
    var i := p.free[0];
    forall j | 0 <= j < p.capacity && p.Out(j) ensures p.Addr(j) != p.Addr(i) {
      AddrNumber(p, i);
      AddrNumber(p, j);
    }
  }
}
