/** Runs in which power fails between any two flash calls: a mount never goes back in time. */
module NvsCrash {
  import opened Bytes
  import opened Flash
  import opened NvsLog
  import opened NvsCompaction
  import opened NvsPoints
  import opened NvsImage
  import opened NvsSteps
  import opened NvsCuts
  import opened Nvs
  import opened NvsRun

  /**
   * What one operation, or the part of it before the power failed, did to the map. A torn write is one that was
   * cut inside its append; a lossy cut is one inside a compaction after which the map is not whole.
   */
  datatype Effect =
    | Stored(key: U16, data: seq<Byte>)
    | Removed(key: U16)
    | Cleared
    | Same
    | Torn(key: U16, data: seq<Byte>)
    | Lossy

  predicate ValidData(key: U16, data: seq<Byte>) {
    key != KEY_EMPTY && |data| <= 0xFFFF
  }

  ghost predicate Explains(e: Effect, m: Contents, m': Contents) {
    match e
    case Stored(key, data) => ValidData(key, data) && m' == m[key := Entry(data, RecordCrc(key, data))]
    case Removed(key) => m' == m - {key}
    case Cleared => m' == map[]
    case Same => m' == m
    case Torn(key, data) =>
      && ValidData(key, data)
      && m' - {key} == m - {key}
      && key in m' && PrefixOf(m'[key], Entry(data, RecordCrc(key, data)))
    case Lossy => ReducedButOne(m', m)
  }

  // ----- what a cut inside an operation leaves -----

  /** The effect of a cut after call i of an append: only right after the header the value is not there yet. */
  function AppendEffect(key: U16, data: seq<Byte>, i: nat): Effect {
    if i == 0 && |data| > 0 then Torn(key, data) else Stored(key, data)
  }

  lemma AppendCutEffect(lay: Layout, steps: seq<Event>, i: nat, base: seq<Rec>, key: U16, data: seq<Byte>)
      returns (found: seq<Rec>)
    requires ValidData(key, data) && AppendCuts(lay, steps, base, NewRec(key, data)) && i < |steps|
    ensures Recovers(lay, steps[i].after, found)
    ensures Explains(AppendEffect(key, data, i), Content(base), Content(found))
  {
    if i == 0 && |data| > 0 {
      found := base + [Partial(NewRec(key, data), RECORD_HDR)];
      AppendCutContent(base, key, data, RECORD_HDR);
    } else {
      PartialComplete(key, data);
      found := base + [NewRec(key, data)];
      ContentPush(base, NewRec(key, data));
    }
  }

  /** The effect of a cut after call i of a compaction: it loses something exactly where the map is not whole. */
  function CompactionEffect(log: seq<Rec>, sequence: U32, i: nat): Effect {
    if WholeAt(log, sequence, i) then Same else Lossy
  }

  lemma CompactionCutEffect(lay: Layout, steps: seq<Event>, i: nat, log: seq<Rec>, sequence: U32)
      returns (found: seq<Rec>)
    requires CompactionCuts(lay, steps, log, sequence) && i < |steps|
    ensures Recovers(lay, steps[i].after, found)
    ensures Explains(CompactionEffect(log, sequence, i), Content(log), Content(found))
  {
    found := AtCut(log, sequence, i);
    CutRecovery(lay, steps, log, sequence, i, found);
  }

  // ----- one step of the crash machine -----

  /**
   * A delete spills when its tombstone crosses the end of the bank and the call still answers OK. Of an operation
   * that is cut it is known whether it had to compact: whether its record fitted behind the log.
   */
  datatype Outcome = Returned(st: Status) | Cut(compacting: bool) | Spilled

  /** The effect is fixed by what the caller saw, except that a cut leaves it open how far the operation got. */
  predicate EffectOf(op: Op, o: Outcome, e: Effect) {
    match (op, o)
    case (WriteOp(key, data), Returned(st)) => e == if st == Ok then Stored(key, data) else Same
    case (WriteOp(key, data), Cut(compacting)) =>
      e in {Torn(key, data), Stored(key, data)} || (compacting && e in {Lossy, Same})
    case (DeleteOp(key), Returned(st)) => e == if st == Ok then Removed(key) else Same
    case (DeleteOp(key), Cut(compacting)) => e == Removed(key) || (compacting && e in {Lossy, Same})
    case (DeleteOp(key), Spilled) => e == Same
    case (FormatOp, Returned(_)) => e == Cleared
    case (FormatOp, Cut(_)) => e in {Cleared, Same}
    case (_, Spilled) => false
    case _ => e == Same
  }

  /** What decides how a cut ends: the log, its sequence number, and the bank that it lies in. */
  datatype View = View(log: seq<Rec>, sequence: U32, active: nat)

  ghost function Now(store: Store): View
    reads store
  {
    View(store.log, store.sequence, store.active)
  }

  predicate Compacts(op: Op, v: View, size: nat) {
    match op
    case WriteOp(_, data) => End(v.log) + RecSize(|data|) > size
    case DeleteOp(_) => End(v.log) + RECORD_HDR > size
    case _ => false
  }

  /** The flash calls of the compaction that an operation begins with. */
  function CompactionCalls(op: Op, v: View, size: nat): nat {
    if Compacts(op, v, size) then |Points(v.log)| + 2 else 0
  }

  /** The effect of an operation that loses power after its flash call number `at`. */
  ghost function CutEffect(op: Op, v: View, size: nat, at: nat): Effect {
    var c := CompactionCalls(op, v, size);
    match op
    case WriteOp(key, data) =>
      if at < c then CompactionEffect(v.log, v.sequence, at) else AppendEffect(key, data, at - c)
    case DeleteOp(key) =>
      if at < c then CompactionEffect(v.log, v.sequence, at)
      else if HasRoom(End(v.log), Content(v.log), RECORD_HDR, size) then Removed(key)
      else Same
    case FormatOp => if at == 0 && v.active == 1 then Same else Cleared
    case _ => Same
  }

  /** The outcome and the effect of an operation with these cuts, on a store that looked like v. */
  ghost predicate StepOf(op: Op, cuts: seq<nat>, o: Outcome, e: Effect, v: View, size: nat) {
    && EffectOf(op, o, e)
    && (o.Cut? ==> |cuts| > 0 && e == CutEffect(op, v, size, cuts[0]) && (o.compacting <==> Compacts(op, v, size)))
  }

  /**
   * Mounts a device. Of the cuts the first one is the flash call of the mount after which power fails, if there
   * are that many; the mount is then repeated with the other cuts. Whatever the cuts, the log is not changed.
   */
  method MountWithCut(flash: Device, lay: Layout, cuts: seq<nat>, ghost carried: seq<Rec>) returns (store: Store)
    requires lay.size == flash.size && Recovers(lay, flash.sectors, carried)
    modifies flash
    ensures fresh(store) && (store.flash == flash || fresh(store.flash)) && store.lay == lay
    ensures store.Valid() && store.log == carried
    decreases |cuts|, 0
  {
    hide Layout.Fits, Records, Tail, Disciplined, Selected, ScanEnd, Recovers;
    FitsIfRecovers(lay, flash.sectors, carried);
    ghost var trace := flash.trace;
    var before := |flash.trace|;
    store := new Store(flash, lay);
    ghost var steps := store.Mount(carried);
    if |cuts| > 0 && before + cuts[0] < |flash.trace| {
      var img := flash.trace[before + cuts[0]].after;
      assert img == steps[cuts[0]].after;
      store := Reboot(flash.size, img, lay, cuts[1..], carried);
    }
  }

  lemma FitsIfRecovers(lay: Layout, img: Image, log: seq<Rec>)
    requires Recovers(lay, img, log)
    ensures lay.Fits(img)
  {
  }

  /** The device as a power cut left it, mounted again. */
  method Reboot(size: nat, img: Image, lay: Layout, cuts: seq<nat>, ghost found: seq<Rec>) returns (store: Store)
    requires lay.size == size && Recovers(lay, img, found)
    ensures fresh(store) && fresh(store.flash) && store.lay == lay && store.flash.size == size
    ensures store.Valid() && store.log == found
    decreases |cuts|, 1
  {
    var flash := new Device(size, img);
    store := MountWithCut(flash, lay, cuts, found);
  }

  /** The step that the cut follows is a step of the first part or of the second. */
  lemma WhichStep(before: seq<Event>, a: seq<Event>, b: seq<Event>, at: nat)
    requires at < |a| + |b|
    ensures (before + a + b)[|before| + at] == (a + b)[at]
  {
  }

  lemma TombstoneRoom(used: nat, m: Contents, size: nat)
    ensures used + RECORD_HDR <= size ==> HasRoom(used, m, RECORD_HDR, size)
    ensures HasRoom(used, m, RECORD_HDR, size) ==> Placed(used, m, RECORD_HDR, size) + RECORD_HDR <= size
  {
  }

  /** A record that does not fit into an empty bank has no room. */
  lemma NeverRoom(used: nat, m: Contents, need: nat, size: nat)
    requires used >= SECTOR_HDR
    ensures SECTOR_HDR + need > size ==> !HasRoom(used, m, need, size)
  {
  }

  /** What a mount finds after call `at` of a write: the calls of its compaction come first, then its append. */
  lemma WriteCutFound(lay: Layout, c: seq<Event>, a: seq<Event>, key: U16, data: seq<Byte>, v: View, at: nat)
      returns (found: seq<Rec>)
    requires ValidData(key, data) && at < |c| + |a|
    requires if Compacts(WriteOp(key, data), v, lay.size) then CompactionCuts(lay, c, v.log, v.sequence) else c == []
    requires at >= |c| ==>
               AppendCuts(lay, a, if Compacts(WriteOp(key, data), v, lay.size) then Compacted(v.log) else v.log,
                          NewRec(key, data))
    ensures Recovers(lay, (c + a)[at].after, found)
    ensures Explains(CutEffect(WriteOp(key, data), v, lay.size, at), Content(v.log), Content(found))
  {
    hide Recovers, AppendCuts, Explains, WholeAt;
    if at < |c| {
      found := CompactionCutEffect(lay, c, at, v.log, v.sequence);
    } else {
      CompactedContent(v.log);
      var base := if Compacts(WriteOp(key, data), v, lay.size) then Compacted(v.log) else v.log;
      found := AppendCutEffect(lay, a, at - |c|, base, key, data);
    }
  }

  /**
   * Writes, and loses power after the flash call number `cuts[0]` of the write, if there are that many; the other
   * cuts fall into the mounts that follow.
   */
  method WriteWithCut(store: Store, key: U16, data: seq<Byte>, cuts: seq<nat>)
    returns (store': Store, o: Outcome, ghost e: Effect)
    requires store.Valid() && |data| <= 0xFFFF
    modifies store, store.flash
    ensures if o.Returned? then store' == store else fresh(store') && fresh(store'.flash)
    ensures store'.Valid() && store'.lay == store.lay
    ensures Explains(e, old(Content(store.log)), Content(store'.log))
    ensures StepOf(WriteOp(key, data), cuts, o, e, old(Now(store)), store.lay.size)
  {
    hide Layout.Fits, Holds, Recovers, CompactionCuts, AppendCuts, CutEffect, Disciplined, Stores, Records, IsActive,
         HasRoom, Placed;
    ghost var trace, v := store.flash.trace, Now(store);
    NeverRoom(store.writeOffset, Content(store.log), RecSize(|data|), store.lay.size);
    var compacting := store.writeOffset + RecSize(|data|) > store.lay.size;
    var before := |store.flash.trace|;
    var st;
    ghost var c, a;
    st, c, a := store.Write(key, data);
    if |cuts| > 0 && before + cuts[0] < |store.flash.trace| {
      var img := store.flash.trace[before + cuts[0]].after;
      WhichStep(trace, c, a, cuts[0]);
      ghost var found := WriteCutFound(store.lay, c, a, key, data, v, cuts[0]);
      store' := Reboot(store.flash.size, img, store.lay, cuts[1..], found);
      o, e := Cut(compacting), CutEffect(WriteOp(key, data), v, store.lay.size, cuts[0]);
      CutIsEffect(WriteOp(key, data), v, store.lay.size, cuts[0]);
    } else {
      store' := store;
      o, e := Returned(st), if st == Ok then Stored(key, data) else Same;
    }
  }

  /** What a cut does is one of the effects that its outcome allows. */
  lemma CutIsEffect(op: Op, v: View, size: nat, at: nat)
    requires op.WriteOp? || op.FormatOp? || (op.DeleteOp? && HasRoom(End(v.log), Content(v.log), RECORD_HDR, size))
             || (op.DeleteOp? && Compacts(op, v, size))
    ensures EffectOf(op, Cut(Compacts(op, v, size)), CutEffect(op, v, size, at))
  {
  }

  /** What a mount finds after call `at` of a delete; its tombstone is one call at most, and leaves `last`. */
  lemma DeleteCutFound(lay: Layout, c: seq<Event>, a: seq<Event>, key: U16, v: View, at: nat,
      img: Image, last: seq<Rec>)
      returns (found: seq<Rec>)
    requires at < |c| + |a| && EndsAt(a, img) && Recovers(lay, img, last)
    requires if Compacts(DeleteOp(key), v, lay.size) then CompactionCuts(lay, c, v.log, v.sequence) else c == []
    requires Content(last) == if HasRoom(End(v.log), Content(v.log), RECORD_HDR, lay.size) then Content(v.log) - {key}
                              else Content(v.log)
    ensures Recovers(lay, (c + a)[at].after, found)
    ensures Explains(CutEffect(DeleteOp(key), v, lay.size, at), Content(v.log), Content(found))
  {
    hide Recovers, HasRoom, WholeAt;
    if at < |c| {
      found := CompactionCutEffect(lay, c, at, v.log, v.sequence);
    } else {
      found := last;
    }
  }

  /**
   * Deletes, with cuts as above. After a tombstone that crossed the end of its bank, which takes a key without
   * room for a tombstone, the store is mounted again: its write offset has left the bank.
   */
  method DeleteWithCut(store: Store, key: U16, cuts: seq<nat>) returns (store': Store, o: Outcome, ghost e: Effect)
    requires store.Valid()
    modifies store, store.flash
    ensures if o.Returned? then store' == store else fresh(store') && fresh(store'.flash)
    ensures store'.Valid() && store'.lay == store.lay
    ensures Explains(e, old(Content(store.log)), Content(store'.log))
    ensures StepOf(DeleteOp(key), cuts, o, e, old(Now(store)), store.lay.size)
    ensures o == Spilled ==>
              && key in old(Content(store.log))
              && !HasRoom(old(store.writeOffset), old(Content(store.log)), RECORD_HDR, store.lay.size)
  {
    hide Layout.Fits, Holds, CompactionCuts, CutEffect, Recovers, EndsAt, Disciplined, Records, IsActive, Forgotten,
         HasRoom, Placed;
    ghost var trace, v := store.flash.trace, Now(store);
    TombstoneRoom(store.writeOffset, Content(store.log), store.lay.size);
    var compacting := store.writeOffset + RECORD_HDR > store.lay.size;
    var before := |store.flash.trace|;
    var st;
    ghost var c, a;
    st, c, a := store.Delete(key);
    if |cuts| > 0 && before + cuts[0] < |store.flash.trace| {
      var img := store.flash.trace[before + cuts[0]].after;
      WhichStep(trace, c, a, cuts[0]);
      ghost var found := DeleteCutFound(store.lay, c, a, key, v, cuts[0], store.flash.sectors, store.log);
      store' := Reboot(store.flash.size, img, store.lay, cuts[1..], found);
      o, e := Cut(compacting), CutEffect(DeleteOp(key), v, store.lay.size, cuts[0]);
      CutIsEffect(DeleteOp(key), v, store.lay.size, cuts[0]);
    } else if st != Ok {
      store', o, e := store, Returned(st), Same;
    } else if store.writeOffset <= store.lay.size {
      store', o, e := store, Returned(Ok), Removed(key);
    } else {
      store' := Reboot(store.flash.size, store.flash.sectors, store.lay, cuts, store.log);
      o, e := Spilled, Same;
    }
  }

  /** Formats, with cuts as above: the old map, if bank 1 held it and only bank 0 is erased, or nothing. */
  method FormatWithCut(store: Store, cuts: seq<nat>) returns (store': Store, o: Outcome, ghost e: Effect)
    requires store.Valid()
    modifies store, store.flash
    ensures if o.Returned? then store' == store else fresh(store') && fresh(store'.flash)
    ensures store'.Valid() && store'.lay == store.lay
    ensures Explains(e, old(Content(store.log)), Content(store'.log))
    ensures StepOf(FormatOp, cuts, o, e, old(Now(store)), store.lay.size)
  {
    hide Layout.Fits, Records, Tail, Disciplined;
    ghost var trace, log := store.flash.trace, store.log;
    ghost var bank1, one := store.BankOf(1), store.active == 1;
    var before := |store.flash.trace|;
    ghost var steps := store.Format();
    if |cuts| > 0 && before + cuts[0] < |store.flash.trace| {
      var at := cuts[0];
      var img := store.flash.trace[before + at].after;
      assert img == steps[at].after;
      ghost var found: seq<Rec> := if at == 0 && one then log else [];
      if at == 0 {
        HalfErasedRecovers(store.lay, img, bank1, found);
      }
      store' := Reboot(store.flash.size, img, store.lay, cuts[1..], found);
      o, e := Cut(false), if at == 0 && one then Same else Cleared;
    } else {
      store', o, e := store, Returned(Ok), Cleared;
    }
  }

  /**
   * Compaction is not atomic, whatever the store holds: of every write that compacts, unless the sequence number
   * is at its maximum, a cut after the second flash call loses all keys.
   */
  method WriteLosesAll(store: Store, key: U16, data: seq<Byte>) returns (store': Store)
    requires store.Valid() && store.sequence != 0xFFFF_FFFF && |data| <= 0xFFFF_FFE0 && key != KEY_EMPTY
    requires SECTOR_HDR + RecSize(|data|) <= store.lay.size < store.writeOffset + RecSize(|data|)
    modifies store, store.flash
    ensures old(|store.flash.trace|) + 1 < |store.flash.trace|
    ensures Recovers(store.lay, store.flash.trace[old(|store.flash.trace|) + 1].after, [])
    ensures fresh(store') && fresh(store'.flash) && store'.Valid() && Content(store'.log) == map[]
  {
    hide Layout.Fits, Holds, Recovers, CompactionCuts, AppendCuts, Disciplined, Stores, Records;
    ghost var trace, log, sequence := store.flash.trace, store.log, store.sequence;
    var before := |store.flash.trace|;
    ghost var c, a;
    var st;
    st, c, a := store.Write(key, data);
    CutEnds(store.lay, c, log, sequence);
    WhichStep(trace, c, a, 1);
    store' := Reboot(store.flash.size, store.flash.trace[before + 1].after, store.lay, [], []);
  }

  /** Mounts again what is on the flash of a store, with cuts as above. */
  method RemountWithCut(store: Store, cuts: seq<nat>) returns (store': Store)
    requires store.Valid()
    modifies store.flash
    ensures fresh(store') && (store'.flash == store.flash || fresh(store'.flash)) && store'.lay == store.lay
    ensures store'.Valid() && store'.log == store.log
  {
    RecoversSingle(store.lay, store.flash.sectors, store.active, store.sequence, store.log);
    store' := MountWithCut(store.flash, store.lay, cuts, store.log);
  }

  // ----- what a key can hold, over a whole run -----

  type Possible = map<U16, set<seq<Byte>>>

  /** A write leaves one possible value, completed or torn; a completed delete none. */
  function Track(poss: Possible, e: Effect): Possible {
    match e
    case Stored(key, data) => poss[key := {data}]
    case Removed(key) => poss - {key}
    case Cleared => map[]
    case Same => poss
    case Torn(key, data) => poss[key := {data}]
    case Lossy => poss
  }

  function TrackAll(poss: Possible, effects: seq<Effect>): Possible {
    if |effects| == 0 then poss else Track(TrackAll(poss, effects[..|effects| - 1]), effects[|effects| - 1])
  }

  ghost predicate ComesFrom(key: U16, e: Entry, values: set<seq<Byte>>) {
    exists v :: v in values && |v| <= 0xFFFF && PrefixOf(e, Entry(v, RecordCrc(key, v)))
  }

  /** Every key holds one of its possible values, or a prefix of one over erased cells. */
  ghost predicate Bounded(m: Contents, poss: Possible) {
    forall k :: k in m ==> k in poss && ComesFrom(k, m[k], poss[k])
  }

  lemma ComesFromPrefix(key: U16, e': Entry, e: Entry, values: set<seq<Byte>>)
    requires PrefixOf(e', e) && ComesFrom(key, e, values)
    ensures ComesFrom(key, e', values)
  {
    var v :| v in values && |v| <= 0xFFFF && PrefixOf(e, Entry(v, RecordCrc(key, v)));
    PrefixTrans(e', e, Entry(v, RecordCrc(key, v)));
  }

  lemma ComesFromWritten(key: U16, e: Entry, data: seq<Byte>, values: set<seq<Byte>>)
    requires |data| <= 0xFFFF && data in values && PrefixOf(e, Entry(data, RecordCrc(key, data)))
    ensures ComesFrom(key, e, values)
  {
  }

  lemma ReducedBounded(m: Contents, m': Contents, poss: Possible)
    requires Bounded(m, poss) && Reduced(m', m)
    ensures Bounded(m', poss)
  {
    forall k | k in m' ensures k in poss && ComesFrom(k, m'[k], poss[k]) {
      ComesFromPrefix(k, m'[k], m[k], poss[k]);
    }
  }

  lemma SetBounded(m: Contents, m': Contents, poss: Possible, key: U16, data: seq<Byte>)
    requires Bounded(m, poss) && m' - {key} == m - {key} && |data| <= 0xFFFF
    requires key in m' && PrefixOf(m'[key], Entry(data, RecordCrc(key, data)))
    ensures Bounded(m', poss[key := {data}])
  {
    hide PrefixOf, ComesFrom;
    ComesFromWritten(key, m'[key], data, {data});
    forall k | k in m' && k != key ensures k in m && m'[k] == m[k] {
      assert k in m' - {key};
    }
  }

  /** The bound holds after every effect. */
  lemma TrackBounds(m: Contents, e: Effect, m': Contents, poss: Possible)
    requires Bounded(m, poss) && Explains(e, m, m')
    ensures Bounded(m', Track(poss, e))
  {
    hide PrefixOf, Reduced, ComesFrom;
    match e {
      case Stored(key, data) =>
        PrefixRefl(Entry(data, RecordCrc(key, data)));
        SetBounded(m, m', poss, key, data);
      case Torn(key, data) =>
        SetBounded(m, m', poss, key, data);
      case Lossy => ReducedBounded(m, m', poss);
      case _ =>
    }
  }

  // ----- what a key certainly holds -----

  type Sure = map<U16, seq<Byte>>

  /** Only a cut inside a compaction, a format, and what is done to the key itself take certainty away. */
  function Settle(sure: Sure, e: Effect): Sure {
    match e
    case Stored(key, data) => sure[key := data]
    case Removed(key) => sure - {key}
    case Torn(key, _) => sure - {key}
    case Same => sure
    case _ => map[]
  }

  function SettleAll(sure: Sure, effects: seq<Effect>): Sure {
    if |effects| == 0 then sure else Settle(SettleAll(sure, effects[..|effects| - 1]), effects[|effects| - 1])
  }

  predicate HasValue(m: Contents, key: U16, data: seq<Byte>) {
    |data| <= 0xFFFF && key in m && m[key] == Entry(data, RecordCrc(key, data))
  }

  predicate Certain(m: Contents, sure: Sure) {
    forall k :: k in sure ==> HasValue(m, k, sure[k])
  }

  lemma SettleHolds(m: Contents, e: Effect, m': Contents, sure: Sure)
    requires Certain(m, sure) && Explains(e, m, m')
    ensures Certain(m', Settle(sure, e))
  {
    if e.Torn? {
      forall k | k in sure && k != e.key ensures HasValue(m', k, sure[k]) {
        assert k in m - {e.key};
      }
    }
  }

  // ----- in terms of what the callers did and saw -----

  /** The operations, each with its power cuts. */
  type Script = seq<(Op, seq<nat>)>

  /** Operation i took the store from view i to view i + 1. */
  ghost predicate Follows(size: nat, ops: Script, outcomes: seq<Outcome>, effects: seq<Effect>,
      views: seq<View>)
  {
    && |ops| == |outcomes| == |effects| && |views| == |ops| + 1
    && forall i :: 0 <= i < |ops| ==> Follow(size, ops[i], outcomes[i], effects[i], views[i], views[i + 1])
  }

  ghost predicate Follow(size: nat, op: (Op, seq<nat>), o: Outcome, e: Effect, v: View, v': View) {
    StepOf(op.0, op.1, o, e, v, size) && Explains(e, Content(v.log), Content(v'.log))
  }

  predicate Writes(op: Op, key: U16) {
    op.WriteOp? && op.key == key
  }

  predicate Changes(op: Op, key: U16) {
    Writes(op, key) || op == DeleteOp(key) || op == FormatOp
  }

  /** Only an operation that had to compact can be cut with a loss. */
  predicate CutWithLoss(o: Outcome, e: Effect) {
    o == Cut(true) && e == Lossy
  }

  /** A delete of the key was answered OK, and the key was not written again. */
  predicate DeletedLast(ops: Script, outcomes: seq<Outcome>, i: nat, key: U16)
    requires |ops| == |outcomes|
  {
    && i < |ops| && ops[i].0 == DeleteOp(key) && outcomes[i] == Returned(Ok)
    && forall j :: i < j < |ops| ==> !Writes(ops[j].0, key)
  }

  /** A write of the key was answered OK, nothing changed the key since, and no cut lost anything. */
  predicate WrittenLast(ops: Script, outcomes: seq<Outcome>, effects: seq<Effect>, i: nat, key: U16, data: seq<Byte>)
    requires |ops| == |outcomes| == |effects|
  {
    && i < |ops| && ops[i].0 == WriteOp(key, data) && outcomes[i] == Returned(Ok)
    && forall j :: i < j < |ops| ==> !Changes(ops[j].0, key) && !CutWithLoss(outcomes[j], effects[j])
  }

  ghost predicate AllEffects(ops: Script, outcomes: seq<Outcome>, effects: seq<Effect>) {
    && |ops| == |outcomes| == |effects|
    && forall i :: 0 <= i < |ops| ==> EffectOf(ops[i].0, outcomes[i], effects[i])
  }

  lemma {:induction false} DeletedIsImpossible(ops: Script, outcomes: seq<Outcome>, effects: seq<Effect>,
      poss: Possible, i: nat, key: U16)
    requires AllEffects(ops, outcomes, effects) && DeletedLast(ops, outcomes, i, key)
    ensures key !in TrackAll(poss, effects)
    decreases |ops|
  {
    var n := |ops| - 1;
    assert EffectOf(ops[n].0, outcomes[n], effects[n]);
    if i < n {
      DeletedIsImpossible(ops[..n], outcomes[..n], effects[..n], poss, i, key);
      assert !Writes(ops[n].0, key);
    }
  }

  lemma {:induction false} WrittenIsSure(ops: Script, outcomes: seq<Outcome>, effects: seq<Effect>,
      sure: Sure, i: nat, key: U16, data: seq<Byte>)
    requires AllEffects(ops, outcomes, effects) && WrittenLast(ops, outcomes, effects, i, key, data)
    ensures key in SettleAll(sure, effects) && SettleAll(sure, effects)[key] == data
    decreases |ops|
  {
    var n := |ops| - 1;
    assert EffectOf(ops[n].0, outcomes[n], effects[n]);
    if i < n {
      WrittenIsSure(ops[..n], outcomes[..n], effects[..n], sure, i, key, data);
      assert !Changes(ops[n].0, key) && !CutWithLoss(outcomes[n], effects[n]);
    }
  }

  /** The bookkeeping of a run. */
  ghost predicate Account(size: nat, ops: Script, outcomes: seq<Outcome>, effects: seq<Effect>, views: seq<View>,
      poss: Possible, sure: Sure)
  {
    && Follows(size, ops, outcomes, effects, views)
    && Bounded(Content(views[|ops|].log), TrackAll(poss, effects))
    && Certain(Content(views[|ops|].log), SettleAll(sure, effects))
  }

  lemma AccountNothing(size: nat, v: View, poss: Possible, sure: Sure)
    requires Bounded(Content(v.log), poss) && Certain(Content(v.log), sure)
    ensures Account(size, [], [], [], [v], poss, sure)
  {
  }

  lemma FollowsPush(size: nat, ops: Script, outcomes: seq<Outcome>, effects: seq<Effect>, views: seq<View>,
      op: (Op, seq<nat>), o: Outcome, e: Effect, v': View)
    requires Follows(size, ops, outcomes, effects, views) && Follow(size, op, o, e, views[|ops|], v')
    ensures Follows(size, ops + [op], outcomes + [o], effects + [e], views + [v'])
  {
  }

  lemma AccountPush(size: nat, ops: Script, outcomes: seq<Outcome>, effects: seq<Effect>, views: seq<View>,
      poss: Possible, sure: Sure, op: (Op, seq<nat>), o: Outcome, e: Effect, v': View)
    requires Account(size, ops, outcomes, effects, views, poss, sure)
    requires Follow(size, op, o, e, views[|ops|], v')
    ensures Account(size, ops + [op], outcomes + [o], effects + [e], views + [v'], poss, sure)
  {
    hide StepOf, Explains, Bounded, Certain, Follows;
    FollowsPush(size, ops, outcomes, effects, views, op, o, e, v');
    LengthsAgree(size, ops, outcomes, effects, views);
    var m, m' := Content(views[|ops|].log), Content(v'.log);
    TrackBounds(m, e, m', TrackAll(poss, effects));
    SettleHolds(m, e, m', SettleAll(sure, effects));
    assert (effects + [e])[..|effects|] == effects;
  }

  lemma LengthsAgree(size: nat, ops: Script, outcomes: seq<Outcome>, effects: seq<Effect>, views: seq<View>)
    requires Follows(size, ops, outcomes, effects, views)
    ensures |ops| == |outcomes| == |effects| && |views| == |ops| + 1 && AllEffects(ops, outcomes, effects)
  {
    hide EffectOf, CutEffect, Explains;
    forall i | 0 <= i < |ops| ensures EffectOf(ops[i].0, outcomes[i], effects[i]) {
      assert Follow(size, ops[i], outcomes[i], effects[i], views[i], views[i + 1]);
    }
  }

  lemma AccountTells(size: nat, ops: Script, outcomes: seq<Outcome>, effects: seq<Effect>, views: seq<View>,
      poss: Possible, sure: Sure)
    requires Account(size, ops, outcomes, effects, views, poss, sure)
    ensures |ops| == |outcomes| == |effects| && |views| == |ops| + 1
    ensures forall i, key :: DeletedLast(ops, outcomes, i, key) ==> key !in Content(views[|ops|].log)
    ensures forall i, key, data :: WrittenLast(ops, outcomes, effects, i, key, data) ==>
              HasValue(Content(views[|ops|].log), key, data)
  {
    hide DeletedLast, WrittenLast, Follows, AllEffects;
    LengthsAgree(size, ops, outcomes, effects, views);
    var m := Content(views[|ops|].log);
    forall i, key | DeletedLast(ops, outcomes, i, key) ensures key !in m {
      DeletedIsImpossible(ops, outcomes, effects, poss, i, key);
    }
    forall i, key, data | WrittenLast(ops, outcomes, effects, i, key, data) ensures HasValue(m, key, data) {
      WrittenIsSure(ops, outcomes, effects, sure, i, key, data);
    }
  }

  method PerformWithCut(store: Store, op: Op, cuts: seq<nat>) returns (store': Store, o: Outcome, ghost e: Effect)
    requires store.Valid() && (op.WriteOp? ==> |op.data| <= 0xFFFF)
    modifies store, store.flash
    ensures store' == store || fresh(store')
    ensures store'.flash == store.flash || fresh(store'.flash)
    ensures store'.Valid() && store'.lay == store.lay
    ensures Follow(store.lay.size, (op, cuts), o, e, old(Now(store)), Now(store'))
  {
    hide Layout.Fits, Holds, CutEffect, Compacts;
    match op {
      case WriteOp(key, data) => store', o, e := WriteWithCut(store, key, data, cuts);
      case DeleteOp(key) => store', o, e := DeleteWithCut(store, key, cuts);
      case ReadOp(key, room) =>
        var buf := new Byte[room];
        var st, len := store.Read(key, buf);
        store', o, e := store, Returned(st), Same;
      case RemountOp =>
        store' := RemountWithCut(store, cuts);
        o, e := Returned(Ok), Same;
      case FormatOp => store', o, e := FormatWithCut(store, cuts);
    }
  }

  /**
   * Any run, with power cuts after any flash calls of the operations and of the mounts that follow a cut: every
   * mount succeeds in the end, and each key that is there then holds the value that was last written to it, or a
   * prefix of it over erased cells. So no completed write is ever undone by an older version, and no key comes back
   * after a delete that was answered OK, unless its tombstone spilled. And a key keeps its last completed write, as
   * long as no compaction is cut where the map is not whole. The views are what the store looked like in between.
   */
  method RunWithCuts(store: Store, ops: Script, ghost poss: Possible, ghost sure: Sure)
    returns (store': Store, outcomes: seq<Outcome>, ghost effects: seq<Effect>, ghost views: seq<View>)
    requires store.Valid() && Bounded(Content(store.log), poss) && Certain(Content(store.log), sure)
    requires forall i :: 0 <= i < |ops| && ops[i].0.WriteOp? ==> |ops[i].0.data| <= 0xFFFF
    modifies store, store.flash
    ensures store'.Valid() && Account(store.lay.size, ops, outcomes, effects, views, poss, sure)
    ensures |ops| == |outcomes| == |effects| && |views| == |ops| + 1
    ensures views[0] == old(Now(store)) && views[|ops|] == Now(store')
    ensures forall i, key :: DeletedLast(ops, outcomes, i, key) ==> key !in Content(store'.log)
    ensures forall i, key, data :: WrittenLast(ops, outcomes, effects, i, key, data) ==>
              HasValue(Content(store'.log), key, data)
  {
    hide Layout.Fits, Holds, Account, DeletedLast, WrittenLast, Follow;
    AccountNothing(store.lay.size, Now(store), poss, sure);
    store', outcomes, effects, views := store, [], [], [Now(store)];
    assert ops[..0] == [];
    for n := 0 to |ops|
      invariant store' == store || fresh(store')
      invariant store'.flash == store.flash || fresh(store'.flash)
      invariant store'.Valid() && store'.lay == store.lay
      invariant |views| == n + 1 && views[0] == old(Now(store)) && views[n] == Now(store')
      invariant Account(store.lay.size, ops[..n], outcomes, effects, views, poss, sure)
    {
      var o;
      ghost var e;
      store', o, e := PerformWithCut(store', ops[n].0, ops[n].1);
      AccountPush(store.lay.size, ops[..n], outcomes, effects, views, poss, sure, ops[n], o, e, Now(store'));
      assert ops[..n + 1] == ops[..n] + [ops[n]];
      outcomes, effects, views := outcomes + [o], effects + [e], views + [Now(store')];
    }
    assert ops[..|ops|] == ops;
    AccountTells(store.lay.size, ops, outcomes, effects, views, poss, sure);
  }
}
