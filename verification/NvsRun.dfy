/** Whole runs of the store: without faults it is a map; with power cuts it never goes back in time. */
module NvsRun {
  import opened Bytes
  import opened Flash
  import opened NvsLog
  import opened NvsCompaction
  import opened NvsImage
  import opened NvsSteps
  import opened Nvs

  datatype Op =
    | WriteOp(key: U16, data: seq<Byte>)
    | DeleteOp(key: U16)
    | ReadOp(key: U16, room: nat)
    | RemountOp
    | FormatOp

  datatype Out = Done(st: Status) | Value(data: seq<Byte>)

  // ----- the simple store: a map, and how far the log has grown -----

  datatype Model = Model(m: map<U16, seq<Byte>>, used: nat)

  ghost predicate Good(m: map<U16, seq<Byte>>) {
    forall k :: k in m ==> k != KEY_EMPTY && |m[k]| <= 0xFFFF
  }

  /** The same map as the log stores it: with the checksum of every value. */
  ghost function Stamp(m: map<U16, seq<Byte>>): Contents
    requires Good(m)
  {
    map k | k in m :: Entry(m[k], RecordCrc(k, m[k]))
  }

  /** Values of at most 65535 bytes, and room for a tombstone where one is needed. */
  ghost predicate Allowed(s: Model, op: Op, size: nat)
    requires Good(s.m)
  {
    match op
    case WriteOp(_, data) => |data| <= 0xFFFF
    case DeleteOp(key) => key in s.m ==> HasRoom(s.used, Stamp(s.m), RECORD_HDR, size)
    case _ => true
  }

  ghost function Next(s: Model, op: Op, size: nat): (s': Model)
    requires Good(s.m) && Allowed(s, op, size)
    ensures Good(s'.m)
  {
    match op
    case WriteOp(key, data) =>
      if key == KEY_EMPTY || SECTOR_HDR + RecSize(|data|) > size then s
      else
        var at := Placed(s.used, Stamp(s.m), RecSize(|data|), size);
        if at + RecSize(|data|) > size then Model(s.m, at)
        else Model(s.m[key := data], at + RecSize(|data|))
    case DeleteOp(key) =>
      if key !in s.m then s
      else Model(s.m - {key}, Placed(s.used, Stamp(s.m), RECORD_HDR, size) + RECORD_HDR)
    case FormatOp => Model(map[], SECTOR_HDR)
    case _ => s
  }

  ghost function Answer(s: Model, op: Op, size: nat): Out
    requires Good(s.m) && Allowed(s, op, size)
  {
    match op
    case WriteOp(key, data) =>
      Done(if key == KEY_EMPTY then InvalidArg
           else if HasRoom(s.used, Stamp(s.m), RecSize(|data|), size) then Ok
           else OutOfMemory)
    case DeleteOp(key) =>
      Done(if key == KEY_EMPTY then InvalidArg else if key in s.m then Ok else NotFound)
    case ReadOp(key, room) =>
      if key == KEY_EMPTY then Done(InvalidArg)
      else if key !in s.m then Done(NotFound)
      else if room < |s.m[key]| then Done(BufferOverflow)
      else Value(s.m[key])
    case _ => Done(Ok)
  }

  ghost predicate AllAllowed(s: Model, ops: seq<Op>, size: nat)
    requires Good(s.m)
    decreases |ops|
  {
    |ops| == 0 || (Allowed(s, ops[0], size) && AllAllowed(Next(s, ops[0], size), ops[1..], size))
  }

  ghost function Answers(s: Model, ops: seq<Op>, size: nat): seq<Out>
    requires Good(s.m) && AllAllowed(s, ops, size)
    decreases |ops|
  {
    if |ops| == 0 then []
    else [Answer(s, ops[0], size)] + Answers(Next(s, ops[0], size), ops[1..], size)
  }

  // ----- the flash store does the same -----

  ghost predicate Represents(store: Store, s: Model)
    reads store, store.flash
  {
    && store.Valid() && store.TailErased()
    && Good(s.m) && Content(store.log) == Stamp(s.m) && store.writeOffset == s.used
  }

  lemma StampPut(m: map<U16, seq<Byte>>, key: U16, data: seq<Byte>)
    requires Good(m) && key != KEY_EMPTY && |data| <= 0xFFFF
    ensures Stamp(m[key := data]) == Stamp(m)[key := Entry(data, RecordCrc(key, data))]
  {
  }

  lemma StampCut(m: map<U16, seq<Byte>>, key: U16)
    requires Good(m)
    ensures Stamp(m - {key}) == Stamp(m) - {key}
  {
  }

  lemma PlacedBehindHeader(used: nat, m: Contents, need: nat, size: nat)
    requires used >= SECTOR_HDR
    ensures Placed(used, m, need, size) >= SECTOR_HDR
  {
  }

  /** What the contract of a write says is a step of the map. */
  lemma WriteStep(s: Model, key: U16, data: seq<Byte>, size: nat, st: Status, m': Contents, used': nat)
    requires Good(s.m) && |data| <= 0xFFFF && s.used >= SECTOR_HDR
    requires st == if key == KEY_EMPTY then InvalidArg
                   else if HasRoom(s.used, Stamp(s.m), RecSize(|data|), size) then Ok
                   else OutOfMemory
    requires st != Ok ==>
               && m' == Stamp(s.m)
               && used' == if key == KEY_EMPTY || SECTOR_HDR + RecSize(|data|) > size then s.used
                           else Placed(s.used, Stamp(s.m), RecSize(|data|), size)
    requires st == Ok ==>
               && m' == Stamp(s.m)[key := Entry(data, RecordCrc(key, data))]
               && used' == Placed(s.used, Stamp(s.m), RecSize(|data|), size) + RecSize(|data|)
    ensures Done(st) == Answer(s, WriteOp(key, data), size)
    ensures var s' := Next(s, WriteOp(key, data), size); m' == Stamp(s'.m) && used' == s'.used
  {
    hide Placed, RecSize, RecordCrc, Stamp;
    PlacedBehindHeader(s.used, Stamp(s.m), RecSize(|data|), size);
    if st == Ok {
      StampPut(s.m, key, data);
    }
  }

  method PerformWrite(store: Store, key: U16, data: seq<Byte>, ghost s: Model)
    returns (st: Status, ghost steps: seq<Event>)
    requires Represents(store, s) && |data| <= 0xFFFF
    modifies store, store.flash
    ensures Represents(store, Next(s, WriteOp(key, data), store.lay.size))
    ensures Done(st) == Answer(s, WriteOp(key, data), store.lay.size)
    ensures store.flash.trace == old(store.flash.trace) + steps && Disciplined(store.lay, steps)
  {
    hide Layout.Fits, Holds, CompactionCuts, AppendCuts, Disciplined, Stores, Records, IsActive,
         Next, Answer, Stamp, HasRoom, Placed;
    ghost var c, a;
    st, c, a := store.Write(key, data);
    WriteStep(s, key, data, store.lay.size, st, Content(store.log), store.writeOffset);
    Joined(store.lay, old(store.flash.trace), c, a);
    steps := c + a;
  }

  /** What the contract of a delete says is a step of the map. */
  lemma DeleteStep(s: Model, key: U16, size: nat, st: Status, m': Contents, used': nat)
    requires Good(s.m) && Allowed(s, DeleteOp(key), size)
    requires key == KEY_EMPTY ==> st == InvalidArg
    requires key != KEY_EMPTY && key !in Stamp(s.m) ==> st == NotFound
    requires key == KEY_EMPTY || key !in Stamp(s.m) ==> m' == Stamp(s.m) && used' == s.used
    requires key != KEY_EMPTY && key in Stamp(s.m) ==>
               && st == Ok && m' == Stamp(s.m) - {key}
               && used' == Placed(s.used, Stamp(s.m), RECORD_HDR, size) + RECORD_HDR
    ensures Done(st) == Answer(s, DeleteOp(key), size)
    ensures var s' := Next(s, DeleteOp(key), size); m' == Stamp(s'.m) && used' == s'.used
  {
    hide Placed;
    StampCut(s.m, key);
  }

  lemma NoSteps(lay: Layout, trace: seq<Event>)
    ensures Disciplined(lay, []) && trace == trace + []
  {
  }

  method PerformDelete(store: Store, key: U16, ghost s: Model) returns (st: Status, ghost steps: seq<Event>)
    requires Represents(store, s) && Allowed(s, DeleteOp(key), store.lay.size)
    modifies store, store.flash
    ensures Represents(store, Next(s, DeleteOp(key), store.lay.size))
    ensures Done(st) == Answer(s, DeleteOp(key), store.lay.size)
    ensures store.flash.trace == old(store.flash.trace) + steps && Disciplined(store.lay, steps)
  {
    hide Layout.Fits, CompactionCuts, Recovers, Forgotten, IsActive, Records, Tail, Disciplined,
         Next, Answer, HasRoom, Placed;
    NoSteps(store.lay, store.flash.trace);
    ghost var c, a;
    st, c, a := store.Delete(key);
    DeleteStep(s, key, store.lay.size, st, Content(store.log), store.writeOffset);
    steps := [];
    if key in s.m {
      Joined(store.lay, old(store.flash.trace), c, a);
      steps := c + a;
    }
  }

  method PerformRead(store: Store, key: U16, room: nat, ghost s: Model) returns (out: Out)
    requires Represents(store, s)
    ensures out == Answer(s, ReadOp(key, room), store.lay.size)
  {
    var buf := new Byte[room];
    var st, len := store.Read(key, buf);
    if st == Ok {
      out := Value(buf[..len]);
    } else {
      out := Done(st);
    }
  }

  /** On flash without an active bank the store starts as the empty map. */
  method Start(flash: Device, lay: Layout) returns (store: Store)
    requires lay.size == flash.size && lay.Fits(flash.sectors) && Winner(lay, flash.sectors) == None
    modifies flash
    ensures fresh(store) && store.flash == flash && store.lay == lay && store.active == 0
    ensures Represents(store, Model(map[], SECTOR_HDR)) && OnlyHeader(store.BankOf(0), 1)
  {
    var _, started := Init(flash, lay, []);
    store := started;
  }

  /** The RAM of the store is lost and the flash is mounted again. */
  method Remount(store: Store, ghost s: Model) returns (store': Store, ghost steps: seq<Event>)
    requires Represents(store, s)
    modifies store.flash
    ensures fresh(store') && store'.flash == store.flash && store'.lay == store.lay && Represents(store', s)
    ensures store.flash.trace == old(store.flash.trace) + steps && Disciplined(store.lay, steps)
  {
    RecoversSingle(store.lay, store.flash.sectors, store.active, store.sequence, store.log);
    store' := new Store(store.flash, store.lay);
    steps := store'.Mount(store.log);
  }

  /** One operation, fault-free. */
  method Perform(store: Store, op: Op, ghost s: Model) returns (store': Store, out: Out, ghost steps: seq<Event>)
    requires Represents(store, s) && Allowed(s, op, store.lay.size)
    modifies store, store.flash
    ensures store' == store || fresh(store')
    ensures store'.flash == store.flash && store'.lay == store.lay
    ensures Represents(store', Next(s, op, store.lay.size)) && out == Answer(s, op, store.lay.size)
    ensures store.flash.trace == old(store.flash.trace) + steps && Disciplined(store.lay, steps)
  {
    store', out, steps := store, Done(Ok), [];
    match op {
      case WriteOp(key, data) =>
        var st;
        st, steps := PerformWrite(store, key, data, s);
        out := Done(st);
      case DeleteOp(key) =>
        var st;
        st, steps := PerformDelete(store, key, s);
        out := Done(st);
      case ReadOp(key, room) =>
        out := PerformRead(store, key, room, s);
      case RemountOp =>
        store', steps := Remount(store, s);
      case FormatOp =>
        steps := store.Format();
    }
  }

  /**
   * Every run of the store, across any number of compactions, bank switches and mounts, answers like the map;
   * and every flash call of it erases a bank or programs erased cells inside one bank.
   */
  method Run(store: Store, ops: seq<Op>, ghost s: Model) returns (outs: seq<Out>, ghost steps: seq<Event>)
    requires Represents(store, s) && AllAllowed(s, ops, store.lay.size)
    modifies store, store.flash
    ensures outs == Answers(s, ops, store.lay.size)
    ensures store.flash.trace == old(store.flash.trace) + steps && Disciplined(store.lay, steps)
    decreases |ops|
  {
    if |ops| == 0 {
      outs, steps := [], [];
    } else {
      ghost var before := store.flash.trace;
      var store', out;
      ghost var first, rest;
      store', out, first := Perform(store, ops[0], s);
      outs, rest := Run(store', ops[1..], Next(s, ops[0], store.lay.size));
      outs := [out] + outs;
      Joined(store.lay, before, first, rest);
      steps := first + rest;
    }
  }
}
