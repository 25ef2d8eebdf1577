/** Two runs from blank flash that show where the store does not keep its promise. */
module NvsExamples {
  import opened Bytes
  import opened Flash
  import opened NvsLog
  import opened NvsCompaction
  import opened NvsImage
  import opened NvsSteps
  import opened Nvs
  import opened NvsRun
  import opened NvsCrash
  import opened NvsFormat

  /** One value that fills the smallest sector leaves no room for a tombstone, not even after compacting. */
  lemma FullSector(key: U16, data: seq<Byte>, size: nat)
    requires key != KEY_EMPTY && |data| == 232 && size == 256
    ensures SECTOR_HDR + RecSize(|data|) == size
    ensures HasRoom(SECTOR_HDR, map[], RecSize(|data|), size)
    ensures Placed(SECTOR_HDR, map[], RecSize(|data|), size) == SECTOR_HDR
    ensures !HasRoom(size, map[key := Entry(data, RecordCrc(key, data))], RECORD_HDR, size)
  {
    AlignUp4IsMask(|data|);
    var m := map[key := Entry(data, RecordCrc(key, data))];
    LiveBytesPick(m, key);
    assert m - {key} == map[];
  }

  method Fill(key: U16, data: seq<Byte>) returns (store: Store, st: Status)
    requires key != KEY_EMPTY && |data| == 232
    ensures fresh(store) && fresh(store.flash) && store.Valid() && store.lay == Layout(1, 0, 256) && store.active == 0
    ensures st == Ok && HasValue(Content(store.log), key, data) && store.writeOffset == store.lay.size
    ensures !HasRoom(store.writeOffset, Content(store.log), RECORD_HDR, store.lay.size)
  {
    hide Layout.Fits, Holds, HasRoom, AppendCuts, Disciplined, Records, RecSize;
    FullSector(key, data, 256);
    store := Blank(256, 1);
    ghost var c, a;
    st, c, a := store.Write(key, data);
  }

  /** A delete that is answered OK, and a mount that finds the value again. */
  method DeletedKeyComesBack(key: U16, data: seq<Byte>) returns (store: Store, written: Status, deleted: Status)
    requires key != KEY_EMPTY && |data| == 232
    ensures written == deleted == Ok && store.Valid() && HasValue(Content(store.log), key, data)
  {
    hide Layout.Fits, Holds, HasRoom, CompactionCuts, Disciplined, Forgotten, Recovers;
    var full;
    full, written := Fill(key, data);
    ghost var c, a;
    deleted, c, a := full.Delete(key);
    store := Reboot(full.flash.size, full.flash.sectors, full.lay, [], full.log);
  }

  lemma LongFits(data: seq<Byte>, size: nat)
    requires |data| == 0x1_0000 && size == 0x1_1000
    ensures HasRoom(SECTOR_HDR, map[], RecSize(|data|), size)
  {
    AlignUp4IsMask(|data|);
  }

  /** A write of 65536 bytes that is answered OK, and stores nothing of that length. */
  method LongValueIsLost(key: U16, data: seq<Byte>) returns (store: Store, written: Status)
    requires key != KEY_EMPTY && |data| == 0x1_0000
    ensures fresh(store) && fresh(store.flash) && store.Config() && written == Ok
    ensures !Stores(store.BankOf(store.active), store.sequence, key, data)
    ensures exists l :: End(l) < store.writeOffset && Records(store.BankOf(store.active), l, |l|)
                        && HasValue(Content(l), key, [])
  {
    hide Layout.Fits, Holds, HasRoom, Disciplined, Appended, Stores, RecSize;
    LongFits(data, 0x1_1000);
    store := Blank(0x1_1000, 0);
    ghost var c, a;
    written, c, a := store.Write(key, data);
    ghost var l := store.log + [NewRec(key, Short(data))];
    ContentPush(store.log, NewRec(key, Short(data)));
    assert Short(data) == [];
  }
}
