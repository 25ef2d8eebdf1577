/** The on-flash format as literal bytes: what a write and a delete leave on blank flash. */
module NvsFormat {
  import opened Bytes
  import opened Flash
  import opened NvsLog
  import opened NvsCompaction
  import opened NvsImage
  import opened NvsSteps
  import opened Nvs
  import opened NvsRun
  import Crc16

  lemma BlankHasNoWinner(size: nat, lay: Layout)
    requires size >= 256 && lay.size == size && lay.bank0 < 2 && lay.bank1 == 1 - lay.bank0
    ensures lay.Fits([Erased(size), Erased(size)]) && Winner(lay, [Erased(size), Erased(size)]) == None
  {
    ErasedIsNotActive(size);
  }

  /** A store on two blank sectors; `b` says in which of them the first bank lies. */
  method Blank(size: nat, b: nat) returns (store: Store)
    requires size >= 256 && b < 2
    ensures fresh(store) && fresh(store.flash) && store.lay == Layout(b, 1 - b, size) && store.active == 0
    ensures Represents(store, Model(map[], SECTOR_HDR)) && OnlyHeader(store.BankOf(0), 1)
  {
    var lay := Layout(b, 1 - b, size);
    BlankHasNoWinner(size, lay);
    var flash := new Device(size, [Erased(size), Erased(size)]);
    store := Start(flash, lay);
  }

  // ----- the bytes on the flash -----

  /** Magic number, state, sequence number 1 and reserved word, each with its low byte first. */
  lemma HeaderAsBytes(bank: seq<Byte>)
    requires |bank| == 256 && OnlyHeader(bank, 1)
    ensures bank[..16] == [0x4F, 0x52, 0x45, 0x5A, 0xAA, 0xAA, 0x55, 0x55, 1, 0, 0, 0, 0xFF, 0xFF, 0xFF, 0xFF]
    ensures IsErased(bank, 16, 240)
  {
    assert bank[..16] == SectorHeader(1);
  }

  lemma ChecksumOfOne()
    ensures RecordCrc(1, [0x41]) == 0xD488
  {
    assert Crc16.Absorb(0xFFFF, 1) == 0xF1D1 && Crc16.Absorb(0xF1D1, 0) == 0x2E3E;
    assert Crc16.Absorb(0x2E3E, 1) == 0xEB8D && Crc16.Absorb(0xEB8D, 0) == 0xC145;
    assert Crc16.Absorb(0xC145, 0x41) == 0xD488;
    Crc16.FoldThree(0xFFFF, 1, 0, 1);
    Crc16.FoldThree(0xEB8D, 0, 0x41, 0);
    Crc16.FoldConcat(0xFFFF, [1, 0, 1], [0, 0x41]);
    assert Le16(1) + Le16(1) + [0x41] == [1, 0, 1] + [0, 0x41];
  }

  lemma ChecksumOfNone()
    ensures RecordCrc(1, []) == 0xF274
  {
    assert Crc16.Absorb(0xFFFF, 1) == 0xF1D1 && Crc16.Absorb(0xF1D1, 0) == 0x2E3E;
    assert Crc16.Absorb(0x2E3E, 0) == 0xFBAC && Crc16.Absorb(0xFBAC, 0) == 0xF274;
    Crc16.FoldThree(0xFFFF, 1, 0, 0);
    Crc16.FoldThree(0xFBAC, 0, 0, 0);
    Crc16.FoldConcat(0xFFFF, [1, 0, 0], [0]);
    assert Le16(1) + Le16(0) + [] == [1, 0, 0] + [0];
  }

  /** Key, length, checksum and status, each with its low byte first, then the payload. */
  lemma RecordAsBytes(bank: seq<Byte>, bank': seq<Byte>)
    requires |bank| == 256 && Appended(bank, 16, 1, [0x41], 1, bank')
    ensures |bank'| == 256 && bank'[..16] == bank[..16]
    ensures bank'[16..25] == [1, 0, 1, 0, 0x88, 0xD4, 0xFF, 0xFF, 0x41]
    ensures IsErased(bank', 25, 231)
  {
    hide RecordCrc;
    ChecksumOfOne();
    assert [0x41][..1] == [0x41];
    assert HeaderAt(bank', 16) == Header(1, 1, 0xD488, 0xFFFF);
    Le16Stands(bank', 16, 1);
    Le16Stands(bank', 18, 1);
    Le16Stands(bank', 20, 0xD488);
    Le16Stands(bank', 22, 0xFFFF);
    assert bank'[16 + RECORD_HDR + 0] == [0x41][0];
    assert bank'[16..25] == bank'[16..18] + bank'[18..20] + bank'[20..22] + bank'[22..24] + [bank'[24]];
  }

  lemma TombstoneAsBytes(bank: seq<Byte>, bank': seq<Byte>)
    requires |bank| == 256 && Stored(bank, 28, HeaderBytes(HeaderOf(Tombstone(1))), bank')
    ensures |bank'| == 256 && bank'[..28] == bank[..28] && bank'[36..] == bank[36..]
    ensures bank'[28..36] == [1, 0, 0, 0, 0x74, 0xF2, 0, 0]
  {
    hide RecordCrc;
    ChecksumOfNone();
    assert bank'[28..36] == HeaderBytes(Header(1, 0, 0xF274, 0));
  }

  /** The value 0x41 under key 1, written to blank flash and deleted again: all 256 bytes of the sector. */
  method OneByteAndBack() returns (store: Store, written: Status, ghost after: seq<Byte>, deleted: Status)
    ensures fresh(store) && fresh(store.flash) && store.Valid() && written == deleted == Ok
    ensures |after| == 256 && IsErased(after, 25, 231)
    ensures after[..16] == [0x4F, 0x52, 0x45, 0x5A, 0xAA, 0xAA, 0x55, 0x55, 1, 0, 0, 0, 0xFF, 0xFF, 0xFF, 0xFF]
    ensures after[16..25] == [1, 0, 1, 0, 0x88, 0xD4, 0xFF, 0xFF, 0x41]
    ensures store.active == 0 && |store.BankOf(0)| == 256 && store.BankOf(0)[..28] == after[..28]
    ensures store.BankOf(0)[28..36] == [1, 0, 0, 0, 0x74, 0xF2, 0, 0]
    ensures IsErased(store.BankOf(0), 36, 220)
  {
    hide Layout.Fits, Holds, HasRoom, AppendCuts, CompactionCuts, Disciplined, Records, Appended, OnlyHeader, Recovers,
         Forgotten, IsErased, Stored, RecordCrc, Stores;
    OneByteFits([0x41], 256);
    store := Blank(256, 0);
    ghost var blank := store.BankOf(0);
    ghost var c, a;
    written, c, a := store.Write(1, [0x41]);
    after := store.BankOf(0);
    HeaderAsBytes(blank);
    RecordAsBytes(blank, after);
    deleted, c, a := store.Delete(1);
    TombstoneAsBytes(after, store.BankOf(0));
    TailStays(after, store.BankOf(0));
  }

  lemma OneByteFits(data: seq<Byte>, size: nat)
    requires |data| == 1 && size == 256
    ensures RecSize(|data|) == 12 && HasRoom(SECTOR_HDR, map[], 12, size)
    ensures Placed(SECTOR_HDR, map[], 12, size) == SECTOR_HDR
    ensures forall m: Contents :: HasRoom(28, m, RECORD_HDR, size)
  {
    AlignUp4IsMask(|data|);
  }

  lemma TailStays(bank: seq<Byte>, bank': seq<Byte>)
    requires |bank| == |bank'| == 256 && bank'[36..] == bank[36..] && IsErased(bank, 25, 231)
    ensures IsErased(bank', 36, 220)
  {
    forall k | 36 <= k < 256 ensures bank'[k] == 0xFF {
      assert bank'[k] == bank'[36..][k - 36] && bank[k] == bank[36..][k - 36];
    }
  }
}
