/** The dual-bank key-value store. Every operation returns, as ghosts, the flash calls it made. */
module Nvs {
  import opened Bytes
  import opened Flash
  import opened NvsLog
  import opened NvsCompaction
  import opened NvsPoints
  import opened NvsImage
  import opened NvsSteps
  import Crc16

  class Store {
    const flash: Device
    const lay: Layout
    var active: nat
    var writeOffset: nat
    var sequence: U32
    ghost var log: seq<Rec>

    /** The banks are two sectors of the device. */
    ghost predicate Config()
      reads flash
    {
      lay.Fits(flash.sectors) && lay.size == flash.size
    }

    ghost function BankOf(b: nat): (r: seq<Byte>)
      requires Config()
      reads flash
      ensures |r| == lay.size
    {
      Bank(lay, flash.sectors, b)
    }

    ghost predicate Valid()
      reads this, flash
    {
      && Config() && active < 2
      && Holds(BankOf(active), sequence, log)
      && writeOffset == End(log)
      && !IsActive(BankOf(1 - active))
    }

    /** Everything behind the log is erased. */
    ghost predicate TailErased()
      requires Config()
      reads this, flash
    {
      forall k :: writeOffset <= k < lay.size ==> BankOf(active)[k] == 0xFF
    }

    constructor (flash: Device, lay: Layout)
      ensures this.flash == flash && this.lay == lay
    {
      this.flash := flash;
      this.lay := lay;
      active, writeOffset, sequence := 0, 0, 0;
      log := [];
    }

    /** Programs erased cells of one bank. */
    method Put(b: nat, off: nat, data: seq<Byte>) returns (ghost step: Event)
      requires Config() && b < 2 && IsErased(BankOf(b), off, |data|)
      modifies flash
      ensures Config()
      ensures Stored(old(BankOf(b)), off, data, BankOf(b))
      ensures BankOf(1 - b) == old(BankOf(1 - b))
      ensures flash.trace == old(flash.trace) + [step] && step.after == flash.sectors && WriteOnce(lay, step)
    {
      ghost var img, s := flash.sectors, lay.Sector(b);
      ErasedNeverSticks(img, flash.size, s, off, data, 0);
      var st := flash.Write(lay.Sector(b), off, data);
      ProgrammedInside(img, flash.size, s, off, data, |data|, flash.sectors);
      step := Program(s, off, data, img, flash.sectors);
    }

    method Wipe(b: nat) returns (ghost step: Event)
      requires Config() && b < 2
      modifies flash
      ensures Config()
      ensures BankOf(b) == Erased(lay.size)
      ensures BankOf(1 - b) == old(BankOf(1 - b))
      ensures flash.trace == old(flash.trace) + [step] && step.after == flash.sectors && WriteOnce(lay, step)
    {
      flash.EraseSector(lay.Sector(b));
      step := Erase(lay.Sector(b), flash.sectors);
    }

    method ReadHeader(b: nat, off: nat) returns (h: Header)
      requires Config() && b < 2 && off + RECORD_HDR <= lay.size
      ensures h == HeaderAt(BankOf(b), off)
    {
      h := HeaderAt(flash.sectors[lay.Sector(b)], off);
    }

    method ScanWriteOffset()
      requires Config() && active < 2
      modifies this`writeOffset
      ensures writeOffset == ScanEnd(BankOf(active), SECTOR_HDR)
    {
      var offset := SECTOR_HDR;
      while offset + RECORD_HDR <= lay.size
        invariant SECTOR_HDR <= offset <= lay.size
        invariant ScanEnd(BankOf(active), offset) == ScanEnd(BankOf(active), SECTOR_HDR)
      {
        var h := ReadHeader(active, offset);
        if h.key == KEY_EMPTY {
          writeOffset := offset;
          return;
        }
        var total := RecSize(h.length);
        if offset + total > lay.size {
          break;
        }
        offset := offset + total;
      }
      writeOffset := offset;
    }

    /** Writes the header that makes an erased bank active. */
    method Activate(b: nat, sequence: U32) returns (ghost step: Event)
      requires Config() && b < 2 && BankOf(b) == Erased(lay.size)
      modifies flash
      ensures Config()
      ensures Holds(BankOf(b), sequence, []) && IsErased(BankOf(b), SECTOR_HDR, lay.size - SECTOR_HDR)
      ensures OnlyHeader(BankOf(b), sequence)
      ensures BankOf(1 - b) == old(BankOf(1 - b))
      ensures flash.trace == old(flash.trace) + [step] && step.after == flash.sectors && WriteOnce(lay, step)
    {
      step := Put(b, 0, SectorHeader(sequence));
      HoldsNothing(BankOf(b), sequence);
    }

    method WipeBoth() returns (ghost steps: seq<Event>)
      requires Config()
      modifies flash
      ensures Config() && BankOf(0) == BankOf(1) == Erased(lay.size)
      ensures flash.trace == old(flash.trace) + steps && Disciplined(lay, steps) && |steps| == 2
      ensures HalfErased(lay, steps[0].after, old(BankOf(1))) && Recovers(lay, steps[1].after, [])
    {
      ErasedIsNotActive(lay.size);
      ghost var s0 := Wipe(0);
      ghost var s1 := Wipe(1);
      RecoversNothing(lay, flash.sectors);
      steps := [s0, s1];
    }

    /** Erases both banks and activates bank 0. Cut after the first erase, an active bank 1 is still there. */
    method Format() returns (ghost steps: seq<Event>)
      requires Config()
      modifies this, flash
      ensures Valid() && log == [] && active == 0 && sequence == 1 && TailErased() && OnlyHeader(BankOf(0), 1)
      ensures flash.trace == old(flash.trace) + steps && Disciplined(lay, steps) && |steps| == 3
      ensures HalfErased(lay, steps[0].after, old(BankOf(1)))
      ensures Recovers(lay, steps[1].after, []) && Recovers(lay, steps[2].after, [])
    {
      ErasedIsNotActive(lay.size);
      steps := WipeBoth();
      ghost var s := Activate(0, 1);
      active, writeOffset, sequence := 0, SECTOR_HDR, 1;
      log := [];
      RecoversSingle(lay, flash.sectors, 0, 1, []);
      steps := steps + [s];
    }

    method BankHeader(b: nat) returns (valid: bool, sequence: U32)
      requires Config() && b < 2
      ensures valid == IsActive(BankOf(b)) && sequence == SequenceOf(BankOf(b))
    {
      var bank := flash.sectors[lay.Sector(b)];
      IsActiveIsMagic(bank);
      valid := U32At(bank, 0) == MAGIC && U32At(bank, 4) == ACTIVE;
      sequence := U32At(bank, 8);
    }

    /** The format that mounting does on its own when no bank is active. */
    method FormatFresh() returns (ghost steps: seq<Event>)
      requires Config() && Winner(lay, flash.sectors) == None
      modifies this, flash
      ensures Valid() && log == [] && active == 0 && sequence == 1 && TailErased() && OnlyHeader(BankOf(0), 1)
      ensures |steps| == 3
      ensures flash.trace == old(flash.trace) + steps && Disciplined(lay, steps) && AllRecover(lay, steps, [])
    {
      ghost var bank1 := BankOf(1);
      steps := Format();
      FormatRecovers(lay, steps, bank1);
    }

    /** Selects a bank by the two headers; of two active banks the losing one is erased. */
    method Select() returns (ghost steps: seq<Event>)
      requires Config() && Winner(lay, flash.sectors).Some?
      modifies flash, this`active, this`sequence
      ensures Config() && Selected(lay, old(flash.sectors), flash.sectors, active, sequence)
      ensures flash.trace == old(flash.trace) + steps && Disciplined(lay, steps)
      ensures forall i :: 0 <= i < |steps| ==> steps[i].after == flash.sectors
      ensures |steps| == if old(IsActive(BankOf(0)) && IsActive(BankOf(1))) then 1 else 0
    {
      ghost var img := flash.sectors;
      var valid0, sequence0 := BankHeader(0);
      var valid1, sequence1 := BankHeader(1);
      steps := [];
      if valid0 && !valid1 {
        active, sequence := 0, sequence0;
      } else if !valid0 && valid1 {
        active, sequence := 1, sequence1;
      } else {
        if sequence1 > sequence0 {
          active, sequence := 1, sequence1;
        } else {
          active, sequence := 0, sequence0;
        }
        assert Winner(lay, img) == Some(active);
        ghost var s := Wipe(1 - active);
        steps := [s];
        ErasedIsNotActive(lay.size);
      }
    }

    /**
     * Reads both bank headers, formats if neither is active, selects a bank and looks for the end of its log.
     * `carried` is any log that the image stands for.
     */
    method Mount(ghost carried: seq<Rec>) returns (ghost steps: seq<Event>)
      requires Config()
      modifies this, flash
      ensures Config() && flash.trace == old(flash.trace) + steps && Disciplined(lay, steps)
      ensures old(Winner(lay, flash.sectors)) == None ==>
                Valid() && log == [] && active == 0 && sequence == 1 && TailErased() && OnlyHeader(BankOf(0), 1)
      ensures old(Winner(lay, flash.sectors)).Some? ==>
                && Selected(lay, old(flash.sectors), flash.sectors, active, sequence)
                && writeOffset == ScanEnd(BankOf(active), SECTOR_HDR)
      ensures old(IsActive(BankOf(0)) || IsActive(BankOf(1))) ==>
                (active == 1 <==>
                   old(IsActive(BankOf(1)) && (IsActive(BankOf(0)) ==> SequenceOf(BankOf(1)) > SequenceOf(BankOf(0)))))
      ensures |steps| == if old(Winner(lay, flash.sectors)) == None then 3
                         else if old(IsActive(BankOf(0)) && IsActive(BankOf(1))) then 1
                         else 0
      ensures old(Recovers(lay, flash.sectors, carried)) ==>
                Valid() && log == carried && AllRecover(lay, steps, carried)
    {
      ghost var img := flash.sectors;
      var valid0, _ := BankHeader(0);
      var valid1, _ := BankHeader(1);
      if !valid0 && !valid1 {
        steps := FormatFresh();
        return;
      }
      steps := Select();
      ScanWriteOffset();
      log := carried;
      if Recovers(lay, img, carried) {
        SelectedHolds(lay, img, flash.sectors, active, sequence, carried);
      }
    }

    // ----- compaction -----

    /** Copies the next chunk of a record: at most 128 bytes. */
    method CopyChunk(from: nat, to: nat, copied: nat, total: nat, ghost dst: seq<Byte>)
      returns (copied': nat, ghost step: Event)
      requires Config() && active < 2 && copied < total && from + total <= lay.size && to + total <= lay.size
      requires Copied(BankOf(active), from, dst, to, BankOf(1 - active), copied)
      modifies flash
      ensures Config() && BankOf(active) == old(BankOf(active)) && copied' == ChunkEnd(copied, total)
      ensures Copied(BankOf(active), from, dst, to, BankOf(1 - active), copied')
      ensures flash.trace == old(flash.trace) + [step] && WriteOnce(lay, step) && step.after == flash.sectors
    {
      ghost var cur := BankOf(1 - active);
      var chunk := if total - copied > CHUNK then CHUNK else total - copied;
      var buf := flash.sectors[lay.Sector(active)][from + copied..from + copied + chunk];
      step := Put(1 - active, to + copied, buf);
      CopiedMore(BankOf(active), from, dst, to, cur, copied, buf, BankOf(1 - active));
      copied' := copied + chunk;
    }

    /** Copies one record to the other bank. `n` is its number in the log that is compacted. */
    method CopyRecord(from: nat, to: nat, total: nat, ghost kept: seq<Rec>, ghost r: Rec, ghost next: U32, ghost n: nat)
      returns (ghost steps: seq<Event>)
      requires Config() && active < 2 && total == Size(r) && to == End(kept) && to + total <= lay.size
      requires Lies(BankOf(active), from, r)
      requires Holds(BankOf(1 - active), next, kept) && IsErased(BankOf(1 - active), to, lay.size - to)
      modifies flash
      ensures Config() && BankOf(active) == old(BankOf(active))
      ensures Holds(BankOf(1 - active), next, kept + [r])
      ensures IsErased(BankOf(1 - active), to + total, lay.size - to - total)
      ensures flash.trace == old(flash.trace) + steps && Disciplined(lay, steps)
      ensures AllCopying(lay, steps, Chunks(n, 0, total), 1 - active, BankOf(active), next, kept, r)
    {
      hide Layout.Fits, Holds, Disciplined, AllCopying, Lies, Copied, IsErased, WriteOnce;
      NoChunks(lay, 1 - active, BankOf(active), next, kept, r);
      CopiedNothing(BankOf(active), from, BankOf(1 - active), to, r);
      ghost var src, dst, trace := BankOf(active), BankOf(1 - active), flash.trace;
      steps := [];
      ghost var at: seq<Pos> := [];
      var copied := 0;
      while copied < total
        invariant 0 <= copied <= total && Config() && BankOf(active) == src
        invariant Copied(src, from, dst, to, BankOf(1 - active), copied)
        invariant flash.trace == trace + steps && Disciplined(lay, steps)
        invariant AllCopying(lay, steps, at, 1 - active, src, next, kept, r)
        invariant at + Chunks(n, copied, total) == Chunks(n, 0, total)
      {
        ghost var s;
        ChunkDone(at, n, copied, total);
        copied, s := CopyChunk(from, to, copied, total, dst);
        ChunkCopying(lay, s.after, 1 - active, src, from, dst, next, kept, r, copied);
        CopyingPush(lay, steps, at, 1 - active, src, next, kept, r, s, Pos(n, copied));
        DisciplinedPush(lay, trace, steps, s);
        steps, at := steps + [s], at + [Pos(n, copied)];
      }
      CopiedWhole(src, from, dst, next, kept, r, BankOf(1 - active));
      assert at == Chunks(n, 0, total);
    }

    /** The forward scan for a later record, live or dead, with the same key. */
    method IsLatest(key: U16, from: nat, ghost i: nat) returns (latest: bool)
      requires Config() && active < 2 && Holds(BankOf(active), sequence, log) && writeOffset == End(log)
      requires i < |log| && key == log[i].key && from == Offset(log, i + 1)
      ensures latest <==> !Superseded(log, i)
    {
      hide Layout.Fits, IsActive, SequenceOf;
      latest := true;
      var at := from;
      ghost var j := i + 1;
      while at < writeOffset
        invariant i < j <= |log| && at == Offset(log, j)
        invariant latest && forall k :: i < k < j ==> log[k].key != key
        decreases |log| - j
      {
        assert j < |log|;
        RecordAt(BankOf(active), log, |log|, j);
        var h := ReadHeader(active, at);
        if h.key == KEY_EMPTY {
          break;
        }
        if h.key == key {
          latest := false;
          break;
        }
        at := at + RecSize(h.length);
        j := j + 1;
      }
      if latest {
        OffsetBehind(log, j);
      }
    }

    /** The copy loop: every live record that no later record supersedes, in log order. */
    method CopySurvivors() returns (dstOffset: nat, ghost steps: seq<Event>)
      requires Config() && active < 2 && Holds(BankOf(active), sequence, log) && writeOffset == End(log)
      requires Holds(BankOf(1 - active), Next(sequence), [])
      requires IsErased(BankOf(1 - active), SECTOR_HDR, lay.size - SECTOR_HDR)
      modifies flash
      ensures Config() && BankOf(active) == old(BankOf(active))
      ensures Holds(BankOf(1 - active), Next(sequence), Compacted(log)) && dstOffset == End(Compacted(log))
      ensures IsErased(BankOf(1 - active), dstOffset, lay.size - dstOffset)
      ensures flash.trace == old(flash.trace) + steps && Disciplined(lay, steps)
      ensures AllCut(lay, steps, Turns(log, |log|), log, sequence)
    {
      hide Layout.Fits, Holds, Disciplined, AllCut;
      SectorInside(lay, flash.sectors, active);
      NothingCopied(lay, log, sequence);
      ghost var src, trace := BankOf(active), flash.trace;
      steps := [];
      dstOffset := SECTOR_HDR;
      var srcOffset := SECTOR_HDR;
      ghost var i := 0;
      while srcOffset < writeOffset
        invariant i <= |log| && srcOffset == Offset(log, i)
        invariant dstOffset == End(Kept(log, i)) && dstOffset <= lay.size
        invariant Config() && BankOf(active) == src
        invariant Holds(BankOf(1 - active), Next(sequence), Kept(log, i))
        invariant IsErased(BankOf(1 - active), dstOffset, lay.size - dstOffset)
        invariant flash.trace == trace + steps && Disciplined(lay, steps)
        invariant AllCut(lay, steps, Turns(log, i), log, sequence)
        decreases |log| - i
      {
        ghost var more;
        dstOffset, srcOffset, more := CopyNext(dstOffset, srcOffset, i);
        i := i + 1;
        Joined(lay, trace, steps, more);
        AllCutConcat(lay, steps, Turns(log, i - 1), more, Turn(log, i - 1), log, sequence);
        steps := steps + more;
      }
      OffsetBehind(log, i);
    }

    /** Copies a survivor. There is always room: the copy never outgrows what it is copied from. */
    method CopySurvivor(dstOffset: nat, srcOffset: nat, total: nat, ghost i: nat) returns (ghost steps: seq<Event>)
      requires Config() && active < 2 && Holds(BankOf(active), sequence, log)
      requires i < |log| && srcOffset == Offset(log, i) && dstOffset == End(Kept(log, i)) && total == Size(log[i])
      requires Survives(log, i) && Holds(BankOf(1 - active), Next(sequence), Kept(log, i))
      requires dstOffset <= lay.size && IsErased(BankOf(1 - active), dstOffset, lay.size - dstOffset)
      modifies flash
      ensures Config() && BankOf(active) == old(BankOf(active)) && dstOffset + total <= lay.size
      ensures Holds(BankOf(1 - active), Next(sequence), Kept(log, i + 1))
      ensures IsErased(BankOf(1 - active), dstOffset + total, lay.size - dstOffset - total)
      ensures flash.trace == old(flash.trace) + steps && Disciplined(lay, steps)
      ensures AllCut(lay, steps, Turn(log, i), log, sequence)
    {
      ghost var src := BankOf(active);
      RecordAt(src, log, |log|, i);
      KeptFits(log, i);
      LogInside(src, sequence, log);
      assert dstOffset + total <= lay.size;
      steps := CopyRecord(srcOffset, dstOffset, total, Kept(log, i), log[i], Next(sequence), i);
      AllCopyingIsCut(lay, steps, 1 - active, src, sequence, log, i);
    }

    /** One turn of the copy loop. */
    method CopyNext(dstOffset: nat, srcOffset: nat, ghost i: nat)
      returns (dstOffset': nat, srcOffset': nat, ghost steps: seq<Event>)
      requires Config() && active < 2 && Holds(BankOf(active), sequence, log) && writeOffset == End(log)
      requires i < |log| && srcOffset == Offset(log, i) && dstOffset == End(Kept(log, i))
      requires Holds(BankOf(1 - active), Next(sequence), Kept(log, i))
      requires dstOffset <= lay.size && IsErased(BankOf(1 - active), dstOffset, lay.size - dstOffset)
      modifies flash
      ensures Config() && BankOf(active) == old(BankOf(active))
      ensures srcOffset' == Offset(log, i + 1) && dstOffset' == End(Kept(log, i + 1))
      ensures Holds(BankOf(1 - active), Next(sequence), Kept(log, i + 1))
      ensures dstOffset' <= lay.size && IsErased(BankOf(1 - active), dstOffset', lay.size - dstOffset')
      ensures flash.trace == old(flash.trace) + steps && Disciplined(lay, steps)
      ensures AllCut(lay, steps, Turn(log, i), log, sequence)
    {
      RecordAt(BankOf(active), log, |log|, i);
      EndPush(Kept(log, i), log[i]);
      steps := [];
      dstOffset' := dstOffset;
      hide Layout.Fits, Holds, Disciplined, AllCut;
      var h := ReadHeader(active, srcOffset);
      var total := RecSize(h.length);
      srcOffset' := srcOffset + total;
      if h.status == STATUS_VALID {
        var latest := IsLatest(h.key, srcOffset', i);
        if latest {
          steps := CopySurvivor(dstOffset, srcOffset, total, i);
          dstOffset' := dstOffset + total;
        }
      }
    }

    /** Erases the destination: the first step of compaction. */
    method ClearDestination() returns (ghost step: Event)
      requires Valid()
      modifies flash
      ensures Valid() && BankOf(active) == old(BankOf(active)) && BankOf(1 - active) == Erased(lay.size)
      ensures flash.trace == old(flash.trace) + [step] && WriteOnce(lay, step) && Recovers(lay, step.after, log)
    {
      ErasedIsNotActive(lay.size);
      step := Wipe(1 - active);
      RecoversSingle(lay, flash.sectors, active, sequence, log);
    }

    /** Writes the header of the destination: from here on it is active, though nothing is copied. */
    method HeadDestination() returns (ghost step: Event)
      requires Config() && active < 2 && Holds(BankOf(active), sequence, log) && BankOf(1 - active) == Erased(lay.size)
      modifies flash
      ensures Config() && BankOf(active) == old(BankOf(active))
      ensures Holds(BankOf(1 - active), Next(sequence), [])
      ensures IsErased(BankOf(1 - active), SECTOR_HDR, lay.size - SECTOR_HDR)
      ensures flash.trace == old(flash.trace) + [step] && WriteOnce(lay, step)
      ensures CutAt(lay, step.after, log, sequence, Pos(0, 0))
    {
      step := Activate(1 - active, Next(sequence));
      HeldIsCut(lay, flash.sectors, 1 - active, sequence, log, Pos(0, 0));
    }

    /** Header and copy loop. */
    method FillDestination() returns (dstOffset: nat, ghost steps: seq<Event>)
      requires Config() && active < 2 && Holds(BankOf(active), sequence, log) && writeOffset == End(log)
      requires BankOf(1 - active) == Erased(lay.size)
      modifies flash
      ensures Config() && BankOf(active) == old(BankOf(active))
      ensures Holds(BankOf(1 - active), Next(sequence), Compacted(log)) && dstOffset == End(Compacted(log))
      ensures IsErased(BankOf(1 - active), dstOffset, lay.size - dstOffset)
      ensures flash.trace == old(flash.trace) + steps && Disciplined(lay, steps)
      ensures AllCut(lay, steps, Points(log), log, sequence)
    {
      ghost var trace := flash.trace;
      ghost var head := HeadDestination();
      ghost var copying;
      dstOffset, copying := CopySurvivors();
      Joined(lay, trace, [head], copying);
      steps := [head] + copying;
      AllCutConcat(lay, [head], [Pos(0, 0)], copying, Turns(log, |log|), log, sequence);
    }

    /** Erases the source and continues in the other bank: the last step of compaction. */
    method SwitchOver(dstOffset: nat) returns (ghost step: Event)
      requires Config() && active < 2 && dstOffset == End(Compacted(log))
      requires Holds(BankOf(1 - active), Next(sequence), Compacted(log))
      requires IsErased(BankOf(1 - active), dstOffset, lay.size - dstOffset)
      modifies this, flash
      ensures Valid() && log == Compacted(old(log)) && TailErased()
      ensures active == 1 - old(active) && sequence == Next(old(sequence)) && BankOf(1 - active) == Erased(lay.size)
      ensures flash.trace == old(flash.trace) + [step] && WriteOnce(lay, step)
      ensures Recovers(lay, step.after, log)
    {
      ErasedIsNotActive(lay.size);
      step := Wipe(active);
      active, writeOffset, sequence := 1 - active, dstOffset, Next(sequence);
      log := Compacted(log);
      RecoversSingle(lay, flash.sectors, active, sequence, log);
    }

    /**
     * Garbage collection into the other bank. The steps are: erase the destination, write its header, copy,
     * erase the source.
     */
    method Compact() returns (ghost steps: seq<Event>)
      requires Valid()
      modifies this, flash
      ensures Valid() && log == Compacted(old(log)) && TailErased()
      ensures active == 1 - old(active) && BankOf(1 - active) == Erased(lay.size)
      ensures sequence == if old(sequence) == 0xFFFF_FFFF then 0 else old(sequence) + 1
      ensures flash.trace == old(flash.trace) + steps && Disciplined(lay, steps)
      ensures CompactionCuts(lay, steps, old(log), old(sequence))
    {
      hide Layout.Fits, Holds, Disciplined, AllCut, CompactionCuts, WriteOnce;
      ghost var trace, log0, sequence0 := flash.trace, log, sequence;
      ghost var first := ClearDestination();
      var dstOffset;
      ghost var copying;
      dstOffset, copying := FillDestination();
      ghost var last := SwitchOver(dstOffset);
      steps := [first] + copying + [last];
      Joined(lay, trace, [first], copying);
      Joined(lay, trace, [first] + copying, [last]);
      CutsTogether(lay, first, copying, last, log0, sequence0);
    }

    // ----- appending -----

    /** The checksum over key, length and the first `length` bytes of the payload. */
    method CalcRecordCrc(key: U16, length: U16, payload: seq<Byte>) returns (crc: U16)
      requires length <= |payload|
      ensures crc == RecordCrc(key, payload[..length])
    {
      var meta := Le16(key) + Le16(length);
      var c := Crc16.Step(Crc16.INIT, meta);
      Crc16.FoldConcat(Crc16.INIT, meta, payload[..length]);
      if length > 0 {
        c := Crc16.Step(c, payload[..length]);
      }
      crc := c as int;
    }

    /** The payload and its padding. */
    method AppendPayload(key: U16, data: seq<Byte>, ghost bank: seq<Byte>) returns (ghost steps: seq<Event>)
      requires Config() && active < 2 && 0 < |data| && writeOffset + RecSize(|data|) <= lay.size
      requires Appended(bank, writeOffset, key, data, 0, BankOf(active))
      modifies flash
      ensures Config() && BankOf(1 - active) == old(BankOf(1 - active))
      ensures Appended(bank, writeOffset, key, data, |data|, BankOf(active))
      ensures flash.trace == old(flash.trace) + steps && Disciplined(lay, steps) && 1 <= |steps| <= 2
      ensures AppendedSteps(lay, steps, active, bank, BankOf(1 - active), writeOffset, key, data, |data|)
    {
      hide Layout.Fits, HeaderAt, AppendHeader;
      ghost var bank1 := BankOf(active);
      ghost var s := Put(active, writeOffset + RECORD_HDR, data);
      AppendedData(bank, writeOffset, key, data, bank1, BankOf(active));
      steps := [s];
      var pad := AlignUp4(|data|) - |data|;
      if pad > 0 {
        ghost var bank2 := BankOf(active);
        s := Put(active, writeOffset + RECORD_HDR + |data|, Erased(pad));
        AppendedPad(bank, writeOffset, key, data, bank2, pad, BankOf(active));
        Joined(lay, old(flash.trace), steps, [s]);
        steps := steps + [s];
      }
    }

    /** The flash calls of an append: header, payload, padding. The length field keeps 16 bits. */
    method Append(key: U16, data: seq<Byte>) returns (ghost first: Event, ghost steps: seq<Event>)
      requires Valid() && key != KEY_EMPTY && writeOffset + RecSize(|data|) <= lay.size
      modifies flash, this`writeOffset
      ensures Config() && BankOf(1 - active) == old(BankOf(1 - active))
      ensures writeOffset == old(writeOffset) + RecSize(|data|) && TailErased()
      ensures Appended(old(BankOf(active)), old(writeOffset), key, data, |data|, BankOf(active))
      ensures flash.trace == old(flash.trace) + [first] + steps && Disciplined(lay, [first] + steps)
      ensures AppendedSteps(lay, [first], active, old(BankOf(active)), BankOf(1 - active), old(writeOffset),
                            key, data, 0)
      ensures AppendedSteps(lay, steps, active, old(BankOf(active)), BankOf(1 - active), old(writeOffset),
                            key, data, |data|)
    {
      hide Layout.Fits, IsActive, Records;
      ghost var bank := BankOf(active);
      var length := |data| % 0x1_0000;
      var crc := CalcRecordCrc(key, length, data);
      first := Put(active, writeOffset, HeaderBytes(Header(key, length, crc, STATUS_VALID)));
      AppendedHeader(bank, writeOffset, key, data, BankOf(active));
      steps := [];
      if |data| > 0 {
        steps := AppendPayload(key, data, bank);
        Joined(lay, old(flash.trace), [first], steps);
      }
      writeOffset := writeOffset + RecSize(|data|);
    }

    /** An append of at most 65535 bytes extends the log. */
    method AppendRecord(key: U16, data: seq<Byte>) returns (ghost steps: seq<Event>)
      requires Valid() && key != KEY_EMPTY && writeOffset + RecSize(|data|) <= lay.size
      modifies flash, this`writeOffset, this`log
      ensures Config() && writeOffset == old(writeOffset) + RecSize(|data|)
      ensures Appended(old(BankOf(active)), old(writeOffset), key, data, |data|, BankOf(active))
      ensures flash.trace == old(flash.trace) + steps && Disciplined(lay, steps)
      ensures |data| <= 0xFFFF ==> Valid() && log == old(log) + [NewRec(key, data)]
      ensures |data| <= 0xFFFF ==> AppendCuts(lay, steps, old(log), NewRec(key, data))
      ensures |data| > 0xFFFF ==>
                && log == old(log)
                && Records(BankOf(active), log + [NewRec(key, Short(data))], |log| + 1)
                && End(log + [NewRec(key, Short(data))]) < writeOffset
      ensures Stores(BankOf(active), sequence, key, data) <==> |data| <= 0xFFFF
      ensures TailErased()
    {
      hide Layout.Fits, Disciplined, Appended, AppendCuts, AppendedSteps, Records, Stores;
      ghost var bank := BankOf(active);
      ghost var first, rest;
      first, rest := Append(key, data);
      steps := [first] + rest;
      assert flash.trace == old(flash.trace) + steps;
      if |data| <= 0xFFFF {
        AppendOutcome(bank, sequence, log, key, data, BankOf(active));
        AppendOutcomeCuts(lay, first, rest, active, bank, BankOf(1 - active), sequence, log, key, data);
        log := log + [NewRec(key, data)];
        StoresNew(BankOf(active), sequence, old(log), key, data);
      } else {
        AppendedShort(bank, log, key, data, BankOf(active));
        StoresOnlyShort(BankOf(active), sequence, key, data);
      }
    }

    // ----- the operations -----

    /** Compacts if the record does not fit behind the log; it may not fit then either. */
    method MakeRoom(need: nat) returns (ghost steps: seq<Event>)
      requires Valid()
      modifies this, flash
      ensures Valid() && Content(log) == old(Content(log))
      ensures writeOffset == Placed(old(writeOffset), old(Content(log)), need, lay.size)
      ensures flash.trace == old(flash.trace) + steps && Disciplined(lay, steps)
      ensures active == if old(writeOffset) + need <= lay.size then old(active) else 1 - old(active)
      ensures if old(writeOffset) + need <= lay.size
              then steps == [] && log == old(log) && flash.sectors == old(flash.sectors)
              else && log == Compacted(old(log)) && CompactionCuts(lay, steps, old(log), old(sequence))
                   && BankOf(1 - active) == Erased(lay.size) && TailErased()
      ensures old(TailErased()) ==> TailErased()
    {
      steps := [];
      if writeOffset + need > lay.size {
        CompactedContent(log);
        CompactedSize(log);
        steps := Compact();
      }
    }

    /** The spans that the interface passes are shorter than the 32-bit address space, less the two headers. */
    method Write(key: U16, data: seq<Byte>)
      returns (st: Status, ghost compaction: seq<Event>, ghost append: seq<Event>)
      requires Valid() && |data| <= 0xFFFF_FFE0
      modifies this, flash
      ensures Config() && flash.trace == old(flash.trace) + compaction + append
      ensures Disciplined(lay, compaction) && Disciplined(lay, append)
      ensures st == if key == KEY_EMPTY then InvalidArg
                    else if HasRoom(old(writeOffset), old(Content(log)), RecSize(|data|), lay.size) then Ok
                    else OutOfMemory
      ensures if key != KEY_EMPTY && SECTOR_HDR + RecSize(|data|) <= lay.size < old(writeOffset) + RecSize(|data|)
              then CompactionCuts(lay, compaction, old(log), old(sequence)) && active == 1 - old(active)
              else compaction == [] && active == old(active)
      ensures st != Ok ==>
                && append == [] && Valid() && Content(log) == old(Content(log))
                && (old(TailErased()) ==> TailErased())
                && writeOffset == if key == KEY_EMPTY || SECTOR_HDR + RecSize(|data|) > lay.size then old(writeOffset)
                                  else Placed(old(writeOffset), old(Content(log)), RecSize(|data|), lay.size)
      ensures st == Ok ==>
                && writeOffset == Placed(old(writeOffset), old(Content(log)), RecSize(|data|), lay.size)
                                  + RecSize(|data|)
                && TailErased()
      ensures st == Ok && old(writeOffset) + RecSize(|data|) <= lay.size ==>
                Appended(old(BankOf(active)), old(writeOffset), key, data, |data|, BankOf(active))
      ensures st == Ok && |data| <= 0xFFFF ==>
                && Valid()
                && log == (if old(writeOffset) + RecSize(|data|) <= lay.size then old(log) else Compacted(old(log)))
                          + [NewRec(key, data)]
                && Content(log) == old(Content(log))[key := Entry(data, RecordCrc(key, data))]
                && AppendCuts(lay, append,
                     if old(writeOffset) + RecSize(|data|) <= lay.size then old(log) else Compacted(old(log)),
                     NewRec(key, data))
      ensures st == Ok && |data| > 0xFFFF ==>
                && Content(log) == old(Content(log))
                && Records(BankOf(active), log + [NewRec(key, Short(data))], |log| + 1)
                && End(log + [NewRec(key, Short(data))]) < writeOffset
                && exists bank ::
                     Holds(bank, sequence, log) && Appended(bank, End(log), key, data, |data|, BankOf(active))
      ensures st == Ok ==> (Stores(BankOf(active), sequence, key, data) <==> |data| <= 0xFFFF)
    {
      hide Layout.Fits, Holds, Records, CompactionCuts, AppendCuts, Appended, Stores;
      compaction, append := [], [];
      if key == KEY_EMPTY {
        return InvalidArg, [], [];
      }
      var total := RecSize(|data|);
      if SECTOR_HDR + total > lay.size {
        return OutOfMemory, [], [];
      }
      compaction := MakeRoom(total);
      if writeOffset + total > lay.size {
        return OutOfMemory, compaction, [];
      }
      if |data| <= 0xFFFF {
        ContentPush(log, NewRec(key, data));
      }
      append := AppendRecord(key, data);
      st := Ok;
    }

    /** Scans forward for the latest version of the key. */
    method Find(key: U16) returns (found: bool, at: nat, hdr: Header, ghost m: nat)
      requires Valid()
      ensures Scanned(log, |log|, key, found, m)
      ensures found ==> at == Offset(log, m) && hdr == HeaderOf(log[m])
      ensures found <==> key in Content(log)
      ensures found ==> hdr.key == key && hdr.length == |Content(log)[key].payload| && hdr.crc == Content(log)[key].crc
    {
      found, at, hdr, m := false, 0, Header(0, 0, 0, 0), 0;
      var offset := SECTOR_HDR;
      ghost var j := 0;
      while offset < writeOffset
        invariant j <= |log| && offset == Offset(log, j)
        invariant Scanned(log, j, key, found, m)
        invariant found ==> at == Offset(log, m) && hdr == HeaderOf(log[m])
        decreases |log| - j
      {
        RecordAt(BankOf(active), log, |log|, j);
        ScannedStep(log, j, key, found, m);
        var h := ReadHeader(active, offset);
        if h.key == KEY_EMPTY {
          break;
        }
        if h.key == key {
          if h.status == STATUS_VALID {
            found, at, hdr, m := true, offset, h, j;
          } else {
            found, m := false, j;
          }
        }
        offset := offset + RecSize(h.length);
        j := j + 1;
      }
      OffsetBehind(log, j);
    }

    /** Copies the payload of record m into the buffer and checks it. */
    method Fetch(at: nat, hdr: Header, out: array<Byte>, ghost m: nat) returns (intact: bool)
      requires Valid() && m < |log| && at == Offset(log, m) && hdr == HeaderOf(log[m]) && hdr.length <= out.Length
      modifies out
      ensures out[..hdr.length] == log[m].payload
      ensures forall k :: hdr.length <= k < out.Length ==> out[k] == old(out[k])
      ensures intact <==> log[m].crc == RecordCrc(log[m].key, log[m].payload)
    {
      RecordAt(BankOf(active), log, |log|, m);
      var bank := flash.sectors[lay.Sector(active)];
      forall k | 0 <= k < hdr.length {
        out[k] := bank[at + RECORD_HDR + k];
      }
      var got := out[..hdr.length];
      assert got == log[m].payload;
      var crc := CalcRecordCrc(hdr.key, hdr.length, got);
      assert got[..hdr.length] == got;
      intact := crc == hdr.crc;
    }

    /** What a caller gets for a key: its value if the buffer is long enough and the checksum agrees. */
    method Read(key: U16, out: array<Byte>) returns (st: Status, len: nat)
      requires Valid()
      modifies out
      ensures st == ReadStatus(Content(log), key, out.Length)
      ensures st == InvalidArg <==> key == KEY_EMPTY
      ensures st == NotFound <==> key != KEY_EMPTY && key !in Content(log)
      ensures st == Ok ==> len == |Content(log)[key].payload| <= out.Length && out[..len] == Content(log)[key].payload
      ensures forall k :: 0 <= k < out.Length ==>
                out[k] == old(out[k]) || (st in {Ok, Corrupted} && k < |Content(log)[key].payload|)
    {
      if key == KEY_EMPTY {
        return InvalidArg, 0;
      }
      var found, at, hdr;
      ghost var m;
      found, at, hdr, m := Find(key);
      if !found {
        return NotFound, 0;
      }
      if out.Length < hdr.length {
        return BufferOverflow, 0;
      }
      var intact := Fetch(at, hdr, out, m);
      if intact {
        st, len := Ok, hdr.length;
      } else {
        st, len := Corrupted, 0;
      }
    }

    /** Appends a tombstone inside the bank. */
    method PutTombstone(key: U16) returns (ghost step: Event)
      requires Valid() && key != KEY_EMPTY && writeOffset + RECORD_HDR <= lay.size
      modifies this`writeOffset, this`log, flash
      ensures Valid() && log == old(log) + [Tombstone(key)] && writeOffset == old(writeOffset) + RECORD_HDR
      ensures TailErased()
      ensures Stored(old(BankOf(active)), old(writeOffset), HeaderBytes(HeaderOf(Tombstone(key))), BankOf(active))
      ensures flash.trace == old(flash.trace) + [step] && WriteOnce(lay, step)
      ensures step.after == flash.sectors && Recovers(lay, flash.sectors, log)
    {
      ghost var bank := BankOf(active);
      hide Layout.Fits, Holds, Recovers, IsActive;
      RoomIsErased(BankOf(active), sequence, log);
      var crc := CalcRecordCrc(key, 0, []);
      step := Put(active, writeOffset, HeaderBytes(Header(key, 0, crc, STATUS_DEAD)));
      TombstoneHolds(bank, sequence, log, key, BankOf(active));
      writeOffset := writeOffset + RECORD_HDR;
      log := log + [Tombstone(key)];
      RecoversSingle(lay, flash.sectors, active, sequence, log);
    }

    /** The same flash call when the bank has no room left for it. */
    method SpillTombstone(key: U16) returns (st: Status, ghost steps: seq<Event>)
      requires Valid() && TailErased() && key != KEY_EMPTY && writeOffset + RECORD_HDR > lay.size
      requires BankOf(1 - active) == Erased(lay.size)
      modifies this`writeOffset, flash
      ensures Config() && Recovers(lay, flash.sectors, log) && |flash.sectors| == old(|flash.sectors|)
      ensures lay.Sector(1 - active) == lay.Sector(active) + 1 ==> st == Ok
      ensures lay.Sector(active) + 1 == |flash.sectors| ==> st == InvalidArg
      ensures if st == Ok then writeOffset == old(writeOffset) + RECORD_HDR else Valid()
      ensures flash.trace == old(flash.trace) + steps && EndsAt(steps, flash.sectors)
    {
      hide Layout.Fits, Holds, IsActive, Recovers, Programmed, IsErased;
      SectorInside(lay, flash.sectors, active);
      LogInside(BankOf(active), sequence, log);
      ghost var img, trace := flash.sectors, flash.trace;
      var crc := CalcRecordCrc(key, 0, []);
      var s, h := lay.Sector(active), HeaderBytes(Header(key, 0, crc, STATUS_DEAD));
      if lay.Sector(1 - active) == s + 1 {
        SpillAccepted(lay, img, active, writeOffset, h);
      }
      st := flash.Write(s, writeOffset, h);
      SpillOutcome(lay, img, active, sequence, log, key, crc, flash.sectors);
      steps := flash.trace[|trace|..];
      if st == Ok {
        writeOffset := writeOffset + RECORD_HDR;
      }
    }

    /** The look-up before a delete, with a one-byte buffer: only NOT_FOUND matters. */
    method Exists(key: U16) returns (present: bool)
      requires Valid() && key != KEY_EMPTY
      ensures present <==> key in Content(log)
    {
      var dummy := new Byte[1];
      var st, _ := Read(key, dummy);
      present := st != NotFound;
    }

    /** The flash call at the end of a delete, which does not look whether it stays inside the bank. */
    method Bury(key: U16) returns (st: Status, ghost append: seq<Event>)
      requires Valid() && key != KEY_EMPTY
      requires writeOffset + RECORD_HDR <= lay.size || (BankOf(1 - active) == Erased(lay.size) && TailErased())
      modifies this`writeOffset, this`log, flash
      ensures Config() && Recovers(lay, flash.sectors, log)
      ensures flash.trace == old(flash.trace) + append && EndsAt(append, flash.sectors)
      ensures if old(writeOffset) + RECORD_HDR <= lay.size then
                && st == Ok && Valid() && log == old(log) + [Tombstone(key)]
                && writeOffset == old(writeOffset) + RECORD_HDR && TailErased()
                && Stored(old(BankOf(active)), old(writeOffset), HeaderBytes(HeaderOf(Tombstone(key))), BankOf(active))
                && |append| == 1 && Disciplined(lay, append)
              else
                && log == old(log) && (if st == Ok then writeOffset > lay.size else Valid())
                && (lay.Sector(1 - active) == lay.Sector(active) + 1 ==> st == Ok)
                && (lay.Sector(active) + 1 == |flash.sectors| ==> st == InvalidArg)
    {
      hide Layout.Fits, Holds, Recovers, IsActive;
      append := [];
      if writeOffset + RECORD_HDR <= lay.size {
        ghost var step := PutTombstone(key);
        append := [step];
        st := Ok;
      } else {
        st, append := SpillTombstone(key);
      }
    }

    /**
     * Appends a tombstone. Room is not checked again after compacting: without it the tombstone crosses the end
     * of the bank, and the next mount finds the key again, though the call may have answered OK.
     */
    method Delete(key: U16) returns (st: Status, ghost compaction: seq<Event>, ghost append: seq<Event>)
      requires Valid()
      modifies this, flash
      ensures Config() && active < 2 && Recovers(lay, flash.sectors, log)
      ensures key == KEY_EMPTY ==> st == InvalidArg
      ensures key != KEY_EMPTY && key !in old(Content(log)) ==> st == NotFound
      ensures key == KEY_EMPTY || key !in old(Content(log)) ==>
                && Valid() && log == old(log) && flash.sectors == old(flash.sectors) && writeOffset == old(writeOffset)
                && append == []
      ensures flash.trace == old(flash.trace) + compaction + append && EndsAt(append, flash.sectors)
      ensures if key != KEY_EMPTY && key in old(Content(log)) && old(writeOffset) + RECORD_HDR > lay.size
              then CompactionCuts(lay, compaction, old(log), old(sequence)) && active == 1 - old(active)
              else compaction == [] && active == old(active)
      ensures key != KEY_EMPTY && key in old(Content(log))
              && HasRoom(old(writeOffset), old(Content(log)), RECORD_HDR, lay.size) ==>
                && st == Ok && Valid() && Content(log) == old(Content(log)) - {key}
                && log == (if old(writeOffset) + RECORD_HDR <= lay.size then old(log) else Compacted(old(log)))
                          + [Tombstone(key)]
                && writeOffset == Placed(old(writeOffset), old(Content(log)), RECORD_HDR, lay.size) + RECORD_HDR
                && TailErased()
                && Disciplined(lay, compaction) && Disciplined(lay, append)
      ensures key != KEY_EMPTY && key in old(Content(log))
              && !HasRoom(old(writeOffset), old(Content(log)), RECORD_HDR, lay.size) ==>
                && Content(log) == old(Content(log)) && (if st == Ok then writeOffset > lay.size else Valid())
                && (lay.Sector(1 - active) == lay.Sector(active) + 1 ==> st == Ok)
                && (lay.Sector(active) + 1 == |flash.sectors| ==> st == InvalidArg)
      ensures key != KEY_EMPTY && key in old(Content(log)) ==>
                (HasRoom(old(writeOffset), old(Content(log)), RECORD_HDR, lay.size) <==>
                   Forgotten(lay, flash.sectors, key))
      ensures key != KEY_EMPTY && key in old(Content(log)) && old(writeOffset) + RECORD_HDR <= lay.size ==>
                Stored(old(BankOf(active)), old(writeOffset), HeaderBytes(HeaderOf(Tombstone(key))), BankOf(active))
    {
      hide Layout.Fits, Holds, CompactionCuts, Recovers, Disciplined, IsActive, Forgotten;
      RecoversSingle(lay, flash.sectors, active, sequence, log);
      compaction, append := [], [];
      if key == KEY_EMPTY {
        return InvalidArg, [], [];
      }
      var present := Exists(key);
      if !present {
        return NotFound, [], [];
      }
      compaction := MakeRoom(RECORD_HDR);
      ContentPush(log, Tombstone(key));
      st, append := Bury(key);
      ForgottenIffGone(lay, flash.sectors, log, key);
    }
  }

  /** Mounts the store that lies in two sectors of a device; sectors of less than 256 bytes are refused. */
  method Init(flash: Device, lay: Layout, ghost carried: seq<Rec>) returns (st: Status, store: Store?)
    requires lay.size == flash.size && lay.Placed(flash.sectors)
    modifies flash
    ensures st == if lay.size < 256 then InvalidArg else Ok
    ensures st != Ok ==> store == null && flash.sectors == old(flash.sectors)
    ensures st == Ok ==> store != null && fresh(store) && store.flash == flash && store.lay == lay
    ensures st == Ok && old(Recovers(lay, flash.sectors, carried)) ==> store.Valid() && store.log == carried
    ensures st == Ok && old(lay.Fits(flash.sectors) && Winner(lay, flash.sectors) == None) ==>
              && store.Valid() && store.log == [] && store.active == 0 && store.TailErased()
              && OnlyHeader(store.BankOf(0), 1)
  {
    if lay.size < 256 {
      return InvalidArg, null;
    }
    store := new Store(flash, lay);
    ghost var steps := store.Mount(carried);
    st := Ok;
  }
}
