/** Pure facts behind the operations of the key-value store: scans, power cuts, appends. */
module NvsSteps {
  import opened Bytes
  import opened Flash
  import opened NvsLog
  import opened NvsCompaction
  import opened NvsPoints
  import opened NvsImage

  // ----- scanning a bank for the end of its log -----

  function ScanEnd(bank: seq<Byte>, offset: nat): nat
    decreases |bank| - offset
  {
    if offset + RECORD_HDR > |bank| then offset
    else
      var h := HeaderAt(bank, offset);
      if h.key == KEY_EMPTY || offset + RecSize(h.length) > |bank| then offset
      else ScanEnd(bank, offset + RecSize(h.length))
  }

  lemma ScanSteps(bank: seq<Byte>, r: Rec, at: nat)
    requires Lies(bank, at, r)
    ensures ScanEnd(bank, at) == ScanEnd(bank, at + Size(r))
  {
  }

  /** The scan of a bank that holds a log ends exactly behind the log. */
  lemma {:induction false} ScanFindsEnd(bank: seq<Byte>, log: seq<Rec>, i: nat)
    requires Records(bank, log, |log|) && Tail(bank, End(log)) && i <= |log|
    ensures ScanEnd(bank, Offset(log, i)) == End(log)
    decreases |log| - i
  {
    hide HeaderAt, Lies;
    if i < |log| {
      RecordAt(bank, log, |log|, i);
      ScanSteps(bank, log[i], Offset(log, i));
      ScanFindsEnd(bank, log, i + 1);
    } else if End(log) + RECORD_HDR <= |bank| {
      EndIsEmpty(bank, End(log));
    }
  }

  /** Behind the log a reader finds the erased word, or no room for a header. */
  lemma EndIsEmpty(bank: seq<Byte>, end: nat)
    requires Tail(bank, end) && end + RECORD_HDR <= |bank|
    ensures HeaderAt(bank, end).key == KEY_EMPTY
  {
  }

  // ----- selecting a bank -----

  /** Bank b won, its contents are untouched, and the other bank is not active any more. */
  predicate Selected(lay: Layout, img: Image, img': Image, b: nat, sequence: U32) {
    && lay.Fits(img) && lay.Fits(img') && Winner(lay, img) == Some(b)
    && sequence == SequenceOf(Bank(lay, img, b))
    && Bank(lay, img', b) == Bank(lay, img, b)
    && !IsActive(Bank(lay, img', 1 - b))
  }

  lemma SelectedHolds(lay: Layout, img: Image, img': Image, b: nat, sequence: U32, log: seq<Rec>)
    requires Selected(lay, img, img', b, sequence) && Recovers(lay, img, log)
    ensures Holds(Bank(lay, img', b), sequence, log) && Recovers(lay, img', log)
    ensures ScanEnd(Bank(lay, img', b), SECTOR_HDR) == End(log)
  {
    RecoversSingle(lay, img', b, sequence, log);
    ScanFindsEnd(Bank(lay, img', b), log, 0);
  }

  // ----- what a power cut can leave behind -----

  /** A mount finds what this point of the copy shows. */
  predicate CutAt(lay: Layout, img: Image, log: seq<Rec>, sequence: U32, p: Pos) {
    InCopy(log, p) && Recovers(lay, img, Seen(log, sequence, p))
  }

  /** After the first erase of a format. */
  predicate HalfErased(lay: Layout, img: Image, bank1: seq<Byte>) {
    lay.Fits(img) && Bank(lay, img, 0) == Erased(lay.size) && Bank(lay, img, 1) == bank1
  }

  /** An active bank 1 survives the first half of a format; without one there is nothing left. */
  lemma HalfErasedRecovers(lay: Layout, img: Image, bank1: seq<Byte>, log: seq<Rec>)
    requires HalfErased(lay, img, bank1)
    ensures Recovers(lay, img, log) <==> if IsActive(bank1) then Holds(bank1, SequenceOf(bank1), log) else log == []
  {
    ErasedIsNotActive(lay.size);
  }

  predicate AllRecover(lay: Layout, steps: seq<Event>, log: seq<Rec>) {
    forall i :: 0 <= i < |steps| ==> Recovers(lay, steps[i].after, log)
  }

  lemma AllThreeRecover(lay: Layout, steps: seq<Event>, log: seq<Rec>)
    requires |steps| == 3 && Recovers(lay, steps[0].after, log)
    requires Recovers(lay, steps[1].after, log) && Recovers(lay, steps[2].after, log)
    ensures AllRecover(lay, steps, log)
  {
    forall i | 0 <= i < 3 ensures Recovers(lay, steps[i].after, log) {
    }
  }

  lemma FormatRecovers(lay: Layout, steps: seq<Event>, bank1: seq<Byte>)
    requires |steps| == 3 && HalfErased(lay, steps[0].after, bank1) && !IsActive(bank1)
    requires Recovers(lay, steps[1].after, []) && Recovers(lay, steps[2].after, [])
    ensures AllRecover(lay, steps, [])
  {
    HalfErasedRecovers(lay, steps[0].after, bank1, []);
    AllThreeRecover(lay, steps, []);
  }

  /** Each of these calls left the record copied as far as the point says. */
  predicate AllCopying(lay: Layout, steps: seq<Event>, at: seq<Pos>, b: nat, src: seq<Byte>, next: U32,
      kept: seq<Rec>, r: Rec)
  {
    && |steps| == |at|
    && forall i :: 0 <= i < |steps| ==> Copying(lay, steps[i].after, b, src, next, kept, r, at[i].d)
  }

  lemma NoChunks(lay: Layout, b: nat, src: seq<Byte>, next: U32, kept: seq<Rec>, r: Rec)
    ensures Disciplined(lay, []) && AllCopying(lay, [], [], b, src, next, kept, r)
  {
  }

  lemma CopyingPush(lay: Layout, steps: seq<Event>, at: seq<Pos>, b: nat, src: seq<Byte>, next: U32, kept: seq<Rec>,
      r: Rec, s: Event, p: Pos)
    requires AllCopying(lay, steps, at, b, src, next, kept, r)
    requires Copying(lay, s.after, b, src, next, kept, r, p.d)
    ensures AllCopying(lay, steps + [s], at + [p], b, src, next, kept, r)
  {
  }

  /** One more chunk is done. */
  lemma ChunkDone(at: seq<Pos>, n: nat, copied: nat, total: nat)
    requires copied < total && at + Chunks(n, copied, total) == Chunks(n, 0, total)
    ensures at + [Pos(n, ChunkEnd(copied, total))] + Chunks(n, ChunkEnd(copied, total), total) == Chunks(n, 0, total)
  {
    var p, rest := [Pos(n, ChunkEnd(copied, total))], Chunks(n, ChunkEnd(copied, total), total);
    assert at + p + rest == at + (p + rest);
  }

  /** The source bank is intact and the destination holds what is copied so far. */
  lemma HeldIsCut(lay: Layout, img: Image, b: nat, sequence: U32, log: seq<Rec>, p: Pos)
    requires lay.Fits(img) && b < 2 && Holds(Bank(lay, img, 1 - b), sequence, log)
    requires InCopy(log, p) && Holds(Bank(lay, img, b), Next(sequence), CopiedSoFar(log, p))
    ensures CutAt(lay, img, log, sequence, p)
  {
    if sequence == 0xFFFF_FFFF {
      RecoversNewer(lay, img, 1 - b, 0, sequence, CopiedSoFar(log, p), log);
    } else {
      RecoversNewer(lay, img, b, sequence, sequence + 1, log, CopiedSoFar(log, p));
    }
  }

  predicate AllCut(lay: Layout, steps: seq<Event>, at: seq<Pos>, log: seq<Rec>, sequence: U32) {
    |steps| == |at| && forall i :: 0 <= i < |steps| ==> CutAt(lay, steps[i].after, log, sequence, at[i])
  }

  lemma NothingCopied(lay: Layout, log: seq<Rec>, sequence: U32)
    ensures Disciplined(lay, []) && AllCut(lay, [], Turns(log, 0), log, sequence)
  {
  }

  lemma AllCutConcat(lay: Layout, a: seq<Event>, at: seq<Pos>, b: seq<Event>, bt: seq<Pos>,
      log: seq<Rec>, sequence: U32)
    requires AllCut(lay, a, at, log, sequence) && AllCut(lay, b, bt, log, sequence)
    ensures AllCut(lay, a + b, at + bt, log, sequence)
  {
  }

  lemma AllCopyingIsCut(lay: Layout, steps: seq<Event>, b: nat, src: seq<Byte>, sequence: U32, log: seq<Rec>, n: nat)
    requires b < 2 && n < |log| && Survives(log, n) && Holds(src, sequence, log)
    requires AllCopying(lay, steps, Turn(log, n), b, src, Next(sequence), Kept(log, n), log[n])
    ensures AllCut(lay, steps, Turn(log, n), log, sequence)
  {
    TurnInside(log, n);
    forall i | 0 <= i < |steps| ensures CutAt(lay, steps[i].after, log, sequence, Turn(log, n)[i]) {
      HeldIsCut(lay, steps[i].after, b, sequence, log, Turn(log, n)[i]);
    }
  }

  /** What a power cut after any call of a compaction leaves, call by call. */
  predicate CompactionCuts(lay: Layout, steps: seq<Event>, log: seq<Rec>, sequence: U32) {
    && |steps| == |Points(log)| + 2
    && forall i :: 0 <= i < |steps| ==> Recovers(lay, steps[i].after, AtCut(log, sequence, i))
  }

  lemma CutsTogether(lay: Layout, first: Event, copying: seq<Event>, last: Event, log: seq<Rec>, sequence: U32)
    requires Recovers(lay, first.after, log) && AllCut(lay, copying, Points(log), log, sequence)
    requires Recovers(lay, last.after, Compacted(log))
    ensures CompactionCuts(lay, [first] + copying + [last], log, sequence)
  {
    var steps := [first] + copying + [last];
    forall i | 0 <= i < |steps| ensures Recovers(lay, steps[i].after, AtCut(log, sequence, i)) {
      if 0 < i <= |copying| {
        assert steps[i] == copying[i - 1];
        assert CutAt(lay, copying[i - 1].after, log, sequence, Points(log)[i - 1]);
      }
    }
  }

  lemma Joined(lay: Layout, before: seq<Event>, a: seq<Event>, b: seq<Event>)
    requires Disciplined(lay, a) && Disciplined(lay, b)
    ensures before + a + b == before + (a + b) && Disciplined(lay, a + b)
  {
  }

  lemma DisciplinedPush(lay: Layout, before: seq<Event>, steps: seq<Event>, s: Event)
    requires Disciplined(lay, steps) && WriteOnce(lay, s)
    ensures before + steps + [s] == before + (steps + [s]) && Disciplined(lay, steps + [s])
  {
  }

  /** The header that an append writes; a payload of more than 65535 bytes is truncated in it. */
  function AppendHeader(key: U16, data: seq<Byte>): Header {
    var length := |data| % 0x1_0000;
    Header(key, length, RecordCrc(key, data[..length]), STATUS_VALID)
  }

  /** Behind `end`, this header and the first n bytes of the data are programmed and nothing else. */
  predicate Appended(bank: seq<Byte>, end: nat, key: U16, data: seq<Byte>, n: nat, bank': seq<Byte>) {
    && n <= |data| && end + RECORD_HDR + n <= |bank| == |bank'|
    && SameBytes(bank', 0, bank, 0, end)
    && HeaderAt(bank', end) == AppendHeader(key, data)
    && (forall k :: 0 <= k < n ==> bank'[end + RECORD_HDR + k] == data[k])
    && IsErased(bank', end + RECORD_HDR + n, |bank| - end - RECORD_HDR - n)
  }

  predicate AppendedImage(lay: Layout, img: Image, b: nat, bank: seq<Byte>, other: seq<Byte>, end: nat,
      key: U16, data: seq<Byte>, n: nat) {
    b < 2 && lay.Fits(img) && Bank(lay, img, 1 - b) == other && Appended(bank, end, key, data, n, Bank(lay, img, b))
  }

  predicate AppendedSteps(lay: Layout, steps: seq<Event>, b: nat, bank: seq<Byte>, other: seq<Byte>, end: nat,
      key: U16, data: seq<Byte>, n: nat) {
    forall i :: 0 <= i < |steps| ==> AppendedImage(lay, steps[i].after, b, bank, other, end, key, data, n)
  }

  lemma AppendedHeader(bank: seq<Byte>, end: nat, key: U16, data: seq<Byte>, bank': seq<Byte>)
    requires Tail(bank, end) && end + RECORD_HDR <= |bank|
    requires Stored(bank, end, HeaderBytes(AppendHeader(key, data)), bank')
    ensures Appended(bank, end, key, data, 0, bank')
  {
    HeaderRoundTrip(bank', end, AppendHeader(key, data));
  }

  lemma AppendedData(bank: seq<Byte>, end: nat, key: U16, data: seq<Byte>, bank1: seq<Byte>, bank2: seq<Byte>)
    requires Appended(bank, end, key, data, 0, bank1) && Stored(bank1, end + RECORD_HDR, data, bank2)
    ensures Appended(bank, end, key, data, |data|, bank2)
  {
  }

  lemma AppendedPad(bank: seq<Byte>, end: nat, key: U16, data: seq<Byte>, bank2: seq<Byte>, pad: nat, bank3: seq<Byte>)
    requires Appended(bank, end, key, data, |data|, bank2)
    requires Stored(bank2, end + RECORD_HDR + |data|, Erased(pad), bank3)
    ensures Appended(bank, end, key, data, |data|, bank3)
  {
  }

  /** Only the end of the log is at or behind the end of the log. */
  lemma OffsetBehind(log: seq<Rec>, j: nat)
    requires j <= |log| && Offset(log, j) >= End(log)
    ensures j == |log|
  {
    if j < |log| {
      OffsetMono(log, j + 1, |log|);
    }
  }

  // ----- what an append means -----

  /** The record that writing a value stores. */
  function NewRec(key: U16, data: seq<Byte>): Rec
    requires key != KEY_EMPTY && |data| <= 0xFFFF
  {
    Rec(key, RecordCrc(key, data), STATUS_VALID, data)
  }

  lemma AppendHeaderExact(key: U16, data: seq<Byte>)
    requires key != KEY_EMPTY && |data| <= 0xFFFF
    ensures AppendHeader(key, data) == HeaderOf(NewRec(key, data))
  {
    assert data[..|data|] == data;
  }

  /** Up to 65535 bytes, the append extends the log by the new record, at first with an erased payload. */
  lemma AppendedHolds(bank: seq<Byte>, sequence: U32, log: seq<Rec>, key: U16, data: seq<Byte>, n: nat,
      bank': seq<Byte>)
    requires Holds(bank, sequence, log) && key != KEY_EMPTY && |data| <= 0xFFFF
    requires End(log) + RecSize(|data|) <= |bank| && (n == 0 || n == |data|)
    requires Appended(bank, End(log), key, data, n, bank')
    ensures Holds(bank', sequence, log + [Partial(NewRec(key, data), RECORD_HDR + n)])
  {
    var r := Partial(NewRec(key, data), RECORD_HDR + n);
    AppendHeaderExact(key, data);
    assert Lies(bank', End(log), r);
    HoldsPush(bank, sequence, log, r, bank');
  }

  lemma AppendedRecovers(lay: Layout, steps: seq<Event>, b: nat, bank: seq<Byte>, other: seq<Byte>, sequence: U32,
                         log: seq<Rec>, key: U16, data: seq<Byte>, n: nat)
    requires Holds(bank, sequence, log) && key != KEY_EMPTY && |data| <= 0xFFFF && !IsActive(other)
    requires End(log) + RecSize(|data|) <= |bank| && (n == 0 || n == |data|)
    requires AppendedSteps(lay, steps, b, bank, other, End(log), key, data, n)
    ensures AllRecover(lay, steps, log + [Partial(NewRec(key, data), RECORD_HDR + n)])
  {
    forall i | 0 <= i < |steps|
      ensures Recovers(lay, steps[i].after, log + [Partial(NewRec(key, data), RECORD_HDR + n)])
    {
      var img := steps[i].after;
      AppendedHolds(bank, sequence, log, key, data, n, Bank(lay, img, b));
      RecoversSingle(lay, img, b, sequence, log + [Partial(NewRec(key, data), RECORD_HDR + n)]);
    }
  }

  /** What cuts during the append of `r` recover: at first its payload reads as erased. */
  predicate AppendCuts(lay: Layout, steps: seq<Event>, log: seq<Rec>, r: Rec) {
    && |steps| > 0
    && Recovers(lay, steps[0].after, log + [Partial(r, RECORD_HDR)])
    && forall i :: 0 < i < |steps| ==> Recovers(lay, steps[i].after, log + [r])
  }

  lemma AppendCutsTogether(lay: Layout, first: Event, rest: seq<Event>, log: seq<Rec>, r: Rec)
    requires AllRecover(lay, [first], log + [Partial(r, RECORD_HDR)]) && AllRecover(lay, rest, log + [r])
    ensures AppendCuts(lay, [first] + rest, log, r)
  {
    assert [first][0] == first;
    forall i | 0 < i < |[first] + rest| ensures Recovers(lay, ([first] + rest)[i].after, log + [r]) {
      assert ([first] + rest)[i] == rest[i - 1];
    }
  }

  lemma PartialComplete(key: U16, data: seq<Byte>)
    requires key != KEY_EMPTY && |data| <= 0xFFFF
    ensures Partial(NewRec(key, data), RECORD_HDR + |data|) == NewRec(key, data)
  {
    assert Partial(NewRec(key, data), RECORD_HDR + |data|).payload == data;
  }

  /** An append of at most 65535 bytes extends the log. */
  lemma AppendOutcome(bank: seq<Byte>, sequence: U32, log: seq<Rec>, key: U16, data: seq<Byte>, bank': seq<Byte>)
    requires Holds(bank, sequence, log) && key != KEY_EMPTY && |data| <= 0xFFFF
    requires End(log) + RecSize(|data|) <= |bank|
    requires Appended(bank, End(log), key, data, |data|, bank')
    ensures Holds(bank', sequence, log + [NewRec(key, data)])
    ensures End(log + [NewRec(key, data)]) == End(log) + RecSize(|data|)
  {
    PartialComplete(key, data);
    AppendedHolds(bank, sequence, log, key, data, |data|, bank');
    EndPush(log, NewRec(key, data));
  }

  // ----- a payload that is too long for the length field -----

  lemma {:induction false} AlignUp4Mono(x: nat, y: nat)
    requires x <= y
    ensures AlignUp4(x) <= AlignUp4(y)
    decreases y
  {
    if x > 4 {
      AlignUp4Mono(x - 4, y - 4);
    }
  }

  /** What the length field keeps of a payload. */
  function Short(data: seq<Byte>): (r: seq<Byte>)
    ensures |r| <= 0xFFFF && r <= data
  {
    data[..|data| % 0x1_0000]
  }

  /** Behind the log a reader finds a record with the front of the payload; where it ends, payload goes on. */
  lemma AppendedShort(bank: seq<Byte>, log: seq<Rec>, key: U16, data: seq<Byte>, bank': seq<Byte>)
    requires Records(bank, log, |log|) && key != KEY_EMPTY && |data| > 0xFFFF
    requires End(log) + RecSize(|data|) <= |bank| && Appended(bank, End(log), key, data, |data|, bank')
    ensures Records(bank', log + [NewRec(key, Short(data))], |log| + 1)
    ensures End(log + [NewRec(key, Short(data))]) < End(log) + RecSize(|data|)
  {
    var r := NewRec(key, Short(data));
    AlignUp4Mono(|Short(data)| + 4, |data|);
    assert Lies(bank', End(log), r);
    RecordsFrame(bank, log, |log|, bank');
    RecordsPush(bank', log, r, |log|);
    OffsetPush(log, r, |log|);
    EndPush(log, r);
  }

  /** A log that this bank holds gives the key this value. */
  ghost predicate Stores(bank: seq<Byte>, sequence: U32, key: U16, data: seq<Byte>) {
    exists l :: Holds(bank, sequence, l) && key in Content(l) && Content(l)[key].payload == data
  }

  lemma StoresNew(bank: seq<Byte>, sequence: U32, log: seq<Rec>, key: U16, data: seq<Byte>)
    requires key != KEY_EMPTY && |data| <= 0xFFFF && Holds(bank, sequence, log + [NewRec(key, data)])
    ensures Stores(bank, sequence, key, data)
  {
    ContentPush(log, NewRec(key, data));
    assert Content(log + [NewRec(key, data)])[key].payload == data;
  }

  /** No bank holds a longer value, whatever was programmed. */
  lemma StoresOnlyShort(bank: seq<Byte>, sequence: U32, key: U16, data: seq<Byte>)
    requires |data| > 0xFFFF
    ensures !Stores(bank, sequence, key, data)
  {
    forall l | key in Content(l) ensures |Content(l)[key].payload| <= 0xFFFF {
      ContentBounded(l, |l|, key);
    }
  }

  /** The logs that cuts between the steps of the append leave. */
  lemma AppendOutcomeCuts(lay: Layout, first: Event, rest: seq<Event>, b: nat, bank: seq<Byte>, other: seq<Byte>,
                          sequence: U32, log: seq<Rec>, key: U16, data: seq<Byte>)
    requires Holds(bank, sequence, log) && key != KEY_EMPTY && |data| <= 0xFFFF && !IsActive(other)
    requires End(log) + RecSize(|data|) <= |bank|
    requires AppendedSteps(lay, [first], b, bank, other, End(log), key, data, 0)
    requires AppendedSteps(lay, rest, b, bank, other, End(log), key, data, |data|)
    ensures AppendCuts(lay, [first] + rest, log, NewRec(key, data))
  {
    PartialComplete(key, data);
    AppendedRecovers(lay, [first], b, bank, other, sequence, log, key, data, 0);
    AppendedRecovers(lay, rest, b, bank, other, sequence, log, key, data, |data|);
    AppendCutsTogether(lay, first, rest, log, NewRec(key, data));
  }

  // ----- looking up a key -----

  /** The forward scan has passed j records and remembers record m as the live one of this key, if there is one. */
  predicate Scanned(log: seq<Rec>, j: nat, key: U16, found: bool, m: nat) {
    && j <= |log| && (found <==> key in ContentTo(log, j))
    && (found ==> m < |log| && log[m].key == key && ContentTo(log, j)[key] == Entry(log[m].payload, log[m].crc))
  }

  lemma ScannedStep(log: seq<Rec>, j: nat, key: U16, found: bool, m: nat)
    requires Scanned(log, j, key, found, m) && j < |log|
    ensures log[j].key != key ==> Scanned(log, j + 1, key, found, m)
    ensures log[j].key == key ==> Scanned(log, j + 1, key, log[j].status == STATUS_VALID, j)
  {
  }

  // ----- tombstones -----

  function Tombstone(key: U16): Rec
    requires key != KEY_EMPTY
  {
    Rec(key, RecordCrc(key, []), STATUS_DEAD, [])
  }

  lemma TombstoneHolds(bank: seq<Byte>, sequence: U32, log: seq<Rec>, key: U16, bank': seq<Byte>)
    requires Holds(bank, sequence, log) && key != KEY_EMPTY
    requires Stored(bank, End(log), HeaderBytes(HeaderOf(Tombstone(key))), bank')
    ensures Holds(bank', sequence, log + [Tombstone(key)]) && End(log + [Tombstone(key)]) == End(log) + RECORD_HDR
  {
    HeaderRoundTrip(bank', End(log), HeaderOf(Tombstone(key)));
    assert Lies(bank', End(log), Tombstone(key));
    HoldsPush(bank, sequence, log, Tombstone(key), bank');
    EndPush(log, Tombstone(key));
  }

  /** Without room for a header behind it, a log is not disturbed by a write there. */
  lemma SpillKeepsLog(bank: seq<Byte>, sequence: U32, log: seq<Rec>, data: seq<Byte>, bank': seq<Byte>)
    requires Holds(bank, sequence, log) && |bank| < End(log) + RECORD_HDR
    requires Touched(bank, End(log), data, bank')
    ensures Holds(bank', sequence, log)
  {
    OffsetMono(log, 0, |log|);
    ActivePrefix(bank, bank');
    RecordsFrame(bank, log, |log|, bank');
  }

  /** What spills of a tombstone header into an erased bank does not make that bank active. */
  lemma SpillIsNotActive(bank: seq<Byte>, start: int, key: U16, crc: U16, bank': seq<Byte>)
    requires |bank| >= SECTOR_HDR && bank == Erased(|bank|) && start <= 0
    requires Touched(bank, start, HeaderBytes(Header(key, 0, crc, STATUS_DEAD)), bank')
    ensures !IsActive(bank')
  {
    var h := HeaderBytes(Header(key, 0, crc, STATUS_DEAD));
    assert h[2] == 0;
    if start == 0 {
      assert bank'[2] != 0x45;
    } else {
      assert bank'[7] == 0xFF;
    }
  }

  /** The image after a tombstone that crossed the end of its bank still recovers the log without it. */
  lemma SpillRecovers(lay: Layout, img: Image, b: nat, sequence: U32, log: seq<Rec>, key: U16, crc: U16, img': Image)
    requires lay.Fits(img) && b < 2 && lay.Fits(img') && |img'| == |img|
    requires Holds(Bank(lay, img, b), sequence, log) && lay.size < End(log) + RECORD_HDR
    requires Bank(lay, img, 1 - b) == Erased(lay.size)
    requires var h := HeaderBytes(Header(key, 0, crc, STATUS_DEAD));
             var s := lay.Sector(b);
             && Touched(img[s], End(log), h, img'[s])
             && (s + 1 < |img| ==> Touched(img[s + 1], End(log) - lay.size, h, img'[s + 1]))
             && forall t :: 0 <= t < |img| && t != s && t != s + 1 ==> img'[t] == img[t]
    ensures Holds(Bank(lay, img', b), sequence, log)
    ensures !IsActive(Bank(lay, img', 1 - b)) && Recovers(lay, img', log)
  {
    var h := HeaderBytes(Header(key, 0, crc, STATUS_DEAD));
    SpillKeepsLog(Bank(lay, img, b), sequence, log, h, Bank(lay, img', b));
    if lay.Sector(1 - b) == lay.Sector(b) + 1 {
      SpillIsNotActive(Bank(lay, img, 1 - b), End(log) - lay.size, key, crc, Bank(lay, img', 1 - b));
    } else {
      ErasedIsNotActive(lay.size);
    }
    RecoversSingle(lay, img', b, sequence, log);
  }

  /** So does whatever the flash driver makes of such a call. */
  lemma SpillOutcome(lay: Layout, img: Image, b: nat, sequence: U32, log: seq<Rec>, key: U16, crc: U16, img': Image)
    requires lay.Fits(img) && b < 2
    requires Holds(Bank(lay, img, b), sequence, log) && lay.size < End(log) + RECORD_HDR
    requires Bank(lay, img, 1 - b) == Erased(lay.size)
    requires var h := HeaderBytes(Header(key, 0, crc, STATUS_DEAD));
             var s := lay.Sector(b);
             if Spans(img, lay.size, s, End(log), h)
             then exists n: nat :: n <= |h| && Programmed(img, lay.size, s, End(log), h, n, img')
             else img' == img
    ensures lay.Fits(img') && Holds(Bank(lay, img', b), sequence, log)
    ensures !IsActive(Bank(lay, img', 1 - b)) && Recovers(lay, img', log)
  {
    var h, s := HeaderBytes(Header(key, 0, crc, STATUS_DEAD)), lay.Sector(b);
    if Spans(img, lay.size, s, End(log), h) {
      var n: nat :| n <= |h| && Programmed(img, lay.size, s, End(log), h, n, img');
      ProgrammedTouches(img, lay.size, s, End(log), h, n, img');
    }
    SpillRecovers(lay, img, b, sequence, log, key, crc, img');
  }

  /** When the other, erased bank is the next sector, a tombstone that crosses the end of its bank is accepted. */
  lemma SpillAccepted(lay: Layout, img: Image, b: nat, end: nat, h: seq<Byte>)
    requires lay.Fits(img) && b < 2 && |h| <= lay.size && end <= lay.size
    requires Bank(lay, img, 1 - b) == Erased(lay.size) && lay.Sector(1 - b) == lay.Sector(b) + 1
    requires IsErased(Bank(lay, img, b), end, lay.size - end)
    ensures Spans(img, lay.size, lay.Sector(b), end, h)
    ensures FirstStuck(img, lay.size, lay.Sector(b), end, h, 0) == |h|
  {
    ErasedNeverSticks(img, lay.size, lay.Sector(b), end, h, 0);
  }

  // ----- an image determines its log -----

  lemma LiesUnique(bank: seq<Byte>, at: nat, r: Rec, r': Rec)
    requires Lies(bank, at, r) && Lies(bank, at, r')
    ensures r == r'
  {
    assert HeaderOf(r) == HeaderOf(r');
    assert r.payload == r'.payload;
  }

  lemma {:induction false} RecordsAgree(bank: seq<Byte>, log: seq<Rec>, log': seq<Rec>, n: nat)
    requires n <= |log| && n <= |log'|
    requires Records(bank, log, |log|) && Records(bank, log', |log'|)
    ensures Offset(log, n) == Offset(log', n)
    ensures forall k :: 0 <= k < n ==> log[k] == log'[k]
  {
    hide HeaderAt, Size, Lies;
    if n > 0 {
      RecordsAgree(bank, log, log', n - 1);
      RecordAt(bank, log, |log|, n - 1);
      RecordAt(bank, log', |log'|, n - 1);
      LiesUnique(bank, Offset(log, n - 1), log[n - 1], log'[n - 1]);
    }
  }

  lemma NoLongerLog(bank: seq<Byte>, log: seq<Rec>, log': seq<Rec>)
    requires Records(bank, log, |log|) && Tail(bank, End(log)) && Records(bank, log', |log'|)
    ensures |log'| <= |log|
  {
    if |log'| > |log| {
      RecordsAgree(bank, log, log', |log|);
      RecordAt(bank, log', |log'|, |log|);
      EndIsEmpty(bank, End(log));
    }
  }

  /** Mounting is determined: no image stands for two different logs. */
  lemma RecoversUnique(lay: Layout, img: Image, log: seq<Rec>, log': seq<Rec>)
    requires Recovers(lay, img, log) && Recovers(lay, img, log')
    ensures log == log'
  {
    if Winner(lay, img).Some? {
      var bank := Bank(lay, img, Winner(lay, img).value);
      NoLongerLog(bank, log, log');
      NoLongerLog(bank, log', log);
      RecordsAgree(bank, log, log', |log|);
    }
  }

  /** At most one step, which leaves this image. */
  predicate EndsAt(steps: seq<Event>, img: Image) {
    |steps| <= 1 && (|steps| == 1 ==> steps[0].after == img)
  }

  /** No mount of this image finds the key. */
  ghost predicate Forgotten(lay: Layout, img: Image, key: U16) {
    forall l :: Recovers(lay, img, l) ==> key !in Content(l)
  }

  lemma ForgottenIffGone(lay: Layout, img: Image, log: seq<Rec>, key: U16)
    requires Recovers(lay, img, log)
    ensures Forgotten(lay, img, key) <==> key !in Content(log)
  {
    forall l | Recovers(lay, img, l) ensures l == log {
      RecoversUnique(lay, img, l, log);
    }
  }
}
