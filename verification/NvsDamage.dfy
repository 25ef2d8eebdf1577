/** Flash that lost its contents: what a change inside a stored value does to the store. */
module NvsDamage {
  import opened Bytes
  import opened Flash
  import opened NvsLog
  import opened NvsCompaction
  import opened NvsImage
  import opened NvsSteps
  import opened NvsCuts
  import Crc16

  /** Nothing outside record m has changed. */
  predicate OnlyRecord(bank: seq<Byte>, bank': seq<Byte>, log: seq<Rec>, m: nat)
    requires m < |log|
  {
    && |bank'| == |bank|
    && forall k :: 0 <= k < |bank| && bank'[k] != bank[k] ==> Offset(log, m) <= k < Offset(log, m) + Size(log[m])
  }

  /** The logs differ in record m at most, and not in its size. */
  predicate Alike(log: seq<Rec>, log': seq<Rec>, m: nat) {
    && m < |log| == |log'| && Size(log'[m]) == Size(log[m])
    && forall k :: 0 <= k < |log| && k != m ==> log'[k] == log[k]
  }

  // ----- a bank in which one record has changed -----

  lemma {:induction false} OffsetSame(log: seq<Rec>, log': seq<Rec>, m: nat, i: nat)
    requires Alike(log, log', m) && i <= |log|
    ensures Offset(log', i) == Offset(log, i)
  {
    if i > 0 {
      OffsetSame(log, log', m, i - 1);
    }
  }

  lemma OffsetNext(log: seq<Rec>, i: nat)
    requires i < |log|
    ensures Offset(log, i + 1) == Offset(log, i) + Size(log[i])
    ensures Offset(log, i) + RECORD_HDR + |log[i].payload| <= Offset(log, i) + Size(log[i])
  {
  }

  /** A stretch of the bank beside the record is as it was. */
  lemma BesideSame(bank: seq<Byte>, bank': seq<Byte>, log: seq<Rec>, m: nat, at: nat, n: nat)
    requires m < |log| && OnlyRecord(bank, bank', log, m) && at + n <= |bank|
    requires at + n <= Offset(log, m) || Offset(log, m) + Size(log[m]) <= at
    ensures SameBytes(bank', at, bank, at, n)
  {
    hide Offset;
  }

  lemma LiesInside(bank: seq<Byte>, at: nat, r: Rec)
    requires Lies(bank, at, r)
    ensures at + Size(r) <= |bank|
  {
  }

  lemma OtherLies(bank: seq<Byte>, bank': seq<Byte>, log: seq<Rec>, m: nat, i: nat)
    requires m < |log| && i < |log| && i != m && OnlyRecord(bank, bank', log, m)
    requires Lies(bank, Offset(log, i), log[i])
    ensures Lies(bank', Offset(log, i), log[i])
  {
    hide Offset, Lies, OnlyRecord, Size;
    LiesInside(bank, Offset(log, i), log[i]);
    OffsetNext(log, i);
    OffsetNext(log, m);
    if i < m {
      OffsetMono(log, i + 1, m);
    } else {
      OffsetMono(log, m + 1, i);
    }
    BesideSame(bank, bank', log, m, Offset(log, i), Size(log[i]));
    LiesCopy(bank, Offset(log, i), log[i], bank', Offset(log, i));
  }

  lemma {:induction false} ChangedRecords(bank: seq<Byte>, bank': seq<Byte>, log: seq<Rec>, log': seq<Rec>,
      m: nat, n: nat)
    requires Alike(log, log', m) && n <= |log| && OnlyRecord(bank, bank', log, m)
    requires Records(bank, log, |log|) && Lies(bank', Offset(log, m), log'[m])
    ensures Records(bank', log', n)
  {
    hide Lies, Offset, OnlyRecord, Size;
    if n > 0 {
      ChangedRecords(bank, bank', log, log', m, n - 1);
      OffsetSame(log, log', m, n - 1);
      RecordAt(bank, log, |log|, n - 1);
      if n - 1 != m {
        OtherLies(bank, bank', log, m, n - 1);
      }
    }
  }

  /** A record that has changed in place is that record of the log. */
  lemma ChangedHolds(bank: seq<Byte>, bank': seq<Byte>, sequence: U32, log: seq<Rec>, log': seq<Rec>, m: nat)
    requires Holds(bank, sequence, log) && Alike(log, log', m) && OnlyRecord(bank, bank', log, m)
    requires Lies(bank', Offset(log, m), log'[m])
    ensures Holds(bank', sequence, log')
  {
    hide Lies, IsActive, SequenceOf, Records, Offset, Size;
    OffsetNext(log, m);
    ChangedRecords(bank, bank', log, log', m, |log|);
    OffsetSame(log, log', m, |log|);
    OffsetMono(log, m + 1, |log|);
    OffsetMono(log, 0, |log|);
    ActivePrefix(bank, bank');
  }

  // ----- the checksum, over the bytes of the bank -----

  /** The bytes that the checksum of the record at this offset covers: key and length, then the payload. */
  function Covered(bank: seq<Byte>, at: nat, n: nat): seq<Byte>
    requires at + RECORD_HDR + n <= |bank|
  {
    bank[at..at + 4] + bank[at + 8..at + 8 + n]
  }

  lemma CoveredIsMeta(bank: seq<Byte>, at: nat, r: Rec)
    requires Lies(bank, at, r)
    ensures at + RECORD_HDR + |r.payload| <= |bank|
    ensures U16At(bank, at) == r.key && U16At(bank, at + 2) == |r.payload| && U16At(bank, at + 4) == r.crc
    ensures bank[at + 8..at + 8 + |r.payload|] == r.payload
    ensures Covered(bank, at, |r.payload|) == Le16(r.key) + Le16(|r.payload|) + r.payload
  {
    assert HeaderAt(bank, at) == HeaderOf(r);
    Le16Stands(bank, at, r.key);
    Le16Stands(bank, at + 2, |r.payload|);
    assert bank[at..at + 4] == bank[at..at + 2] + bank[at + 2..at + 4];
  }

  /**
   * What a reader gets for the key of a record that is the latest of its key and live: with a buffer that is long
   * enough, OK exactly if the third word of the header is the checksum of its first two words and the payload.
   */
  lemma StatusOverBytes(bank: seq<Byte>, sequence: U32, log: seq<Rec>, m: nat, at: nat, room: nat)
    requires Holds(bank, sequence, log) && m < |log| && Survives(log, m) && at == Offset(log, m)
    ensures at + 8 <= |bank| && at + 8 + U16At(bank, at + 2) <= |bank|
    ensures ReadStatus(Content(log), U16At(bank, at), room)
            == if room < U16At(bank, at + 2) then BufferOverflow
               else if Crc16.Crc(bank[at..at + 4] + bank[at + 8..at + 8 + U16At(bank, at + 2)]) == U16At(bank, at + 4)
               then Ok
               else Corrupted
  {
    hide Offset, Lies, U16At, Superseded;
    RecordAt(bank, log, |log|, m);
    CoveredIsMeta(bank, at, log[m]);
    SurvivorIsContent(log, m);
  }

  // ----- damage inside a value -----

  function PayloadStart(log: seq<Rec>, m: nat): nat
    requires m < |log|
  {
    Offset(log, m) + RECORD_HDR
  }

  /** Nothing outside the payload of record m has changed. */
  predicate OnlyPayload(bank: seq<Byte>, bank': seq<Byte>, log: seq<Rec>, m: nat)
    requires m < |log|
  {
    && |bank'| == |bank|
    && forall k :: 0 <= k < |bank| && bank'[k] != bank[k] ==>
         PayloadStart(log, m) <= k < PayloadStart(log, m) + |log[m].payload|
  }

  /** The record as it stands in the changed bank. */
  function Found(bank': seq<Byte>, log: seq<Rec>, m: nat): (r: Rec)
    requires m < |log| && PayloadStart(log, m) + |log[m].payload| <= |bank'|
    ensures Size(r) == Size(log[m]) && HeaderOf(r) == HeaderOf(log[m])
  {
    var start := PayloadStart(log, m);
    log[m].(payload := bank'[start..start + |log[m].payload|])
  }

  function Changed(bank': seq<Byte>, log: seq<Rec>, m: nat): seq<Rec>
    requires m < |log| && PayloadStart(log, m) + |log[m].payload| <= |bank'|
  {
    log[..m] + [Found(bank', log, m)] + log[m + 1..]
  }

  lemma HeaderSame(bank: seq<Byte>, bank': seq<Byte>, at: nat)
    requires SameBytes(bank', at, bank, at, RECORD_HDR)
    ensures HeaderAt(bank', at) == HeaderAt(bank, at)
  {
  }

  lemma FoundLies(bank: seq<Byte>, bank': seq<Byte>, log: seq<Rec>, m: nat, start: nat)
    requires m < |log| && OnlyPayload(bank, bank', log, m) && Lies(bank, start, log[m]) && start == Offset(log, m)
    ensures PayloadStart(log, m) + |log[m].payload| <= |bank'| && Lies(bank', start, Found(bank', log, m))
    ensures OnlyRecord(bank, bank', log, m)
  {
    hide Offset, HeaderAt;
    OffsetNext(log, m);
    HeaderSame(bank, bank', start);
  }

  lemma PayloadHolds(bank: seq<Byte>, bank': seq<Byte>, sequence: U32, log: seq<Rec>, m: nat)
    requires Holds(bank, sequence, log) && m < |log| && OnlyPayload(bank, bank', log, m)
    ensures PayloadStart(log, m) + |log[m].payload| <= |bank'|
    ensures Alike(log, Changed(bank', log, m), m) && Holds(bank', sequence, Changed(bank', log, m))
  {
    hide Lies, Offset, OnlyPayload, OnlyRecord;
    RecordAt(bank, log, |log|, m);
    FoundLies(bank, bank', log, m, Offset(log, m));
    ChangedHolds(bank, bank', sequence, log, Changed(bank', log, m), m);
  }

  // ----- what it means for the map -----

  lemma {:induction false} ContentSame(log: seq<Rec>, log': seq<Rec>, i: nat)
    requires i <= |log| && i <= |log'| && forall k :: 0 <= k < i ==> log'[k] == log[k]
    ensures ContentTo(log', i) == ContentTo(log, i)
  {
    if i > 0 {
      ContentSame(log, log', i - 1);
    }
  }

  /** Another value in the last record of a key is another value of the key, and no more. */
  lemma {:induction false} ContentSwap(log: seq<Rec>, log': seq<Rec>, m: nat, i: nat)
    requires m < i <= |log| == |log'| && Survives(log, m)
    requires log'[m].key == log[m].key && log'[m].status == log[m].status
    requires forall k :: 0 <= k < |log| && k != m ==> log'[k] == log[k]
    ensures ContentTo(log', i) == ContentTo(log, i)[log[m].key := Entry(log'[m].payload, log'[m].crc)]
    decreases i
  {
    if i == m + 1 {
      ContentSame(log, log', m);
    } else {
      ContentSwap(log, log', m, i - 1);
      assert log[i - 1].key != log[m].key;
    }
  }

  /** Seen from its first byte, the payload has changed inside two adjacent bytes too. */
  lemma PayloadBurst(bank: seq<Byte>, bank': seq<Byte>, start: nat, length: nat, at: nat) returns (i: nat)
    requires start + length <= |bank| == |bank'| && Crc16.Burst(bank, bank', at)
    requires forall k :: 0 <= k < |bank| && bank'[k] != bank[k] ==> start <= k < start + length
    ensures Crc16.Burst(bank[start..start + length], bank'[start..start + length], i)
  {
    var p, q := bank[start..start + length], bank'[start..start + length];
    var k :| 0 <= k < |bank| && bank'[k] != bank[k];
    assert p[k - start] != q[k - start];
    i := if at < start then 0 else at - start;
    forall j | 0 <= j < length && j != i && j != i + 1 ensures p[j] == q[j] {
      assert bank[start + j] == bank'[start + j];
    }
  }

  /**
   * Two adjacent bytes of the bank change, inside the value that a key has. The bank then holds the log with that
   * record changed, every other key reads as before, and the key is reported as corrupted.
   */
  lemma DamageIsReported(bank: seq<Byte>, bank': seq<Byte>, sequence: U32, log: seq<Rec>, m: nat, at: nat, room: nat)
    requires Holds(bank, sequence, log) && m < |log| && Survives(log, m) && |log[m].payload| <= room
    requires Intact(log[m].key, Entry(log[m].payload, log[m].crc))
    requires Crc16.Burst(bank, bank', at) && OnlyPayload(bank, bank', log, m)
    ensures PayloadStart(log, m) + |log[m].payload| <= |bank'|
    ensures var log' := Changed(bank', log, m);
      && Holds(bank', sequence, log')
      && Content(log') - {log[m].key} == Content(log) - {log[m].key}
      && ReadStatus(Content(log), log[m].key, room) == Ok
      && ReadStatus(Content(log'), log[m].key, room) == Corrupted
  {
    hide Holds, Crc16.Burst, Intact, RecordCrc;
    PayloadHolds(bank, bank', sequence, log, m);
    var log', key := Changed(bank', log, m), log[m].key;
    LogInside(bank, sequence, log);
    var i := PayloadBurst(bank, bank', PayloadStart(log, m), |log[m].payload|, at);
    PayloadStands(bank, sequence, log, m);
    SurvivorIsContent(log, m);
    ContentSwap(log, log', m, |log|);
    BurstIsReported(Content(log), key, log'[m].payload, i, room);
  }

  lemma PayloadStands(bank: seq<Byte>, sequence: U32, log: seq<Rec>, m: nat)
    requires Holds(bank, sequence, log) && m < |log|
    ensures PayloadStart(log, m) + |log[m].payload| <= |bank|
    ensures bank[PayloadStart(log, m)..PayloadStart(log, m) + |log[m].payload|] == log[m].payload
  {
    RecordAt(bank, log, |log|, m);
  }

  /** A mount of the damaged flash finds the changed log. */
  lemma MountFindsDamage(lay: Layout, img: Image, img': Image, b: nat, log: seq<Rec>, m: nat)
    requires Recovers(lay, img, log) && Winner(lay, img) == Some(b) && lay.Fits(img')
    requires m < |log| && OnlyPayload(Bank(lay, img, b), Bank(lay, img', b), log, m)
    requires Bank(lay, img', 1 - b) == Bank(lay, img, 1 - b)
    ensures PayloadStart(log, m) + |log[m].payload| <= lay.size
    ensures Recovers(lay, img', Changed(Bank(lay, img', b), log, m))
  {
    var bank, bank' := Bank(lay, img, b), Bank(lay, img', b);
    PayloadHolds(bank, bank', SequenceOf(bank), log, m);
  }

  // ----- damage inside a key -----

  /** Nothing but the key word of record m has changed. */
  predicate OnlyKey(bank: seq<Byte>, bank': seq<Byte>, log: seq<Rec>, m: nat)
    requires m < |log|
  {
    && |bank'| == |bank|
    && forall k :: 0 <= k < |bank| && bank'[k] != bank[k] ==> k == Offset(log, m) || k == Offset(log, m) + 1
  }

  function Rekeyed(log: seq<Rec>, m: nat, key: U16): seq<Rec>
    requires m < |log| && key != KEY_EMPTY
  {
    log[..m] + [log[m].(key := key)] + log[m + 1..]
  }

  lemma RekeyedLies(bank: seq<Byte>, bank': seq<Byte>, log: seq<Rec>, m: nat, at: nat)
    requires m < |log| && OnlyKey(bank, bank', log, m) && Lies(bank, at, log[m]) && at == Offset(log, m)
    requires U16At(bank', at) != KEY_EMPTY
    ensures Lies(bank', at, log[m].(key := U16At(bank', at))) && OnlyRecord(bank, bank', log, m)
  {
    hide Offset;
    assert HeaderAt(bank', at) == HeaderAt(bank, at).(key := U16At(bank', at));
  }

  lemma KeyHolds(bank: seq<Byte>, bank': seq<Byte>, sequence: U32, log: seq<Rec>, m: nat, at: nat)
    requires Holds(bank, sequence, log) && m < |log| && OnlyKey(bank, bank', log, m) && at == Offset(log, m)
    requires at + 2 <= |bank'| && U16At(bank', at) != KEY_EMPTY
    ensures Holds(bank', sequence, Rekeyed(log, m, U16At(bank', at)))
  {
    hide Lies, Offset, OnlyKey, OnlyRecord;
    RecordAt(bank, log, |log|, m);
    RekeyedLies(bank, bank', log, m, at);
    ChangedHolds(bank, bank', sequence, log, Rekeyed(log, m, U16At(bank', at)), m);
  }

  /** The same value under another key has another checksum. */
  lemma KeyIsCovered(key: U16, key': U16, payload: seq<Byte>)
    requires key != key' && |payload| <= 0xFFFF
    ensures RecordCrc(key, payload) != RecordCrc(key', payload)
  {
    hide Le16;
    var rest := Le16(|payload|) + payload;
    var s, t := Le16(key) + rest, Le16(key') + rest;
    Le16RoundTrip(key);
    Le16RoundTrip(key');
    assert s[..2] == Le16(key) && t[..2] == Le16(key');
    assert Le16(key) + Le16(|payload|) + payload == s && Le16(key') + Le16(|payload|) + payload == t;
    Crc16.BurstDetected(s, t, 0);
  }

  /** A key under which a bank stores another key's value; no record behind it has that key. */
  predicate LastOf(log: seq<Rec>, m: nat, key: U16) {
    m < |log| && forall j :: m < j < |log| ==> log[j].key != key
  }

  /**
   * The key word of a live record changes, into a key that no later record has. The bank then holds the log with
   * that record under the other key, and the other key is reported as corrupted.
   */
  lemma KeyDamageIsReported(bank: seq<Byte>, bank': seq<Byte>, sequence: U32, log: seq<Rec>, m: nat, at: nat, room: nat)
    requires Holds(bank, sequence, log) && m < |log| && log[m].status == STATUS_VALID && |log[m].payload| <= room
    requires Intact(log[m].key, Entry(log[m].payload, log[m].crc))
    requires bank' != bank && OnlyKey(bank, bank', log, m) && at == Offset(log, m)
    ensures at + 2 <= |bank'| && U16At(bank', at) != log[m].key
    ensures var key' := U16At(bank', at);
      key' != KEY_EMPTY && LastOf(log, m, key') ==>
        var log' := Rekeyed(log, m, key');
        Holds(bank', sequence, log') && ReadStatus(Content(log'), key', room) == Corrupted
  {
    hide Holds, RecordCrc, OnlyKey;
    KeyChanges(bank, bank', sequence, log, m, at);
    var key' := U16At(bank', at);
    if key' != KEY_EMPTY && LastOf(log, m, key') {
      KeyHolds(bank, bank', sequence, log, m, at);
      assert Survives(Rekeyed(log, m, key'), m);
      SurvivorIsContent(Rekeyed(log, m, key'), m);
      KeyIsCovered(log[m].key, key', log[m].payload);
    }
  }

  lemma KeyChanges(bank: seq<Byte>, bank': seq<Byte>, sequence: U32, log: seq<Rec>, m: nat, at: nat)
    requires Holds(bank, sequence, log) && m < |log| && bank' != bank && OnlyKey(bank, bank', log, m)
    requires at == Offset(log, m)
    ensures at + 2 <= |bank'| && U16At(bank', at) != log[m].key
  {
    RecordAt(bank, log, |log|, m);
    Le16Stands(bank, at, log[m].key);
    Le16Stands(bank', at, log[m].key);
    assert HeaderAt(bank, at) == HeaderOf(log[m]);
    var k :| 0 <= k < |bank| && bank'[k] != bank[k];
    assert bank'[at..at + 2][k - at] != bank[at..at + 2][k - at];
  }

  // ----- damage inside a length -----

  lemma ChecksumBefore()
    ensures RecordCrc(0x50, [0x15]) == 0x719A
  {
    assert Crc16.Absorb(0xFFFF, 0x50) == 0xBB05 && Crc16.Absorb(0xBB05, 0) == 0x13B0;
    assert Crc16.Absorb(0x13B0, 1) == 0x8273 && Crc16.Absorb(0x8273, 0) == 0xC2CA;
    assert Crc16.Absorb(0xC2CA, 0x15) == 0x719A;
    Crc16.FoldThree(0xFFFF, 0x50, 0, 1);
    Crc16.FoldThree(0x8273, 0, 0x15, 0);
    Crc16.FoldConcat(0xFFFF, [0x50, 0, 1], [0, 0x15]);
    assert Le16(0x50) + Le16(1) + [0x15] == [0x50, 0, 1] + [0, 0x15];
  }

  lemma ChecksumBehind()
    ensures RecordCrc(0x50, [0x15, 0xFF]) == 0x719A
  {
    assert Crc16.Absorb(0xFFFF, 0x50) == 0xBB05 && Crc16.Absorb(0xBB05, 0) == 0x13B0;
    assert Crc16.Absorb(0x13B0, 2) == 0xB210 && Crc16.Absorb(0xB210, 0) == 0x9799;
    assert Crc16.Absorb(0x9799, 0x15) == 0x28CA && Crc16.Absorb(0x28CA, 0xFF) == 0x719A;
    Crc16.FoldThree(0xFFFF, 0x50, 0, 2);
    Crc16.FoldThree(0xB210, 0, 0x15, 0xFF);
    Crc16.FoldConcat(0xFFFF, [0x50, 0, 2], [0, 0x15, 0xFF]);
    assert Le16(0x50) + Le16(2) + [0x15, 0xFF] == [0x50, 0, 2] + [0, 0x15, 0xFF];
  }

  function OneByte(): Rec {
    Rec(0x50, 0x719A, STATUS_VALID, [0x15])
  }

  function TwoBytes(): Rec {
    Rec(0x50, 0x719A, STATUS_VALID, [0x15, 0xFF])
  }

  lemma LengthLies(bank: seq<Byte>, bank': seq<Byte>)
    requires Lies(bank, 16, OneByte()) && bank[25] == 0xFF && |bank'| == |bank|
    requires forall k :: 0 <= k < |bank| ==> bank'[k] == if k == 18 then 2 else bank[k]
    ensures Lies(bank', 16, TwoBytes())
  {
    assert bank[16 + RECORD_HDR + 0] == [0x15][0];
    assert HeaderAt(bank, 16) == HeaderOf(OneByte());
    assert HeaderAt(bank', 16) == HeaderOf(TwoBytes());
  }

  /**
   * A change inside the length word is not always reported: here the low byte of the length goes from 1 to 2, the
   * erased byte behind the value becomes part of it, and the checksum is the same.
   */
  lemma LengthDamageUnnoticed(bank: seq<Byte>, bank': seq<Byte>, sequence: U32)
    requires Holds(bank, sequence, [NewRec(0x50, [0x15])]) && |bank| >= 28 && bank[25] == 0xFF && |bank'| == |bank|
    requires forall k :: 0 <= k < |bank| ==> bank'[k] == if k == 18 then 2 else bank[k]
    ensures bank' != bank
    ensures Holds(bank', sequence, [NewRec(0x50, [0x15, 0xFF])])
    ensures ReadStatus(Content([NewRec(0x50, [0x15])]), 0x50, 2) == Ok
    ensures ReadStatus(Content([NewRec(0x50, [0x15, 0xFF])]), 0x50, 2) == Ok
  {
    hide RecordCrc, Lies;
    ChecksumBefore();
    ChecksumBehind();
    var log: seq<Rec>, log': seq<Rec> := [OneByte()], [TwoBytes()];
    RecordAt(bank, log, 1, 0);
    LengthLies(bank, bank');
    LengthWas(bank);
    ChangedHolds(bank, bank', sequence, log, log', 0);
    assert ContentTo(log, 1) == Apply(ContentTo(log, 0), log[0]);
    assert ContentTo(log', 1) == Apply(ContentTo(log', 0), log'[0]);
  }

  lemma LengthWas(bank: seq<Byte>)
    requires Lies(bank, 16, OneByte())
    ensures bank[18] == 1
  {
    assert HeaderAt(bank, 16) == HeaderOf(OneByte());
  }
}
