/**
 * The on-flash format of the key-value store: a bank is a sector header, a chain of records, and erased cells.
 * A log is read as the map from each key to its latest live record.
 */
module NvsLog {
  import opened Bytes
  import opened Crc16

  const MAGIC: U32 := 0x5A45_524F
  const ACTIVE: U32 := 0x5555_AAAA
  const KEY_EMPTY: U16 := 0xFFFF
  const STATUS_VALID: U16 := 0xFFFF
  const STATUS_DEAD: U16 := 0x0000
  const SECTOR_HDR: nat := 16
  const RECORD_HDR: nat := 8

  /** The next multiple of four. */
  function AlignUp4(x: nat): (r: nat)
    ensures x <= r < x + 4
  {
    if x == 0 then 0 else if x <= 4 then 4 else 4 + AlignUp4(x - 4)
  }

  lemma {:induction false} AlignUp4IsMask(x: nat)
    ensures AlignUp4(x) == (x + 3) / 4 * 4
  {
    if x > 4 {
      AlignUp4IsMask(x - 4);
    }
  }

  function RecSize(length: nat): nat {
    RECORD_HDR + AlignUp4(length)
  }

  // ----- records -----

  datatype Header = Header(key: U16, length: U16, crc: U16, status: U16)

  datatype Raw = Rec(key: U16, crc: U16, status: U16, payload: seq<Byte>)

  /** A record that a scan can step over: its key is not the erased word and its length fits the header. */
  type Rec = r: Raw | r.key != KEY_EMPTY && |r.payload| <= 0xFFFF witness Rec(0, 0, 0, [])

  function HeaderBytes(h: Header): (b: seq<Byte>)
    ensures |b| == RECORD_HDR
  {
    Le16(h.key) + Le16(h.length) + Le16(h.crc) + Le16(h.status)
  }

  /** The header that a reader finds at an offset. */
  function HeaderAt(bank: seq<Byte>, at: nat): Header
    requires at + RECORD_HDR <= |bank|
  {
    Header(U16At(bank, at), U16At(bank, at + 2), U16At(bank, at + 4), U16At(bank, at + 6))
  }

  lemma HeaderRoundTrip(bank: seq<Byte>, at: nat, h: Header)
    requires at + RECORD_HDR <= |bank|
    requires forall k :: at <= k < at + RECORD_HDR ==> bank[k] == HeaderBytes(h)[k - at]
    ensures HeaderAt(bank, at) == h
  {
    var b := HeaderBytes(h);
    assert bank[at + 0] == b[0] && bank[at + 1] == b[1] && bank[at + 2] == b[2] && bank[at + 3] == b[3];
    assert bank[at + 4] == b[4] && bank[at + 5] == b[5] && bank[at + 6] == b[6] && bank[at + 7] == b[7];
    Le16RoundTrip(h.key);
    Le16RoundTrip(h.length);
    Le16RoundTrip(h.crc);
    Le16RoundTrip(h.status);
  }

  function HeaderOf(r: Rec): Header {
    Header(r.key, |r.payload|, r.crc, r.status)
  }

  function Size(r: Raw): nat {
    RecSize(|r.payload|)
  }

  /** A reader finds the record at this offset. */
  predicate Lies(bank: seq<Byte>, at: nat, r: Rec) {
    && at + Size(r) <= |bank|
    && HeaderAt(bank, at) == HeaderOf(r)
    && forall k :: 0 <= k < |r.payload| ==> bank[at + RECORD_HDR + k] == r.payload[k]
  }

  /** A record is where its bytes are, in this bank or in a copy. */
  lemma LiesCopy(bank: seq<Byte>, at: nat, r: Rec, bank': seq<Byte>, at': nat)
    requires Lies(bank, at, r) && SameBytes(bank', at', bank, at, Size(r))
    ensures Lies(bank', at', r)
  {
  }

  function RecordCrc(key: U16, payload: seq<Byte>): U16
    requires |payload| <= 0xFFFF
  {
    Crc(Le16(key) + Le16(|payload|) + payload)
  }

  // ----- logs -----

  /** Offset of record i in its bank. */
  function Offset(log: seq<Rec>, i: nat): (r: nat)
    requires i <= |log|
    ensures r >= SECTOR_HDR
  {
    if i == 0 then SECTOR_HDR else Offset(log, i - 1) + Size(log[i - 1])
  }

  /** Offset of the first byte behind the log. */
  function End(log: seq<Rec>): nat {
    Offset(log, |log|)
  }

  lemma {:induction false} OffsetPush(log: seq<Rec>, r: Rec, i: nat)
    requires i <= |log|
    ensures Offset(log + [r], i) == Offset(log, i)
  {
    if i > 0 {
      OffsetPush(log, r, i - 1);
    }
  }

  lemma EndPush(log: seq<Rec>, r: Rec)
    ensures End(log + [r]) == End(log) + Size(r)
  {
    OffsetPush(log, r, |log|);
  }

  lemma {:induction false} OffsetMono(log: seq<Rec>, i: nat, j: nat)
    requires i <= j <= |log|
    ensures Offset(log, i) <= Offset(log, j)
    decreases j - i
  {
    if i < j {
      OffsetMono(log, i, j - 1);
    }
  }

  // ----- the map a log stands for -----

  datatype Entry = Entry(payload: seq<Byte>, crc: U16)

  type Contents = map<U16, Entry>

  function Apply(m: Contents, r: Rec): Contents {
    if r.status == STATUS_VALID then m[r.key := Entry(r.payload, r.crc)] else m - {r.key}
  }

  /** The map after the first i records. */
  function ContentTo(log: seq<Rec>, i: nat): Contents
    requires i <= |log|
  {
    if i == 0 then map[] else Apply(ContentTo(log, i - 1), log[i - 1])
  }

  function Content(log: seq<Rec>): Contents {
    ContentTo(log, |log|)
  }

  lemma {:induction false} ContentToPush(log: seq<Rec>, r: Rec, i: nat)
    requires i <= |log|
    ensures ContentTo(log + [r], i) == ContentTo(log, i)
  {
    if i > 0 {
      ContentToPush(log, r, i - 1);
    }
  }

  lemma ContentPush(log: seq<Rec>, r: Rec)
    ensures Content(log + [r]) == Apply(Content(log), r)
  {
    ContentToPush(log, r, |log|);
  }

  /** A value whose stored checksum matches; only such a value is ever handed to a caller. */
  predicate Intact(key: U16, e: Entry) {
    |e.payload| <= 0xFFFF && e.crc == RecordCrc(key, e.payload)
  }

  /** The status of a read with a buffer of `room` bytes. */
  function ReadStatus(m: Contents, key: U16, room: nat): Status {
    if key == KEY_EMPTY then InvalidArg
    else if key !in m then NotFound
    else if room < |m[key].payload| then BufferOverflow
    else if Intact(key, m[key]) then Ok
    else Corrupted
  }

  lemma {:induction false} ContentBounded(log: seq<Rec>, i: nat, key: U16)
    requires i <= |log| && key in ContentTo(log, i)
    ensures key != KEY_EMPTY && |ContentTo(log, i)[key].payload| <= 0xFFFF
  {
    if log[i - 1].status != STATUS_VALID || log[i - 1].key != key {
      ContentBounded(log, i - 1, key);
    }
  }

  // ----- banks -----

  /** The sequence number of the next compaction, in 32 bits. */
  function Next(sequence: U32): U32 {
    if sequence == 0xFFFF_FFFF then 0 else sequence + 1
  }

  function SectorHeader(sequence: U32): (b: seq<Byte>)
    ensures |b| == SECTOR_HDR
  {
    Le32(MAGIC) + Le32(ACTIVE) + Le32(sequence) + Erased(4)
  }

  /** The test that mounting applies to a bank header, byte by byte. */
  predicate IsActive(bank: seq<Byte>) {
    && |bank| >= SECTOR_HDR
    && bank[0] == 0x4F && bank[1] == 0x52 && bank[2] == 0x45 && bank[3] == 0x5A
    && bank[4] == 0xAA && bank[5] == 0xAA && bank[6] == 0x55 && bank[7] == 0x55
  }

  lemma IsActiveIsMagic(bank: seq<Byte>)
    requires |bank| >= SECTOR_HDR
    ensures IsActive(bank) <==> U32At(bank, 0) == MAGIC && U32At(bank, 4) == ACTIVE
  {
  }

  function SequenceOf(bank: seq<Byte>): U32
    requires |bank| >= SECTOR_HDR
  {
    U32At(bank, 8)
  }

  lemma HeaderWords(bank: seq<Byte>, sequence: U32)
    requires |bank| >= SECTOR_HDR && forall k :: 0 <= k < SECTOR_HDR ==> bank[k] == SectorHeader(sequence)[k]
    ensures IsActive(bank) && SequenceOf(bank) == sequence
  {
    Le32RoundTrip(sequence);
  }

  /** Behind the log every byte is erased, or fewer bytes are left than a record header needs. */
  predicate Tail(bank: seq<Byte>, end: nat) {
    end <= |bank| && (|bank| < end + RECORD_HDR || forall k :: end <= k < |bank| ==> bank[k] == 0xFF)
  }

  /** The first n records of the log lie one after the other. */
  predicate Records(bank: seq<Byte>, log: seq<Rec>, n: nat)
    requires n <= |log|
  {
    n == 0 || (Records(bank, log, n - 1) && Lies(bank, Offset(log, n - 1), log[n - 1]))
  }

  lemma {:induction false} RecordAt(bank: seq<Byte>, log: seq<Rec>, n: nat, i: nat)
    requires n <= |log| && Records(bank, log, n) && i < n
    ensures Lies(bank, Offset(log, i), log[i])
  {
    if i < n - 1 {
      RecordAt(bank, log, n - 1, i);
    }
  }

  /** The bank holds exactly this log. */
  predicate Holds(bank: seq<Byte>, sequence: U32, log: seq<Rec>) {
    && IsActive(bank) && SequenceOf(bank) == sequence
    && Records(bank, log, |log|)
    && Tail(bank, End(log))
  }
}
