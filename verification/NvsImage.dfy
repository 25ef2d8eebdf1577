/** Flash images: two banks in one address space, what a mount recovers, and what a flash call does to it. */
module NvsImage {
  import opened Bytes
  import opened Flash
  import opened NvsLog
  import opened NvsPoints

  /** The sectors of the two banks, and the sector size. */
  datatype Layout = Layout(bank0: nat, bank1: nat, size: nat) {
    function Sector(b: nat): nat {
      if b == 0 then bank0 else bank1
    }

    /** Two different sectors of the device. */
    predicate Placed(img: Image) {
      Shaped(img, size) && bank0 < |img| && bank1 < |img| && bank0 != bank1
    }

    /** A sector has at least 256 bytes. */
    predicate Fits(img: Image) {
      match this
      case Layout(_, _, size) => size >= 256 && Placed(img)
    }
  }

  function Bank(lay: Layout, img: Image, b: nat): (r: seq<Byte>)
    requires lay.Fits(img)
    ensures |r| == lay.size
  {
    img[lay.Sector(b)]
  }

  lemma SectorInside(lay: Layout, img: Image, b: nat)
    requires lay.Fits(img) && b < 2
    ensures lay.Sector(b) < |img| && Shaped(img, lay.size) && lay.size >= 256
  {
  }

  lemma LogInside(bank: seq<Byte>, sequence: U32, log: seq<Rec>)
    requires Holds(bank, sequence, log)
    ensures End(log) <= |bank|
  {
  }

  lemma RoomIsErased(bank: seq<Byte>, sequence: U32, log: seq<Rec>)
    requires Holds(bank, sequence, log) && End(log) + RECORD_HDR <= |bank|
    ensures IsErased(bank, End(log), |bank| - End(log))
  {
  }

  /** The bank that a mount selects, if any. */
  function Winner(lay: Layout, img: Image): (w: Option<nat>)
    requires lay.Fits(img)
    ensures w.Some? ==> w.value < 2 && IsActive(Bank(lay, img, w.value))
  {
    var b0, b1 := Bank(lay, img, 0), Bank(lay, img, 1);
    if !IsActive(b0) && !IsActive(b1) then None
    else if IsActive(b0) && !IsActive(b1) then Some(0)
    else if !IsActive(b0) && IsActive(b1) then Some(1)
    else if SequenceOf(b1) > SequenceOf(b0) then Some(1)
    else Some(0)
  }

  /** Mounting this image yields a store with this log; an image without an active bank is formatted. */
  predicate Recovers(lay: Layout, img: Image, log: seq<Rec>) {
    && lay.Fits(img)
    && match Winner(lay, img)
       case None => log == []
       case Some(w) => Holds(Bank(lay, img, w), SequenceOf(Bank(lay, img, w)), log)
  }

  /** The discipline of NOR flash: erase only banks, program only erased cells inside one bank. */
  predicate WriteOnce(lay: Layout, ev: Event) {
    && (ev.sector == lay.bank0 || ev.sector == lay.bank1)
    && (ev.Program? ==> ev.sector < |ev.before| && IsErased(ev.before[ev.sector], ev.off, |ev.data|))
  }

  predicate Disciplined(lay: Layout, steps: seq<Event>) {
    forall i :: 0 <= i < |steps| ==> WriteOnce(lay, steps[i])
  }

  lemma ErasedIsNotActive(n: nat)
    ensures !IsActive(Erased(n))
  {
  }

  // ----- writing behind a log -----

  lemma ActivePrefix(bank: seq<Byte>, bank': seq<Byte>)
    requires |bank| == |bank'| && |bank| >= SECTOR_HDR
    requires forall k :: 0 <= k < SECTOR_HDR ==> bank'[k] == bank[k]
    ensures IsActive(bank') == IsActive(bank) && SequenceOf(bank') == SequenceOf(bank)
  {
  }

  /** A log survives every change behind its end. */
  lemma {:induction false} RecordsFrame(bank: seq<Byte>, log: seq<Rec>, n: nat, bank': seq<Byte>)
    requires n <= |log| && Records(bank, log, n) && SameBytes(bank', 0, bank, 0, Offset(log, n))
    ensures Records(bank', log, n)
  {
    if n > 0 {
      RecordsFrame(bank, log, n - 1, bank');
      LiesCopy(bank, Offset(log, n - 1), log[n - 1], bank', Offset(log, n - 1));
    }
  }

  lemma {:induction false} RecordsPush(bank: seq<Byte>, log: seq<Rec>, r: Rec, n: nat)
    requires n <= |log| && Records(bank, log, n)
    ensures Records(bank, log + [r], n)
  {
    if n > 0 {
      RecordsPush(bank, log, r, n - 1);
      OffsetPush(log, r, n - 1);
    }
  }

  /** A record that appears behind the log extends the log. */
  lemma HoldsPush(bank: seq<Byte>, sequence: U32, log: seq<Rec>, r: Rec, bank': seq<Byte>)
    requires Holds(bank, sequence, log) && |bank'| == |bank|
    requires SameBytes(bank', 0, bank, 0, End(log))
    requires Lies(bank', End(log), r) && Tail(bank', End(log) + Size(r))
    ensures Holds(bank', sequence, log + [r])
  {
    OffsetMono(log, 0, |log|);
    ActivePrefix(bank, bank');
    RecordsFrame(bank, log, |log|, bank');
    RecordsPush(bank', log, r, |log|);
    OffsetPush(log, r, |log|);
    EndPush(log, r);
  }

  /** The active bank alone decides, as long as the other bank has no active header. */
  lemma RecoversSingle(lay: Layout, img: Image, b: nat, sequence: U32, log: seq<Rec>)
    requires lay.Fits(img) && b < 2
    requires Holds(Bank(lay, img, b), sequence, log) && !IsActive(Bank(lay, img, 1 - b))
    ensures Winner(lay, img) == Some(b) && Recovers(lay, img, log)
  {
  }

  /** Without an active bank the map is empty: mounting will format. */
  lemma RecoversNothing(lay: Layout, img: Image)
    requires lay.Fits(img) && !IsActive(Bank(lay, img, 0)) && !IsActive(Bank(lay, img, 1))
    ensures Winner(lay, img) == None && Recovers(lay, img, [])
  {
  }

  /** The bank is blank behind its header. */
  predicate OnlyHeader(bank: seq<Byte>, sequence: U32) {
    Stored(Erased(|bank|), 0, SectorHeader(sequence), bank)
  }

  lemma HoldsNothing(bank: seq<Byte>, sequence: U32)
    requires |bank| >= SECTOR_HDR && Stored(Erased(|bank|), 0, SectorHeader(sequence), bank)
    ensures Holds(bank, sequence, [])
  {
    HeaderWords(bank, sequence);
  }

  /** With two active banks the strictly newer sequence number wins. */
  lemma RecoversNewer(lay: Layout, img: Image, b: nat, older: U32, newer: U32, old_log: seq<Rec>, log: seq<Rec>)
    requires lay.Fits(img) && b < 2 && older < newer
    requires Holds(Bank(lay, img, b), newer, log) && Holds(Bank(lay, img, 1 - b), older, old_log)
    ensures Winner(lay, img) == Some(b) && Recovers(lay, img, log)
  {
  }

  // ----- images in the middle of a copy -----

  /** The first d bytes of a record, copied over erased cells. */
  lemma PartialLies(src: seq<Byte>, from: nat, r: Rec, dst: seq<Byte>, to: nat, d: nat)
    requires Lies(src, from, r) && RECORD_HDR <= d <= Size(r)
    requires SameBytes(dst, to, src, from, d) && IsErased(dst, to + d, Size(r) - d)
    ensures Lies(dst, to, Partial(r, d))
  {
  }

  /** One bank still holds the source; in the other one d bytes of a record are copied behind `kept`. */
  predicate Copying(lay: Layout, img: Image, b: nat, src: seq<Byte>, next: U32, kept: seq<Rec>, r: Rec, d: nat) {
    && b < 2 && RECORD_HDR <= d
    && lay.Fits(img) && Bank(lay, img, 1 - b) == src
    && Holds(Bank(lay, img, b), next, kept + [Partial(r, d)])
  }

  /** The destination bank has grown by the first n bytes of what starts at `from` in the source. */
  predicate Copied(src: seq<Byte>, from: nat, dst: seq<Byte>, to: nat, dst': seq<Byte>, n: nat) {
    && to + n <= |dst| == |dst'|
    && SameBytes(dst', 0, dst, 0, to) && SameBytes(dst', to, src, from, n)
    && IsErased(dst', to + n, |dst| - to - n)
  }

  lemma CopiedMore(src: seq<Byte>, from: nat, dst: seq<Byte>, to: nat, dst': seq<Byte>, n: nat, buf: seq<Byte>,
      dst'': seq<Byte>)
    requires Copied(src, from, dst, to, dst', n) && Stored(dst', to + n, buf, dst'')
    requires from + n + |buf| <= |src| && buf == src[from + n..from + n + |buf|]
    ensures Copied(src, from, dst, to, dst'', n + |buf|)
  {
  }

  /** A bank with a partial copy behind its log holds that log and a partial record. */
  lemma CopiedHolds(src: seq<Byte>, from: nat, dst: seq<Byte>, next: U32, kept: seq<Rec>, r: Rec,
      dst': seq<Byte>, d: nat)
    requires Lies(src, from, r) && Holds(dst, next, kept) && RECORD_HDR <= d <= Size(r)
    requires End(kept) + Size(r) <= |dst| && Copied(src, from, dst, End(kept), dst', d)
    ensures Holds(dst', next, kept + [Partial(r, d)])
    ensures d == Size(r) ==> Holds(dst', next, kept + [r])
  {
    PartialLies(src, from, r, dst', End(kept), d);
    HoldsPush(dst, next, kept, Partial(r, d), dst');
    PartialWhole(r);
  }

  lemma CopiedNothing(src: seq<Byte>, from: nat, dst: seq<Byte>, to: nat, r: Rec)
    requires to <= |dst| && Lies(src, from, r) && IsErased(dst, to, |dst| - to)
    ensures Copied(src, from, dst, to, dst, 0) && from + Size(r) <= |src|
  {
  }

  lemma CopiedWhole(src: seq<Byte>, from: nat, dst: seq<Byte>, next: U32, kept: seq<Rec>, r: Rec, dst': seq<Byte>)
    requires Lies(src, from, r) && Holds(dst, next, kept)
    requires End(kept) + Size(r) <= |dst| && Copied(src, from, dst, End(kept), dst', Size(r))
    ensures Holds(dst', next, kept + [r])
    ensures IsErased(dst', End(kept) + Size(r), |dst| - End(kept) - Size(r))
  {
    CopiedHolds(src, from, dst, next, kept, r, dst', Size(r));
  }

  lemma ChunkCopying(lay: Layout, img: Image, b: nat, src: seq<Byte>, from: nat, dst: seq<Byte>, next: U32,
      kept: seq<Rec>, r: Rec, d: nat)
    requires lay.Fits(img) && b < 2 && Bank(lay, img, 1 - b) == src
    requires Lies(src, from, r) && Holds(dst, next, kept) && RECORD_HDR <= d <= Size(r)
    requires End(kept) + Size(r) <= |dst| && Copied(src, from, dst, End(kept), Bank(lay, img, b), d)
    ensures Copying(lay, img, b, src, next, kept, r, d)
  {
    CopiedHolds(src, from, dst, next, kept, r, Bank(lay, img, b), d);
  }
}
