/**
 * The framed wire protocol: encoder and decoder, in C and in Rust, and the resynchroniser that finds frames in
 * a byte stream. A frame is two start bytes, sequence number, message id, payload length, payload and CRC16.
 */
module ZeroWire {
  import opened Bytes
  import opened Crc16

  const SOF0: Byte := 0xAA
  const SOF1: Byte := 0x55
  const HEADER: nat := 6
  const CRC: nat := 2
  const MAX_PAYLOAD: nat := 256

  /** What a frame says: the payload is the part that is in use. */
  datatype Packet = Packet(no: Byte, id: Byte, data: seq<Byte>)

  predicate Sendable(p: Packet) {
    |p.data| <= MAX_PAYLOAD
  }

  function Size(p: Packet): nat {
    HEADER + |p.data| + CRC
  }

  // ----- the format -----

  function Body(p: Packet): (r: seq<Byte>)
    requires Sendable(p)
    ensures |r| == HEADER + |p.data|
  {
    [SOF0, SOF1, p.no, p.id] + Le16(|p.data|) + p.data
  }

  function Encoded(p: Packet): (r: seq<Byte>)
    requires Sendable(p)
    ensures |r| == Size(p)
  {
    Body(p) + Le16(Crc(Body(p)))
  }

  // ----- the parser -----

  datatype Verdict = Complete(p: Packet) | Incomplete | Bad(st: Status)

  predicate SofAt(s: seq<Byte>, i: nat) {
    i + 1 < |s| && s[i] == SOF0 && s[i + 1] == SOF1
  }

  /** The verdict on the bytes from position i on. */
  function DecodedAt(s: seq<Byte>, i: nat): (r: Verdict)
    requires i <= |s|
    ensures r.Complete? ==> Sendable(r.p) && i + Size(r.p) <= |s|
  {
    if |s| < i + HEADER + CRC then Incomplete
    else if !SofAt(s, i) then Bad(Corrupted)
    else
      var n := U16At(s, i + 4);
      if n > MAX_PAYLOAD then Bad(BufferOverflow)
      else if |s| < i + HEADER + n + CRC then Incomplete
      else if Crc(s[i..i + HEADER + n]) != U16At(s, i + HEADER + n) then Bad(Corrupted)
      else Complete(Packet(s[i + 2], s[i + 3], s[i + HEADER..i + HEADER + n]))
  }

  // ----- printer and parser are inverse -----

  /** The encoding of the packet stands at position i. */
  predicate EncodedAt(p: Packet, s: seq<Byte>, i: nat)
    requires Sendable(p)
  {
    i + Size(p) <= |s| && s[i..i + Size(p)] == Encoded(p)
  }

  lemma Le16Back(b0: Byte, b1: Byte)
    ensures Le16(b0 + 0x100 * b1) == [b0, b1]
  {
  }

  lemma SliceAt(s: seq<Byte>, i: nat, e: seq<Byte>, k: nat)
    requires i + |e| <= |s| && s[i..i + |e|] == e && k < |e|
    ensures s[i + k] == e[k]
  {
  }

  lemma SubSlice(s: seq<Byte>, i: nat, e: seq<Byte>, a: nat, b: nat)
    requires i + |e| <= |s| && s[i..i + |e|] == e && a <= b <= |e|
    ensures s[i + a..i + b] == e[a..b]
  {
    forall k | 0 <= k < b - a ensures s[i + a..i + b][k] == e[a..b][k] {
      SliceAt(s, i, e, a + k);
    }
  }

  /** A two-byte number stands where its two bytes stand. */
  lemma NumberAt(s: seq<Byte>, at: nat, x: U16)
    requires at + 2 <= |s|
    ensures U16At(s, at) == x <==> s[at..at + 2] == Le16(x)
  {
    Le16Back(s[at], s[at + 1]);
    Le16RoundTrip(x);
    assert s[at..at + 2] == [s[at], s[at + 1]];
  }

  lemma PartsOf(p: Packet)
    requires Sendable(p)
    ensures Encoded(p)[..4] == [SOF0, SOF1, p.no, p.id] && Encoded(p)[4..HEADER] == Le16(|p.data|)
    ensures Encoded(p)[HEADER..HEADER + |p.data|] == p.data && Encoded(p)[..HEADER + |p.data|] == Body(p)
    ensures Encoded(p)[HEADER + |p.data|..Size(p)] == Le16(Crc(Body(p)))
  {
  }

  lemma EncodedFields(p: Packet, s: seq<Byte>, i: nat)
    requires Sendable(p) && EncodedAt(p, s, i)
    ensures SofAt(s, i) && s[i + 2] == p.no && s[i + 3] == p.id && U16At(s, i + 4) == |p.data|
    ensures s[i + HEADER..i + HEADER + |p.data|] == p.data
    ensures s[i..i + HEADER + |p.data|] == Body(p)
    ensures U16At(s, i + HEADER + |p.data|) == Crc(Body(p))
  {
    var e, n := Encoded(p), |p.data|;
    PartsOf(p);
    SubSlice(s, i, e, 0, 4);
    SubSlice(s, i, e, 4, HEADER);
    SubSlice(s, i, e, HEADER, HEADER + n);
    SubSlice(s, i, e, 0, HEADER + n);
    SubSlice(s, i, e, HEADER + n, Size(p));
    NumberAt(s, i + 4, n);
    NumberAt(s, i + HEADER + n, Crc(Body(p)));
    FourBytes(s, i, p);
  }

  lemma FourBytes(s: seq<Byte>, i: nat, p: Packet)
    requires i + 4 <= |s|
    ensures s[i..i + 4] == [SOF0, SOF1, p.no, p.id] <==> SofAt(s, i) && s[i + 2] == p.no && s[i + 3] == p.id
  {
    assert s[i..i + 4] == [s[i], s[i + 1], s[i + 2], s[i + 3]];
  }

  lemma Glue(s: seq<Byte>, a: nat, b: nat, c: nat)
    requires a <= b <= c <= |s|
    ensures s[a..c] == s[a..b] + s[b..c]
  {
  }

  lemma FieldsEncode(p: Packet, s: seq<Byte>, i: nat)
    requires Sendable(p) && i + Size(p) <= |s|
    requires SofAt(s, i) && s[i + 2] == p.no && s[i + 3] == p.id && U16At(s, i + 4) == |p.data|
    requires s[i + HEADER..i + HEADER + |p.data|] == p.data
    requires U16At(s, i + HEADER + |p.data|) == Crc(s[i..i + HEADER + |p.data|])
    ensures EncodedAt(p, s, i)
  {
    hide Crc;
    var n := |p.data|;
    FourBytes(s, i, p);
    NumberAt(s, i + 4, n);
    Glue(s, i, i + 4, i + HEADER);
    Glue(s, i, i + HEADER, i + HEADER + n);
    NumberAt(s, i + HEADER + n, Crc(Body(p)));
    Glue(s, i, i + HEADER + n, i + Size(p));
  }

  /** Decoding yields a packet exactly when the packet's encoding stands there, whatever follows it. */
  lemma DecodesExactly(p: Packet, s: seq<Byte>, i: nat)
    requires Sendable(p) && i <= |s|
    ensures DecodedAt(s, i) == Complete(p) <==> EncodedAt(p, s, i)
  {
    if EncodedAt(p, s, i) {
      EncodedFields(p, s, i);
    }
    if DecodedAt(s, i) == Complete(p) {
      FieldsEncode(p, s, i);
    }
  }

  /** Round trip: decode of encode, with any suffix. */
  lemma RoundTrip(p: Packet, suffix: seq<Byte>)
    requires Sendable(p)
    ensures DecodedAt(Encoded(p) + suffix, 0) == Complete(p)
  {
    assert (Encoded(p) + suffix)[..Size(p)] == Encoded(p);
    DecodesExactly(p, Encoded(p) + suffix, 0);
  }

  /** No two packets share an encoding, and no encoding is the front of another one. */
  lemma PrefixFree(p: Packet, q: Packet)
    requires Sendable(p) && Sendable(q) && Encoded(p) <= Encoded(q)
    ensures p == q
  {
    RoundTrip(p, Encoded(q)[Size(p)..]);
    RoundTrip(q, []);
    assert Encoded(p) + Encoded(q)[Size(p)..] == Encoded(q) == Encoded(q) + [];
  }

  /** Damage inside two adjacent bytes of a frame that leaves start bytes and length alone is always reported. */
  lemma BurstIsCorrupted(s: seq<Byte>, i: nat, s': seq<Byte>, at: nat)
    requires i <= |s| && DecodedAt(s, i).Complete?
    requires Burst(s, s', at) && i <= at && at + 2 <= i + HEADER + |DecodedAt(s, i).p.data|
    requires SofAt(s', i) && U16At(s', i + 4) == U16At(s, i + 4)
    ensures DecodedAt(s', i) == Bad(Corrupted)
  {
    hide Crc;
    var j := i + HEADER + |DecodedAt(s, i).p.data|;
    BurstInside(s, s', at, i, j);
    BurstDetected(s[i..j], s'[i..j], at - i);
    assert U16At(s, j) == U16At(s', j);
  }

  // ----- verdicts do not change when more bytes arrive -----

  lemma VerdictStable(s: seq<Byte>, t: seq<Byte>, i: nat)
    requires i <= |s| && DecodedAt(s, i) != Incomplete
    ensures DecodedAt(s + t, i) == DecodedAt(s, i)
  {
    hide Crc;
    var n := U16At(s, i + 4);
    assert U16At(s + t, i + 4) == n;
    if n <= MAX_PAYLOAD && |s| >= i + HEADER + n + CRC {
      assert (s + t)[i..i + HEADER + n] == s[i..i + HEADER + n];
      assert (s + t)[i + HEADER..i + HEADER + n] == s[i + HEADER..i + HEADER + n];
    }
  }

  /** An incomplete verdict is for want of bytes only: at most one frame of the largest size. */
  lemma IncompleteIsShort(s: seq<Byte>, i: nat)
    requires i <= |s| && DecodedAt(s, i) == Incomplete
    ensures |s| < i + HEADER + MAX_PAYLOAD + CRC
  {
  }

  // ----- the resynchroniser -----

  /** What one scan finds from position i on: where it stops consuming, and the frame if there is one. */
  datatype Found = Frame(end: nat, p: Packet) | Nothing(end: nat)

  function ScanAt(s: seq<Byte>, i: nat): (r: Found)
    requires i <= |s|
    ensures i <= r.end <= |s|
    decreases |s| - i
  {
    if i + 1 >= |s| then Nothing(i)
    else if !SofAt(s, i) then ScanAt(s, i + 1)
    else
      match DecodedAt(s, i)
      case Complete(p) => Frame(i + Size(p), p)
      case Incomplete => Nothing(i)
      case Bad(_) => ScanAt(s, i + 1)
  }

  /** Scanning again and again, each time behind what was consumed. */
  function Frames(s: seq<Byte>, i: nat): seq<Packet>
    requires i <= |s|
    decreases |s| - i
  {
    var f := ScanAt(s, i);
    FrameAdvances(s, i);
    if f.Frame? then [f.p] + Frames(s, f.end) else []
  }

  function Stop(s: seq<Byte>, i: nat): (r: nat)
    requires i <= |s|
    ensures i <= r <= |s|
    decreases |s| - i
  {
    var f := ScanAt(s, i);
    FrameAdvances(s, i);
    if f.Frame? then Stop(s, f.end) else f.end
  }

  lemma {:induction false} FrameAdvances(s: seq<Byte>, i: nat)
    requires i <= |s|
    ensures ScanAt(s, i).Frame? ==> i + HEADER + CRC <= ScanAt(s, i).end
    decreases |s| - i
  {
    if i + 1 < |s| && (!SofAt(s, i) || DecodedAt(s, i).Bad?) {
      FrameAdvances(s, i + 1);
    }
  }

  // ----- the result does not depend on how the stream is cut -----

  /** A frame that was found is found again when more bytes arrive. */
  lemma {:induction false} ScanStable(s: seq<Byte>, t: seq<Byte>, i: nat)
    requires i <= |s|
    ensures ScanAt(s, i).Frame? ==> ScanAt(s + t, i) == ScanAt(s, i)
    ensures ScanAt(s, i).Nothing? ==> ScanAt(s + t, i) == ScanAt(s + t, ScanAt(s, i).end)
    decreases |s| - i
  {
    if i + 1 < |s| {
      assert SofAt(s + t, i) == SofAt(s, i);
      if SofAt(s, i) && !DecodedAt(s, i).Incomplete? {
        VerdictStable(s, t, i);
      }
      if !SofAt(s, i) || DecodedAt(s, i).Bad? {
        ScanStable(s, t, i + 1);
      }
    }
  }

  /** The frames of a longer stream: those of its front, then those found from where the front's scan stopped. */
  lemma {:induction false} FramesSplit(s: seq<Byte>, t: seq<Byte>, i: nat)
    requires i <= |s|
    ensures Frames(s + t, i) == Frames(s, i) + Frames(s + t, Stop(s, i))
    ensures Stop(s + t, i) == Stop(s + t, Stop(s, i))
    decreases |s| - i
  {
    ScanStable(s, t, i);
    FrameAdvances(s, i);
    var f := ScanAt(s, i);
    if f.Frame? {
      FramesSplit(s, t, f.end);
    }
  }

  /** Dropping what was consumed and scanning from zero is scanning on. */
  lemma DecodedShift(s: seq<Byte>, d: nat, i: nat)
    requires d <= i <= |s|
    ensures DecodedAt(s[d..], i - d) == DecodedAt(s, i)
  {
    hide Crc;
    var r := s[d..];
    if |s| >= i + HEADER + CRC && SofAt(s, i) {
      var n := U16At(s, i + 4);
      assert U16At(r, i - d + 4) == n;
      if n <= MAX_PAYLOAD && |s| >= i + HEADER + n + CRC {
        assert r[i - d..i - d + HEADER + n] == s[i..i + HEADER + n];
        assert r[i - d + HEADER..i - d + HEADER + n] == s[i + HEADER..i + HEADER + n];
      }
    }
  }

  lemma {:induction false} ScanShift(s: seq<Byte>, d: nat, i: nat)
    requires d <= i <= |s|
    ensures ScanAt(s[d..], i - d).Frame? <==> ScanAt(s, i).Frame?
    ensures ScanAt(s[d..], i - d).end + d == ScanAt(s, i).end
    ensures ScanAt(s, i).Frame? ==> ScanAt(s[d..], i - d).p == ScanAt(s, i).p
    decreases |s| - i
  {
    if i + 1 < |s| {
      DecodedShift(s, d, i);
      if !SofAt(s, i) || DecodedAt(s, i).Bad? {
        ScanShift(s, d, i + 1);
      }
    }
  }

  lemma {:induction false} FramesShift(s: seq<Byte>, d: nat, i: nat)
    requires d <= i <= |s|
    ensures Frames(s[d..], i - d) == Frames(s, i) && Stop(s[d..], i - d) + d == Stop(s, i)
    decreases |s| - i
  {
    hide DecodedAt, ScanAt;
    var r := s[d..];
    ScanShift(s, d, i);
    FrameAdvances(s, i);
    var f, g := ScanAt(s, i), ScanAt(r, i - d);
    if f.Frame? {
      FramesShift(s, d, f.end);
      assert g.end == f.end - d;
      assert Frames(r, i - d) == [g.p] + Frames(r, g.end);
      assert Frames(s, i) == [f.p] + Frames(s, f.end);
    }
  }

  // ----- the receiver: append a chunk, scan until nothing is found, drop what was consumed -----

  /** The bytes that a receiver keeps, and the frames it has delivered. */
  datatype Receiver = Receiver(buffer: seq<Byte>, delivered: seq<Packet>)

  function Feed(r: Receiver, chunk: seq<Byte>): Receiver {
    var b := r.buffer + chunk;
    Receiver(b[Stop(b, 0)..], r.delivered + Frames(b, 0))
  }

  function FeedAll(chunks: seq<seq<Byte>>): Receiver {
    if |chunks| == 0 then Receiver([], [])
    else Feed(FeedAll(chunks[..|chunks| - 1]), chunks[|chunks| - 1])
  }

  function Joined(chunks: seq<seq<Byte>>): seq<Byte> {
    if |chunks| == 0 then [] else Joined(chunks[..|chunks| - 1]) + chunks[|chunks| - 1]
  }

  /** However the stream is cut, the receiver delivers what one scan over the whole stream finds. */
  lemma {:induction false} ChunkingDoesNotMatter(chunks: seq<seq<Byte>>)
    ensures FeedAll(chunks).delivered == Frames(Joined(chunks), 0)
    ensures FeedAll(chunks).buffer == Joined(chunks)[Stop(Joined(chunks), 0)..]
    decreases |chunks|
  {
    if |chunks| > 0 {
      var front, chunk := chunks[..|chunks| - 1], chunks[|chunks| - 1];
      ChunkingDoesNotMatter(front);
      FeedContinues(Joined(front), chunk);
    }
  }

  lemma FeedContinues(s: seq<Byte>, chunk: seq<Byte>)
    ensures Feed(Receiver(s[Stop(s, 0)..], Frames(s, 0)), chunk)
            == Receiver((s + chunk)[Stop(s + chunk, 0)..], Frames(s + chunk, 0))
  {
    hide Frames, Stop;
    var d := Stop(s, 0);
    var b := s[d..] + chunk;
    assert b == (s + chunk)[d..];
    FramesSplit(s, chunk, 0);
    FramesShift(s + chunk, d, d);
    assert b[Stop(b, 0)..] == (s + chunk)[d + Stop(b, 0)..];
  }

  /** Two ways of cutting the same stream deliver the same frames and leave the same bytes. */
  lemma SameStreamSameFrames(chunks: seq<seq<Byte>>, chunks': seq<seq<Byte>>)
    requires Joined(chunks) == Joined(chunks')
    ensures FeedAll(chunks) == FeedAll(chunks')
  {
    ChunkingDoesNotMatter(chunks);
    ChunkingDoesNotMatter(chunks');
  }

  // ----- resynchronisation -----

  /** No frame starts here, whatever arrives later. */
  predicate Skipped(s: seq<Byte>, k: nat)
    requires k <= |s|
  {
    !SofAt(s, k) || DecodedAt(s, k).Bad?
  }

  /** A scan stops at the first place that is not skipped: damaged frames in front cost no byte of what follows. */
  lemma {:induction false} ScanIsFirst(s: seq<Byte>, i: nat, j: nat)
    requires i <= j < |s| && !Skipped(s, j) && forall k :: i <= k < j ==> Skipped(s, k)
    ensures match DecodedAt(s, j)
      case Complete(p) => ScanAt(s, i) == Frame(j + Size(p), p)
      case Incomplete => ScanAt(s, i) == Nothing(j)
      case Bad(_) => false
    decreases j - i
  {
    if i < j {
      assert Skipped(s, i);
      ScanIsFirst(s, i + 1, j);
    }
  }

  /** Where every place is skipped, all but the last byte is consumed. */
  lemma {:induction false} ScanFindsNothing(s: seq<Byte>, i: nat)
    requires i <= |s| && forall k :: i <= k < |s| ==> Skipped(s, k)
    ensures ScanAt(s, i) == Nothing(if i < |s| then |s| - 1 else i)
    decreases |s| - i
  {
    if i + 1 < |s| {
      assert Skipped(s, i);
      ScanFindsNothing(s, i + 1);
    }
  }

  // ----- noise -----

  predicate Noise(s: seq<Byte>) {
    forall i :: 0 <= i < |s| ==> !SofAt(s, i)
  }

  /** Noise is consumed up to its last byte, which might be the first start byte. */
  lemma NoiseIsConsumed(s: seq<Byte>, i: nat)
    requires Noise(s) && i <= |s|
    ensures ScanAt(s, i) == Nothing(if i < |s| then |s| - 1 else i)
  {
    forall k | i <= k < |s| ensures Skipped(s, k) {
    }
    ScanFindsNothing(s, i);
  }

  /** Noise in front of a frame is skipped exactly. */
  lemma {:induction false} NoiseIsSkipped(noise: seq<Byte>, p: Packet, rest: seq<Byte>, i: nat)
    requires Noise(noise) && Sendable(p) && i <= |noise|
    ensures ScanAt(noise + Encoded(p) + rest, i) == Frame(|noise| + Size(p), p)
    decreases |noise| - i
  {
    var s := noise + Encoded(p) + rest;
    if i < |noise| {
      assert s[i] == noise[i] && s[i + 1] == if i + 1 < |noise| then noise[i + 1] else SOF0;
      assert !SofAt(noise, i);
      NoiseIsSkipped(noise, p, rest, i + 1);
    } else {
      assert s[i..i + Size(p)] == Encoded(p);
      DecodesExactly(p, s, i);
      EncodedFields(p, s, i);
    }
  }

  /** A transmission: noise and frames in turn. */
  function Sent(noises: seq<seq<Byte>>, ps: seq<Packet>): seq<Byte>
    requires |noises| == |ps| && forall k :: 0 <= k < |ps| ==> Sendable(ps[k])
  {
    if |ps| == 0 then [] else noises[0] + Encoded(ps[0]) + Sent(noises[1..], ps[1..])
  }

  /** The scan finds exactly the frames that were sent, in order, and consumes everything. */
  lemma {:induction false} SentIsFound(noises: seq<seq<Byte>>, ps: seq<Packet>)
    requires |noises| == |ps| && (forall k :: 0 <= k < |ps| ==> Sendable(ps[k]))
    requires forall k :: 0 <= k < |ps| ==> Noise(noises[k])
    ensures Frames(Sent(noises, ps), 0) == ps && Stop(Sent(noises, ps), 0) == |Sent(noises, ps)|
    decreases |ps|
  {
    if |ps| > 0 {
      var s, rest := Sent(noises, ps), Sent(noises[1..], ps[1..]);
      var d := |noises[0]| + Size(ps[0]);
      NoiseIsSkipped(noises[0], ps[0], rest, 0);
      SentIsFound(noises[1..], ps[1..]);
      assert s[d..] == rest;
      FramesShift(s, d, d);
    }
  }

  /** End to end: whatever the noise between the frames and however the stream is cut, the receiver delivers them. */
  lemma Delivery(noises: seq<seq<Byte>>, ps: seq<Packet>, chunks: seq<seq<Byte>>)
    requires |noises| == |ps| && (forall k :: 0 <= k < |ps| ==> Sendable(ps[k]))
    requires forall k :: 0 <= k < |ps| ==> Noise(noises[k])
    requires Joined(chunks) == Sent(noises, ps)
    ensures FeedAll(chunks) == Receiver([], ps)
  {
    SentIsFound(noises, ps);
    ChunkingDoesNotMatter(chunks);
  }

  // ----- progress -----

  /** A scan is stuck exactly when the buffer starts with an incomplete frame, or is too short to tell. */
  lemma StuckExactly(s: seq<Byte>)
    ensures ScanAt(s, 0) == Nothing(0) <==> |s| <= 1 || (SofAt(s, 0) && DecodedAt(s, 0) == Incomplete)
    ensures ScanAt(s, 0).end == 0 <==> ScanAt(s, 0) == Nothing(0)
  {
    FrameAdvances(s, 0);
  }

  /** A buffer that holds one frame of the largest size always makes progress. */
  lemma LargeBufferProgresses(s: seq<Byte>)
    requires |s| >= HEADER + MAX_PAYLOAD + CRC
    ensures ScanAt(s, 0).end > 0
  {
    StuckExactly(s);
    if DecodedAt(s, 0) == Incomplete {
      IncompleteIsShort(s, 0);
      assert false;
    }
  }

  /** One byte less is not enough. */
  lemma SmallerBufferSticks() returns (s: seq<Byte>)
    ensures |s| == HEADER + MAX_PAYLOAD + CRC - 1 && ScanAt(s, 0) == Nothing(0)
  {
    s := [SOF0, SOF1, 0, 0, 0, 1] + seq(MAX_PAYLOAD + 1, _ => 0);
    assert U16At(s, 4) == 256;
    StuckExactly(s);
  }

  // ----- the format, without its names -----

  /** What the decoder says of any bytes: start bytes, then the length, low byte first, then the checksum. */
  lemma VerdictsExactly(s: seq<Byte>, i: nat)
    requires i <= |s|
    ensures DecodedAt(s, i).Bad? || DecodedAt(s, i).Complete? ==> i + 8 <= |s|
    ensures i + 8 <= |s| ==>
              var n := s[i + 4] as int + 256 * s[i + 5] as int;
              && (DecodedAt(s, i) == Bad(BufferOverflow) <==> s[i] == 0xAA && s[i + 1] == 0x55 && n > 256)
              && (DecodedAt(s, i) == Incomplete <==> s[i] == 0xAA && s[i + 1] == 0x55 && n <= 256 && |s| < i + 8 + n)
              && (DecodedAt(s, i).Bad? ==> DecodedAt(s, i).st in {BufferOverflow, Corrupted})
  {
    hide Crc;
  }

  lemma FrameFront()
    ensures Absorb(Absorb(Absorb(0xFFFF, 0xAA), 0x55), 0x01) == 0x57AA
  {
    assert Absorb(0xFFFF, 0xAA) == 0xF550;
    assert Absorb(0xF550, 0x55) == 0xE5EA;
  }

  lemma FrameMiddle()
    ensures Absorb(Absorb(Absorb(0x57AA, 0x02), 0x03), 0x00) == 0x12D8
  {
    assert Absorb(0x57AA, 0x02) == 0xA050;
    assert Absorb(0xA050, 0x03) == 0xD589;
  }

  lemma FrameBack()
    ensures Absorb(Absorb(Absorb(0x12D8, 0x41), 0x42), 0x43) == 0x8819
  {
    assert Absorb(0x12D8, 0x41) == 0xB296;
    assert Absorb(0xB296, 0x42) == 0x791F;
  }

  lemma FrameCrc()
    ensures Crc([0xAA, 0x55, 0x01, 0x02, 0x03, 0x00, 0x41, 0x42, 0x43]) == 0x8819
  {
    hide Absorb, Fold;
    var a: seq<Byte>, b: seq<Byte>, c: seq<Byte> := [0xAA, 0x55, 0x01], [0x02, 0x03, 0x00], [0x41, 0x42, 0x43];
    FoldThree(0xFFFF, 0xAA, 0x55, 0x01);
    FoldThree(0x57AA, 0x02, 0x03, 0x00);
    FoldThree(0x12D8, 0x41, 0x42, 0x43);
    FrameFront();
    FrameMiddle();
    FrameBack();
    FoldConcat(0xFFFF, a, b);
    FoldConcat(0xFFFF, a + b, c);
    assert a + b + c == [0xAA, 0x55, 0x01, 0x02, 0x03, 0x00, 0x41, 0x42, 0x43];
  }

  /** The frame of packet 1 with message id 2 and three bytes. */
  lemma FrameBytes()
    ensures Encoded(Packet(1, 2, [0x41, 0x42, 0x43]))
            == [0xAA, 0x55, 0x01, 0x02, 0x03, 0x00, 0x41, 0x42, 0x43, 0x19, 0x88]
  {
    hide Crc;
    FrameCrc();
    assert Body(Packet(1, 2, [0x41, 0x42, 0x43])) == [0xAA, 0x55, 0x01, 0x02, 0x03, 0x00, 0x41, 0x42, 0x43];
  }
}
