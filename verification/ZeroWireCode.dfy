/** The encoder, decoder and resynchroniser as the C and Rust sources write them, against the wire format. */
module ZeroWireCode {
  import opened Bytes
  import opened Crc16Table
  import opened ZeroWire

  /** The frame struct: its payload is a fixed buffer of which the first `length` bytes are in use. */
  class FrameBuffer {
    var no: Byte
    var id: Byte
    var length: U16
    const payload: array<Byte>

    ghost predicate Valid() {
      payload.Length == MAX_PAYLOAD
    }

    ghost function Used(): (p: Packet)
      requires Valid() && length <= MAX_PAYLOAD
      reads this, payload
      ensures Sendable(p)
    {
      Packet(no, id, payload[..length])
    }

    constructor ()
      ensures Valid() && fresh(payload) && length == 0
    {
      no, id, length := 0, 0, 0;
      payload := new Byte[MAX_PAYLOAD](_ => 0);
    }

    /** Start bytes, header fields and payload: the part that the checksum covers. */
    method PutBody(dst: array<Byte>)
      requires Valid() && length <= MAX_PAYLOAD && HEADER + length <= dst.Length && dst != payload
      modifies dst
      ensures dst[..HEADER + length] == Body(Used())
      ensures forall k :: HEADER + length <= k < dst.Length ==> dst[k] == old(dst[k])
    {
      hide U16At;
      dst[0], dst[1], dst[2], dst[3] := SOF0, SOF1, no, id;
      dst[4], dst[5] := length % 0x100, length / 0x100;
      for k := 0 to length
        invariant dst[..HEADER] == Body(Used())[..HEADER]
        invariant forall j :: 0 <= j < k ==> dst[HEADER + j] == payload[j]
        invariant forall j :: HEADER + length <= j < dst.Length ==> dst[j] == old(dst[j])
      {
        dst[HEADER + k] := payload[k];
      }
      assert dst[..HEADER + length] == dst[..HEADER] + dst[HEADER..HEADER + length];
      assert dst[HEADER..HEADER + length] == payload[..length];
    }

    method CopyPayload(data: seq<Byte>)
      requires |data| <= payload.Length
      modifies payload
      ensures payload[..|data|] == data
      ensures forall k :: |data| <= k < payload.Length ==> payload[k] == old(payload[k])
    {
      for k := 0 to |data|
        invariant forall j :: 0 <= j < k ==> payload[j] == data[j]
        invariant forall j :: |data| <= j < payload.Length ==> payload[j] == old(payload[j])
      {
        payload[k] := data[k];
      }
    }

    /** The received fields; payload bytes beyond the used part keep their values. */
    method Take(src: seq<Byte>, ghost p: Packet)
      requires Valid() && DecodedAt(src, 0) == Complete(p)
      modifies this, payload
      ensures length == |p.data| && Used() == p
      ensures forall k :: |p.data| <= k < payload.Length ==> payload[k] == old(payload[k])
    {
      no, id, length := src[2], src[3], U16At(src, 4);
      CopyPayload(src[HEADER..HEADER + length]);
    }
  }

  method PutCrc(dst: array<Byte>, at: nat, crc: U16)
    requires at + CRC <= dst.Length
    modifies dst
    ensures dst[..at] == old(dst[..at]) && dst[at..at + CRC] == Le16(crc)
    ensures forall k :: at + CRC <= k < dst.Length ==> dst[k] == old(dst[k])
  {
    dst[at] := crc % 0x100;
    dst[at + 1] := crc / 0x100;
  }

  // ----- encoders -----

  /** C: zero for a frame that cannot be sent or does not fit, else the number of bytes written. */
  method EncodeC(frame: FrameBuffer, dst: array<Byte>) returns (n: nat)
    requires frame.Valid() && dst != frame.payload
    modifies dst
    ensures n == 0 <==> frame.length > MAX_PAYLOAD || dst.Length < HEADER + frame.length + CRC
    ensures n == 0 ==> dst[..] == old(dst[..])
    ensures n > 0 ==> n == Size(frame.Used()) && dst[..n] == Encoded(frame.Used())
    ensures forall k :: n <= k < dst.Length ==> dst[k] == old(dst[k])
  {
    if frame.length > MAX_PAYLOAD {
      return 0;
    }
    n := HEADER + frame.length + CRC;
    if dst.Length < n {
      return 0;
    }
    frame.PutBody(dst);
    var crc := CcittC(dst[..n - CRC]);
    PutCrc(dst, n - CRC, crc);
    assert dst[..n] == dst[..n - CRC] + dst[n - CRC..n];
  }

  datatype Result<+T> = Done(value: T) | Failed(st: Status)

  /** Rust: the same bytes, with an error in place of zero. */
  method EncodeRust(table: seq<bv16>, frame: FrameBuffer, dst: array<Byte>) returns (r: Result<nat>)
    requires Generated(table) && frame.Valid() && dst != frame.payload
    modifies dst
    ensures r == if frame.length > MAX_PAYLOAD || dst.Length < HEADER + frame.length + CRC
                 then Failed(BufferOverflow) else Done(HEADER + frame.length + CRC)
    ensures r.Failed? ==> dst[..] == old(dst[..])
    ensures r.Done? ==> r.value == Size(frame.Used()) && dst[..r.value] == Encoded(frame.Used())
                        && forall k :: r.value <= k < dst.Length ==> dst[k] == old(dst[k])
  {
    if frame.length > MAX_PAYLOAD {
      return Failed(BufferOverflow);
    }
    var n: nat := HEADER + frame.length + CRC;
    if dst.Length < n {
      return Failed(BufferOverflow);
    }
    frame.PutBody(dst);
    var crc := CcittRust(table, dst[..n - CRC]);
    PutCrc(dst, n - CRC, crc);
    assert dst[..n] == dst[..n - CRC] + dst[n - CRC..n];
    r := Done(n);
  }

  // ----- decoders -----

  /** C: the frame is written only when the verdict is good. */
  method DecodeC(src: seq<Byte>, frame: FrameBuffer) returns (st: Status)
    requires frame.Valid()
    modifies frame, frame.payload
    ensures match DecodedAt(src, 0)
            case Complete(p) => st == Ok && frame.length <= MAX_PAYLOAD && frame.Used() == p
            case Incomplete => st == NotFound
            case Bad(e) => st == e && st in {Corrupted, BufferOverflow}
    ensures st == Ok ==> forall k :: frame.length <= k < MAX_PAYLOAD ==> frame.payload[k] == old(frame.payload[k])
    ensures st != Ok ==> unchanged(frame) && unchanged(frame.payload)
  {
    if |src| < HEADER + CRC {
      return NotFound;
    }
    if src[0] != SOF0 || src[1] != SOF1 {
      return Corrupted;
    }
    var n := U16At(src, 4);
    if n > MAX_PAYLOAD {
      return BufferOverflow;
    }
    if |src| < HEADER + n + CRC {
      return NotFound;
    }
    var expected := CcittC(src[..HEADER + n]);
    if expected != U16At(src, HEADER + n) {
      return Corrupted;
    }
    frame.Take(src, DecodedAt(src, 0).p);
    st := Ok;
  }

  /** The Rust frame is a value; what is not in use is zero. */
  datatype RustFrame = RustFrame(no: Byte, id: Byte, length: U16, payload: seq<Byte>)

  function Zeros(n: nat): (r: seq<Byte>)
    ensures |r| == n
  {
    seq(n, _ => 0)
  }

  method DecodeRust(table: seq<bv16>, src: seq<Byte>) returns (r: Result<RustFrame>)
    requires Generated(table)
    ensures match DecodedAt(src, 0)
            case Complete(p) => r == Done(RustFrame(p.no, p.id, |p.data|, p.data + Zeros(MAX_PAYLOAD - |p.data|)))
            case Incomplete => r == Failed(NotFound)
            case Bad(e) => r == Failed(e)
  {
    if |src| < HEADER + CRC {
      return Failed(NotFound);
    }
    if src[0] != SOF0 || src[1] != SOF1 {
      return Failed(Corrupted);
    }
    var n := U16At(src, 4);
    if n > MAX_PAYLOAD {
      return Failed(BufferOverflow);
    }
    if |src| < HEADER + n + CRC {
      return Failed(NotFound);
    }
    var expected := CcittRust(table, src[..HEADER + n]);
    if expected != U16At(src, HEADER + n) {
      return Failed(Corrupted);
    }
    r := Done(RustFrame(src[2], src[3], n, src[HEADER..HEADER + n] + Zeros(MAX_PAYLOAD - n)));
  }

  // ----- the resynchroniser -----

  /** The scan loop: the frame buffer changes only when a frame is found. */
  method StreamSync(s: seq<Byte>, frame: FrameBuffer) returns (st: Status, consumed: nat)
    requires frame.Valid()
    modifies frame, frame.payload
    ensures consumed == ScanAt(s, 0).end && st == if ScanAt(s, 0).Frame? then Ok else NotFound
    ensures st == Ok ==> frame.length <= MAX_PAYLOAD && frame.Used() == ScanAt(s, 0).p
    ensures st == Ok ==> forall k :: frame.length <= k < MAX_PAYLOAD ==> frame.payload[k] == old(frame.payload[k])
    ensures st != Ok ==> unchanged(frame) && unchanged(frame.payload)
  {
    var i := 0;
    while i + 1 < |s|
      invariant 0 <= i && (i <= |s| - 1 || i == 0) && ScanAt(s, i) == ScanAt(s, 0)
      invariant unchanged(frame) && unchanged(frame.payload)
    {
      if s[i] == SOF0 && s[i + 1] == SOF1 {
        DecodedShift(s, i, i);
        st := DecodeC(s[i..], frame);
        if st == Ok {
          return Ok, i + HEADER + frame.length + CRC;
        } else if st == NotFound {
          return NotFound, i;
        }
      }
      i := i + 1;
    }
    return NotFound, if |s| > 0 then |s| - 1 else 0;
  }

  lemma FramesFrom(b: seq<Byte>, d: nat)
    requires d <= |b|
    ensures var f := ScanAt(b, d); f.Frame? ==> d < f.end && Frames(b, d) == [f.p] + Frames(b, f.end)
    ensures var f := ScanAt(b, d); Stop(b, d) == if f.Frame? then Stop(b, f.end) else f.end
    ensures ScanAt(b, d).Nothing? ==> Frames(b, d) == []
  {
    FrameAdvances(b, d);
  }

  /** One round of a caller: what a scan of the remaining bytes contributes. */
  lemma Round(b: seq<Byte>, d: nat)
    requires d <= |b|
    ensures var f := ScanAt(b[d..], 0);
            && d + f.end <= |b| && b[d..][f.end..] == b[d + f.end..] && (f.Frame? ==> f.end > 0)
            && Frames(b, d) == (if f.Frame? then [f.p] + Frames(b, d + f.end) else [])
            && Stop(b, d) == if f.Frame? then Stop(b, d + f.end) else d + f.end
  {
    hide ScanAt, Frames, Stop;
    ScanShift(b, d, d);
    FramesFrom(b, d);
  }

  lemma OneMore(a: seq<Packet>, p: Packet, rest: seq<Packet>)
    ensures a + ([p] + rest) == (a + [p]) + rest
  {
  }

  lemma RoundStep(b: seq<Byte>, d: nat, f: Found, e: nat, before: seq<Packet>, after: seq<Packet>)
    requires d <= |b| && f == ScanAt(b[d..], 0) && e == d + f.end && after == before + if f.Frame? then [f.p] else []
    ensures e <= |b| && b[d..][f.end..] == b[e..] && (f.Frame? ==> d < e)
    ensures before + Frames(b, d) == after + if f.Frame? then Frames(b, e) else []
    ensures Stop(b, d) == if f.Frame? then Stop(b, e) else e
  {
    hide ScanAt, Frames, Stop;
    Round(b, d);
    if f.Frame? {
      OneMore(before, f.p, Frames(b, e));
    }
  }

  /** A caller of the resynchroniser: it appends a chunk and scans until nothing more is found. */
  class Port {
    var buffer: seq<Byte>
    var delivered: seq<Packet>

    /** One scan of the buffer; what it consumed is dropped, a frame that it found is delivered. */
    method ScanOnce(frame: FrameBuffer) returns (found: bool)
      requires frame.Valid()
      modifies this, frame, frame.payload
      ensures var f := ScanAt(old(buffer), 0);
        && found == f.Frame? && buffer == old(buffer)[f.end..]
        && delivered == old(delivered) + if found then [f.p] else []
    {
      var st, consumed := StreamSync(buffer, frame);
      buffer := buffer[consumed..];
      found := st == Ok;
      if found {
        delivered := delivered + [Packet(frame.no, frame.id, frame.payload[..frame.length])];
      }
    }

    /** A round: what is left to deliver and where the scanning ends do not change. */
    method RoundAt(frame: FrameBuffer, ghost b: seq<Byte>, ghost d: nat) returns (found: bool, ghost e: nat)
      requires frame.Valid() && d <= |b| && buffer == b[d..]
      modifies this, frame, frame.payload
      ensures d <= e <= |b| && buffer == b[e..] && (found ==> d < e)
      ensures old(delivered) + Frames(b, d) == delivered + if found then Frames(b, e) else []
      ensures Stop(b, d) == if found then Stop(b, e) else e
    {
      hide ScanAt, Frames, Stop;
      ghost var f, before := ScanAt(buffer, 0), delivered;
      e := d + f.end;
      found := ScanOnce(frame);
      RoundStep(b, d, f, e, before, delivered);
    }

    method Receive(chunk: seq<Byte>, frame: FrameBuffer)
      requires frame.Valid()
      modifies this, frame, frame.payload
      ensures Receiver(buffer, delivered) == Feed(old(Receiver(buffer, delivered)), chunk)
    {
      buffer := buffer + chunk;
      ghost var b := buffer;
      ghost var d: nat := 0;
      ghost var all, last := delivered + Frames(b, 0), Stop(b, 0);
      var found := true;
      while found
        invariant d <= |b| && buffer == b[d..]
        invariant all == delivered + if found then Frames(b, d) else []
        invariant last == if found then Stop(b, d) else d
        decreases found, |buffer|
      {
        found, d := RoundAt(frame, b, d);
      }
    }
  }
}
