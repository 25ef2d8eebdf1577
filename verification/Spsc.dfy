/**
 * The lock-free single-producer single-consumer ring, as interleaved atomic steps. Head and tail are words that
 * wrap; a bulk copy runs through at most two contiguous chunks, one cell at a time. Barriers are taken to give
 * sequential consistency.
 */
module Spsc {
  import opened Bytes
  import opened Words

  /** Position of the counter value in the ring, and cell number `k` of a copy that starts there in two chunks. */
  function CellOf(counter: nat, n: nat, k: nat, capacity: nat): (r: nat)
    requires 0 < capacity && k < n <= capacity
    ensures r < capacity
  {
    var idx := counter % capacity;
    var chunk1 := if capacity - idx > n then n else capacity - idx;
    if k < chunk1 then idx + k else k - chunk1
  }

  // ----- the two threads and the memory they share -----

  datatype Producer<T> = PIdle | PCopy(head: nat, data: seq<T>, copied: nat)

  datatype Consumer<T> = CIdle | CCopy(tail: nat, n: nat, out: seq<T>)

  /** `accepted` and `received` are histories: what has been published so far, and what has been handed out. */
  datatype State<T> = State(
    capacity: nat, word: nat,
    cells: seq<T>, head: nat, tail: nat,
    producer: Producer<T>, consumer: Consumer<T>,
    accepted: seq<T>, received: seq<T>)

  /** An atomic step: start loads the other side's counter, copy moves one cell, publish stores the own counter. */
  datatype Step<T> =
    | StartWrite(data: seq<T>)
    | CopyIn
    | PublishHead
    | StartRead(max: nat)
    | CopyOut
    | PublishTail

  /** What a step shows to the callers. */
  datatype Event<T> = Silent | Full | Empty | Enqueued(xs: seq<T>) | Dequeued(xs: seq<T>)

  predicate Shape<T>(s: State<T>) {
    && 0 < s.capacity < s.word && s.word % s.capacity == 0
    && |s.cells| == s.capacity && s.head < s.word && s.tail < s.word
    && (s.producer.PCopy? ==>
          s.producer.copied <= |s.producer.data| <= s.capacity && s.producer.head < s.word)
    && (s.consumer.CCopy? ==> |s.consumer.out| <= s.consumer.n <= s.capacity && s.consumer.tail < s.word)
    && Minus(s.head, s.tail, s.word) <= s.capacity
  }

  /** A thread takes a step if that is its next one; any other step does nothing. */
  function Next<T>(s: State<T>, a: Step<T>): (State<T>, Event<T>) {
    if !Shape(s) then (s, Silent) else
    match a
    case StartWrite(data) =>
      if !s.producer.PIdle? || |data| == 0 then (s, Silent)
      else
        var available := s.capacity - Minus(s.head, s.tail, s.word);
        var n := Min(|data|, available);
        if n == 0 then (s, Full) else (s.(producer := PCopy(s.head, data[..n], 0)), Silent)
    case CopyIn =>
      if s.producer.PCopy? && s.producer.copied < |s.producer.data| then
        var p := s.producer;
        (s.(cells := s.cells[CellOf(p.head, |p.data|, p.copied, s.capacity) := p.data[p.copied]],
            producer := p.(copied := p.copied + 1)), Silent)
      else (s, Silent)
    case PublishHead =>
      if s.producer.PCopy? && s.producer.copied == |s.producer.data| then
        var p := s.producer;
        (s.(head := Plus(p.head, |p.data|, s.word), producer := PIdle, accepted := s.accepted + p.data),
         Enqueued(p.data))
      else (s, Silent)
    case StartRead(max) =>
      if !s.consumer.CIdle? || max == 0 then (s, Silent)
      else
        var n := Min(max, Minus(s.head, s.tail, s.word));
        if n == 0 then (s, Empty) else (s.(consumer := CCopy(s.tail, n, [])), Silent)
    case CopyOut =>
      if s.consumer.CCopy? && |s.consumer.out| < s.consumer.n then
        var c := s.consumer;
        (s.(consumer := c.(out := c.out + [s.cells[CellOf(c.tail, c.n, |c.out|, s.capacity)]])), Silent)
      else (s, Silent)
    case PublishTail =>
      if s.consumer.CCopy? && |s.consumer.out| == s.consumer.n then
        var c := s.consumer;
        (s.(tail := Plus(c.tail, c.n, s.word), consumer := CIdle, received := s.received + c.out),
         Dequeued(c.out))
      else (s, Silent)
  }

  // ----- the invariant -----

  /** The counters are the lengths of the histories, modulo the word; the cells between them are the queue. */
  ghost predicate Inv<T>(s: State<T>) {
    match s
    case State(capacity, word, cells, head, tail, producer, consumer, accepted, received) =>
      && Shape(s)
      && |received| <= |accepted| <= |received| + capacity
      && received <= accepted
      && head == |accepted| % word && tail == |received| % word
      && (forall i {:trigger accepted[i]} :: |received| <= i < |accepted| ==> cells[i % capacity] == accepted[i])
      && (producer.PCopy? ==> ProducerInv(s, producer))
      && (consumer.CCopy? ==> ConsumerInv(s, consumer))
  }

  /** The room that the producer saw is still there, and what it has copied stays. */
  ghost predicate ProducerInv<T>(s: State<T>, p: Producer<T>)
    requires Shape(s) && p.PCopy? && p.copied <= |p.data|
  {
    && p.head == s.head && 0 < |p.data| && |s.accepted| + |p.data| <= |s.received| + s.capacity
    && forall j {:trigger p.data[j]} :: 0 <= j < p.copied ==> s.cells[(|s.accepted| + j) % s.capacity] == p.data[j]
  }

  /** What the consumer saw is still there, and what it has copied is the front of the queue. */
  ghost predicate ConsumerInv<T>(s: State<T>, c: Consumer<T>)
    requires c.CCopy? && |c.out| <= c.n
  {
    && c.tail == s.tail && 0 < c.n && |s.received| + c.n <= |s.accepted|
    && forall j {:trigger c.out[j]} :: 0 <= j < |c.out| ==> c.out[j] == s.accepted[|s.received| + j]
  }

  // ----- cells -----

  /** The two-chunk address is the cell that belongs to the k-th element behind the counter. */
  lemma CellIsMod(x: nat, word: nat, n: nat, k: nat, capacity: nat)
    requires 0 < capacity <= word && word % capacity == 0 && k < n <= capacity
    ensures CellOf(x % word, n, k, capacity) == (x + k) % capacity
  {
    ModOfMod(x, word, capacity);
    PlusIsMod(x, k, capacity);
  }

  /** Elements less than a capacity apart never share a cell. */
  lemma CellsDiffer(i: nat, j: nat, capacity: nat)
    requires i < j < i + capacity
    ensures i % capacity != j % capacity
  {
    PlusIsMod(i, j - i, capacity);
  }

  // ----- every step keeps the invariant -----

  /** The cell that the producer writes next holds nothing that is still to be read. */
  lemma NoOverwrite<T>(s: State<T>, i: nat)
    requires Inv(s) && s.producer.PCopy? && s.producer.copied < |s.producer.data|
    requires |s.received| <= i < |s.accepted| + s.producer.copied
    ensures CellOf(s.producer.head, |s.producer.data|, s.producer.copied, s.capacity) != i % s.capacity
  {
    var p := s.producer;
    CellIsMod(|s.accepted|, s.word, |p.data|, p.copied, s.capacity);
    CellsDiffer(i, |s.accepted| + p.copied, s.capacity);
  }

  /** In the middle of their copies, the two threads never touch the same cell. */
  lemma NoSharedCell<T>(s: State<T>)
    requires Inv(s) && s.producer.PCopy? && s.producer.copied < |s.producer.data|
    requires s.consumer.CCopy? && |s.consumer.out| < s.consumer.n
    ensures CellOf(s.producer.head, |s.producer.data|, s.producer.copied, s.capacity)
            != CellOf(s.consumer.tail, s.consumer.n, |s.consumer.out|, s.capacity)
  {
    CellIsMod(|s.received|, s.word, s.consumer.n, |s.consumer.out|, s.capacity);
    NoOverwrite(s, |s.received| + |s.consumer.out|);
  }

  lemma InvCopyIn<T>(s: State<T>)
    requires Inv(s) && s.producer.PCopy? && s.producer.copied < |s.producer.data|
    ensures Inv(Next(s, CopyIn).0)
  {
    var p, s' := s.producer, Next(s, CopyIn).0;
    CellIsMod(|s.accepted|, s.word, |p.data|, p.copied, s.capacity);
    forall i | |s.received| <= i < |s.accepted| ensures s'.cells[i % s.capacity] == s.accepted[i] {
      NoOverwrite(s, i);
    }
    forall j | 0 <= j < p.copied ensures s'.cells[(|s.accepted| + j) % s.capacity] == p.data[j] {
      NoOverwrite(s, |s.accepted| + j);
    }
  }

  lemma InvPublishHead<T>(s: State<T>)
    requires Inv(s) && s.producer.PCopy? && s.producer.copied == |s.producer.data|
    ensures Inv(Next(s, PublishHead).0)
  {
    var p, s' := s.producer, Next(s, PublishHead).0;
    PlusIsMod(|s.accepted|, |p.data|, s.word);
    MinusIsDifference(|s'.accepted|, |s'.received|, s.word);
    forall i | |s'.received| <= i < |s'.accepted| ensures s'.cells[i % s.capacity] == s'.accepted[i] {
      if i >= |s.accepted| {
        var j := i - |s.accepted|;
        assert p.data[j] == s'.accepted[i];
        assert s.cells[(|s.accepted| + j) % s.capacity] == p.data[j];
      } else {
        assert s.accepted[i] == s'.accepted[i];
      }
    }
  }

  lemma InvCopyOut<T>(s: State<T>)
    requires Inv(s) && s.consumer.CCopy? && |s.consumer.out| < s.consumer.n
    ensures Inv(Next(s, CopyOut).0)
  {
    var c := s.consumer;
    var i := |s.received| + |c.out|;
    CellIsMod(|s.received|, s.word, c.n, |c.out|, s.capacity);
    assert s.cells[i % s.capacity] == s.accepted[i];
  }

  lemma InvPublishTail<T>(s: State<T>)
    requires Inv(s) && s.consumer.CCopy? && |s.consumer.out| == s.consumer.n
    ensures Inv(Next(s, PublishTail).0)
  {
    var c, s' := s.consumer, Next(s, PublishTail).0;
    PlusIsMod(|s.received|, c.n, s.word);
    MinusIsDifference(|s'.accepted|, |s'.received|, s.word);
  }

  lemma InvStarts<T>(s: State<T>, a: Step<T>)
    requires Inv(s) && (a.StartWrite? || a.StartRead?)
    ensures Inv(Next(s, a).0)
  {
    MinusIsDifference(|s.accepted|, |s.received|, s.word);
  }

  lemma InvStep<T>(s: State<T>, a: Step<T>)
    requires Inv(s)
    ensures Inv(Next(s, a).0)
  {
    match a {
      case CopyIn => if s.producer.PCopy? && s.producer.copied < |s.producer.data| { InvCopyIn(s); }
      case PublishHead => if s.producer.PCopy? && s.producer.copied == |s.producer.data| { InvPublishHead(s); }
      case CopyOut => if s.consumer.CCopy? && |s.consumer.out| < s.consumer.n { InvCopyOut(s); }
      case PublishTail => if s.consumer.CCopy? && |s.consumer.out| == s.consumer.n { InvPublishTail(s); }
      case _ => InvStarts(s, a);
    }
  }

  // ----- refinement of a bounded queue -----

  function Queue<T>(s: State<T>): seq<T>
    requires |s.received| <= |s.accepted|
  {
    s.accepted[|s.received|..]
  }

  /** What a bounded first-in-first-out queue may do when it shows this event. */
  predicate FifoStep<T(==)>(q: seq<T>, e: Event<T>, q': seq<T>, capacity: nat) {
    match e
    case Silent => q' == q
    case Full => |q| == capacity && q' == q
    case Empty => |q| == 0 && q' == q
    case Enqueued(xs) => |q| + |xs| <= capacity && q' == q + xs
    case Dequeued(xs) => q == xs + q'
  }

  lemma PublishHeadEnqueues<T>(s: State<T>)
    requires Inv(s) && s.producer.PCopy? && s.producer.copied == |s.producer.data| && Inv(Next(s, PublishHead).0)
    ensures FifoStep(Queue(s), Next(s, PublishHead).1, Queue(Next(s, PublishHead).0), s.capacity)
  {
    var p := s.producer;
    assert Queue(Next(s, PublishHead).0) == Queue(s) + p.data;
  }

  lemma PublishTailDequeues<T>(s: State<T>)
    requires Inv(s) && s.consumer.CCopy? && |s.consumer.out| == s.consumer.n && Inv(Next(s, PublishTail).0)
    ensures FifoStep(Queue(s), Next(s, PublishTail).1, Queue(Next(s, PublishTail).0), s.capacity)
  {
    var c, r := s.consumer, |s.received|;
    assert s.accepted[r..] == c.out + s.accepted[r + c.n..];
  }

  /** A bulk copy moves as much as there was room, or elements, when the other counter was loaded. */
  lemma StartsAnswerTruly<T>(s: State<T>, a: Step<T>)
    requires Inv(s) && (a.StartWrite? || a.StartRead?)
    ensures Next(s, a).0.accepted == s.accepted && Next(s, a).0.received == s.received
    ensures FifoStep(Queue(s), Next(s, a).1, Queue(s), s.capacity)
    ensures a.StartWrite? && s.producer.PIdle? && Next(s, a).0.producer.PCopy?
            ==> Next(s, a).0.producer.data == a.data[..Min(|a.data|, s.capacity - |Queue(s)|)]
    ensures a.StartRead? && s.consumer.CIdle? && Next(s, a).0.consumer.CCopy?
            ==> Next(s, a).0.consumer.n == Min(a.max, |Queue(s)|)
  {
    MinusIsDifference(|s.accepted|, |s.received|, s.word);
  }

  /** Every atomic step is a step of the bounded queue; "full" and "empty" are true when the counter is loaded. */
  lemma StepRefinesFifo<T>(s: State<T>, a: Step<T>)
    requires Inv(s)
    ensures Inv(Next(s, a).0)
    ensures FifoStep(Queue(s), Next(s, a).1, Queue(Next(s, a).0), s.capacity)
  {
    InvStep(s, a);
    match a {
      case PublishHead => if s.producer.PCopy? && s.producer.copied == |s.producer.data| { PublishHeadEnqueues(s); }
      case PublishTail => if s.consumer.CCopy? && |s.consumer.out| == s.consumer.n { PublishTailDequeues(s); }
      case CopyIn =>
      case CopyOut =>
      case _ => StartsAnswerTruly(s, a);
    }
  }

  lemma FifoStepTo<T>(s: State<T>, a: Step<T>, e: Event<T>, s': State<T>)
    requires Inv(s) && s' == Next(s, a).0 && e == Next(s, a).1
    ensures Inv(s') && FifoStep(Queue(s), e, Queue(s'), s.capacity)
  {
    StepRefinesFifo(s, a);
  }

  // ----- whole runs -----

  /** Any interleaving: the steps of both threads in the order in which they happen. */
  function After<T>(s: State<T>, steps: seq<Step<T>>, n: nat): State<T>
    requires n <= |steps|
  {
    if n == 0 then s else Next(After(s, steps, n - 1), steps[n - 1]).0
  }

  function Shown<T>(s: State<T>, steps: seq<Step<T>>, n: nat): Event<T>
    requires n < |steps|
  {
    Next(After(s, steps, n), steps[n]).1
  }

  /** What the producer's callers were told went in, and what the consumer's callers got, over a run. */
  function Accepted<T>(s: State<T>, steps: seq<Step<T>>, n: nat): seq<T>
    requires n <= |steps|
  {
    if n == 0 then [] else Accepted(s, steps, n - 1) + In(Shown(s, steps, n - 1))
  }

  function Received<T>(s: State<T>, steps: seq<Step<T>>, n: nat): seq<T>
    requires n <= |steps|
  {
    if n == 0 then [] else Received(s, steps, n - 1) + Out(Shown(s, steps, n - 1))
  }

  function In<T>(e: Event<T>): seq<T> {
    if e.Enqueued? then e.xs else []
  }

  function Out<T>(e: Event<T>): seq<T> {
    if e.Dequeued? then e.xs else []
  }

  lemma HistoryStep<T>(s: State<T>, a: Step<T>)
    ensures Next(s, a).0.accepted == s.accepted + In(Next(s, a).1)
    ensures Next(s, a).0.received == s.received + Out(Next(s, a).1)
    ensures Next(s, a).0.capacity == s.capacity && Next(s, a).0.word == s.word
  {
  }

  lemma Joined<T>(a: seq<T>, b: seq<T>, c: seq<T>)
    ensures (a + b) + c == a + (b + c)
  {
  }

  /** The histories are what the callers saw. */
  lemma {:induction false} RunHistory<T>(s: State<T>, steps: seq<Step<T>>, n: nat)
    requires n <= |steps|
    ensures After(s, steps, n).capacity == s.capacity
    ensures After(s, steps, n).accepted == s.accepted + Accepted(s, steps, n)
    ensures After(s, steps, n).received == s.received + Received(s, steps, n)
  {
    if n > 0 {
      RunHistory(s, steps, n - 1);
      HistoryStep(After(s, steps, n - 1), steps[n - 1]);
      Joined(s.accepted, Accepted(s, steps, n - 1), In(Shown(s, steps, n - 1)));
      Joined(s.received, Received(s, steps, n - 1), Out(Shown(s, steps, n - 1)));
    }
  }

  /** The invariant holds all along. */
  lemma {:induction false} RunInv<T>(s: State<T>, steps: seq<Step<T>>, n: nat)
    requires Inv(s) && n <= |steps|
    ensures Inv(After(s, steps, n))
  {
    if n > 0 {
      RunInv(s, steps, n - 1);
      InvStep(After(s, steps, n - 1), steps[n - 1]);
    }
  }

  lemma Bounds<T>(s: State<T>)
    requires Inv(s)
    ensures s.received <= s.accepted && |s.accepted| <= |s.received| + s.capacity
  {
  }

  /** A run of the bounded queue: every event is one that the queue may show at that point. */
  lemma RunRefinesFifo<T>(s: State<T>, steps: seq<Step<T>>, n: nat)
    requires Inv(s) && n < |steps|
    ensures Inv(After(s, steps, n)) && Inv(After(s, steps, n + 1))
    ensures FifoStep(Queue(After(s, steps, n)), Shown(s, steps, n), Queue(After(s, steps, n + 1)), s.capacity)
  {
    RunInv(s, steps, n);
    RunInv(s, steps, n + 1);
    RunHistory(s, steps, n);
    FifoStepTo(After(s, steps, n), steps[n], Shown(s, steps, n), After(s, steps, n + 1));
  }

  /**
   * From the empty ring, whatever the interleaving and however often the counters wrap: what the consumer has
   * received is a prefix of what the producer has had accepted, with at most `capacity` elements in between.
   */
  lemma Linearizable<T>(s: State<T>, steps: seq<Step<T>>, n: nat)
    requires Inv(s) && s.accepted == [] && s.received == [] && n <= |steps|
    ensures Received(s, steps, n) <= Accepted(s, steps, n)
    ensures |Accepted(s, steps, n)| <= |Received(s, steps, n)| + s.capacity
  {
    RunInv(s, steps, n);
    RunHistory(s, steps, n);
    Bounds(After(s, steps, n));
    assert [] + Accepted(s, steps, n) == Accepted(s, steps, n) && [] + Received(s, steps, n) == Received(s, steps, n);
  }

  // ----- initialisation -----

  /** The ring that initialisation accepts: any power of two below the word, over any buffer of that size. */
  lemma InitInv<T>(cells: seq<T>, word: nat)
    requires PowerOfTwo(|cells|) && PowerOfTwo(word) && |cells| < word
    ensures Inv(State(|cells|, word, cells, 0, 0, PIdle, CIdle, [], []))
  {
    PowerOfTwoDivides(|cells|, word);
  }

  // ----- the ring itself -----

  class Ring<T(0)> {
    const buffer: array<T>
    const word: nat
    var head: nat
    var tail: nat
    ghost var accepted: seq<T>
    ghost var received: seq<T>

    /** The shared memory, with the two threads at these points of their code. */
    ghost function View(p: Producer<T>, c: Consumer<T>): State<T>
      reads this, buffer
    {
      State(buffer.Length, word, buffer[..], head, tail, p, c, accepted, received)
    }

    ghost predicate Valid()
      reads this, buffer
    {
      PowerOfTwo(buffer.Length) && Inv(View(PIdle, CIdle))
    }

    ghost function Contents(): seq<T>
      reads this, buffer
      requires Valid()
    {
      accepted[|received|..]
    }

    /** Initialisation over a buffer whose size is a power of two; the counters wrap at `w`. */
    constructor (storage: array<T>, w: nat)
      requires PowerOfTwo(storage.Length) && PowerOfTwo(w) && storage.Length < w
      ensures Valid() && Contents() == [] && buffer == storage && word == w
      ensures accepted == [] && received == []
    {
      buffer, word := storage, w;
      head, tail := 0, 0;
      accepted, received := [], [];
      new;
      InitInv(buffer[..], w);
    }

    /** The index of a counter: the word masked with the capacity minus one. */
    function Index(counter: nat): (i: nat)
      requires PowerOfTwo(buffer.Length)
      ensures i == counter % buffer.Length
    {
      MaskIsMod(counter, buffer.Length);
      BitAnd(counter, buffer.Length - 1)
    }

    /** The number of elements in flight, from the two counters. */
    method Count() returns (n: nat)
      requires Valid()
      ensures n == |Contents()|
    {
      MinusIsDifference(|accepted|, |received|, word);
      n := Minus(head, tail, word);
    }

    /** One cell of a copy into the ring. */
    method StoreCell(data: seq<T>, k: nat, at: nat)
      requires k < |data| && Inv(View(PCopy(head, data, k), CIdle))
      requires at == CellOf(head, |data|, k, buffer.Length)
      modifies buffer
      ensures Inv(View(PCopy(head, data, k + 1), CIdle))
    {
      ghost var s := View(PCopy(head, data, k), CIdle);
      InvCopyIn(s);
      buffer[at] := data[k];
      assert buffer[..] == s.cells[at := data[k]];
      assert Next(s, CopyIn).0 == View(PCopy(head, data, k + 1), CIdle);
    }

    method PublishCopied(data: seq<T>)
      requires PowerOfTwo(buffer.Length) && Inv(View(PCopy(head, data, |data|), CIdle))
      modifies this`head, this`accepted
      ensures Valid() && accepted == old(accepted) + data
    {
      ghost var s := View(PCopy(head, data, |data|), CIdle);
      InvPublishHead(s);
      head := Plus(head, |data|, word);
      accepted := accepted + data;
      assert Next(s, PublishHead).0 == View(PIdle, CIdle);
    }

    /** A contiguous copy into the ring. */
    method CopyRun(data: seq<T>, from: nat, to: nat, at: nat)
      requires from <= to <= |data| && Inv(View(PCopy(head, data, from), CIdle))
      requires forall k :: from <= k < to ==> CellOf(head, |data|, k, buffer.Length) == at + (k - from)
      modifies buffer
      ensures Inv(View(PCopy(head, data, to), CIdle))
    {
      for k := from to to
        invariant Inv(View(PCopy(head, data, k), CIdle))
      {
        StoreCell(data, k, at + (k - from));
      }
    }

    /** The copy itself, in at most two contiguous chunks. */
    method CopyChunks(data: seq<T>)
      requires Valid() && 0 < |data| <= buffer.Length - |Contents()|
      modifies buffer
      ensures Inv(View(PCopy(head, data, |data|), CIdle))
    {
      var idx := Index(head);
      var chunk1 := Min(|data|, buffer.Length - idx);
      CopyRun(data, 0, chunk1, idx);
      CopyRun(data, chunk1, |data|, 0);
    }

    /** Bulk write: as many elements as there is room for, in at most two chunks. */
    method Write(data: seq<T>) returns (n: nat)
      requires Valid()
      modifies this`head, this`accepted, buffer
      ensures Valid() && n == Min(|data|, buffer.Length - |old(Contents())|)
      ensures Contents() == old(Contents()) + data[..n]
    {
      var count := Count();
      n := Min(|data|, buffer.Length - count);
      if n == 0 {
        return;
      }
      CopyChunks(data[..n]);
      PublishCopied(data[..n]);
    }

    /** Single element: refused exactly when the ring is full. */
    method Push(x: T) returns (ok: bool)
      requires Valid()
      modifies this`head, this`accepted, buffer
      ensures Valid() && (ok <==> |old(Contents())| < buffer.Length)
      ensures Contents() == old(Contents()) + if ok then [x] else []
    {
      var count := Count();
      if count >= buffer.Length {
        return false;
      }
      var idx := Index(head);
      StoreCell([x], 0, idx);
      PublishCopied([x]);
      ok := true;
    }

    /** One cell of a copy out of the ring. */
    method LoadCell(n: nat, out: array<T>, k: nat, at: nat)
      requires k < n <= out.Length && out != buffer && Inv(View(PIdle, CCopy(tail, n, out[..k])))
      requires at == CellOf(tail, n, k, buffer.Length)
      modifies out
      ensures Inv(View(PIdle, CCopy(tail, n, out[..k + 1])))
      ensures forall i :: k < i < out.Length ==> out[i] == old(out[i])
    {
      ghost var s := View(PIdle, CCopy(tail, n, out[..k]));
      InvCopyOut(s);
      out[k] := buffer[at];
      assert out[..k + 1] == s.consumer.out + [s.cells[at]];
      assert Next(s, CopyOut).0 == View(PIdle, CCopy(tail, n, out[..k + 1]));
    }

    method PublishTaken(n: nat, ghost xs: seq<T>)
      requires PowerOfTwo(buffer.Length) && |xs| == n && Inv(View(PIdle, CCopy(tail, n, xs)))
      modifies this`tail, this`received
      ensures Valid() && received == old(received) + xs && xs == old(accepted[|received|..])[..n]
    {
      ghost var s := View(PIdle, CCopy(tail, n, xs));
      InvPublishTail(s);
      tail := Plus(tail, n, word);
      received := received + xs;
      assert Next(s, PublishTail).0 == View(PIdle, CIdle);
    }

    /** A contiguous copy out of the ring. */
    method TakeRun(n: nat, dst: array<T>, from: nat, to: nat, at: nat)
      requires from <= to <= n <= dst.Length && dst != buffer && Inv(View(PIdle, CCopy(tail, n, dst[..from])))
      requires forall k :: from <= k < to ==> CellOf(tail, n, k, buffer.Length) == at + (k - from)
      modifies dst
      ensures Inv(View(PIdle, CCopy(tail, n, dst[..to])))
      ensures forall i :: n <= i < dst.Length ==> dst[i] == old(dst[i])
    {
      for k := from to to
        invariant Inv(View(PIdle, CCopy(tail, n, dst[..k])))
        invariant forall i :: n <= i < dst.Length ==> dst[i] == old(dst[i])
      {
        LoadCell(n, dst, k, at + (k - from));
      }
    }

    /** The copy out, in at most two contiguous chunks. */
    method TakeChunks(n: nat, dst: array<T>)
      requires Valid() && dst != buffer && 0 < n <= dst.Length && n <= |Contents()|
      modifies dst
      ensures Inv(View(PIdle, CCopy(tail, n, dst[..n])))
      ensures forall i :: n <= i < dst.Length ==> dst[i] == old(dst[i])
    {
      var idx := Index(tail);
      var chunk1 := Min(n, buffer.Length - idx);
      TakeRun(n, dst, 0, chunk1, idx);
      TakeRun(n, dst, chunk1, n, 0);
    }

    /** Bulk read into a buffer: as many elements as there are, oldest first; the rest of the buffer is untouched. */
    method Read(dst: array<T>) returns (n: nat)
      requires Valid() && dst != buffer
      modifies this`tail, this`received, dst
      ensures Valid() && n == Min(dst.Length, |old(Contents())|)
      ensures dst[..n] == old(Contents())[..n] && Contents() == old(Contents())[n..]
      ensures forall i :: n <= i < dst.Length ==> dst[i] == old(dst[i])
    {
      var count := Count();
      n := Min(dst.Length, count);
      if n == 0 {
        return;
      }
      TakeChunks(n, dst);
      PublishTaken(n, dst[..n]);
    }

    /** Single element: refused exactly when the ring is empty. */
    method Pop(dst: array<T>) returns (ok: bool)
      requires Valid() && dst != buffer && dst.Length == 1
      modifies this`tail, this`received, dst
      ensures Valid() && (ok <==> |old(Contents())| > 0)
      ensures ok ==> dst[0] == old(Contents())[0] && Contents() == old(Contents())[1..]
      ensures !ok ==> dst[0] == old(dst[0]) && Contents() == old(Contents())
    {
      if tail == head {
        MinusIsDifference(|accepted|, |received|, word);
        return false;
      }
      var idx := Index(tail);
      MinusIsDifference(|accepted|, |received|, word);
      LoadCell(1, dst, 0, idx);
      PublishTaken(1, dst[..1]);
      ok := true;
    }
  }

  /** Initialisation checks the capacity by its mask. */
  method Init<T(0)>(storage: array<T>, word: nat) returns (st: Status, ring: Ring?<T>)
    requires PowerOfTwo(word) && storage.Length < word
    ensures st == if PowerOfTwo(storage.Length) then Ok else InvalidArg
    ensures st == Ok <==> ring != null
    ensures st == Ok ==> ring.Valid() && ring.Contents() == [] && ring.buffer == storage && ring.word == word
  {
    if storage.Length == 0 {
      return InvalidArg, null;
    }
    MaskTest(storage.Length);
    if BitAnd(storage.Length, storage.Length - 1) != 0 {
      return InvalidArg, null;
    }
    st := Ok;
    ring := new Ring(storage, word);
  }
}
