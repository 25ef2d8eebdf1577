/**
 * The ring of the deferred logger: any capacity of two or more, indices that wrap at the capacity, one slot kept
 * empty. Posting (an interrupt) and flushing (the main loop) are interleaved atomic steps.
 */
module LogRing {
  import opened Bytes
  import opened Words

  datatype Poster<E> = PIdle | PRoom(e: E) | PWritten(e: E)

  datatype Flusher = FIdle | FSome | FEmitted

  /** `accepted` are the entries published, `dropped` counts the others, `output` is what the sink has received. */
  datatype State<E> = State(
    cells: seq<E>, head: nat, tail: nat, poster: Poster<E>, flusher: Flusher,
    accepted: seq<E>, dropped: nat, taken: nat, output: seq<E>)

  datatype Step<E> = BeginPost(e: E) | WriteEntry | PublishHead | BeginFlush | Emit | PublishTail

  function Capacity<E>(s: State<E>): nat {
    |s.cells|
  }

  /** The successor of an index. */
  function Succ(i: nat, capacity: nat): nat
    requires i < capacity
  {
    if i + 1 == capacity then 0 else i + 1
  }

  predicate Shape<E>(s: State<E>) {
    2 <= Capacity(s) && s.head < Capacity(s) && s.tail < Capacity(s)
  }

  function Next<E>(s: State<E>, a: Step<E>): State<E> {
    if !Shape(s) then s else
    match a
    case BeginPost(e) =>
      if !s.poster.PIdle? then s
      else if Succ(s.head, Capacity(s)) == s.tail then s.(dropped := s.dropped + 1)
      else s.(poster := PRoom(e))
    case WriteEntry =>
      if s.poster.PRoom? then s.(cells := s.cells[s.head := s.poster.e], poster := PWritten(s.poster.e)) else s
    case PublishHead =>
      if s.poster.PWritten? then
        s.(head := Succ(s.head, Capacity(s)), poster := PIdle, accepted := s.accepted + [s.poster.e])
      else s
    case BeginFlush =>
      if s.flusher.FIdle? && s.tail != s.head then s.(flusher := FSome) else s
    case Emit =>
      if s.flusher.FSome? then s.(output := s.output + [s.cells[s.tail]], flusher := FEmitted) else s
    case PublishTail =>
      if s.flusher.FEmitted? then s.(tail := Succ(s.tail, Capacity(s)), taken := s.taken + 1, flusher := FIdle) else s
  }

  // ----- the invariant -----

  /** How many entries the sink has got. */
  function Emitted<E>(s: State<E>): nat {
    if s.flusher.FEmitted? then s.taken + 1 else s.taken
  }

  ghost predicate Inv<E>(s: State<E>) {
    && Shape(s)
    && s.taken <= |s.accepted| <= s.taken + Capacity(s) - 1
    && s.head == |s.accepted| % Capacity(s) && s.tail == s.taken % Capacity(s)
    && (forall i {:trigger s.accepted[i]} :: s.taken <= i < |s.accepted| ==> s.cells[i % Capacity(s)] == s.accepted[i])
    && (!s.poster.PIdle? ==> |s.accepted| < s.taken + Capacity(s) - 1)
    && (s.poster.PWritten? ==> s.cells[s.head] == s.poster.e)
    && (!s.flusher.FIdle? ==> s.taken < |s.accepted|)
    && |s.output| == Emitted(s)
    && forall i :: 0 <= i < |s.output| ==> s.output[i] == s.accepted[i]
  }

  lemma SuccIsMod(n: nat, capacity: nat)
    requires capacity > 1
    ensures Succ(n % capacity, capacity) == (n + 1) % capacity
  {
    PlusIsMod(n, 1, capacity);
  }

  lemma SlotsDiffer(i: nat, j: nat, capacity: nat)
    requires i < j < i + capacity
    ensures i % capacity != j % capacity
  {
    PlusIsMod(i, j - i, capacity);
  }

  /** The two tests of the source say what they should: full with one slot empty, and empty. */
  lemma TestsAreTrue<E>(s: State<E>)
    requires Inv(s)
    ensures Succ(s.head, Capacity(s)) == s.tail <==> |s.accepted| - s.taken == Capacity(s) - 1
    ensures s.tail == s.head <==> |s.accepted| == s.taken
  {
    SuccIsMod(|s.accepted|, Capacity(s));
    if |s.accepted| - s.taken < Capacity(s) - 1 {
      SlotsDiffer(s.taken, |s.accepted| + 1, Capacity(s));
    } else {
      PlusIsMod(s.taken, Capacity(s), Capacity(s));
    }
    if s.taken < |s.accepted| {
      SlotsDiffer(s.taken, |s.accepted|, Capacity(s));
    }
  }

  lemma WriteKeeps<E>(s: State<E>)
    requires Inv(s) && s.poster.PRoom?
    ensures Inv(Next(s, WriteEntry))
  {
    var t := Next(s, WriteEntry);
    forall i | s.taken <= i < |s.accepted| ensures t.cells[i % Capacity(s)] == s.accepted[i] {
      SlotsDiffer(i, |s.accepted|, Capacity(s));
    }
  }

  lemma PublishKeeps<E>(s: State<E>)
    requires Inv(s) && s.poster.PWritten?
    ensures Inv(Next(s, PublishHead))
  {
    SuccIsMod(|s.accepted|, Capacity(s));
    var t := Next(s, PublishHead);
    forall i | s.taken <= i < |t.accepted| ensures t.cells[i % Capacity(s)] == t.accepted[i] {
      if i < |s.accepted| {
        assert t.accepted[i] == s.accepted[i];
      }
    }
  }

  lemma TakeKeeps<E>(s: State<E>)
    requires Inv(s) && s.flusher.FEmitted?
    ensures Inv(Next(s, PublishTail))
  {
    SuccIsMod(s.taken, Capacity(s));
  }

  lemma EmitKeeps<E>(s: State<E>)
    requires Inv(s) && s.flusher.FSome?
    ensures Inv(Next(s, Emit))
  {
    assert s.cells[s.taken % Capacity(s)] == s.accepted[s.taken];
  }

  lemma StepKeeps<E>(s: State<E>, a: Step<E>)
    requires Inv(s)
    ensures Inv(Next(s, a)) && Capacity(Next(s, a)) == Capacity(s)
  {
    TestsAreTrue(s);
    match a {
      case WriteEntry => if s.poster.PRoom? { WriteKeeps(s); }
      case PublishHead => if s.poster.PWritten? { PublishKeeps(s); }
      case Emit => if s.flusher.FSome? { EmitKeeps(s); }
      case PublishTail => if s.flusher.FEmitted? { TakeKeeps(s); }
      case _ =>
    }
  }

  function After<E>(s: State<E>, steps: seq<Step<E>>, n: nat): State<E>
    requires n <= |steps|
  {
    if n == 0 then s else Next(After(s, steps, n - 1), steps[n - 1])
  }

  lemma {:induction false} RunKeeps<E>(s: State<E>, steps: seq<Step<E>>, n: nat)
    requires Inv(s) && n <= |steps|
    ensures Inv(After(s, steps, n)) && Capacity(After(s, steps, n)) == Capacity(s)
  {
    if n > 0 {
      RunKeeps(s, steps, n - 1);
      StepKeeps(After(s, steps, n - 1), steps[n - 1]);
    }
  }

  /** Over every interleaving the sink has got a front of the accepted entries, at most capacity - 1 are pending. */
  lemma EmittedInOrder<E>(s: State<E>, steps: seq<Step<E>>, n: nat)
    requires Inv(s) && n <= |steps|
    ensures var t := After(s, steps, n); t.output <= t.accepted && |t.accepted| - |t.output| <= Capacity(s) - 1
  {
    RunKeeps(s, steps, n);
  }

  // ----- the ring itself -----

  class Log<E(0)> {
    const entries: array<E>
    var head: nat
    var tail: nat
    ghost var accepted: seq<E>
    ghost var dropped: nat
    /** What the sink has received. */
    ghost var output: seq<E>

    ghost function View(p: Poster<E>, f: Flusher, taken: nat): State<E>
      reads this, entries
    {
      State(entries[..], head, tail, p, f, accepted, dropped, taken, output)
    }

    ghost predicate Valid()
      reads this, entries
    {
      Inv(View(PIdle, FIdle, |output|))
    }

    ghost function Pending(): nat
      reads this, entries
      requires Valid()
    {
      |accepted| - |output|
    }

    constructor (storage: array<E>)
      requires storage.Length >= 2
      ensures Valid() && accepted == [] && output == [] && entries == storage
    {
      entries := storage;
      head, tail, accepted, dropped, output := 0, 0, [], 0, [];
    }

    /** Accepted exactly when there is a slot besides the empty one; otherwise dropped without blocking. */
    method PostFast(e: E)
      requires Valid()
      modifies this`head, this`accepted, this`dropped, entries
      ensures Valid() && |output| == |old(output)|
      ensures accepted == old(accepted) + if old(Pending()) < entries.Length - 1 then [e] else []
      ensures dropped == old(dropped) + if old(Pending()) < entries.Length - 1 then 0 else 1
    {
      ghost var s := View(PIdle, FIdle, |output|);
      TestsAreTrue(s);
      var next := Succ(head, entries.Length);
      if next == tail {
        dropped := dropped + 1;
        return;
      }
      ghost var s1 := Next(s, BeginPost(e));
      StepKeeps(s, BeginPost(e));
      StepKeeps(s1, WriteEntry);
      StepKeeps(Next(s1, WriteEntry), PublishHead);
      entries[head] := e;
      head := next;
      accepted := accepted + [e];
      assert entries[..] == s.cells[s.head := e];
    }

    /** One entry to the sink. */
    method EmitOne()
      requires Valid() && Pending() > 0
      modifies this`tail, this`output
      ensures Valid() && output == old(output) + [accepted[|old(output)|]]
    {
      ghost var s := View(PIdle, FIdle, |output|);
      TestsAreTrue(s);
      ghost var s1 := Next(s, BeginFlush);
      StepKeeps(s, BeginFlush);
      EmitKeeps(s1);
      StepKeeps(Next(s1, Emit), PublishTail);
      output := output + [entries[tail]];
      tail := Succ(tail, entries.Length);
    }

    /** As many as wanted, zero for all: oldest first, each once. */
    method Flush(max: nat) returns (flushed: nat)
      requires Valid()
      modifies this`tail, this`output
      ensures Valid() && flushed == if max > 0 && max < old(Pending()) then max else old(Pending())
      ensures output == accepted[..|old(output)| + flushed] && old(output) <= output
    {
      flushed := 0;
      TestsAreTrue(View(PIdle, FIdle, |output|));
      while tail != head
        invariant Valid() && old(output) <= output <= accepted && |output| == |old(output)| + flushed
        invariant tail != head <==> Pending() > 0
        invariant max > 0 ==> flushed <= max
        decreases |accepted| - |output|
      {
        if max > 0 && flushed >= max {
          break;
        }
        EmitOne();
        TestsAreTrue(View(PIdle, FIdle, |output|));
        flushed := flushed + 1;
      }
    }
  }

  /** A ring of fewer than two slots could hold nothing and is refused. */
  method Init<E(0)>(storage: array<E>) returns (st: Status, log: Log?<E>)
    ensures st == if storage.Length < 2 then InvalidArg else Ok
    ensures st == Ok <==> log != null
    ensures st == Ok ==> log.Valid() && log.accepted == [] && log.output == [] && log.entries == storage
  {
    if storage.Length < 2 {
      return InvalidArg, null;
    }
    st := Ok;
    log := new Log(storage);
  }
}
