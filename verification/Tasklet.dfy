/**
 * Deferred work: a queue of handler calls, drained by the main loop, where a running handler may post more work.
 * The storage is the ring of the lock-free queues; the tail moves on before the handler runs.
 */
module Tasklet {
  import opened Bytes
  import opened Words
  import opened Spsc

  /** Handler (zero stands for the null pointer), context and argument. */
  datatype Item = Item(handler: nat, context: nat, arg: U32)

  /** What a handler tries to post, given how many handlers have run before it and the call itself. */
  type Behaviour = (nat, Item) -> seq<Item>

  /** Of the posts in turn: null handlers are refused, and everything is once there is no room. */
  function Admitted(xs: seq<Item>, room: nat): (r: seq<Item>)
    ensures |r| <= room && |r| <= |xs|
  {
    if |xs| == 0 then []
    else
      var front, x := Admitted(xs[..|xs| - 1], room), xs[|xs| - 1];
      if x.handler == 0 || |front| == room then front else front + [x]
  }

  // ----- draining, as a run of dispatches -----

  /** The pending work after one run. */
  function Rest(posts: Behaviour, capacity: nat, q: seq<Item>, runs: nat): (r: seq<Item>)
    requires 0 < |q| <= capacity
    ensures |r| <= capacity
  {
    q[1..] + Admitted(posts(runs, q[0]), capacity - (|q| - 1))
  }

  /** The queue after k dispatches; dispatching an empty queue does nothing. */
  function Left(posts: Behaviour, capacity: nat, q: seq<Item>, runs: nat, k: nat): (r: seq<Item>)
    requires |q| <= capacity
    ensures |r| <= capacity
  {
    if k == 0 then q
    else
      var r := Left(posts, capacity, q, runs, k - 1);
      if |r| == 0 then [] else Rest(posts, capacity, r, runs + (k - 1))
  }

  /** The calls that k dispatches make, in order. */
  function Ran(posts: Behaviour, capacity: nat, q: seq<Item>, runs: nat, k: nat): seq<Item>
    requires |q| <= capacity
  {
    if k == 0 then []
    else
      var r := Left(posts, capacity, q, runs, k - 1);
      Ran(posts, capacity, q, runs, k - 1) + if |r| == 0 then [] else [r[0]]
  }

  /** What these calls post, as far as it is admitted. */
  function Added(posts: Behaviour, capacity: nat, q: seq<Item>, runs: nat, k: nat): seq<Item>
    requires |q| <= capacity
  {
    if k == 0 then []
    else
      var r := Left(posts, capacity, q, runs, k - 1);
      Added(posts, capacity, q, runs, k - 1)
      + if |r| == 0 then [] else Admitted(posts(runs + (k - 1), r[0]), capacity - (|r| - 1))
  }

  function Posted(posts: Behaviour, capacity: nat, q: seq<Item>, runs: nat, k: nat): nat
    requires |q| <= capacity
  {
    |Added(posts, capacity, q, runs, k)|
  }

  lemma AtFirst(posts: Behaviour, capacity: nat, q: seq<Item>, runs: nat)
    requires |q| <= capacity
    ensures Left(posts, capacity, q, runs, 0) == q && Ran(posts, capacity, q, runs, 0) == []
  {
  }

  /** One dispatch more. */
  lemma NextDispatch(posts: Behaviour, capacity: nat, q: seq<Item>, runs: nat, k: nat, e: seq<Item>)
    requires |q| <= capacity && |Left(posts, capacity, q, runs, k)| > 0
    ensures var r := Left(posts, capacity, q, runs, k);
      && Left(posts, capacity, q, runs, k + 1) == Rest(posts, capacity, r, runs + k)
      && (e + Ran(posts, capacity, q, runs, k)) + [r[0]] == e + Ran(posts, capacity, q, runs, k + 1)
  {
    hide Admitted;
  }

  lemma Moves(q: seq<Item>, ran: seq<Item>, r: seq<Item>, added: seq<Item>, more: seq<Item>)
    requires |r| > 0 && ran + r == q + added
    ensures (ran + [r[0]]) + (r[1..] + more) == q + (added + more)
  {
    assert r == [r[0]] + r[1..];
    assert (ran + [r[0]]) + (r[1..] + more) == (ran + r) + more;
  }

  lemma NothingMoves(q: seq<Item>, ran: seq<Item>, added: seq<Item>)
    requires ran + [] == q + added
    ensures (ran + []) + [] == q + (added + [])
  {
    assert ran + [] == ran && added + [] == added;
  }

  /** Exactly once, in posting order: what has run, then what is pending, is what was there and what was added. */
  lemma {:induction false} Conserved(posts: Behaviour, capacity: nat, q: seq<Item>, runs: nat, k: nat)
    requires |q| <= capacity
    ensures Ran(posts, capacity, q, runs, k) + Left(posts, capacity, q, runs, k)
            == q + Added(posts, capacity, q, runs, k)
  {
    hide Admitted;
    if k > 0 {
      Conserved(posts, capacity, q, runs, k - 1);
      var r := Left(posts, capacity, q, runs, k - 1);
      if |r| > 0 {
        Moves(q, Ran(posts, capacity, q, runs, k - 1), r, Added(posts, capacity, q, runs, k - 1),
              Admitted(posts(runs + (k - 1), r[0]), capacity - (|r| - 1)));
      } else {
        NothingMoves(q, Ran(posts, capacity, q, runs, k - 1), Added(posts, capacity, q, runs, k - 1));
      }
    }
  }

  /** While the queue is not empty every dispatch makes a call; once it is empty nothing changes any more. */
  lemma {:induction false} RunsOrStops(posts: Behaviour, capacity: nat, q: seq<Item>, runs: nat, k: nat)
    requires |q| <= capacity
    ensures |Ran(posts, capacity, q, runs, k)| <= k
    ensures |Ran(posts, capacity, q, runs, k)| < k ==> Left(posts, capacity, q, runs, k) == []
  {
    if k > 0 {
      RunsOrStops(posts, capacity, q, runs, k - 1);
    }
  }

  /** Everything that is pending at the start runs, first and in order, whatever is posted later. */
  lemma PendingRunsFirst(posts: Behaviour, capacity: nat, q: seq<Item>, runs: nat, k: nat)
    requires |q| <= capacity
    ensures k <= |q| ==> Ran(posts, capacity, q, runs, k) == q[..k]
    ensures k >= |q| ==> q <= Ran(posts, capacity, q, runs, k)
  {
    var ran, rest := Ran(posts, capacity, q, runs, k), Left(posts, capacity, q, runs, k);
    Conserved(posts, capacity, q, runs, k);
    RunsOrStops(posts, capacity, q, runs, k);
    assert forall i :: 0 <= i < |q| ==> (ran + rest)[i] == q[i];
  }

  // ----- when draining ends -----

  ghost predicate Bounded(posts: Behaviour, capacity: nat, q: seq<Item>, runs: nat, b: nat)
    requires |q| <= capacity
  {
    forall k: nat :: Posted(posts, capacity, q, runs, k) <= b
  }

  /** With b posts at most, all of them and what was pending have run after as many dispatches. */
  lemma BoundedEnds(posts: Behaviour, capacity: nat, q: seq<Item>, runs: nat, b: nat)
    requires |q| <= capacity && Bounded(posts, capacity, q, runs, b)
    ensures Left(posts, capacity, q, runs, |q| + b) == []
  {
    hide Ran, Left, Added;
    Conserved(posts, capacity, q, runs, |q| + b);
    RunsOrStops(posts, capacity, q, runs, |q| + b);
    assert Posted(posts, capacity, q, runs, |q| + b) <= b;
  }

  /** As long as every dispatch made a call, there were as many as were pending or posted, less those pending now. */
  lemma CountIsBounded(posts: Behaviour, capacity: nat, q: seq<Item>, runs: nat, count: nat, b: nat)
    requires |q| <= capacity && Bounded(posts, capacity, q, runs, b)
    requires |Ran(posts, capacity, q, runs, count)| == count
    ensures count + |Left(posts, capacity, q, runs, count)| == |q| + Posted(posts, capacity, q, runs, count) <= |q| + b
  {
    hide Ran, Left, Added;
    Conserved(posts, capacity, q, runs, count);
    assert Posted(posts, capacity, q, runs, count) <= b;
  }

  lemma {:induction false} StaysEmpty(posts: Behaviour, capacity: nat, q: seq<Item>, runs: nat, j: nat, k: nat)
    requires |q| <= capacity && j <= k && Left(posts, capacity, q, runs, j) == []
    ensures Left(posts, capacity, q, runs, k) == []
    ensures Posted(posts, capacity, q, runs, k) == Posted(posts, capacity, q, runs, j)
    decreases k - j
  {
    if j < k {
      StaysEmpty(posts, capacity, q, runs, j, k - 1);
    }
  }

  lemma {:induction false} PostedGrows(posts: Behaviour, capacity: nat, q: seq<Item>, runs: nat, j: nat, k: nat)
    requires |q| <= capacity && j <= k
    ensures Posted(posts, capacity, q, runs, j) <= Posted(posts, capacity, q, runs, k)
    decreases k - j
  {
    if j < k {
      PostedGrows(posts, capacity, q, runs, j, k - 1);
    }
  }

  /** Draining ends if and only if there is a bound on what is posted along the way. */
  lemma EndsExactly(posts: Behaviour, capacity: nat, q: seq<Item>, runs: nat)
    requires |q| <= capacity
    ensures (exists k: nat :: Left(posts, capacity, q, runs, k) == [])
            <==> (exists b: nat :: Bounded(posts, capacity, q, runs, b))
  {
    if k: nat :| Left(posts, capacity, q, runs, k) == [] {
      var b := Posted(posts, capacity, q, runs, k);
      forall j: nat ensures Posted(posts, capacity, q, runs, j) <= b {
        if j <= k {
          PostedGrows(posts, capacity, q, runs, j, k);
        } else {
          StaysEmpty(posts, capacity, q, runs, k, j);
        }
      }
      assert Bounded(posts, capacity, q, runs, b);
    }
    if b: nat :| Bounded(posts, capacity, q, runs, b) {
      BoundedEnds(posts, capacity, q, runs, b);
    }
  }

  /** A handler that posts itself again keeps the loop going for ever. */
  lemma {:induction false} RepostingNeverEnds(posts: Behaviour, capacity: nat, x: Item, runs: nat, k: nat)
    requires capacity > 0 && x.handler != 0 && forall j: nat :: posts(j, x) == [x]
    ensures Left(posts, capacity, [x], runs, k) == [x]
  {
    if k > 0 {
      RepostingNeverEnds(posts, capacity, x, runs, k - 1);
      assert [x][..0] == [];
      assert Admitted([x], capacity) == [x];
    }
  }

  lemma Oldest(accepted: seq<Item>, r: seq<Item>, r': seq<Item>, q: seq<Item>)
    requires r <= accepted && r' <= accepted && accepted[|r|..] == q && |q| > 0 && accepted[|r'|..] == q[1..]
    ensures r' == r + [q[0]]
  {
    assert |r'| == |r| + 1;
    assert accepted[|r|] == q[0];
  }

  class Queue {
    const ring: Ring<Item>
    const posts: Behaviour
    var runs: nat
    ghost var executed: seq<Item>

    /** Exactly once, in posting order: what has run is the front of what was accepted, the rest is pending. */
    ghost predicate Valid()
      reads this, ring, ring.buffer
    {
      ring.Valid() && executed == ring.received && runs == |executed|
    }

    ghost function Pending(): seq<Item>
      reads this, ring, ring.buffer
      requires Valid()
    {
      ring.Contents()
    }

    constructor (storage: array<Item>, word: nat, behaviour: Behaviour)
      requires PowerOfTwo(storage.Length) && PowerOfTwo(word) && storage.Length < word
      ensures Valid() && Pending() == [] && executed == [] && posts == behaviour
      ensures fresh(ring) && ring.buffer == storage
    {
      ring := new Ring(storage, word);
      posts := behaviour;
      runs, executed := 0, [];
    }

    lemma Partition()
      requires Valid()
      ensures ring.accepted == executed + Pending()
    {
    }

    /** A post, from outside or from a running handler, when the queue itself may already have moved on. */
    method Post(handler: nat, context: nat, arg: U32) returns (st: Status)
      requires ring.Valid()
      modifies ring`head, ring`accepted, ring.buffer
      ensures ring.Valid()
      ensures st == if handler == 0 then InvalidArg
                    else if |old(ring.Contents())| == ring.buffer.Length then BufferOverflow else Ok
      ensures ring.Contents() == old(ring.Contents()) + if st == Ok then [Item(handler, context, arg)] else []
    {
      if handler == 0 {
        return InvalidArg;
      }
      var ok := ring.Push(Item(handler, context, arg));
      st := if ok then Ok else BufferOverflow;
    }

    /** The call itself: the handler tries its posts one by one. */
    method RunHandler(x: Item, ghost q: seq<Item>, ghost room: nat)
      requires ring.Valid() && ring.Contents() == q && |q| + room == ring.buffer.Length
      modifies ring`head, ring`accepted, ring.buffer
      ensures ring.Valid() && ring.received == old(ring.received)
      ensures ring.Contents() == q + Admitted(posts(runs, x), room)
    {
      var xs := posts(runs, x);
      for k := 0 to |xs|
        invariant ring.Valid() && ring.received == old(ring.received)
        invariant ring.Contents() == q + Admitted(xs[..k], room)
      {
        assert xs[..k + 1][..k] == xs[..k];
        var st := Post(xs[k].handler, xs[k].context, xs[k].arg);
      }
      assert xs[..|xs|] == xs;
    }

    /** The oldest call, taken off the queue. */
    method TakeOldest() returns (x: Option<Item>)
      requires ring.Valid()
      modifies ring`tail, ring`received
      ensures ring.Valid() && ring.accepted == old(ring.accepted)
      ensures x == if |old(ring.Contents())| == 0 then None else Some(old(ring.Contents())[0])
      ensures ring.Contents() == if x.None? then old(ring.Contents()) else old(ring.Contents())[1..]
      ensures ring.received == if x.None? then old(ring.received) else old(ring.received) + [x.value]
    {
      var cell := new Item[1];
      ghost var q, r := ring.Contents(), ring.received;
      var any := ring.Pop(cell);
      if !any {
        return None;
      }
      Oldest(ring.accepted, r, ring.received, q);
      x := Some(cell[0]);
    }

    /** The call that was taken off runs. */
    method Execute(x: Item, ghost q: seq<Item>, ghost room: nat)
      requires ring.Valid() && ring.Contents() == q && |q| + room == ring.buffer.Length
      requires ring.received == executed + [x] && runs == |executed|
      modifies this`runs, this`executed, ring`head, ring`accepted, ring.buffer
      ensures Valid() && executed == old(executed) + [x] && runs == old(runs) + 1
      ensures Pending() == q + Admitted(posts(old(runs), x), room)
    {
      RunHandler(x, q, room);
      runs := runs + 1;
      executed := executed + [x];
    }

    /** One dispatch: the oldest call is taken off the queue, then made. */
    method DispatchOne() returns (any: bool)
      requires Valid()
      modifies this`runs, this`executed, ring, ring.buffer
      ensures Valid() && (any <==> |old(Pending())| > 0)
      ensures !any ==> Pending() == old(Pending()) && executed == old(executed)
      ensures any ==> executed == old(executed) + [old(Pending())[0]]
                      && Pending() == old(Rest(posts, ring.buffer.Length, Pending(), runs))
    {
      hide Admitted;
      ghost var q := Pending();
      var x := TakeOldest();
      any := x.Some?;
      if any {
        Execute(x.value, q[1..], ring.buffer.Length - (|q| - 1));
      }
    }

    /** One round of draining: the dispatch number k of a run that began with the queue q. */
    method Advance(ghost q: seq<Item>, ghost e: seq<Item>, ghost k: nat) returns (any: bool)
      requires Valid() && |q| <= ring.buffer.Length && runs == |e| + k
      requires Pending() == Left(posts, ring.buffer.Length, q, |e|, k)
      requires executed == e + Ran(posts, ring.buffer.Length, q, |e|, k)
      modifies this`runs, this`executed, ring, ring.buffer
      ensures Valid() && (any <==> old(Pending()) != [])
      ensures !any ==> Pending() == [] && executed == old(executed) && runs == old(runs)
      ensures any ==>
                && Pending() == Left(posts, ring.buffer.Length, q, |e|, k + 1)
                && executed == e + Ran(posts, ring.buffer.Length, q, |e|, k + 1)
                && runs == |e| + k + 1
    {
      hide Left, Ran, Rest;
      if Pending() != [] {
        NextDispatch(posts, ring.buffer.Length, q, |e|, k, e);
      }
      any := DispatchOne();
    }

    /**
     * Dispatching until the queue is empty. It ends when what is posted along the way is bounded, and only then;
     * everything accepted has then run exactly once, in posting order.
     */
    method DispatchAll(ghost b: nat) returns (count: nat)
      requires Valid() && Bounded(posts, ring.buffer.Length, Pending(), runs, b)
      modifies this`runs, this`executed, ring, ring.buffer
      ensures Valid() && Pending() == [] && executed == ring.accepted
      ensures executed == old(executed) + Ran(posts, ring.buffer.Length, old(Pending()), old(runs), count)
      ensures count == |old(Pending())| + Posted(posts, ring.buffer.Length, old(Pending()), old(runs), count)
      ensures forall j: nat :: j < count ==> Left(posts, ring.buffer.Length, old(Pending()), old(runs), j) != []
      ensures Left(posts, ring.buffer.Length, old(Pending()), old(runs), count) == []
    {
      hide Left, Ran, Bounded, Posted;
      count := 0;
      ghost var q, e, cap := Pending(), executed, ring.buffer.Length;
      AtFirst(posts, cap, q, |e|);
      var any := true;
      while any
        invariant Valid() && runs == |e| + count && (any || Pending() == [])
        invariant Pending() == Left(posts, cap, q, |e|, count)
        invariant executed == e + Ran(posts, cap, q, |e|, count)
        invariant forall j: nat :: j < count ==> Left(posts, cap, q, |e|, j) != []
        decreases |q| + b - count, any
      {
        CountIsBounded(posts, cap, q, |e|, count, b);
        any := Advance(q, e, count);
        if any {
          count := count + 1;
        }
      }
      CountIsBounded(posts, cap, q, |e|, count, b);
      Partition();
    }
  }

  /** Initialisation checks the capacity by its mask. */
  method Init(storage: array<Item>, word: nat, behaviour: Behaviour) returns (st: Status, queue: Queue?)
    requires PowerOfTwo(word) && storage.Length < word
    ensures st == if PowerOfTwo(storage.Length) then Ok else InvalidArg
    ensures st == Ok <==> queue != null
    ensures st == Ok ==> queue.Valid() && queue.Pending() == [] && queue.executed == [] && queue.posts == behaviour
  {
    if storage.Length == 0 {
      return InvalidArg, null;
    }
    MaskTest(storage.Length);
    if BitAnd(storage.Length, storage.Length - 1) != 0 {
      return InvalidArg, null;
    }
    st := Ok;
    queue := new Queue(storage, word, behaviour);
  }
}
