/**
 * Whole calls of the lock-free ring under any interleaving: a write that finds room completes with as much as fits,
 * a read that finds elements completes with the oldest ones.
 */
module SpscCalls {
  import opened Words
  import opened Spsc

  predicate OfConsumer<T>(a: Step<T>) {
    a.StartRead? || a.CopyOut? || a.PublishTail?
  }

  predicate OfProducer<T>(a: Step<T>) {
    a.StartWrite? || a.CopyIn? || a.PublishHead?
  }

  /** How many cells the producer has tried to copy in the first i steps. */
  function CopyIns<T>(steps: seq<Step<T>>, i: nat): nat
    requires i <= |steps|
  {
    if i == 0 then 0 else CopyIns(steps, i - 1) + if steps[i - 1].CopyIn? then 1 else 0
  }

  function CopyOuts<T>(steps: seq<Step<T>>, i: nat): nat
    requires i <= |steps|
  {
    if i == 0 then 0 else CopyOuts(steps, i - 1) + if steps[i - 1].CopyOut? then 1 else 0
  }

  /** One call of the producer, with anything that the consumer does in between. */
  predicate WriteCall<T(==)>(steps: seq<Step<T>>, data: seq<T>) {
    && |steps| >= 2 && |data| > 0
    && steps[0] == StartWrite(data) && steps[|steps| - 1] == PublishHead
    && forall i :: 0 < i < |steps| - 1 ==> OfConsumer(steps[i]) || steps[i].CopyIn?
  }

  predicate ReadCall<T(==)>(steps: seq<Step<T>>, max: nat) {
    && |steps| >= 2 && max > 0
    && steps[0] == StartRead(max) && steps[|steps| - 1] == PublishTail
    && forall i :: 0 < i < |steps| - 1 ==> OfProducer(steps[i]) || steps[i].CopyOut?
  }

  // ----- the start of a call -----

  lemma QueueBounds<T>(s: State<T>)
    requires Inv(s)
    ensures |Queue(s)| <= s.capacity && Queue(s) == s.accepted[|s.received|..]
    ensures |s.received| + |Queue(s)| == |s.accepted|
  {
  }

  /** An idle producer is told that the ring is full exactly when it is; otherwise it starts with what fits. */
  lemma WriteStarts<T>(s: State<T>, data: seq<T>)
    requires Inv(s) && s.producer.PIdle? && |data| > 0
    ensures Next(s, StartWrite(data)).1 == Full <==> |Queue(s)| == s.capacity
    ensures |Queue(s)| < s.capacity ==>
              && Next(s, StartWrite(data)).1 == Silent
              && Next(s, StartWrite(data)).0.producer.PCopy?
              && Next(s, StartWrite(data)).0.producer.data == data[..Min(|data|, s.capacity - |Queue(s)|)]
              && Next(s, StartWrite(data)).0.producer.copied == 0
  {
    MinusIsDifference(|s.accepted|, |s.received|, s.word);
  }

  lemma ReadStarts<T>(s: State<T>, max: nat)
    requires Inv(s) && s.consumer.CIdle? && max > 0
    ensures Next(s, StartRead(max)).1 == Empty <==> Queue(s) == []
    ensures |Queue(s)| > 0 ==>
              && Next(s, StartRead(max)).1 == Silent
              && Next(s, StartRead(max)).0.consumer.CCopy?
              && Next(s, StartRead(max)).0.consumer.n == Min(max, |Queue(s)|)
              && Next(s, StartRead(max)).0.consumer.out == []
  {
    MinusIsDifference(|s.accepted|, |s.received|, s.word);
  }

  // ----- the copy -----

  /** The producer has copied c cells of these. */
  predicate Writing<T(==)>(s: State<T>, data: seq<T>, c: nat) {
    s.producer.PCopy? && s.producer.data == data && s.producer.copied == Min(c, |data|)
  }

  predicate Reading<T>(s: State<T>, n: nat, c: nat) {
    s.consumer.CCopy? && s.consumer.n == n && |s.consumer.out| == Min(c, n)
  }

  lemma ConsumerLeaves<T>(s: State<T>, a: Step<T>)
    requires OfConsumer(a)
    ensures Next(s, a).0.producer == s.producer
  {
  }

  lemma ProducerLeaves<T>(s: State<T>, a: Step<T>)
    requires OfProducer(a)
    ensures Next(s, a).0.consumer == s.consumer
  {
  }

  lemma CopyInGoesOn<T>(s: State<T>, data: seq<T>, c: nat)
    requires Inv(s) && Writing(s, data, c)
    ensures Writing(Next(s, CopyIn).0, data, c + 1)
  {
  }

  lemma CopyOutGoesOn<T>(s: State<T>, n: nat, c: nat)
    requires Inv(s) && Reading(s, n, c)
    ensures Reading(Next(s, CopyOut).0, n, c + 1)
  {
  }

  lemma {:induction false} WriteGoesOn<T>(s: State<T>, steps: seq<Step<T>>, data: seq<T>, i: nat)
    requires Inv(s) && s.producer.PIdle? && |Queue(s)| < s.capacity
    requires WriteCall(steps, data) && 0 < i < |steps|
    ensures Writing(After(s, steps, i), data[..Min(|data|, s.capacity - |Queue(s)|)], CopyIns(steps, i))
  {
    hide Next, Inv, Queue;
    QueueBounds(s);
    if i == 1 {
      WriteStarts(s, data);
      assert After(s, steps, 0) == s && CopyIns(steps, 0) == 0;
    } else {
      WriteGoesOn(s, steps, data, i - 1);
      RunInv(s, steps, i - 1);
      if steps[i - 1].CopyIn? {
        CopyInGoesOn(After(s, steps, i - 1), data[..Min(|data|, s.capacity - |Queue(s)|)], CopyIns(steps, i - 1));
      } else {
        ConsumerLeaves(After(s, steps, i - 1), steps[i - 1]);
      }
    }
  }

  lemma {:induction false} ReadGoesOn<T>(s: State<T>, steps: seq<Step<T>>, max: nat, i: nat)
    requires Inv(s) && s.consumer.CIdle? && |Queue(s)| > 0
    requires ReadCall(steps, max) && 0 < i < |steps|
    ensures Reading(After(s, steps, i), Min(max, |Queue(s)|), CopyOuts(steps, i))
    ensures After(s, steps, i).received == s.received && s.accepted <= After(s, steps, i).accepted
  {
    hide Next, Inv, Queue;
    QueueBounds(s);
    if i == 1 {
      ReadStarts(s, max);
      assert After(s, steps, 0) == s && CopyOuts(steps, 0) == 0;
      StartLeaves(s, max);
    } else {
      ReadGoesOn(s, steps, max, i - 1);
      RunInv(s, steps, i - 1);
      var t := After(s, steps, i - 1);
      if steps[i - 1].CopyOut? {
        CopyOutGoesOn(t, Min(max, |Queue(s)|), CopyOuts(steps, i - 1));
      } else {
        ProducerLeaves(t, steps[i - 1]);
      }
      HistoriesGrow(t, steps[i - 1]);
    }
  }

  lemma StartLeaves<T>(s: State<T>, max: nat)
    ensures Next(s, StartRead(max)).0.received == s.received && Next(s, StartRead(max)).0.accepted == s.accepted
  {
  }

  lemma HistoriesGrow<T>(s: State<T>, a: Step<T>)
    ensures s.accepted <= Next(s, a).0.accepted
    ensures !a.PublishTail? ==> Next(s, a).0.received == s.received
  {
  }

  // ----- the end of a call -----

  lemma WriteEnds<T>(s: State<T>, data: seq<T>, c: nat)
    requires Inv(s) && Writing(s, data, c)
    ensures Next(s, PublishHead).1 == if c < |data| then Silent else Enqueued(data)
  {
  }

  lemma ReadEnds<T>(s: State<T>, n: nat, c: nat, base: seq<T>)
    requires Inv(s) && Reading(s, n, c) && base <= s.accepted && |s.received| + n <= |base|
    ensures Next(s, PublishTail).1 == if c < n then Silent else Dequeued(base[|s.received|..][..n])
  {
    if c >= n {
      assert s.consumer.out == base[|s.received|..][..n];
    }
  }

  /**
   * A call that writes data to a ring that is not full: whatever the consumer does meanwhile, it publishes exactly
   * the front of the data that there was room for, and not before all of that is copied.
   */
  lemma WriteCompletes<T>(s: State<T>, steps: seq<Step<T>>, data: seq<T>)
    requires Inv(s) && s.producer.PIdle? && WriteCall(steps, data)
    ensures Shown(s, steps, 0) == Full <==> |Queue(s)| == s.capacity
    ensures |Queue(s)| < s.capacity ==>
              var n := Min(|data|, s.capacity - |Queue(s)|);
              && Shown(s, steps, 0) == Silent
              && Shown(s, steps, |steps| - 1) == if CopyIns(steps, |steps|) < n then Silent else Enqueued(data[..n])
  {
    hide Next, Inv, Queue;
    QueueBounds(s);
    WriteStarts(s, data);
    assert After(s, steps, 0) == s;
    if |Queue(s)| < s.capacity {
      var last, n := |steps| - 1, Min(|data|, s.capacity - |Queue(s)|);
      WriteGoesOn(s, steps, data, last);
      RunInv(s, steps, last);
      WriteEnds(After(s, steps, last), data[..n], CopyIns(steps, last));
    }
  }

  /** A call that reads from a ring that is not empty gets exactly the oldest elements that were there. */
  lemma ReadCompletes<T>(s: State<T>, steps: seq<Step<T>>, max: nat)
    requires Inv(s) && s.consumer.CIdle? && ReadCall(steps, max)
    ensures Shown(s, steps, 0) == Empty <==> Queue(s) == []
    ensures |Queue(s)| > 0 ==>
              var n := Min(max, |Queue(s)|);
              && Shown(s, steps, 0) == Silent
              && Shown(s, steps, |steps| - 1)
                 == if CopyOuts(steps, |steps|) < n then Silent else Dequeued(Queue(s)[..n])
  {
    hide Next, Inv, Queue;
    ReadStarts(s, max);
    QueueBounds(s);
    assert After(s, steps, 0) == s;
    if |Queue(s)| > 0 {
      var last, n := |steps| - 1, Min(max, |Queue(s)|);
      ReadGoesOn(s, steps, max, last);
      RunInv(s, steps, last);
      ReadEnds(After(s, steps, last), n, CopyOuts(steps, last), s.accepted);
    }
  }
}
