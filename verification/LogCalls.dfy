/** Whole calls of the deferred logger under any interleaving of posting and flushing. */
module LogCalls {
  import opened LogRing

  predicate OfFlusher<E>(a: Step<E>) {
    a.BeginFlush? || a.Emit? || a.PublishTail?
  }

  predicate OfPoster<E>(a: Step<E>) {
    a.BeginPost? || a.WriteEntry? || a.PublishHead?
  }

  /** One post, whose entry is written at step w, with anything that the flusher does in between. */
  predicate PostCall<E(==)>(steps: seq<Step<E>>, e: E, w: nat) {
    && 0 < w < |steps| - 1
    && steps[0] == BeginPost(e) && steps[w] == WriteEntry && steps[|steps| - 1] == PublishHead
    && forall i :: 0 < i < |steps| - 1 && i != w ==> OfFlusher(steps[i])
  }

  /** One turn of the flush loop. */
  predicate FlushTurn<E(==)>(steps: seq<Step<E>>, w: nat) {
    && 0 < w < |steps| - 1
    && steps[0] == BeginFlush && steps[w] == Emit && steps[|steps| - 1] == PublishTail
    && forall i :: 0 < i < |steps| - 1 && i != w ==> OfPoster(steps[i])
  }

  predicate HasRoom<E>(s: State<E>) {
    |s.accepted| < s.taken + Capacity(s) - 1
  }

  // ----- what the other side leaves alone -----

  lemma FlusherLeaves<E>(s: State<E>, a: Step<E>)
    requires OfFlusher(a)
    ensures Next(s, a).poster == s.poster && Next(s, a).accepted == s.accepted && Next(s, a).dropped == s.dropped
  {
  }

  lemma PosterLeaves<E>(s: State<E>, a: Step<E>)
    requires OfPoster(a)
    ensures Next(s, a).flusher == s.flusher && Next(s, a).output == s.output && Next(s, a).taken == s.taken
    ensures s.accepted <= Next(s, a).accepted
  {
  }

  // ----- a post -----

  lemma PostStarts<E>(s: State<E>, e: E)
    requires Inv(s) && s.poster.PIdle?
    ensures var t := Next(s, BeginPost(e));
      && t.accepted == s.accepted && t.dropped == s.dropped + (if HasRoom(s) then 0 else 1)
      && t.poster == if HasRoom(s) then PRoom(e) else PIdle
  {
    TestsAreTrue(s);
  }

  lemma PostWrites<E>(s: State<E>)
    requires Inv(s)
    ensures var t := Next(s, WriteEntry);
      && t.accepted == s.accepted && t.dropped == s.dropped
      && t.poster == if s.poster.PRoom? then PWritten(s.poster.e) else s.poster
  {
  }

  lemma PostEnds<E>(s: State<E>)
    requires Inv(s)
    ensures var t := Next(s, PublishHead);
      && t.accepted == s.accepted + (if s.poster.PWritten? then [s.poster.e] else []) && t.dropped == s.dropped
      && t.poster == if s.poster.PWritten? then PIdle else s.poster
  {
  }

  lemma {:induction false} PostGoesOn<E>(s: State<E>, steps: seq<Step<E>>, e: E, w: nat, i: nat)
    requires Inv(s) && s.poster.PIdle? && PostCall(steps, e, w) && 0 < i < |steps|
    ensures var t := After(s, steps, i);
      && t.accepted == s.accepted && t.dropped == s.dropped + (if HasRoom(s) then 0 else 1)
      && t.poster == if !HasRoom(s) then PIdle else if i <= w then PRoom(e) else PWritten(e)
  {
    hide Next, Inv, HasRoom;
    if i == 1 {
      PostStarts(s, e);
      assert After(s, steps, 0) == s;
    } else {
      PostGoesOn(s, steps, e, w, i - 1);
      RunKeeps(s, steps, i - 1);
      if i - 1 == w {
        PostWrites(After(s, steps, i - 1));
      } else {
        FlusherLeaves(After(s, steps, i - 1), steps[i - 1]);
      }
    }
  }

  /** A post appends its entry exactly if there was room when it began, whatever the flusher does, else counts it. */
  lemma PostCompletes<E>(s: State<E>, steps: seq<Step<E>>, e: E, w: nat)
    requires Inv(s) && s.poster.PIdle? && PostCall(steps, e, w)
    ensures var t := After(s, steps, |steps|);
      && t.poster.PIdle?
      && t.accepted == s.accepted + (if HasRoom(s) then [e] else [])
      && t.dropped == s.dropped + (if HasRoom(s) then 0 else 1)
  {
    hide Next, Inv, HasRoom;
    PostGoesOn(s, steps, e, w, |steps| - 1);
    RunKeeps(s, steps, |steps| - 1);
    PostEnds(After(s, steps, |steps| - 1));
  }

  // ----- a turn of the flush loop -----

  lemma InvBounds<E>(s: State<E>)
    requires Inv(s)
    ensures s.taken <= |s.accepted|
  {
  }

  lemma FlushStarts<E>(s: State<E>)
    requires Inv(s) && s.flusher.FIdle?
    ensures var t := Next(s, BeginFlush);
      && t.output == s.output && t.taken == s.taken && t.accepted == s.accepted
      && t.flusher == if s.taken < |s.accepted| then FSome else FIdle
  {
    TestsAreTrue(s);
  }

  lemma FlushEmits<E>(s: State<E>)
    requires Inv(s)
    ensures var t := Next(s, Emit);
      && t.taken == s.taken && t.accepted == s.accepted
      && t.flusher == (if s.flusher.FSome? then FEmitted else s.flusher)
      && t.output == s.output + if s.flusher.FSome? then [s.accepted[s.taken]] else []
  {
    if s.flusher.FSome? {
      assert s.cells[s.taken % Capacity(s)] == s.accepted[s.taken];
    }
  }

  lemma FlushEnds<E>(s: State<E>)
    requires Inv(s)
    ensures var t := Next(s, PublishTail);
      && t.output == s.output && t.taken == s.taken + (if s.flusher.FEmitted? then 1 else 0)
      && t.flusher == if s.flusher.FEmitted? then FIdle else s.flusher
  {
  }

  lemma {:induction false} FlushGoesOn<E>(s: State<E>, steps: seq<Step<E>>, w: nat, i: nat)
    requires Inv(s) && s.flusher.FIdle? && FlushTurn(steps, w) && 0 < i < |steps|
    ensures var t := After(s, steps, i);
      && t.taken == s.taken && s.accepted <= t.accepted
      && t.flusher == (if s.taken == |s.accepted| then FIdle else if i <= w then FSome else FEmitted)
      && t.output == s.output + if s.taken < |s.accepted| && w < i then [s.accepted[s.taken]] else []
  {
    hide Next;
    if i == 1 {
      FlushStarts(s);
      assert After(s, steps, 0) == s;
    } else {
      FlushGoesOn(s, steps, w, i - 1);
      RunKeeps(s, steps, i - 1);
      if i - 1 == w {
        FlushEmits(After(s, steps, i - 1));
      } else {
        PosterLeaves(After(s, steps, i - 1), steps[i - 1]);
      }
    }
  }

  /** A turn of the flush loop gives the sink the oldest entry, if there was one, and frees its slot. */
  lemma FlushCompletes<E>(s: State<E>, steps: seq<Step<E>>, w: nat)
    requires Inv(s) && s.flusher.FIdle? && FlushTurn(steps, w)
    ensures var t := After(s, steps, |steps|);
      && t.flusher.FIdle?
      && t.taken == s.taken + (if s.taken < |s.accepted| then 1 else 0)
      && t.output == s.output + if s.taken < |s.accepted| then [s.accepted[s.taken]] else []
  {
    hide Next, Inv;
    InvBounds(s);
    FlushGoesOn(s, steps, w, |steps| - 1);
    RunKeeps(s, steps, |steps| - 1);
    FlushEnds(After(s, steps, |steps| - 1));
  }
}
