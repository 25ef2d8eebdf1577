/** What a compaction leaves that is cut off after any of its flash calls. */
module NvsPoints {
  import opened Bytes
  import opened NvsLog
  import opened NvsCompaction

  // ----- a copy that stopped in the middle of a record -----

  /** The record that a reader sees when only the first d bytes of r are programmed. */
  function Partial(r: Rec, d: nat): Rec
    requires RECORD_HDR <= d
  {
    r.(payload := seq(|r.payload|, k requires 0 <= k < |r.payload| =>
                      if RECORD_HDR + k < d then r.payload[k] else 0xFF))
  }

  /** How far a copy has come: n records are done, and of the next one, if it survives, d bytes are copied. */
  datatype Pos = Pos(n: nat, d: nat)

  predicate InCopy(log: seq<Rec>, p: Pos) {
    p.n <= |log| && (p.d > 0 ==> p.n < |log| && Survives(log, p.n) && RECORD_HDR <= p.d)
  }

  /** What the destination holds at this point of the copy. */
  function CopiedSoFar(log: seq<Rec>, p: Pos): seq<Rec>
    requires InCopy(log, p)
  {
    if p.d == 0 then Kept(log, p.n) else Kept(log, p.n) + [Partial(log[p.n], p.d)]
  }

  const CHUNK: nat := 128

  function ChunkEnd(copied: nat, total: nat): nat {
    if total - copied > CHUNK then copied + CHUNK else total
  }

  /** The points that the flash calls reach which copy the rest of record n, at most 128 bytes each. */
  function Chunks(n: nat, copied: nat, total: nat): seq<Pos>
    decreases total - copied
  {
    if copied >= total then []
    else [Pos(n, ChunkEnd(copied, total))] + Chunks(n, ChunkEnd(copied, total), total)
  }

  /** As many calls as there are begun pieces of 128 bytes. */
  lemma {:induction false} ChunkCount(n: nat, copied: nat, total: nat)
    requires copied <= total
    ensures |Chunks(n, copied, total)| == (total - copied + 127) / 128
    decreases total - copied
  {
    if copied < total {
      ChunkCount(n, ChunkEnd(copied, total), total);
    }
  }

  function Turn(log: seq<Rec>, n: nat): seq<Pos>
    requires n < |log|
  {
    if Survives(log, n) then Chunks(n, 0, Size(log[n])) else []
  }

  /** The points that the first n turns of the copy loop reach, one for each flash call. */
  function Turns(log: seq<Rec>, n: nat): seq<Pos>
    requires n <= |log|
  {
    if n == 0 then [] else Turns(log, n - 1) + Turn(log, n - 1)
  }

  /** The points at which a power cut can catch a compaction: after its header call, and after every copying call. */
  function Points(log: seq<Rec>): seq<Pos> {
    [Pos(0, 0)] + Turns(log, |log|)
  }

  // ----- the points, in order -----

  predicate Before(p: Pos, q: Pos) {
    p.n < q.n || (p.n == q.n && p.d < q.d)
  }

  predicate Increasing(at: seq<Pos>) {
    forall i, j :: 0 <= i < j < |at| ==> Before(at[i], at[j])
  }

  /** Points of record n alone, with more than `low` and at most `high` bytes copied. */
  predicate Within(at: seq<Pos>, n: nat, low: nat, high: nat) {
    forall i :: 0 <= i < |at| ==> at[i].n == n && low < at[i].d <= high && RECORD_HDR <= at[i].d
  }

  lemma {:induction false} ChunksWithin(n: nat, copied: nat, total: nat)
    requires copied == 0 || RECORD_HDR <= copied
    requires RECORD_HDR <= total
    ensures Within(Chunks(n, copied, total), n, copied, total) && Increasing(Chunks(n, copied, total))
    ensures copied < total ==>
              && |Chunks(n, copied, total)| > 0
              && Chunks(n, copied, total)[|Chunks(n, copied, total)| - 1] == Pos(n, total)
    decreases total - copied
  {
    if copied < total {
      ChunksWithin(n, ChunkEnd(copied, total), total);
    }
  }

  lemma IncreasingJoin(a: seq<Pos>, b: seq<Pos>)
    requires Increasing(a) && Increasing(b)
    requires forall i, j :: 0 <= i < |a| && 0 <= j < |b| ==> Before(a[i], b[j])
    ensures Increasing(a + b)
  {
  }

  /** Points inside survivors among the first n records. */
  predicate Inside(log: seq<Rec>, at: seq<Pos>, n: nat) {
    forall i :: 0 <= i < |at| ==> at[i].n < n && 0 < at[i].d && InCopy(log, at[i])
  }

  lemma TurnInside(log: seq<Rec>, n: nat)
    requires n < |log|
    ensures Inside(log, Turn(log, n), n + 1) && Increasing(Turn(log, n))
    ensures forall i :: 0 <= i < |Turn(log, n)| ==> Turn(log, n)[i].n == n
  {
    ChunksWithin(n, 0, Size(log[n]));
  }

  lemma TurnJoins(log: seq<Rec>, a: seq<Pos>, b: seq<Pos>, n: nat)
    requires 0 < n && Increasing(a) && Increasing(b) && Inside(log, a, n - 1) && Inside(log, b, n)
    requires forall i :: 0 <= i < |b| ==> b[i].n == n - 1
    ensures Increasing(a + b) && Inside(log, a + b, n)
  {
    IncreasingJoin(a, b);
  }

  lemma {:induction false} TurnsIncrease(log: seq<Rec>, n: nat)
    requires n <= |log|
    ensures Increasing(Turns(log, n)) && Inside(log, Turns(log, n), n)
  {
    hide Turn;
    if n > 0 {
      TurnsIncrease(log, n - 1);
      TurnInside(log, n - 1);
      TurnJoins(log, Turns(log, n - 1), Turn(log, n - 1), n);
    }
  }

  /** Later calls never have copied less. */
  lemma PointsIncrease(log: seq<Rec>)
    ensures Increasing(Points(log))
    ensures forall i :: 0 <= i < |Points(log)| ==> InCopy(log, Points(log)[i])
  {
    TurnsIncrease(log, |log|);
    IncreasingJoin([Pos(0, 0)], Turns(log, |log|));
  }

  lemma PartialWhole(r: Rec)
    ensures Partial(r, Size(r)) == r
  {
    assert Partial(r, Size(r)).payload == r.payload;
  }

  /** At this point the copy holds what the first n turns keep. */
  predicate Reached(log: seq<Rec>, p: Pos, n: nat)
    requires n <= |log|
  {
    InCopy(log, p) && CopiedSoFar(log, p) == Kept(log, n)
  }

  lemma TurnEnd(log: seq<Rec>, n: nat)
    requires 0 < n <= |log| && Survives(log, n - 1)
    ensures |Turn(log, n - 1)| > 0 && Reached(log, Turn(log, n - 1)[|Turn(log, n - 1)| - 1], n)
  {
    ChunksWithin(n - 1, 0, Size(log[n - 1]));
    PartialWhole(log[n - 1]);
  }

  lemma LastOf(a: seq<Pos>, b: seq<Pos>, c: seq<Pos>)
    requires |a| > 0
    ensures (a + (b + c))[|a + (b + c)| - 1] == if |c| > 0 then c[|c| - 1] else (a + b)[|a + b| - 1]
  {
  }

  /** The last of the first n turns has copied what these turns keep. */
  lemma {:induction false} TurnsEnd(log: seq<Rec>, n: nat, p: Pos)
    requires n <= |log| && p == ([Pos(0, 0)] + Turns(log, n))[|Turns(log, n)|]
    ensures Reached(log, p, n)
  {
    if n > 0 {
      LastOf([Pos(0, 0)], Turns(log, n - 1), Turn(log, n - 1));
      if Survives(log, n - 1) {
        TurnEnd(log, n);
      } else {
        TurnsEnd(log, n - 1, p);
      }
    }
  }

  /** At first nothing is copied, at last everything. */
  lemma PointsEnds(log: seq<Rec>)
    ensures var at := Points(log);
            && InCopy(log, at[0]) && CopiedSoFar(log, at[0]) == []
            && InCopy(log, at[|at| - 1]) && CopiedSoFar(log, at[|at| - 1]) == Compacted(log)
  {
    TurnsEnd(log, |log|, Points(log)[|Points(log)| - 1]);
  }

  /**
   * The log that a mount finds after call i of a compaction: the old one before the destination header is
   * written, the compacted one after the source is erased; in between, what is copied so far, unless the new
   * sequence number wrapped to zero and loses.
   */
  function AtCut(log: seq<Rec>, sequence: U32, i: nat): seq<Rec>
  {
    if i == 0 then log
    else if i > |Points(log)| then Compacted(log)
    else
      PointsIncrease(log);
      Seen(log, sequence, Points(log)[i - 1])
  }

  function Seen(log: seq<Rec>, sequence: U32, p: Pos): seq<Rec>
    requires InCopy(log, p)
  {
    if sequence == 0xFFFF_FFFF then log else CopiedSoFar(log, p)
  }
}
