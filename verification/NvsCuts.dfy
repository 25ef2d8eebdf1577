/** What a mount after a power cut finds, in terms of the map. */
module NvsCuts {
  import opened Bytes
  import opened Flash
  import opened NvsLog
  import opened NvsCompaction
  import opened NvsPoints
  import opened NvsImage
  import opened NvsSteps
  import Crc16

  /** e' is e with everything behind some prefix of the payload still erased. */
  ghost predicate PrefixOf(e': Entry, e: Entry) {
    && e'.crc == e.crc && |e'.payload| == |e.payload|
    && exists n: nat :: StartsAs(e'.payload, e.payload, n)
  }

  predicate StartsAs(p: seq<Byte>, q: seq<Byte>, n: nat) {
    |p| == |q| && forall i :: 0 <= i < |q| ==> p[i] == if i < n then q[i] else 0xFF
  }

  lemma PrefixRefl(e: Entry)
    ensures PrefixOf(e, e)
  {
    assert StartsAs(e.payload, e.payload, |e.payload|);
  }

  lemma PrefixTrans(a: Entry, b: Entry, c: Entry)
    requires PrefixOf(a, b) && PrefixOf(b, c)
    ensures PrefixOf(a, c)
  {
    var n: nat :| StartsAs(a.payload, b.payload, n);
    var m: nat :| StartsAs(b.payload, c.payload, m);
    assert StartsAs(a.payload, c.payload, Min(n, m));
  }

  function Min(a: nat, b: nat): nat {
    if a < b then a else b
  }

  lemma PartialIsPrefix(r: Rec, d: nat)
    requires RECORD_HDR <= d
    ensures PrefixOf(Entry(Partial(r, d).payload, r.crc), Entry(r.payload, r.crc))
  {
    assert StartsAs(Partial(r, d).payload, r.payload, d - RECORD_HDR);
  }

  // ----- cuts during compaction -----

  lemma {:induction false} ContentBehind(log: seq<Rec>, n: nat, m: nat, key: U16)
    requires n <= m <= |log| && forall i :: n <= i < m ==> log[i].key != key
    ensures key in ContentTo(log, m) <==> key in ContentTo(log, n)
    ensures key in ContentTo(log, n) ==> ContentTo(log, m)[key] == ContentTo(log, n)[key]
    decreases m - n
  {
    if n < m {
      ContentBehind(log, n, m - 1, key);
    }
  }

  /** The copied records stand for the whole map, restricted to the keys whose last record is copied. */
  lemma KeptIsRestriction(log: seq<Rec>, n: nat)
    requires n <= |log|
    ensures Content(Kept(log, n)) == Content(log) - LaterKeys(log, n)
  {
    KeptContent(log, n);
    forall k | k !in LaterKeys(log, n)
      ensures k in ContentTo(log, n) <==> k in Content(log)
      ensures k in Content(log) ==> ContentTo(log, n)[k] == Content(log)[k]
    {
      assert forall i :: n <= i < |log| ==> log[i].key in LaterKeys(log, n);
      ContentBehind(log, n, |log|, k);
    }
  }

  /** A survivor is the value that the map has for its key. */
  lemma SurvivorIsContent(log: seq<Rec>, n: nat)
    requires n < |log| && Survives(log, n)
    ensures log[n].key in Content(log) && Content(log)[log[n].key] == Entry(log[n].payload, log[n].crc)
  {
    ContentBehind(log, n + 1, |log|, log[n].key);
  }

  /** The map without the keys that are not copied yet, plus the record in the middle as far as it is copied. */
  function CutContent(log: seq<Rec>, p: Pos): Contents
    requires InCopy(log, p)
  {
    var rest := Content(log) - LaterKeys(log, p.n);
    if p.d == 0 then rest else rest[log[p.n].key := Entry(Partial(log[p.n], p.d).payload, log[p.n].crc)]
  }

  lemma CopiedSoFarContent(log: seq<Rec>, p: Pos)
    requires InCopy(log, p)
    ensures Content(CopiedSoFar(log, p)) == CutContent(log, p)
  {
    KeptIsRestriction(log, p.n);
    if p.d > 0 {
      ContentPush(Kept(log, p.n), Partial(log[p.n], p.d));
    }
  }

  /** What is not copied of the record in the middle is erased flash anyway. */
  predicate RestIsErased(payload: seq<Byte>, copied: nat) {
    forall k :: copied <= k < |payload| ==> payload[k] == 0xFF
  }

  /** Nothing that the map needs is still to be copied. */
  predicate NothingMissing(log: seq<Rec>, p: Pos)
    requires InCopy(log, p)
  {
    if p.d == 0 then Content(log).Keys !! LaterKeys(log, p.n)
    else Content(log).Keys !! LaterKeys(log, p.n + 1) && RestIsErased(log[p.n].payload, p.d - RECORD_HDR)
  }

  lemma PartialIsWhole(r: Rec, d: nat)
    requires RECORD_HDR <= d
    ensures Partial(r, d).payload == r.payload <==> RestIsErased(r.payload, d - RECORD_HDR)
  {
    if RestIsErased(r.payload, d - RECORD_HDR) {
      assert Partial(r, d).payload == r.payload;
    }
    if Partial(r, d).payload == r.payload {
      forall k | d - RECORD_HDR <= k < |r.payload| ensures r.payload[k] == 0xFF {
        assert Partial(r, d).payload[k] == 0xFF;
      }
    }
  }

  lemma RestIsWhole(m: Contents, later: set<U16>, k: U16, e: Entry)
    requires k in m
    ensures (m - (later + {k}))[k := e] == m <==> m.Keys !! later - {k} && e == m[k]
  {
    var m' := (m - (later + {k}))[k := e];
    if m' == m {
      assert m'[k] == e;
      forall j | j in later && j != k ensures j !in m {
        assert j !in m';
      }
    }
  }

  /** The copy stands for the whole map if and only if nothing is missing. */
  lemma WholeExactly(log: seq<Rec>, p: Pos)
    requires InCopy(log, p)
    ensures CutContent(log, p) == Content(log) <==> NothingMissing(log, p)
  {
    if p.d > 0 {
      var r := log[p.n];
      SurvivorIsContent(log, p.n);
      PartialIsWhole(r, p.d);
      LaterKeysStep(log, p.n + 1);
      RestIsWhole(Content(log), LaterKeys(log, p.n + 1), r.key, Entry(Partial(r, p.d).payload, r.crc));
    }
  }

  /** Nothing stale and nothing deleted: every key that is still there has its latest value or a prefix of it. */
  ghost predicate Reduced(m': Contents, m: Contents) {
    forall k :: k in m' ==> k in m && PrefixOf(m'[k], m[k])
  }

  /** All but at most one key, the one in the middle of whose record the cut fell, have exactly their latest value. */
  ghost predicate ReducedButOne(m': Contents, m: Contents) {
    Reduced(m', m) && exists p: U16 :: EqualBut(m', m, p)
  }

  predicate EqualBut(m': Contents, m: Contents, p: U16) {
    forall k :: k in m' && k != p ==> k in m && m'[k] == m[k]
  }

  lemma CopiedSoFarReduced(log: seq<Rec>, p: Pos)
    requires InCopy(log, p)
    ensures ReducedButOne(Content(CopiedSoFar(log, p)), Content(log))
  {
    var m', m := Content(CopiedSoFar(log, p)), Content(log);
    CopiedSoFarContent(log, p);
    forall k | k in m' ensures k in m && PrefixOf(m'[k], m[k]) {
      PrefixRefl(m'[k]);
      if p.d > 0 && k == log[p.n].key {
        SurvivorIsContent(log, p.n);
        PartialIsPrefix(log[p.n], p.d);
      }
    }
    var q := if p.d > 0 then log[p.n].key else 0;
    assert EqualBut(m', m, q);
  }

  lemma ReducedRefl(m: Contents)
    ensures ReducedButOne(m, m)
  {
    forall k | k in m ensures PrefixOf(m[k], m[k]) {
      PrefixRefl(m[k]);
    }
    assert EqualBut(m, m, 0);
  }

  /** The map after call i of a compaction: every key that is there has its latest value, all but one exactly. */
  lemma AtCutReduced(log: seq<Rec>, sequence: U32, i: nat)
    ensures ReducedButOne(Content(AtCut(log, sequence, i)), Content(log))
  {
    ReducedRefl(Content(log));
    if i > |Points(log)| {
      CompactedContent(log);
    } else if i > 0 && sequence != 0xFFFF_FFFF {
      PointsIncrease(log);
      CopiedSoFarReduced(log, Points(log)[i - 1]);
    }
  }

  /** When a cut after call i of a compaction leaves the whole map. */
  predicate WholeAt(log: seq<Rec>, sequence: U32, i: nat)
  {
    PointsIncrease(log);
    i == 0 || i > |Points(log)| || sequence == 0xFFFF_FFFF || NothingMissing(log, Points(log)[i - 1])
  }

  /**
   * What a mount finds after call i of a compaction. It is the whole map if and only if the call is the first or
   * the last one, the sequence number wraps, or nothing that the map needs is missing at this point of the copy.
   */
  lemma CutRecovery(lay: Layout, steps: seq<Event>, log: seq<Rec>, sequence: U32, i: nat, found: seq<Rec>)
    requires CompactionCuts(lay, steps, log, sequence) && i < |steps| && Recovers(lay, steps[i].after, found)
    ensures found == AtCut(log, sequence, i)
    ensures ReducedButOne(Content(found), Content(log))
    ensures Content(found) == Content(log) <==> WholeAt(log, sequence, i)
  {
    RecoversUnique(lay, steps[i].after, found, AtCut(log, sequence, i));
    AtCutReduced(log, sequence, i);
    if i > |Points(log)| {
      CompactedContent(log);
    } else if i > 0 && sequence != 0xFFFF_FFFF {
      PointsIncrease(log);
      CopiedSoFarContent(log, Points(log)[i - 1]);
      WholeExactly(log, Points(log)[i - 1]);
    }
  }

  /**
   * Right after the destination header is written nothing is left of the map; right before the source is erased
   * everything is there. With the sequence number at its maximum both find the old log.
   */
  lemma CutEnds(lay: Layout, steps: seq<Event>, log: seq<Rec>, sequence: U32)
    requires CompactionCuts(lay, steps, log, sequence)
    ensures |steps| >= 3
    ensures Recovers(lay, steps[1].after, if sequence == 0xFFFF_FFFF then log else [])
    ensures Recovers(lay, steps[|steps| - 2].after, if sequence == 0xFFFF_FFFF then log else Compacted(log))
  {
    PointsEnds(log);
    assert Recovers(lay, steps[1].after, AtCut(log, sequence, 1));
    assert Recovers(lay, steps[|steps| - 2].after, AtCut(log, sequence, |steps| - 2));
  }

  // ----- cuts during an append -----

  /** Every other key reads as before; the written key reads as the new value or as its erased image. */
  lemma AppendCutContent(log: seq<Rec>, key: U16, data: seq<Byte>, d: nat)
    requires key != KEY_EMPTY && |data| <= 0xFFFF && RECORD_HDR <= d
    ensures var m' := Content(log + [Partial(NewRec(key, data), d)]);
            && m' - {key} == Content(log) - {key} && key in m'
            && PrefixOf(m'[key], Entry(data, RecordCrc(key, data)))
  {
    ContentPush(log, Partial(NewRec(key, data), d));
    PartialIsPrefix(NewRec(key, data), d);
  }

  // ----- damage inside a value -----

  /** A burst of at most two adjacent payload bytes is always reported, whatever the length of the value. */
  lemma BurstIsReported(m: Contents, key: U16, payload: seq<Byte>, at: nat, room: nat)
    requires key != KEY_EMPTY && key in m && Intact(key, m[key])
    requires Crc16.Burst(m[key].payload, payload, at) && |payload| <= room
    ensures ReadStatus(m[key := Entry(payload, m[key].crc)], key, room) == Corrupted
  {
    var meta := Le16(key) + Le16(|payload|);
    var s, t := meta + m[key].payload, meta + payload;
    assert s[|meta|..] == m[key].payload && t[|meta|..] == payload;
    forall k | 0 <= k < |s| && k != at + 4 && k != at + 5 ensures s[k] == t[k] {
      if k >= 4 {
        assert s[k] == m[key].payload[k - 4] && t[k] == payload[k - 4];
      }
    }
    Crc16.BurstDetected(s, t, at + 4);
  }
}
