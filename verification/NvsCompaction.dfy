/** What compaction keeps of a log, and what a partly finished compaction stands for. */
module NvsCompaction {
  import opened Bytes
  import opened NvsLog

  /** A later record, live or dead, has the key of record i. */
  predicate Superseded(log: seq<Rec>, i: nat)
    requires i < |log|
  {
    exists j :: i < j < |log| && log[j].key == log[i].key
  }

  predicate Survives(log: seq<Rec>, i: nat)
    requires i < |log|
  {
    log[i].status == STATUS_VALID && !Superseded(log, i)
  }

  /** The records that the first n steps of compaction copy. */
  function Kept(log: seq<Rec>, n: nat): seq<Rec>
    requires n <= |log|
  {
    if n == 0 then []
    else if Survives(log, n - 1) then Kept(log, n - 1) + [log[n - 1]]
    else Kept(log, n - 1)
  }

  function Compacted(log: seq<Rec>): seq<Rec> {
    Kept(log, |log|)
  }

  function LaterKeys(log: seq<Rec>, n: nat): set<U16> {
    set i | n <= i < |log| :: log[i].key
  }

  lemma LaterKeysStep(log: seq<Rec>, n: nat)
    requires 0 < n <= |log|
    ensures LaterKeys(log, n - 1) == LaterKeys(log, n) + {log[n - 1].key}
    ensures Superseded(log, n - 1) <==> log[n - 1].key in LaterKeys(log, n)
  {
  }

  lemma RestrictApply(m: Contents, r: Rec, later: set<U16>)
    ensures r.status == STATUS_VALID && r.key !in later ==> Apply(m - (later + {r.key}), r) == Apply(m, r) - later
    ensures r.status != STATUS_VALID || r.key in later ==> m - (later + {r.key}) == Apply(m, r) - later
  {
  }

  /** After n steps the copy holds the map of the first n records, minus every key that a later record changes. */
  lemma {:induction false} KeptContent(log: seq<Rec>, n: nat)
    requires n <= |log|
    ensures Content(Kept(log, n)) == ContentTo(log, n) - LaterKeys(log, n)
  {
    if n > 0 {
      KeptContent(log, n - 1);
      LaterKeysStep(log, n);
      RestrictApply(ContentTo(log, n - 1), log[n - 1], LaterKeys(log, n));
      ContentPush(Kept(log, n - 1), log[n - 1]);
    }
  }

  /** Compaction preserves the map. */
  lemma CompactedContent(log: seq<Rec>)
    ensures Content(Compacted(log)) == Content(log)
  {
    KeptContent(log, |log|);
    assert LaterKeys(log, |log|) == {};
  }

  lemma {:induction false} KeptSize(log: seq<Rec>, n: nat)
    requires n <= |log|
    ensures End(Kept(log, n)) <= Offset(log, n)
  {
    if n > 0 {
      KeptSize(log, n - 1);
      EndPush(Kept(log, n - 1), log[n - 1]);
    }
  }

  lemma KeptFits(log: seq<Rec>, i: nat)
    requires i < |log|
    ensures End(Kept(log, i)) + Size(log[i]) <= End(log)
  {
    KeptSize(log, i);
    OffsetMono(log, i + 1, |log|);
  }

  lemma FreshKey(log: seq<Rec>, n: nat)
    requires 0 < n <= |log|
    ensures log[n - 1].key !in Content(Kept(log, n - 1))
  {
    KeptContent(log, n - 1);
    LaterKeysStep(log, n);
  }

  lemma FreshSize(m: Contents, k: U16, e: Entry)
    requires k !in m
    ensures |m[k := e]| == |m| + 1
  {
    assert m[k := e].Keys == m.Keys + {k};
  }

  lemma ContentNothing()
    ensures Content([]) == map[]
  {
  }

  /** No tombstones and no stale versions: one live record for each key of the map. */
  lemma {:induction false} KeptExact(log: seq<Rec>, n: nat)
    requires n <= |log|
    ensures forall i :: 0 <= i < |Kept(log, n)| ==> Kept(log, n)[i].status == STATUS_VALID
    ensures |Kept(log, n)| == |Content(Kept(log, n))|
  {
    hide Content;
    ContentNothing();
    if n > 0 {
      KeptExact(log, n - 1);
      var kept, r := Kept(log, n - 1), log[n - 1];
      FreshKey(log, n);
      ContentPush(kept, r);
      FreshSize(Content(kept), r.key, Entry(r.payload, r.crc));
    }
  }

  // ----- the room that the live records need, as a property of the map alone -----

  ghost function LiveBytes(m: Contents): nat
    decreases |m|
  {
    if m == map[] then 0
    else
      var k :| k in m;
      RecSize(|m[k].payload|) + LiveBytes(m - {k})
  }

  lemma {:induction false} LiveBytesPick(m: Contents, k: U16)
    requires k in m
    ensures LiveBytes(m) == RecSize(|m[k].payload|) + LiveBytes(m - {k})
    decreases |m|
  {
    var p :| p in m && LiveBytes(m) == RecSize(|m[p].payload|) + LiveBytes(m - {p});
    if p != k {
      LiveBytesPick(m - {p}, k);
      LiveBytesPick(m - {k}, p);
      assert m - {p} - {k} == m - {k} - {p};
    }
  }

  lemma {:induction false} KeptLiveBytes(log: seq<Rec>, n: nat)
    requires n <= |log|
    ensures End(Kept(log, n)) == SECTOR_HDR + LiveBytes(Content(Kept(log, n)))
  {
    if n > 0 {
      KeptLiveBytes(log, n - 1);
      if Survives(log, n - 1) {
        var kept, r := Kept(log, n - 1), log[n - 1];
        FreshKey(log, n);
        EndPush(kept, r);
        ContentPush(kept, r);
        LiveBytesPick(Content(kept + [r]), r.key);
        assert Content(kept + [r]) - {r.key} == Content(kept);
      }
    }
  }

  lemma CompactedSize(log: seq<Rec>)
    ensures End(Compacted(log)) == SECTOR_HDR + LiveBytes(Content(log)) <= End(log)
  {
    KeptLiveBytes(log, |log|);
    CompactedContent(log);
    KeptSize(log, |log|);
  }

  /** Where the next record goes when it needs `need` bytes: behind the log, or behind the live records alone. */
  ghost function Placed(used: nat, m: Contents, need: nat, size: nat): nat {
    if used + need <= size then used else SECTOR_HDR + LiveBytes(m)
  }

  ghost predicate HasRoom(used: nat, m: Contents, need: nat, size: nat) {
    Placed(used, m, need, size) + need <= size
  }

  /** There is room exactly if the record fits behind the log, or behind the live records alone. */
  lemma RoomExactly(log: seq<Rec>, need: nat, size: nat)
    ensures HasRoom(End(log), Content(log), need, size) <==>
              End(log) + need <= size || SECTOR_HDR + LiveBytes(Content(log)) + need <= size
    ensures HasRoom(End(log), Content(log), need, size) <==> End(Compacted(log)) + need <= size
  {
    CompactedSize(log);
  }
}
