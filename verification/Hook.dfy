/** The hook table: callbacks by event, dispatched in priority order until one of them stops the event. */
module Hook {
  import opened Bytes
  import opened Sorting

  const MAX_ENTRIES := 32

  /** Callback zero stands for the null pointer. */
  datatype Entry = Entry(event: U32, callback: nat, cookie: nat, priority: Byte, active: bool)

  predicate Is(e: Entry, event: U32, callback: nat) {
    e.active && e.event == event && e.callback == callback
  }

  // ----- the table as a sequence of slots -----

  ghost predicate NoDuplicates(s: seq<Entry>) {
    forall i, j :: 0 <= i < j < |s| && s[i].active && s[j].active
                   ==> s[i].event != s[j].event || s[i].callback != s[j].callback
  }

  function Active(s: seq<Entry>): nat {
    if |s| == 0 then 0 else Active(s[..|s| - 1]) + if s[|s| - 1].active then 1 else 0
  }

  function FindSame(s: seq<Entry>, event: U32, callback: nat, i: nat): (r: Option<nat>)
    requires i <= |s|
    ensures r.Some? ==>
              i <= r.value < |s| && s[r.value].active && s[r.value].event == event && s[r.value].callback == callback
    ensures r.None? ==> forall k :: i <= k < |s| && s[k].active && s[k].event == event ==> s[k].callback != callback
    decreases |s| - i
  {
    if i == |s| then None else if Is(s[i], event, callback) then Some(i) else FindSame(s, event, callback, i + 1)
  }

  function FirstFree(s: seq<Entry>, i: nat): (r: Option<nat>)
    requires i <= |s|
    ensures r.Some? ==> i <= r.value < |s| && !s[r.value].active && forall k :: i <= k < r.value ==> s[k].active
    ensures r.None? ==> forall k :: i <= k < |s| ==> s[k].active
    decreases |s| - i
  {
    if i == |s| then None else if !s[i].active then Some(i) else FirstFree(s, i + 1)
  }

  lemma {:induction false} ActiveUpdate(s: seq<Entry>, i: nat, e: Entry)
    requires i < |s|
    ensures Active(s[i := e]) == Active(s) + (if e.active then 1 else 0) - (if s[i].active then 1 else 0)
    decreases |s|
  {
    var n := |s| - 1;
    if i == n {
      assert s[i := e][..n] == s[..n];
    } else {
      assert s[i := e][..n] == s[..n][i := e];
      ActiveUpdate(s[..n], i, e);
    }
  }

  lemma {:induction false} SomeActive(s: seq<Entry>, i: nat)
    requires i < |s| && s[i].active
    ensures Active(s) > 0
    decreases |s|
  {
    if i < |s| - 1 {
      SomeActive(s[..|s| - 1], i);
    }
  }

  /** The matching entries, in slot order. */
  function Matching(s: seq<Entry>, event: U32): seq<Entry> {
    if |s| == 0 then []
    else
      var e := s[|s| - 1];
      Matching(s[..|s| - 1], event) + if e.active && e.event == event then [e] else []
  }

  /** The entries in some order by priority. */
  ghost predicate InOrder(order: seq<Entry>, matching: seq<Entry>) {
    && multiset(order) == multiset(matching)
    && forall i, j :: 0 <= i < j < |order| ==> order[i].priority <= order[j].priority
  }

  class Table {
    const entries: array<Entry>
    /** Whether a callback stops the event, given how many callbacks ran before. */
    const stops: (nat, Entry) -> bool
    var count: nat
    var dispatches: nat
    var intercepts: nat
    var calls: nat
    ghost var trace: seq<Entry>

    ghost predicate Valid()
      reads this, entries
    {
      && entries.Length == MAX_ENTRIES && NoDuplicates(entries[..])
      && (forall k :: 0 <= k < MAX_ENTRIES && entries[k].active ==> entries[k].callback != 0)
      && count == Active(entries[..]) && calls == |trace|
    }

    lemma NoneActive(s: seq<Entry>)
      requires forall k :: 0 <= k < |s| ==> !s[k].active
      ensures Active(s) == 0
      decreases |s|
    {
      if |s| > 0 {
        NoneActive(s[..|s| - 1]);
      }
    }

    constructor (behaviour: (nat, Entry) -> bool)
      ensures Valid() && fresh(entries) && count == 0 && trace == [] && stops == behaviour
    {
      entries := new Entry[MAX_ENTRIES](_ => Entry(0, 0, 0, 0, false));
      stops := behaviour;
      count, dispatches, intercepts, calls, trace := 0, 0, 0, 0, [];
      new;
      NoneActive(entries[..]);
    }

    /** Registering again updates in place; otherwise the first free slot is taken, if there is one. */
    method Register(event: U32, callback: nat, priority: Byte, cookie: nat) returns (st: Status)
      requires Valid()
      modifies this`count, entries
      ensures Valid()
      ensures var s := old(entries[..]); var same, free := FindSame(s, event, callback, 0), FirstFree(s, 0);
        if callback == 0 then st == InvalidArg && entries[..] == s
        else if same.Some? then
          st == Ok && entries[..] == s[same.value := s[same.value].(priority := priority, cookie := cookie)]
        else if free.None? then st == BufferOverflow && entries[..] == s
        else st == Ok && entries[..] == s[free.value := Entry(event, callback, cookie, priority, true)]
    {
      if callback == 0 {
        return InvalidArg;
      }
      ghost var s := entries[..];
      var freeSlot := -1;
      for i := 0 to MAX_ENTRIES
        invariant entries[..] == s && count == old(count)
        invariant FindSame(s, event, callback, 0) == FindSame(s, event, callback, i)
        invariant if freeSlot == -1 then FirstFree(s, 0) == FirstFree(s, i) else FirstFree(s, 0) == Some(freeSlot)
      {
        if entries[i].active {
          if entries[i].event == event && entries[i].callback == callback {
            ActiveUpdate(s, i, s[i].(priority := priority, cookie := cookie));
            entries[i] := entries[i].(priority := priority, cookie := cookie);
            assert entries[..] == s[i := s[i].(priority := priority, cookie := cookie)];
            return Ok;
          }
        } else if freeSlot == -1 {
          freeSlot := i;
        }
      }
      if freeSlot == -1 {
        return BufferOverflow;
      }
      ActiveUpdate(s, freeSlot, Entry(event, callback, cookie, priority, true));
      entries[freeSlot] := Entry(event, callback, cookie, priority, true);
      assert entries[..] == s[freeSlot := Entry(event, callback, cookie, priority, true)];
      count := count + 1;
      st := Ok;
    }

    /** The entry that is registered becomes free. */
    method Unregister(event: U32, callback: nat) returns (st: Status)
      requires Valid()
      modifies this`count, entries
      ensures Valid()
      ensures var s := old(entries[..]); var same := FindSame(s, event, callback, 0);
        if callback == 0 then st == InvalidArg && entries[..] == s
        else if same.None? then st == NotFound && entries[..] == s
        else st == Ok && entries[..] == s[same.value := s[same.value].(active := false)]
    {
      if callback == 0 {
        return InvalidArg;
      }
      ghost var s := entries[..];
      for i := 0 to MAX_ENTRIES
        invariant entries[..] == s && count == old(count)
        invariant FindSame(s, event, callback, 0) == FindSame(s, event, callback, i)
      {
        if entries[i].active && entries[i].event == event && entries[i].callback == callback {
          ActiveUpdate(s, i, s[i].(active := false));
          SomeActive(s, i);
          entries[i] := entries[i].(active := false);
          assert entries[..] == s[i := s[i].(active := false)];
          if count > 0 {
            count := count - 1;
          }
          return Ok;
        }
      }
      st := NotFound;
    }

    /** The matching entries, collected in slot order. */
    method Collect(event: U32) returns (matched: array<Entry>, n: nat)
      requires Valid()
      ensures fresh(matched) && n <= matched.Length && matched[..n] == Matching(entries[..], event)
    {
      matched := new Entry[MAX_ENTRIES](_ => Entry(0, 0, 0, 0, false));
      n := 0;
      for i := 0 to MAX_ENTRIES
        invariant n <= i && matched[..n] == Matching(entries[..i], event)
      {
        assert entries[..i + 1][..i] == entries[..i];
        if entries[i].active && entries[i].event == event {
          matched[n] := entries[i];
          n := n + 1;
        }
      }
      assert entries[..MAX_ENTRIES] == entries[..];
    }

    /** Collected and sorted. */
    method SortedMatching(event: U32) returns (matched: array<Entry>, n: nat)
      requires Valid()
      ensures fresh(matched) && n <= matched.Length && InOrder(matched[..n], Matching(entries[..], event))
    {
      matched, n := Collect(event);
      ExchangeSort(matched, n, e => true, ByPriority());
    }

    /** Runs the calls in the given order, up to the first one that stops the event. */
    method Run(matched: array<Entry>, n: nat, ghost order: seq<Entry>) returns (stop: bool, ghost k: nat)
      requires Valid() && n <= matched.Length && matched != entries && order == matched[..n]
      modifies this`intercepts, this`calls, this`trace
      ensures Valid() && k <= n && trace == old(trace) + order[..k]
      ensures forall i :: 0 <= i < k ==> (stops(old(calls) + i, order[i]) <==> stop && i == k - 1)
      ensures if stop then k > 0 && intercepts == old(intercepts) + 1 else k == n && intercepts == old(intercepts)
    {
      for i := 0 to n
        invariant Valid() && trace == old(trace) + order[..i] && calls == old(calls) + i
        invariant intercepts == old(intercepts)
        invariant forall j :: 0 <= j < i ==> !stops(old(calls) + j, order[j])
      {
        var stopped := stops(calls, matched[i]);
        calls := calls + 1;
        trace := trace + [matched[i]];
        if stopped {
          intercepts := intercepts + 1;
          return true, i + 1;
        }
      }
      return false, n;
    }

    /**
     * The matching entries run in nondecreasing priority, each at most once, and all of them unless one stops the
     * event: that one is the last to run.
     */
    method Dispatch(event: U32) returns (stop: bool, ghost order: seq<Entry>, ghost k: nat)
      requires Valid()
      modifies this`dispatches, this`intercepts, this`calls, this`trace
      ensures Valid() && dispatches == old(dispatches) + 1
      ensures multiset(order) == multiset(Matching(entries[..], event)) && k <= |order|
      ensures forall i, j :: 0 <= i < j < |order| ==> order[i].priority <= order[j].priority
      ensures trace == old(trace) + order[..k] && (!stop ==> k == |order|) && (stop ==> k > 0)
      ensures forall i :: 0 <= i < k ==> (stops(old(calls) + i, order[i]) <==> stop && i == k - 1)
      ensures intercepts == old(intercepts) + if stop then 1 else 0
    {
      dispatches := dispatches + 1;
      var matched, n := SortedMatching(event);
      order := matched[..n];
      if n == 0 {
        return false, order, 0;
      }
      stop, k := Run(matched, n, order);
    }
  }

  function ByPriority(): Entry -> int {
    (e: Entry) => e.priority as int
  }

  // ----- over the whole table, the matching entries -----

  /** An entry of an event runs if it is active, and callbacks of one event are all different. */
  lemma {:induction false} MatchingExactly(s: seq<Entry>, event: U32, e: Entry)
    ensures e in Matching(s, event) <==> e in s && e.active && e.event == event
    decreases |s|
  {
    if |s| > 0 {
      MatchingExactly(s[..|s| - 1], event, e);
      assert s == s[..|s| - 1] + [s[|s| - 1]];
    }
  }

  lemma {:induction false} MatchingDistinct(s: seq<Entry>, event: U32, i: nat, j: nat)
    requires NoDuplicates(s) && i < j < |Matching(s, event)|
    ensures Matching(s, event)[i].callback != Matching(s, event)[j].callback
    decreases |s|
  {
    var front, e := s[..|s| - 1], s[|s| - 1];
    var m := Matching(front, event);
    if j < |m| {
      MatchingDistinct(front, event, i, j);
    } else {
      MatchingExactly(front, event, m[i]);
      var k :| 0 <= k < |front| && front[k] == m[i];
      assert s[k] == m[i];
    }
  }
}
