/** The init engine: registered functions run level by level, by priority inside a level, up to the first failure. */
module InitEngine {
  import opened Bytes
  import opened Sorting

  const LEVELS := 4
  const MAX_ENTRIES := 32

  /** Function zero stands for the null pointer. */
  datatype Entry = Entry(fn: nat, level: nat, priority: Byte)

  // ----- the table by levels -----

  predicate AtLevel(e: Entry, level: nat) {
    e.level == level
  }

  function Select(level: nat): Entry -> bool {
    (e: Entry) => AtLevel(e, level)
  }

  function ByPriority(): Entry -> int {
    (e: Entry) => e.priority as int
  }

  /** The entries of one level, in slot order. */
  function Filter(s: seq<Entry>, level: nat): seq<Entry> {
    if |s| == 0 then []
    else Filter(s[..|s| - 1], level) + if s[|s| - 1].level == level then [s[|s| - 1]] else []
  }

  /** The entries of all levels below, one level after the other: the order in which everything runs. */
  function ByLevel(s: seq<Entry>, level: nat): seq<Entry> {
    if level == 0 then [] else ByLevel(s, level - 1) + Filter(s, level - 1)
  }

  /** Inside each of the levels below, the slots are in order of priority. */
  ghost predicate LevelsSorted(s: seq<Entry>, level: nat) {
    forall l :: 0 <= l < level ==> SortedBy(s, Select(l), ByPriority())
  }

  predicate Distinct(s: seq<Entry>) {
    forall i, j :: 0 <= i < j < |s| ==> s[i].fn != s[j].fn
  }

  predicate Wellformed(s: seq<Entry>) {
    forall k :: 0 <= k < |s| ==> s[k].fn != 0 && s[k].level < LEVELS
  }

  // ----- what the order means -----

  lemma {:induction false} FilterPush(s: seq<Entry>, e: Entry, level: nat)
    ensures Filter(s + [e], level) == Filter(s, level) + if e.level == level then [e] else []
  {
    assert (s + [e])[..|s|] == s;
  }

  lemma {:induction false} ByLevelCount(s: seq<Entry>, e: Entry, level: nat)
    ensures multiset(ByLevel(s + [e], level))
            == multiset(ByLevel(s, level)) + if e.level < level then multiset{e} else multiset{}
  {
    if level > 0 {
      ByLevelCount(s, e, level - 1);
      FilterPush(s, e, level - 1);
    }
  }

  lemma {:induction false} ByLevelEmpty(level: nat)
    ensures ByLevel([], level) == []
  {
    if level > 0 {
      ByLevelEmpty(level - 1);
    }
  }

  /** Every registered entry occurs in the order exactly as often as in the table. */
  lemma {:induction false} ByLevelComplete(s: seq<Entry>)
    requires Wellformed(s)
    ensures multiset(ByLevel(s, LEVELS)) == multiset(s)
    decreases |s|
  {
    if |s| == 0 {
      ByLevelEmpty(LEVELS);
    } else {
      var front, e := s[..|s| - 1], s[|s| - 1];
      ByLevelComplete(front);
      ByLevelCount(front, e, LEVELS);
      assert s == front + [e];
    }
  }

  lemma {:induction false} FilterSorted(s: seq<Entry>, level: nat)
    requires SortedBy(s, Select(level), ByPriority())
    ensures forall k :: 0 <= k < |Filter(s, level)| ==> Filter(s, level)[k].level == level && Filter(s, level)[k] in s
    ensures forall i, j :: 0 <= i < j < |Filter(s, level)| ==>
              Filter(s, level)[i].priority <= Filter(s, level)[j].priority
    decreases |s|
  {
    if |s| > 0 {
      var front, e := s[..|s| - 1], s[|s| - 1];
      assert forall i, j :: 0 <= i < j < |front| && Select(level)(front[i]) && Select(level)(front[j])
                            ==> ByPriority()(front[i]) <= ByPriority()(front[j]) by {
        forall i, j | 0 <= i < j < |front| && Select(level)(front[i]) && Select(level)(front[j])
          ensures ByPriority()(front[i]) <= ByPriority()(front[j])
        {
          assert front[i] == s[i] && front[j] == s[j];
        }
      }
      FilterSorted(front, level);
      var f := Filter(front, level);
      if e.level == level {
        forall i | 0 <= i < |f| ensures f[i].priority <= e.priority {
          assert f[i] in front;
          var k :| 0 <= k < |front| && front[k] == f[i];
          assert s[k] == f[i] && Select(level)(s[k]) && Select(level)(s[|s| - 1]);
          assert ByPriority()(s[k]) <= ByPriority()(s[|s| - 1]);
        }
      }
    }
  }

  predicate Lexicographic(a: Entry, b: Entry) {
    a.level < b.level || (a.level == b.level && a.priority <= b.priority)
  }

  /** The order is lexicographic in level and priority. */
  lemma {:induction false} ByLevelOrdered(s: seq<Entry>, level: nat)
    requires LevelsSorted(s, level)
    ensures forall k :: 0 <= k < |ByLevel(s, level)| ==> ByLevel(s, level)[k].level < level
    ensures forall i, j :: 0 <= i < j < |ByLevel(s, level)| ==>
              Lexicographic(ByLevel(s, level)[i], ByLevel(s, level)[j])
  {
    if level > 0 {
      ByLevelOrdered(s, level - 1);
      FilterSorted(s, level - 1);
    }
  }

  // ----- what a sort of one level leaves alone -----

  lemma {:induction false} OtherLevelsSame(s: seq<Entry>, t: seq<Entry>, level: nat, l: nat)
    requires Rearranged(s, t, Select(level)) && l != level
    ensures Filter(s, l) == Filter(t, l)
  {
    FilterSame(s, t, l);
  }

  lemma {:induction false} FilterSame(s: seq<Entry>, t: seq<Entry>, l: nat)
    requires |s| == |t|
    requires forall k :: 0 <= k < |s| ==> (s[k].level == l <==> t[k].level == l) && (s[k].level == l ==> s[k] == t[k])
    ensures Filter(s, l) == Filter(t, l)
    decreases |s|
  {
    if |s| > 0 {
      FilterSame(s[..|s| - 1], t[..|t| - 1], l);
    }
  }

  lemma {:induction false} LowerLevelsSame(s: seq<Entry>, t: seq<Entry>, level: nat, l: nat)
    requires Rearranged(s, t, Select(level)) && l <= level
    ensures ByLevel(s, l) == ByLevel(t, l)
    decreases l
  {
    hide Rearranged, Filter, Select;
    if l > 0 {
      LowerLevelsSame(s, t, level, l - 1);
      OtherLevelsSame(s, t, level, l - 1);
    }
  }

  lemma OthersStaySorted(s: seq<Entry>, t: seq<Entry>, level: nat, l: nat)
    requires Rearranged(s, t, Select(level)) && l != level && SortedBy(s, Select(l), ByPriority())
    ensures SortedBy(t, Select(l), ByPriority())
  {
    forall i, j | 0 <= i < j < |t| && Select(l)(t[i]) && Select(l)(t[j])
      ensures ByPriority()(t[i]) <= ByPriority()(t[j])
    {
      assert Select(level)(s[i]) == Select(level)(t[i]) && Select(level)(s[j]) == Select(level)(t[j]);
      assert s[i] == t[i] && s[j] == t[j];
    }
  }

  /** Sorting one more level. */
  lemma LevelsGrow(s: seq<Entry>, t: seq<Entry>, level: nat)
    requires Rearranged(s, t, Select(level)) && LevelsSorted(s, level) && SortedBy(t, Select(level), ByPriority())
    ensures LevelsSorted(t, level + 1)
  {
    forall l | 0 <= l < level ensures SortedBy(t, Select(l), ByPriority()) {
      OthersStaySorted(s, t, level, l);
    }
  }

  lemma LevelDone(s: seq<Entry>, t: seq<Entry>, level: nat, ran: seq<Entry>, more: seq<Entry>)
    requires Rearranged(s, t, Select(level)) && LevelsSorted(s, level) && SortedBy(t, Select(level), ByPriority())
    requires ran == ByLevel(s, level) && more <= Filter(t, level)
    ensures LevelsSorted(t, level + 1) && multiset(t) == multiset(s) && ran + more <= ByLevel(t, level + 1)
    ensures more == Filter(t, level) ==> ran + more == ByLevel(t, level + 1)
  {
    hide Filter, SortedBy, LevelsSorted;
    LevelsGrow(s, t, level);
    LowerLevelsSame(s, t, level, level);
  }

  lemma {:induction false} FilterPrefix(s: seq<Entry>, n: nat, level: nat)
    requires n <= |s|
    ensures Filter(s[..n], level) <= Filter(s, level)
    decreases |s|
  {
    if n < |s| {
      FilterPrefix(s[..|s| - 1], n, level);
      assert s[..|s| - 1][..n] == s[..n];
    } else {
      assert s[..n] == s;
    }
  }

  lemma KeepsShape(s: seq<Entry>, t: seq<Entry>)
    requires multiset(s) == multiset(t) && Wellformed(s)
    ensures Wellformed(t)
  {
    forall k | 0 <= k < |t| ensures t[k].fn != 0 && t[k].level < LEVELS {
      assert t[k] in multiset(t);
      assert t[k] in s;
    }
  }

  // ----- the run of the functions -----

  type Outcomes = (nat, Entry) -> Status

  /** The calls in turn, each a success but perhaps the last one, whose status is the result. */
  ghost predicate RanUntil(outcomes: Outcomes, base: nat, ran: seq<Entry>, st: Status) {
    && (forall i :: 0 <= i < |ran| ==> (outcomes(base + i, ran[i]) == Ok <==> st == Ok || i < |ran| - 1))
    && (st != Ok ==> |ran| > 0 && outcomes(base + |ran| - 1, ran[|ran| - 1]) == st)
  }

  lemma RanJoins(outcomes: Outcomes, base: nat, ran: seq<Entry>, more: seq<Entry>, st: Status)
    requires RanUntil(outcomes, base, ran, Ok) && RanUntil(outcomes, base + |ran|, more, st)
    ensures RanUntil(outcomes, base, ran + more, st)
  {
    forall i | 0 <= i < |ran + more|
      ensures outcomes(base + i, (ran + more)[i]) == Ok <==> st == Ok || i < |ran + more| - 1
    {
      if i >= |ran| {
        assert (ran + more)[i] == more[i - |ran|];
        assert base + i == base + |ran| + (i - |ran|);
      }
    }
  }

  lemma UntilEnds(outcomes: Outcomes, base: nat, ran: seq<Entry>, st: Status)
    requires RanUntil(outcomes, base, ran, st)
    ensures forall i :: 0 <= i < |ran| - 1 ==> outcomes(base + i, ran[i]) == Ok
    ensures st == if |ran| == 0 then Ok else outcomes(base + |ran| - 1, ran[|ran| - 1])
  {
  }

  lemma FilterNothing(level: nat)
    ensures Filter([], level) == []
  {
  }

  lemma NothingRan(s: seq<Entry>, outcomes: Outcomes, base: nat)
    ensures LevelsSorted(s, 0) && RanUntil(outcomes, base, [], Ok)
  {
  }

  lemma Joined(a: seq<Entry>, b: seq<Entry>, c: seq<Entry>)
    ensures (a + b) + c == a + (b + c)
  {
  }

  class Engine {
    const entries: array<Entry>
    var count: nat
    const executed: array<bool>
    /** What a function returns, given how many ran before. */
    const outcomes: Outcomes
    var calls: nat
    ghost var trace: seq<Entry>

    ghost function Table(): seq<Entry>
      reads this, entries
      requires count <= entries.Length
    {
      entries[..count]
    }

    ghost predicate Valid()
      reads this, entries
    {
      && entries.Length == MAX_ENTRIES && executed.Length == LEVELS && count <= MAX_ENTRIES && calls == |trace|
      && Wellformed(Table())
    }

    constructor (behaviour: Outcomes)
      ensures Valid() && Table() == [] && trace == [] && outcomes == behaviour
    {
      entries := new Entry[MAX_ENTRIES](_ => Entry(0, 0, 0));
      executed := new bool[LEVELS](_ => false);
      outcomes := behaviour;
      count, calls, trace := 0, 0, [];
    }

    /** Each function is kept once. The room is checked before the duplicate. */
    method Register(fn: nat, level: nat, priority: Byte) returns (st: Status)
      requires Valid()
      modifies this`count, entries
      ensures Valid() && (Distinct(old(Table())) ==> Distinct(Table()))
      ensures var s := old(Table());
        if fn == 0 || level >= LEVELS then st == InvalidArg && Table() == s
        else if |s| >= MAX_ENTRIES then st == BufferOverflow && Table() == s
        else st == Ok && if exists k :: 0 <= k < |s| && s[k].fn == fn then Table() == s
                         else Table() == s + [Entry(fn, level, priority)]
    {
      if fn == 0 || level >= LEVELS {
        return InvalidArg;
      }
      if count >= MAX_ENTRIES {
        return BufferOverflow;
      }
      for i := 0 to count
        invariant forall k :: 0 <= k < i ==> entries[k].fn != fn
        invariant Table() == old(Table())
      {
        if entries[i].fn == fn {
          assert Table()[i].fn == fn;
          return Ok;
        }
      }
      entries[count] := Entry(fn, level, priority);
      count := count + 1;
      st := Ok;
    }

    /** One call. */
    method Call(e: Entry) returns (st: Status)
      modifies this`calls, this`trace
      ensures trace == old(trace) + [e] && calls == old(calls) + 1 && RanUntil(outcomes, old(calls), [e], st)
    {
      st := outcomes(calls, e);
      calls := calls + 1;
      trace := trace + [e];
    }

    /** The calls of one level, in slot order. */
    method RunLevel(level: nat) returns (st: Status, ghost ran: seq<Entry>)
      requires Valid() && level < LEVELS
      modifies this`calls, this`trace
      ensures Valid() && trace == old(trace) + ran && calls == old(calls) + |ran|
      ensures RanUntil(outcomes, old(calls), ran, st) && ran <= Filter(Table(), level)
      ensures st == Ok ==> ran == Filter(Table(), level)
    {
      hide RanUntil, Filter;
      NothingRan([], outcomes, calls);
      ran := [];
      ghost var s := Table();
      assert s[..0] == [];
      FilterNothing(level);
      for i := 0 to count
        invariant Valid() && Table() == s && trace == old(trace) + ran && calls == old(calls) + |ran|
        invariant ran == Filter(s[..i], level) && RanUntil(outcomes, old(calls), ran, Ok)
      {
        assert s[..i + 1] == s[..i] + [entries[i]];
        FilterPush(s[..i], entries[i], level);
        FilterPrefix(s, i + 1, level);
        if entries[i].level == level {
          st := Call(entries[i]);
          RanJoins(outcomes, old(calls), ran, [entries[i]], st);
          Joined(old(trace), ran, [entries[i]]);
          ran := ran + [entries[i]];
          if st != Ok {
            return st, ran;
          }
        }
      }
      assert s[..count] == s;
      st := Ok;
    }
  
    /** Sort the level's slots, run its functions; the flag is set only when all succeeded. */
    method InitLevel(level: nat) returns (st: Status, ghost ran: seq<Entry>)
      requires Valid()
      modifies this`calls, this`trace, entries, executed
      ensures Valid() && trace == old(trace) + ran && calls == old(calls) + |ran|
      ensures level >= LEVELS ==> st == InvalidArg && ran == [] && Table() == old(Table())
      ensures level < LEVELS ==>
                && Rearranged(old(Table()), Table(), Select(level)) && SortedBy(Table(), Select(level), ByPriority())
                && RanUntil(outcomes, old(calls), ran, st) && ran <= Filter(Table(), level)
                && (st == Ok ==> ran == Filter(Table(), level))
      ensures forall l :: 0 <= l < LEVELS ==> (executed[l] <==> old(executed[l]) || (l == level && st == Ok))
    {
      if level >= LEVELS {
        return InvalidArg, [];
      }
      ghost var s := Table();
      ExchangeSort(entries, count, Select(level), ByPriority());
      KeepsShape(s, Table());
      st, ran := RunLevel(level);
      if st == Ok {
        executed[level] := true;
      }
    }

    /**
     * All levels: what runs is the front of the order by level and priority, up to the first failure; a rearranged
     * table keeps every entry.
     */
    method InitAll() returns (st: Status, ghost ran: seq<Entry>, ghost done: nat)
      requires Valid()
      modifies this`calls, this`trace, entries, executed
      ensures Valid() && trace == old(trace) + ran && multiset(Table()) == multiset(old(Table()))
      ensures RanUntil(outcomes, old(calls), ran, st)
      ensures forall i :: 0 <= i < |ran| - 1 ==> outcomes(old(calls) + i, ran[i]) == Ok
      ensures st == if |ran| == 0 then Ok else outcomes(old(calls) + |ran| - 1, ran[|ran| - 1])
      ensures done <= LEVELS && LevelsSorted(Table(), done) && ran <= ByLevel(Table(), done)
      ensures st == Ok ==> done == LEVELS && ran == ByLevel(Table(), LEVELS)
    {
      hide LevelsSorted, RanUntil, Wellformed, Rearranged, SortedBy, Filter;
      NothingRan(Table(), outcomes, calls);
      ran := [];
      for level := 0 to LEVELS
        invariant Valid() && trace == old(trace) + ran && calls == old(calls) + |ran|
        invariant multiset(Table()) == multiset(old(Table()))
        invariant LevelsSorted(Table(), level) && ran == ByLevel(Table(), level)
        invariant RanUntil(outcomes, old(calls), ran, Ok)
      {
        ghost var s, more := Table(), [];
        st, more := InitLevel(level);
        LevelDone(s, Table(), level, ran, more);
        RanJoins(outcomes, old(calls), ran, more, st);
        Joined(old(trace), ran, more);
        ran := ran + more;
        if st != Ok {
          UntilEnds(outcomes, old(calls), ran, st);
          return st, ran, level + 1;
        }
      }
      UntilEnds(outcomes, old(calls), ran, Ok);
      return Ok, ran, LEVELS;
    }
  }

  /**
   * Hence, when everything succeeds, every registered entry has run exactly once, in lexicographic order of level
   * and priority.
   */
  lemma CompleteRun(registered: seq<Entry>, s: seq<Entry>)
    requires Wellformed(registered) && multiset(s) == multiset(registered) && LevelsSorted(s, LEVELS)
    ensures multiset(ByLevel(s, LEVELS)) == multiset(registered)
    ensures forall i, j :: 0 <= i < j < |ByLevel(s, LEVELS)|
              ==> var a, b := ByLevel(s, LEVELS)[i], ByLevel(s, LEVELS)[j];
                  a.level < b.level || (a.level == b.level && a.priority <= b.priority)
  {
    KeepsShape(registered, s);
    ByLevelComplete(s);
    ByLevelOrdered(s, LEVELS);
  }
}
