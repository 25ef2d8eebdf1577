/** The watchdog supervisor: the hardware is kicked only while every registered task keeps reporting. */
module Watchdog {
  import opened Bytes
  import opened Words
  import opened Bitmap

  const MAX_TASKS := 32
  const WORD: nat := 0x1_0000_0000

  // ----- the supervisor as a step machine -----

  datatype Event = Register(t: nat) | Unregister(t: nat) | Heartbeat(t: nat) | Service(now: U32)

  datatype Wdt = Wdt(registered: set<nat>, reported: set<nat>, timeout: U32, lastKick: U32)

  function Starving(s: Wdt): set<nat> {
    s.registered - s.reported
  }

  /** Task numbers that are too large are refused. */
  function Next(s: Wdt, e: Event): Wdt {
    match e
    case Register(t) =>
      if t >= MAX_TASKS then s else s.(registered := s.registered + {t}, reported := s.reported + {t})
    case Unregister(t) =>
      if t >= MAX_TASKS then s else s.(registered := s.registered - {t}, reported := s.reported - {t})
    case Heartbeat(t) => if t >= MAX_TASKS then s else s.(reported := s.reported + {t})
    case Service(now) => if Starving(s) == {} then s.(reported := {}, lastKick := now) else s
  }

  /** What a service call answers: false when tasks starve and the window is over, by the clock that wraps. */
  function Healthy(s: Wdt, now: U32): bool {
    Starving(s) == {} || Minus(now, s.lastKick, WORD) < s.timeout
  }

  function After(s: Wdt, es: seq<Event>, n: nat): Wdt
    requires n <= |es|
  {
    if n == 0 then s else Next(After(s, es, n - 1), es[n - 1])
  }

  /** The n-th event makes the supervisor kick the hardware. */
  predicate Kicks(s: Wdt, es: seq<Event>, n: nat)
    requires n < |es|
  {
    es[n].Service? && Starving(After(s, es, n)) == {}
  }

  /** Where the current window began: behind the last kick. */
  function WindowStart(s: Wdt, es: seq<Event>, n: nat): (r: nat)
    requires n <= |es|
    ensures r <= n && (r > 0 ==> Kicks(s, es, r - 1))
  {
    if n == 0 then 0 else if Kicks(s, es, n - 1) then n else WindowStart(s, es, n - 1)
  }

  /** The m-th event counts as a sign of life that has not been taken back before the n-th. */
  predicate AliveAt(es: seq<Event>, t: nat, m: nat, n: nat)
    requires m < n <= |es|
  {
    && (es[m] == Heartbeat(t) || es[m] == Register(t))
    && forall j :: m < j < n ==> es[j] != Unregister(t)
  }

  /** The task gave a sign of life in the current window. */
  ghost predicate Alive(s: Wdt, es: seq<Event>, n: nat, t: nat)
    requires n <= |es|
  {
    exists m :: WindowStart(s, es, n) <= m < n && AliveAt(es, t, m, n)
  }

  lemma AliveStays(es: seq<Event>, t: nat, m: nat, n: nat)
    requires m < n < |es| && es[n] != Unregister(t)
    ensures AliveAt(es, t, m, n + 1) <==> AliveAt(es, t, m, n)
  {
    if AliveAt(es, t, m, n + 1) {
      forall j | m < j < n ensures es[j] != Unregister(t) {
      }
    }
  }

  /** A task counts as reported exactly when it gave a sign of life in the current window. */
  lemma {:induction false} ReportedExactly(s: Wdt, es: seq<Event>, n: nat, t: nat)
    requires n <= |es| && t < MAX_TASKS && s.reported == {}
    ensures t in After(s, es, n).reported <==> Alive(s, es, n, t)
  {
    if n > 0 {
      ReportedExactly(s, es, n - 1, t);
      var e, w := es[n - 1], WindowStart(s, es, n);
      if e == Heartbeat(t) || e == Register(t) {
        assert AliveAt(es, t, n - 1, n);
      } else if e == Unregister(t) {
        forall m | w <= m < n ensures !AliveAt(es, t, m, n) {
          assert m == n - 1 || es[n - 1] == Unregister(t);
        }
      } else if !Kicks(s, es, n - 1) {
        assert t in After(s, es, n).reported <==> t in After(s, es, n - 1).reported;
        forall m | w <= m < n - 1 ensures AliveAt(es, t, m, n) <==> AliveAt(es, t, m, n - 1) {
          AliveStays(es, t, m, n - 1);
        }
        WindowUnchanged(s, es, n, t);
      }
    }
  }

  lemma WindowUnchanged(s: Wdt, es: seq<Event>, n: nat, t: nat)
    requires 0 < n <= |es| && !Kicks(s, es, n - 1) && es[n - 1] != Heartbeat(t) && es[n - 1] != Register(t)
    requires forall m :: WindowStart(s, es, n) <= m < n - 1 ==> (AliveAt(es, t, m, n) <==> AliveAt(es, t, m, n - 1))
    ensures Alive(s, es, n, t) <==> Alive(s, es, n - 1, t)
  {
    if Alive(s, es, n, t) {
      var m :| WindowStart(s, es, n) <= m < n && AliveAt(es, t, m, n);
      assert m < n - 1 && AliveAt(es, t, m, n - 1);
    }
    if Alive(s, es, n - 1, t) {
      var k := n - 1;
      var m :| WindowStart(s, es, k) <= m < k && AliveAt(es, t, m, k);
      assert AliveAt(es, t, m, n);
    }
  }

  /** The m-th event registers the task, and it has not been taken out before the n-th. */
  predicate MemberSince(es: seq<Event>, t: nat, m: nat, n: nat)
    requires m < n <= |es|
  {
    es[m] == Register(t) && forall j :: m < j < n ==> es[j] != Unregister(t)
  }

  /** The task is to be watched. */
  ghost predicate Member(es: seq<Event>, n: nat, t: nat)
    requires n <= |es|
  {
    t < MAX_TASKS && exists m :: 0 <= m < n && MemberSince(es, t, m, n)
  }

  lemma MemberStays(es: seq<Event>, n: nat, t: nat)
    requires 0 < n <= |es| && es[n - 1] != Register(t) && es[n - 1] != Unregister(t)
    ensures Member(es, n, t) <==> Member(es, n - 1, t)
  {
    if Member(es, n, t) {
      var m :| 0 <= m < n && MemberSince(es, t, m, n);
      assert m < n - 1 && MemberSince(es, t, m, n - 1);
    }
    if Member(es, n - 1, t) {
      var k := n - 1;
      var m :| 0 <= m < k && MemberSince(es, t, m, k);
      assert MemberSince(es, t, m, n);
    }
  }

  /** A task is registered exactly when it was registered and has not been unregistered since. */
  lemma {:induction false} RegisteredExactly(s: Wdt, es: seq<Event>, n: nat, t: nat)
    requires n <= |es| && s.registered == {}
    ensures t in After(s, es, n).registered <==> Member(es, n, t)
  {
    if n > 0 {
      RegisteredExactly(s, es, n - 1, t);
      if es[n - 1] == Register(t) {
        assert MemberSince(es, t, n - 1, n);
      } else if es[n - 1] == Unregister(t) {
        forall m | 0 <= m < n ensures !MemberSince(es, t, m, n) {
          assert m == n - 1 || es[n - 1] == Unregister(t);
        }
      } else {
        MemberStays(es, n, t);
      }
    }
  }

  ghost predicate AllAlive(s: Wdt, es: seq<Event>, n: nat)
    requires n <= |es|
  {
    forall t :: Member(es, n, t) ==> Alive(s, es, n, t)
  }

  /**
   * The hardware is kicked by a service call exactly when every task that is registered then has given a sign of
   * life since the kick before.
   */
  lemma KickedOnlyIfAllAlive(s: Wdt, es: seq<Event>, n: nat)
    requires n < |es| && s.registered == {} && s.reported == {}
    ensures Kicks(s, es, n) <==> es[n].Service? && AllAlive(s, es, n)
  {
    hide Member, Alive, After;
    forall t: nat
      ensures t in After(s, es, n).registered <==> Member(es, n, t)
      ensures Member(es, n, t) ==> (t in After(s, es, n).reported <==> Alive(s, es, n, t))
    {
      RegisteredExactly(s, es, n, t);
      MemberIsTask(es, n, t);
      if t < MAX_TASKS {
        ReportedExactly(s, es, n, t);
      }
    }
    NoneStarves(After(s, es, n));
  }

  lemma NoneStarves(w: Wdt)
    ensures Starving(w) == {} <==> forall t :: t in w.registered ==> t in w.reported
  {
    if t :| t in w.registered && t !in w.reported {
      assert t in Starving(w);
    }
  }

  lemma MemberIsTask(es: seq<Event>, n: nat, t: nat)
    requires n <= |es|
    ensures Member(es, n, t) ==> t < MAX_TASKS
  {
  }

  /** The time of the last kick is the clock of the service call that kicked last. */
  lemma {:induction false} LastKickTime(s: Wdt, es: seq<Event>, n: nat)
    requires n <= |es|
    ensures var w := WindowStart(s, es, n);
      && (w == 0 ==> After(s, es, n).lastKick == s.lastKick)
      && (w > 0 ==> Kicks(s, es, w - 1) && After(s, es, n).lastKick == es[w - 1].now)
      && After(s, es, n).timeout == s.timeout
  {
    if n > 0 {
      LastKickTime(s, es, n - 1);
    }
  }

  /** The clock of the last kick, or of the start if there was none. */
  function Kicked(s: Wdt, es: seq<Event>, n: nat): U32
    requires n <= |es|
  {
    var w := WindowStart(s, es, n);
    if w == 0 then s.lastKick else es[w - 1].now
  }

  lemma KickedLast(s: Wdt, es: seq<Event>, n: nat)
    requires n <= |es|
    ensures After(s, es, n).lastKick == Kicked(s, es, n) && After(s, es, n).timeout == s.timeout
  {
    hide After, WindowStart;
    LastKickTime(s, es, n);
  }

  /**
   * A service call answers false if and only if some registered task has given no sign of life since the last kick
   * and the time since then, by the clock that wraps, has reached the timeout.
   */
  lemma FaultExactly(s: Wdt, es: seq<Event>, n: nat)
    requires n < |es| && es[n].Service? && s.registered == {} && s.reported == {}
    ensures !Healthy(After(s, es, n), es[n].now) <==>
              && (exists t :: Member(es, n, t) && !Alive(s, es, n, t))
              && Minus(es[n].now, Kicked(s, es, n), WORD) >= s.timeout
  {
    hide After, Alive, Member, WindowStart, Kicked, Minus;
    KickedOnlyIfAllAlive(s, es, n);
    KickedLast(s, es, n);
  }

  // ----- masks -----

  /** The tasks whose bits are set. */
  function Tasks(mask: bv32): set<nat> {
    set k: nat | k < 32 && Has(mask, k)
  }

  function Ones(n: nat): bv32
    requires n <= 32
  {
    if n == 0 then 0 else Ones(n - 1) | Mask(n - 1)
  }

  lemma AllOnes()
    ensures Ones(32) == 0xFFFF_FFFF
  {
    assert Mask(8) == 0x100;
    assert Mask(16) == 0x1_0000;
    assert Mask(24) == 0x100_0000;
    assert Ones(8) == 0xFF;
    assert Ones(16) == 0xFFFF;
    assert Ones(24) == 0xFF_FFFF;
  }

  lemma NoneOf(x: bv32, a: bv32, b: bv32)
    requires x & a == 0 && !Test(x, b)
    ensures x & (a | b) == 0
  {
  }

  lemma {:induction false} NoBits(x: bv32, n: nat)
    requires n <= 32 && forall k :: 0 <= k < n ==> !Has(x, k)
    ensures x & Ones(n) == 0
  {
    if n > 0 {
      NoBits(x, n - 1);
      assert !Has(x, n - 1);
      NoneOf(x, Ones(n - 1), Mask(n - 1));
    }
  }

  lemma AndOnes(x: bv32)
    ensures x & 0xFFFF_FFFF == x
  {
  }

  /** A mask is zero exactly when it holds no task. */
  lemma ZeroIsEmpty(x: bv32)
    ensures x == 0 <==> Tasks(x) == {}
  {
    if Tasks(x) == {} {
      forall k | 0 <= k < 32 ensures !Has(x, k) {
        assert k !in Tasks(x);
      }
      NoBits(x, 32);
      AllOnes();
      AndOnes(x);
    } else {
      var k :| k in Tasks(x);
      ZeroTest(Mask(k));
    }
  }

  lemma TasksWith(x: bv32, t: nat)
    requires t < 32
    ensures Tasks(With(x, Mask(t))) == Tasks(x) + {t} && Tasks(Without(x, Mask(t))) == Tasks(x) - {t}
  {
    forall k: nat | k < 32
      ensures Has(With(x, Mask(t)), k) <==> k == t || Has(x, k)
      ensures Has(Without(x, Mask(t)), k) <==> k != t && Has(x, k)
    {
      SetsOne(x, t, k);
      ClearsOne(x, t, k);
    }
  }

  /** The mask of starving tasks. */
  function StarvingMask(registered: bv32, reported: bv32): bv32 {
    registered & !reported
  }

  /** All of m or nothing. */
  predicate Whole(x: bv32, m: bv32) {
    x & m == 0 || x & m == m
  }

  function Halved(x: bv32): bv32 {
    x >> 1
  }

  lemma ShiftedNone(x: bv32, m: bv32)
    requires Halved(x) & m == 0
    ensures x & (m << 1) == 0
  {
  }

  lemma ShiftedAll(x: bv32, m: bv32)
    requires Halved(x) & m == m
    ensures x & (m << 1) == m << 1
  {
  }

  lemma ShiftedBit(x: bv32, m: bv32)
    requires Whole(Halved(x), m)
    ensures Whole(x, m << 1)
  {
    if Halved(x) & m == 0 {
      ShiftedNone(x, m);
    } else {
      ShiftedAll(x, m);
    }
  }

  lemma LowBit(x: bv32)
    ensures Whole(x, 1)
  {
  }

  lemma {:induction false} OneBit(x: bv32, k: nat)
    requires k < 32
    ensures Whole(x, Mask(k))
    decreases k
  {
    if k == 0 {
      LowBit(x);
    } else {
      OneBit(Halved(x), k - 1);
      ShiftedBit(x, Mask(k - 1));
    }
  }

  lemma Unmasked(r: bv32, p: bv32, m: bv32)
    requires p & m == 0
    ensures StarvingMask(r, p) & m == r & m
  {
  }

  lemma NotThere(r: bv32, p: bv32, m: bv32)
    requires !Test(p, m)
    ensures Test(StarvingMask(r, p), m) <==> Test(r, m)
  {
    Unmasked(r, p, m);
  }

  lemma There(r: bv32, p: bv32, m: bv32)
    requires Test(p, m) && Whole(p, m)
    ensures !Test(StarvingMask(r, p), m)
  {
  }

  lemma StarvingBit(r: bv32, p: bv32, k: nat)
    requires k < 32
    ensures Has(StarvingMask(r, p), k) <==> Has(r, k) && !Has(p, k)
  {
    hide Mask;
    if Has(p, k) {
      OneBit(p, k);
      There(r, p, Mask(k));
    } else {
      NotThere(r, p, Mask(k));
    }
  }

  lemma StarvingTasks(r: bv32, p: bv32)
    ensures Tasks(StarvingMask(r, p)) == Tasks(r) - Tasks(p)
  {
    forall k: nat | k < 32 ensures Has(StarvingMask(r, p), k) <==> Has(r, k) && !Has(p, k) {
      StarvingBit(r, p, k);
    }
  }

  lemma NoTasks()
    ensures Tasks(0) == {}
  {
    ZeroIsEmpty(0);
  }

  // ----- the supervisor itself -----

  class Supervisor {
    var registered: bv32
    var reported: bv32
    var timeout: U32
    var lastKick: U32
    /** What the callbacks have seen. */
    ghost var kicks: nat
    ghost var faults: seq<set<nat>>

    ghost function View(): Wdt
      reads this
    {
      Wdt(Tasks(registered), Tasks(reported), timeout, lastKick)
    }

    constructor (ms: U32, now: U32)
      requires ms > 0
      ensures View() == Wdt({}, {}, ms, now) && kicks == 0 && faults == []
    {
      registered, reported, timeout, lastKick := 0, 0, ms, now;
      kicks, faults := 0, [];
      new;
      NoTasks();
    }

    method RegisterTask(id: Byte) returns (st: Status)
      modifies this`registered, this`reported
      ensures View() == Next(old(View()), Register(id)) && st == if id >= MAX_TASKS then InvalidArg else Ok
    {
      if id >= MAX_TASKS {
        return InvalidArg;
      }
      TasksWith(registered, id);
      TasksWith(reported, id);
      registered := With(registered, Mask(id));
      reported := With(reported, Mask(id));
      st := Ok;
    }

    method UnregisterTask(id: Byte) returns (st: Status)
      modifies this`registered, this`reported
      ensures View() == Next(old(View()), Unregister(id)) && st == if id >= MAX_TASKS then InvalidArg else Ok
    {
      if id >= MAX_TASKS {
        return InvalidArg;
      }
      TasksWith(registered, id);
      TasksWith(reported, id);
      registered := Without(registered, Mask(id));
      reported := Without(reported, Mask(id));
      st := Ok;
    }

    method HeartbeatFrom(id: Byte)
      modifies this`reported
      ensures View() == Next(old(View()), Heartbeat(id))
    {
      if id < MAX_TASKS {
        TasksWith(reported, id);
        reported := With(reported, Mask(id));
      }
    }

    /** Kick, fault or wait: the fault callback gets exactly the starving tasks. */
    method ServiceAt(now: U32) returns (ok: bool)
      modifies this
      ensures View() == Next(old(View()), Service(now)) && ok == Healthy(old(View()), now)
      ensures kicks == old(kicks) + if Starving(old(View())) == {} then 1 else 0
      ensures faults == old(faults) + if ok then [] else [Starving(old(View()))]
    {
      var starving := StarvingMask(registered, reported);
      StarvingTasks(registered, reported);
      ZeroIsEmpty(starving);
      if starving == 0 {
        kicks := kicks + 1;
        NoTasks();
        reported := 0;
        lastKick := now;
        return true;
      }
      if Minus(now, lastKick, WORD) >= timeout {
        faults := faults + [Tasks(starving)];
        return false;
      }
      ok := true;
    }
  }

  /** A window of no length is refused. */
  method Init(ms: U32, now: U32) returns (st: Status, wdt: Supervisor?)
    ensures st == if ms == 0 then InvalidArg else Ok
    ensures st == Ok <==> wdt != null
    ensures st == Ok ==> wdt.View() == Wdt({}, {}, ms, now) && wdt.kicks == 0
  {
    if ms == 0 {
      return InvalidArg, null;
    }
    st := Ok;
    wdt := new Supervisor(ms, now);
  }
}
