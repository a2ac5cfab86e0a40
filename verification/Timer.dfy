/**
 Round robin by timer interrupts (kernel/driver/timer.c with `ThreadSwitch`).
 */
module Timer {
  import opened Basics
  import opened Dyadic
  import opened Links
  import opened Places
  import opened Scheduler

  const RESET: int := 15  // kTimerReset

  // ----- rotation

  function RotateOnce(s: seq<int>): seq<int> {
    if s == [] then [] else s[1..] + [s[0]]
  }

  function Rotate(s: seq<int>, n: nat): (s': seq<int>)
    ensures |s'| == |s|
    decreases n
  {
    if n == 0 then s else Rotate(RotateOnce(s), n - 1)
  }

  /** After `n` switches every position holds what was `n` places further on, cyclically. */
  lemma {:induction false} RotateAt(s: seq<int>, n: nat, i: nat)
    requires i < |s|
    ensures Rotate(s, n)[i] == s[(i + n) % |s|]
    decreases n
  {
    if n > 0 {
      var t := RotateOnce(s);
      RotateAt(t, n - 1, i);
      var k := (i + (n - 1)) % |s|;
      assert t[k] == s[if k + 1 < |s| then k + 1 else 0];
      CyclicNext(i + (n - 1), |s|);
    }
  }

  lemma CyclicNext(a: nat, n: nat)
    requires n > 0
    ensures (a + 1) % n == if a % n + 1 < n then a % n + 1 else 0
  {
    var q, r := a / n, a % n;
    assert a == n * q + r;
    if r + 1 < n {
      RemainderOf(a + 1, q, r + 1, n);
    } else {
      assert a + 1 == n * (q + 1);
      RemainderOf(a + 1, q + 1, 0, n);
    }
  }

  lemma RemainderOf(a: nat, q: nat, r: nat, n: nat)
    requires r < n && a == n * q + r
    ensures a % n == r
  {
    QuotientOf(a, q, n);
  }

  lemma {:induction false} RotateSum(s: seq<int>, n: nat)
    ensures Rotate(s, n + 1) == RotateOnce(Rotate(s, n))
    decreases n
  {
    if n > 0 {
      RotateSum(RotateOnce(s), n - 1);
    }
  }

  // ----- the tick counter

  /** How many of `m` ticks make the counter reach zero, when it stands at `timer`. */
  function Switches(timer: int, m: nat): nat
    requires 0 < timer
  {
    if m < timer then 0 else 1 + (m - timer) / RESET
  }

  /** The counter after `m` ticks. */
  function Counter(timer: int, m: nat): int
    requires 0 < timer
  {
    if m < timer then timer - m else RESET - (m - timer) % RESET
  }

  lemma OneTick(timer: int, m: nat)
    requires 0 < timer
    ensures var c := Counter(timer, m);
      && c > 0
      && Counter(timer, m + 1) == (if c == 1 then RESET else c - 1)
      && Switches(timer, m + 1) == Switches(timer, m) + (if c == 1 then 1 else 0)
  {
    if m >= timer {
      var d := m - timer;
      assert d == RESET * (d / RESET) + d % RESET;
    }
  }

  lemma StartCounter(timer: int)
    requires 0 < timer
    ensures Counter(timer, 0) == timer && Switches(timer, 0) == 0
    ensures forall s :: Rotate(s, 0) == s
  {
  }

  // ----- what round robin gives each thread

  /** The thread that runs `m` ticks after the counter stood at `timer`. */
  function Runner(order: seq<int>, timer: int, m: nat): int
    requires order != [] && 0 < timer
  {
    Rotate(order, Switches(timer, m))[0]
  }

  /**
   The thread at position `i` of the wait queue gets its turn when the counter runs out for the
   time `i + 1`, keeps it until the counter runs out again, and does not run before.
   */
  lemma FirstRun(order: seq<int>, timer: int, i: nat, m: nat)
    requires Distinct(order) && i + 1 < |order| && 0 < timer && m < timer + 15 * (i + 1)
    ensures Runner(order, timer, m) == order[i + 1] <==> timer + 15 * i <= m
  {
    var k := Switches(timer, m);
    assert k <= i + 1 && (k == i + 1 <==> timer + RESET * i <= m);
    RotateAt(order, k, 0);
    RemainderOf(k, 0, k, |order|);
  }

  /** Fairness: among as many consecutive turns as there are threads, no thread has two. */
  lemma NobodyRunsTwice(order: seq<int>, timer: int, m: nat, j: nat, k: nat)
    requires Distinct(order) && j < k < |order| && 0 < timer <= RESET
    ensures Runner(order, timer, m + 15 * j) != Runner(order, timer, m + 15 * k)
  {
    var n, t := |order|, Switches(timer, m);
    TurnOf(order, timer, m, j);
    TurnOf(order, timer, m, k);
    if (t + j) % n == (t + k) % n {
      SameRemainderApart(t + j, t + k, n);
    }
  }

  lemma SameRemainderApart(x: nat, y: nat, n: nat)
    requires n > 0 && x < y && x % n == y % n
    ensures x + n <= y
  {
    var a, b := x / n, y / n;
    assert y - x == b * n - a * n;
    if b <= a {
      TimesMonotone(b, a, n);
    } else {
      TimesMonotone(a + 1, b, n);
    }
  }

  lemma TurnOf(order: seq<int>, timer: int, m: nat, j: nat)
    requires order != [] && 0 < timer <= RESET
    ensures Runner(order, timer, m + RESET * j) == order[(Switches(timer, m) + j) % |order|]
  {
    assert Switches(timer, m + RESET * j) == Switches(timer, m) + j;
    RotateAt(order, Switches(timer, m) + j, 0);
  }

  class Timer {
    const sched: Scheduler
    var timer: int  // uint8_t

    constructor (sched: Scheduler)
      ensures this.sched == sched && timer == 15
    {
      this.sched, timer := sched, RESET;
    }

    ghost predicate Valid()
      reads this, sched, sched.mem, sched.wait
    {
      sched.Valid() && 0 <= timer < 256
    }

    /** The running thread followed by those waiting, in the order in which they will run. */
    ghost function Order(): (s: seq<int>)
      requires sched.Valid()
      reads this, sched, sched.mem, sched.wait
    {
      [sched.cur] + sched.List(WAIT)
    }

    /** No thread has two places in the order. */
    lemma OrderDistinct()
      requires sched.Valid()
      ensures Distinct(Order())
    {
      hide Scheduler.Linked;
      sched.ListDistinct(WAIT);
      sched.PlacesPartition(sched.cur);
    }

    method TimerHandler()
      requires Valid()
      modifies `timer, sched, sched.mem, sched.wait
      ensures Valid() && sched.Now() == old(sched.Now()).(wait := sched.Now().wait, cur := sched.cur)
      ensures old(timer) == 1 ==> timer == 15 && Order() == RotateOnce(old(Order()))
      ensures old(timer) != 1 ==> timer == (old(timer) - 1) % 256 && Order() == old(Order())
    {
      hide Scheduler.Linked;
      timer := (timer - 1) % 256;
      if timer == 0 {
        timer := RESET;
        ghost var before := Order();
        sched.ThreadSwitch();
        assert before[1..] == old(sched.List(WAIT));
      }
    }

    /**
     Round robin: when only timer interrupts occur, `m` of them rotate the order of the threads
     once for every time the counter runs out, so that the thread at position `i` of the wait
     queue first runs when it has run out `i + 1` times.
     */
    method Ticks(m: nat)
      requires Valid() && timer > 0
      modifies `timer, sched, sched.mem, sched.wait
      ensures Valid() && timer == Counter(old(timer), m)
      ensures Order() == Rotate(old(Order()), Switches(old(timer), m))
      ensures Distinct(old(Order())) && sched.cur == Runner(old(Order()), old(timer), m)
      ensures forall i: nat :: i < |old(sched.List(WAIT))| && m < old(timer) + 15 * (i + 1) ==>
        (sched.cur == old(sched.List(WAIT))[i] <==> old(timer) + 15 * i <= m)
      ensures sched.Now() == old(sched.Now()).(wait := sched.Now().wait, cur := sched.cur)
    {
      hide Scheduler.Linked, Switches, Counter, Rotate, RotateOnce, Distinct;
      StartCounter(timer);
      OrderDistinct();
      ghost var order, start := Order(), timer;
      var k := 0;
      while k < m
        invariant 0 <= k <= m && Valid() && timer == Counter(start, k)
        invariant Order() == Rotate(order, Switches(start, k))
        invariant sched.Now() == old(sched.Now()).(wait := sched.Now().wait, cur := sched.cur)
      {
        OneTick(start, k);
        RotateSum(order, Switches(start, k));
        TimerHandler();
        k := k + 1;
      }
      assert sched.cur == Order()[0];
      forall i: nat | i + 1 < |order| && m < start + RESET * (i + 1)
        ensures Runner(order, start, m) == order[i + 1] <==> start + RESET * i <= m
      {
        FirstRun(order, start, i, m);
      }
    }
  }
}
