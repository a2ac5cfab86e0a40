/**
 Where the threads are (kernel/thread/thread.c), as a state machine over the contents of the
 scheduler's lists. The methods of Scheduler.dfy are proved to take these steps on the proper
 calls; on others a node may be lost, and the code's lists then go on as no step here does.
 */
module Places {
  import opened Basics

  const MAIN: int := 128  // the pool's threads are 0 to 127

  predicate IsThread(x: int) {
    0 <= x <= MAIN
  }

  /** Free list, wait queue, block list, the running thread, and threads created but not yet run. */
  datatype State = State(free: seq<int>, wait: seq<int>, block: seq<int>, cur: int, created: set<int>)

  datatype Call = Create | Start(x: int) | Switch | Sleep | Wake(x: int) | Destruct(x: int)

  function Woken(s: State, x: int): State {
    if x in s.block then s.(block := Without(s.block, x), wait := s.wait + [x]) else s
  }

  function Step(s: State, c: Call): State {
    match c
    case Create => if s.free == [] then s else s.(free := s.free[1..], created := s.created + {s.free[0]})
    case Start(x) => s.(wait := s.wait + [x], created := s.created - {x})
    case Switch => if s.wait == [] then s else s.(wait := s.wait[1..] + [s.cur], cur := s.wait[0])
    case Sleep =>
      if s.wait == [] then s.(block := [s.cur] + s.block)
      else s.(block := [s.cur] + s.block, wait := s.wait[1..], cur := s.wait[0])
    case Wake(x) => Woken(s, x)
    case Destruct(x) => s.(free := [x] + s.free, created := s.created - {x})
  }

  /** Only created threads are started or destroyed, and a thread sleeps only when another waits. */
  predicate Proper(s: State, c: Call) {
    match c
    case Start(x) => x in s.created
    case Destruct(x) => x in s.created
    case Sleep => s.wait != []
    case _ => true
  }

  /** All threads, each as often as it is somewhere. */
  ghost function Everyone(s: State): multiset<int> {
    multiset(s.free) + multiset(s.wait) + multiset(s.block) + multiset(s.created) + multiset{s.cur}
  }

  /** Each thread is in exactly one place. */
  ghost predicate Partition(s: State) {
    forall x {:trigger IsThread(x)} :: Everyone(s)[x] == if IsThread(x) then 1 else 0
  }

  lemma {:induction false} WithoutMultiset(s: seq<int>, x: int)
    requires x in s
    ensures multiset(s) == multiset(Without(s, x)) + multiset{x}
  {
    assert s == [s[0]] + s[1..];
    if s[0] != x {
      WithoutMultiset(s[1..], x);
    }
  }

  /** A call keeps every thread in exactly one place if and only if it is a proper one. */
  lemma StepConserves(s: State, c: Call)
    requires Partition(s)
    ensures Everyone(Step(s, c)) == Everyone(s) <==> Proper(s, c)
  {
    hide Everyone, Partition, Step;
    match c
    case Create => CreateConserves(s);
    case Start(x) => Started(s, x);
    case Switch => SwitchConserves(s);
    case Sleep => SleepConserves(s);
    case Wake(x) => WakeConserves(s, x);
    case Destruct(x) => Started(s, x);
  }

  lemma AtMostOnce(s: State, x: int)
    requires Partition(s)
    ensures Everyone(s)[x] <= 1
  {
    hide Everyone;
    assert Everyone(s)[x] == if IsThread(x) then 1 else 0;
  }

  lemma CreateConserves(s: State)
    requires Partition(s)
    ensures Everyone(Step(s, Create)) == Everyone(s)
  {
    if s.free != [] {
      var x := s.free[0];
      assert s.free == [x] + s.free[1..];
      AtMostOnce(s, x);
      assert multiset(s.created + {x}) == multiset(s.created) + multiset{x};
    }
  }

  lemma SwitchConserves(s: State)
    ensures Everyone(Step(s, Switch)) == Everyone(s)
  {
    if s.wait != [] {
      assert s.wait == [s.wait[0]] + s.wait[1..];
    }
  }

  lemma SleepConserves(s: State)
    ensures s.wait != [] ==> Everyone(Step(s, Sleep)) == Everyone(s)
    ensures s.wait == [] ==> Everyone(Step(s, Sleep))[s.cur] == Everyone(s)[s.cur] + 1
  {
    if s.wait != [] {
      assert s.wait == [s.wait[0]] + s.wait[1..];
    }
  }

  lemma WakeConserves(s: State, x: int)
    ensures Everyone(Step(s, Wake(x))) == Everyone(s)
  {
    if x in s.block {
      WithoutMultiset(s.block, x);
    }
  }

  lemma Started(s: State, x: int)
    ensures x in s.created ==> Everyone(Step(s, Start(x))) == Everyone(s)
    ensures x in s.created ==> Everyone(Step(s, Destruct(x))) == Everyone(s)
    ensures x !in s.created ==> Everyone(Step(s, Start(x)))[x] == Everyone(s)[x] + 1
    ensures x !in s.created ==> Everyone(Step(s, Destruct(x)))[x] == Everyone(s)[x] + 1
  {
    if x in s.created {
      assert multiset(s.created) == multiset(s.created - {x}) + multiset{x};
    } else {
      assert s.created - {x} == s.created;
    }
  }

  // ----- which threads a call moves

  datatype Place = Free | Waiting | Blocked | Running | Created

  predicate At(s: State, y: int, p: Place) {
    match p
    case Free => y in s.free
    case Waiting => y in s.wait
    case Blocked => y in s.block
    case Running => y == s.cur
    case Created => y in s.created
  }

  lemma OnePlace(s: State, y: int, p: Place, q: Place)
    requires Partition(s) && At(s, y, p) && At(s, y, q)
    ensures p == q
  {
    AtMostOnce(s, y);
  }

  lemma StillPartition(s: State, c: Call)
    requires Partition(s) && Proper(s, c)
    ensures Partition(Step(s, c))
  {
    hide Everyone, Step;
    StepConserves(s, c);
  }

  // A proper call moves these threads to these places, and nobody else.

  lemma CreateMoves(s: State, y: int, p: Place)
    requires Partition(s) && Proper(s, Create)
    ensures At(Step(s, Create), y, p) <==>
      if s.free != [] && y == s.free[0] then p == Created else At(s, y, p)
  {
    hide Everyone;
    var s' := Step(s, Create);
    StillPartition(s, Create);
    hide Partition;
    if s.free != [] {
      assert s.free == [s.free[0]] + s.free[1..];
      OnlyAt(s', s.free[0], Created, p);
    }
  }

  lemma StartMoves(s: State, x: int, y: int, p: Place)
    requires Partition(s) && Proper(s, Start(x))
    ensures At(Step(s, Start(x)), y, p) <==>
      if y == x then p == Waiting else At(s, y, p)
  {
    hide Everyone;
    var s' := Step(s, Start(x));
    StillPartition(s, Start(x));
    hide Partition;
    assert s'.wait[|s.wait|] == x;
    OnlyAt(s', x, Waiting, p);
  }

  lemma SwitchMoves(s: State, y: int, p: Place)
    requires Partition(s) && Proper(s, Switch)
    ensures At(Step(s, Switch), y, p) <==>
      if s.wait != [] && y == s.cur then p == Waiting
      else if s.wait != [] && y == s.wait[0] then p == Running
      else At(s, y, p)
  {
    hide Everyone;
    var s' := Step(s, Switch);
    StillPartition(s, Switch);
    hide Partition;
    if s.wait != [] {
      HeadMoves(s);
      assert s.wait == [s.wait[0]] + s.wait[1..] && s'.wait[|s.wait| - 1] == s.cur;
      OnlyAt(s', s.cur, Waiting, p);
      OnlyAt(s', s.wait[0], Running, p);
    }
  }

  lemma SleepMoves(s: State, y: int, p: Place)
    requires Partition(s) && Proper(s, Sleep)
    ensures At(Step(s, Sleep), y, p) <==>
      if y == s.cur then p == Blocked
      else if y == s.wait[0] then p == Running
      else At(s, y, p)
  {
    hide Everyone;
    var s' := Step(s, Sleep);
    StillPartition(s, Sleep);
    hide Partition;
    HeadMoves(s);
    assert s.wait == [s.wait[0]] + s.wait[1..] && s'.block[0] == s.cur;
    OnlyAt(s', s.cur, Blocked, p);
    OnlyAt(s', s.wait[0], Running, p);
  }

  lemma WakeMoves(s: State, x: int, y: int, p: Place)
    requires Partition(s) && Proper(s, Wake(x))
    ensures At(Step(s, Wake(x)), y, p) <==>
      if y == x && x in s.block then p == Waiting else At(s, y, p)
  {
    hide Everyone;
    var s' := Step(s, Wake(x));
    StillPartition(s, Wake(x));
    hide Partition;
    if x in s.block {
      WithoutOther(s.block, x, y);
      assert s'.wait[|s.wait|] == x;
      OnlyAt(s', x, Waiting, p);
    }
  }

  lemma DestructMoves(s: State, x: int, y: int, p: Place)
    requires Partition(s) && Proper(s, Destruct(x))
    ensures At(Step(s, Destruct(x)), y, p) <==>
      if y == x then p == Free else At(s, y, p)
  {
    hide Everyone;
    var s' := Step(s, Destruct(x));
    StillPartition(s, Destruct(x));
    hide Partition;
    assert s'.free[0] == x;
    OnlyAt(s', x, Free, p);
  }

  lemma OnlyAt(s: State, y: int, q: Place, p: Place)
    requires Partition(s) && At(s, y, q)
    ensures At(s, y, p) <==> p == q
  {
    if At(s, y, p) {
      OnePlace(s, y, p, q);
    }
  }

  /** The first waiting thread is not the running one. */
  lemma HeadMoves(s: State)
    requires Partition(s) && s.wait != []
    ensures s.wait[0] != s.cur && s.cur !in s.wait
  {
    if s.cur in s.wait {
      OnePlace(s, s.cur, Waiting, Running);
    }
  }

  lemma {:induction false} WithoutOther(s: seq<int>, x: int, y: int)
    ensures y != x ==> (y in Without(s, x) <==> y in s)
  {
    if s != [] {
      WithoutOther(s[1..], x, y);
      assert s == [s[0]] + s[1..];
    }
  }

  // ----- runs

  function Run(s: State, calls: seq<Call>): State
    decreases |calls|
  {
    if calls == [] then s else Run(Step(s, calls[0]), calls[1..])
  }

  predicate AllProper(s: State, calls: seq<Call>)
    decreases |calls|
  {
    calls == [] || (Proper(s, calls[0]) && AllProper(Step(s, calls[0]), calls[1..]))
  }

  /** Over every run of proper calls each thread stays in exactly one place. */
  lemma {:induction false} RunKeepsPartition(s: State, calls: seq<Call>)
    requires Partition(s) && AllProper(s, calls)
    ensures Partition(Run(s, calls))
    decreases |calls|
  {
    if calls != [] {
      StepConserves(s, calls[0]);
      RunKeepsPartition(Step(s, calls[0]), calls[1..]);
    }
  }

  /** A call that takes the processor away from the running thread. */
  predicate IsTurn(c: Call) {
    c == Switch || c == Sleep
  }

  function Turns(calls: seq<Call>): nat {
    if calls == [] then 0 else (if IsTurn(calls[0]) then 1 else 0) + Turns(calls[1..])
  }

  lemma {:induction false} NoTurnsLeft(calls: seq<Call>)
    requires Turns(calls) == 0 && (calls != [] ==> IsTurn(calls[|calls| - 1]))
    ensures calls == []
  {
    if calls != [] {
      if |calls| > 1 {
        NoTurnsLeft(calls[1..]);
      }
    }
  }

  /**
   Bounded waiting: whatever proper calls happen in between, the thread at position `i` of the
   wait queue runs as soon as the processor has been taken away `i + 1` times.
   */
  lemma {:induction false} WaitingTurn(s: State, calls: seq<Call>, i: nat)
    requires i < |s.wait| && Turns(calls) == i + 1 && calls != [] && IsTurn(calls[|calls| - 1])
    requires AllProper(s, calls)
    ensures Run(s, calls).cur == s.wait[i]
    decreases |calls|
  {
    var s', rest := Step(s, calls[0]), calls[1..];
    if IsTurn(calls[0]) && i == 0 {
      NoTurnsLeft(rest);
    } else if IsTurn(calls[0]) {
      WaitingTurn(s', rest, i - 1);
    } else {
      WaitingTurn(s', rest, i);
    }
  }

  /** Only a wake of it takes a thread off the block list. */
  lemma StaysBlocked(s: State, c: Call, x: int)
    requires Partition(s) && Proper(s, c) && x in s.block && c != Wake(x)
    ensures x in Step(s, c).block
  {
    hide Partition, Step;
    assert At(s, x, Blocked);
    OnlyAt(s, x, Blocked, Free);
    OnlyAt(s, x, Blocked, Waiting);
    OnlyAt(s, x, Blocked, Running);
    OnlyAt(s, x, Blocked, Created);
    match c
    case Create => CreateMoves(s, x, Blocked);
    case Start(y) => StartMoves(s, y, x, Blocked);
    case Switch => SwitchMoves(s, x, Blocked);
    case Sleep => SleepMoves(s, x, Blocked);
    case Wake(y) => WakeMoves(s, y, x, Blocked);
    case Destruct(y) => DestructMoves(s, y, x, Blocked);
  }

  lemma {:induction false} BlockedUntilWoken(s: State, calls: seq<Call>, x: int)
    requires Partition(s) && AllProper(s, calls) && x in s.block && Wake(x) !in calls
    ensures x in Run(s, calls).block && Run(s, calls).cur != x
    decreases |calls|
  {
    hide Partition, Step;
    if calls == [] {
      assert At(s, x, Blocked);
      OnlyAt(s, x, Blocked, Running);
    } else {
      assert calls[0] in calls;
      StaysBlocked(s, calls[0], x);
      StillPartition(s, calls[0]);
      BlockedUntilWoken(Step(s, calls[0]), calls[1..], x);
    }
  }

  /**
   A thread that sleeps is blocked and does not run, whatever proper calls follow, until it is
   woken; right after that it is the last one waiting.
   */
  lemma SleepsUntilWoken(s: State, calls: seq<Call>)
    requires Partition(s) && AllProper(s, [Sleep] + calls) && Wake(s.cur) !in calls
    ensures var s' := Run(s, [Sleep] + calls);
      && s.cur in s'.block && s'.cur != s.cur && s.cur !in s'.wait
      && var s'' := Step(s', Wake(s.cur));
         s''.wait == s'.wait + [s.cur] && s.cur !in s''.block
  {
    hide Partition;
    var all, x := [Sleep] + calls, s.cur;
    assert all[1..] == calls;
    StillPartition(s, Sleep);
    assert x == Step(s, Sleep).block[0];
    BlockedUntilWoken(Step(s, Sleep), calls, x);
    RunKeepsPartition(s, all);
    var s' := Run(s, all);
    assert At(s', x, Blocked);
    OnlyAt(s', x, Blocked, Waiting);
    WakeMoves(s', x, x, Blocked);
    assert !At(Step(s', Wake(x)), x, Blocked);
  }

  /** Only destroying it makes a thread free again. */
  lemma StaysInUse(s: State, c: Call, x: int)
    requires Partition(s) && Proper(s, c) && x !in s.free && c != Destruct(x)
    ensures x !in Step(s, c).free
  {
    hide Partition, Step;
    assert !At(s, x, Free);
    match c
    case Create => CreateMoves(s, x, Free);
    case Start(y) => StartMoves(s, y, x, Free);
    case Switch => SwitchMoves(s, x, Free);
    case Sleep => SleepMoves(s, x, Free);
    case Wake(y) => WakeMoves(s, y, x, Free);
    case Destruct(y) => DestructMoves(s, y, x, Free);
  }

  lemma {:induction false} InUseUntilDestroyed(s: State, calls: seq<Call>, x: int)
    requires Partition(s) && AllProper(s, calls) && x !in s.free && Destruct(x) !in calls
    ensures x !in Run(s, calls).free
    decreases |calls|
  {
    hide Partition, Step;
    if calls != [] {
      assert calls[0] in calls;
      StaysInUse(s, calls[0], x);
      StillPartition(s, calls[0]);
      InUseUntilDestroyed(Step(s, calls[0]), calls[1..], x);
    }
  }

  /**
   A thread that is handed out is not handed out again before it is destroyed: whatever proper
   calls follow, it is not on the free list.
   */
  lemma HandedOutOnce(s: State, calls: seq<Call>)
    requires Partition(s) && s.free != [] && AllProper(s, [Create] + calls) && Destruct(s.free[0]) !in calls
    ensures s.free[0] !in Run(s, [Create] + calls).free
  {
    hide Partition;
    var all, x := [Create] + calls, s.free[0];
    assert all[1..] == calls;
    StillPartition(s, Create);
    CreateMoves(s, x, Free);
    assert !At(Step(s, Create), x, Free);
    InUseUntilDestroyed(Step(s, Create), calls, x);
  }

  /** The calls of `ThreadWakeAll`. */
  function Wakes(xs: seq<int>): (calls: seq<Call>)
    ensures |calls| == |xs|
  {
    if xs == [] then [] else [Wake(xs[0])] + Wakes(xs[1..])
  }

  /**
   `ThreadWakeAll` wakes every blocked thread that it is given and no other, and what it takes
   off the block list it adds to the wait queue.
   */
  lemma {:induction false} WakesExactly(s: State, xs: seq<int>)
    requires Distinct(s.block)
    ensures var s' := Run(s, Wakes(xs));
      && s' == s.(block := s'.block, wait := s'.wait) && Distinct(s'.block) && s.wait <= s'.wait
      && (forall y :: y in s'.block <==> y in s.block && y !in xs)
      && (forall y :: y in s'.wait <==> y in s.wait || (y in s.block && y in xs))
    decreases |xs|
  {
    if xs != [] {
      var t := Woken(s, xs[0]);
      WithoutMembers(s.block, xs[0]);
      assert xs == [xs[0]] + xs[1..];
      assert Wakes(xs)[1..] == Wakes(xs[1..]);
      WakesExactly(t, xs[1..]);
    }
  }
}
