/**
 The thread scheduler (kernel/thread/thread.c).

 A thread is the number of its `node` field in memory: 0 to 127 are the pool of `ThreadInit`,
 128 is the main thread, and the three numbers after that are the heads of the free list, the
 wait queue and the block list. The registers and stacks that a switch exchanges are in
 ContextSwitch.dfy.
 */
module Scheduler {
  import opened Basics
  import opened Links
  import opened Queues
  import opened Places

  const POOL_THREADS: nat := 128  // kThreadPoolInitNum
  const FREE_HEAD: int := 129
  const WAIT_HEAD: int := 130
  const BLOCK_HEAD: int := 131
  const NODES: nat := 132

  // ring numbers
  const FREE: nat := 0
  const WAIT: nat := 1
  const BLOCK: nat := 2

  class Scheduler {
    const mem: ListMemory
    const wait: Queue
    var cur: int        // the thread that `GetCurThread` finds through the TSS
    var pid: seq<nat>   // `pcb->pid` of each thread

    ghost var rs: seq<seq<int>>
    ghost var own: seq<int>
    ghost var held: set<int>     // threads on none of the three lists
    ghost var created: set<int>  // handed out by `CreateThread`, not yet run

    ghost predicate Linked()
      reads `rs, `own, `held, mem, wait
      ensures Linked() ==> |rs| == 3 && rs[FREE] != [] && rs[WAIT] != [] && rs[BLOCK] != []
      ensures Linked() ==> |mem.next| == NODES
    {
      && wait.mem == mem && wait.head == WAIT_HEAD && |mem.next| == NODES && |own| == NODES
      && |rs| == 3 && rs[FREE] != [] && rs[BLOCK] != []
      && Forest(mem.next, rs, own) && Accounted(rs, own, held) && Loose(mem.next, held)
      && rs[WAIT] == wait.ring && wait.Valid()
      && rs[FREE][0] == FREE_HEAD && rs[BLOCK][0] == BLOCK_HEAD
    }

    /** Every thread is on exactly one list, or is the running one, or is created but not run. */
    ghost predicate Valid()
      reads this, mem, wait
    {
      && Linked() && held == created + {cur} && cur !in created
      && IsThread(cur) && (forall x :: x in created ==> IsThread(x)) && |pid| == NODES
    }

    ghost function List(i: nat): seq<int>
      requires i < |rs| && rs[i] != []
      reads this
    {
      rs[i][1..]
    }

    /** Where all threads are. */
    ghost function Now(): State
      requires Linked()
      reads this, mem, wait
    {
      State(List(FREE), List(WAIT), List(BLOCK), cur, created)
    }

    ghost function PlaceOf(x: int): Place
      requires Valid() && IsThread(x) && |own| == NODES
      reads this, mem, wait
    {
      if x == cur then Running
      else if x in created then Created
      else if own[x] == FREE then Free
      else if own[x] == WAIT then Waiting
      else Blocked
    }

    /** The places are exclusive: each one is equivalent to where the thread's node is. */
    lemma PlacesPartition(x: int)
      requires Valid() && IsThread(x)
      ensures |own| == NODES
      ensures PlaceOf(x) == Free <==> x in List(FREE)
      ensures PlaceOf(x) == Waiting <==> x in List(WAIT)
      ensures PlaceOf(x) == Blocked <==> x in List(BLOCK)
      ensures PlaceOf(x) == Running <==> x == cur
      ensures PlaceOf(x) == Created <==> x in created
    {
      assert x !in held ==> OnRing(rs, own, x);
      Listed(x, FREE);
      Listed(x, WAIT);
      Listed(x, BLOCK);
    }

    /** In terms of the lists' contents: every thread is in exactly one place. */
    lemma PartitionHolds()
      requires Valid()
      ensures Partition(Now())
    {
      hide Everyone;
      forall x
        ensures Everyone(Now())[x] == if IsThread(x) then 1 else 0
      {
        CountPlaces(x);
      }
    }

    lemma CountPlaces(x: int)
      requires Valid()
      ensures Everyone(Now())[x] == if IsThread(x) then 1 else 0
    {
      ListDistinct(FREE);
      ListDistinct(WAIT);
      ListDistinct(BLOCK);
      CountIn(List(FREE), x);
      CountIn(List(WAIT), x);
      CountIn(List(BLOCK), x);
      if IsThread(x) {
        PlacesPartition(x);
      }
    }

    /** A list has no thread twice, and nothing but threads. */
    lemma ListDistinct(i: nat)
      requires Linked() && i < 3
      ensures Distinct(List(i)) && forall x :: x in List(i) ==> IsThread(x)
    {
      assert Distinct(rs[i]);
      forall x | x in List(i)
        ensures IsThread(x)
      {
        var p :| 0 <= p < |List(i)| && List(i)[p] == x;
        ThreadAt(i, p + 1);
      }
    }

    lemma Listed(x: int, i: nat)
      requires Linked() && IsThread(x) && i < 3
      ensures |own| == NODES && (x in List(i) <==> own[x] == i)
      ensures x in held ==> own[x] == OFF
    {
      hide Loose, Forest, Accounted, Cycle, Distinct;
      RingMember(mem.next, rs, own, held, x, i);
      assert rs[i] == [rs[i][0]] + rs[i][1..];
    }

    // ----- list operations

    /** Facts about node `p` of list `i`. */
    lemma At(i: nat, p: nat)
      requires Linked() && i < 3 && p < |rs[i]|
      ensures Node(mem.next, rs[i][p]) && rs[i][p] !in held
      ensures mem.next[rs[i][p]] == rs[i][0] <==> p + 1 == |rs[i]|
      ensures p + 1 < |rs[i]| ==> mem.next[rs[i][p]] == rs[i][p + 1]
      ensures i == WAIT ==> rs[i][0] == WAIT_HEAD && (p + 1 == |rs[i]| ==> rs[i][p] == wait.tail)
    {
      hide Cycle, Distinct;
      RingNext(mem.next, rs, own, i, p);
      assert own[rs[i][p]] == i;
    }

    lemma HeldNotListed(x: int)
      requires Linked() && x in held
      ensures Node(mem.next, x) && |own| == NODES && own[x] == OFF && x !in wait.ring
    {
      hide Cycle, Distinct, Forest, Loose;
      RingMember(mem.next, rs, own, held, x, WAIT);
    }

    /** `Enqueue(wait_thread_queue, &x->node)`. */
    method ToWait(x: int)
      requires Linked() && x in held
      modifies mem, wait, `rs, `own, `held
      ensures Linked() && held == old(held) - {x}
      ensures rs == old(rs)[WAIT := old(rs[WAIT]) + [x]]
    {
      hide Cycle, Distinct, Forest, Accounted, Loose;
      ghost var ring := rs[WAIT];
      At(WAIT, |ring| - 1);
      HeldNotListed(x);
      LastOf(ring, x);
      ForestAdd(mem.next, rs, own, WAIT, |ring| - 1, x);
      AccountedAdd(rs, own, held, WAIT, |ring| - 1, x);
      LooseAdd(mem.next, held, wait.tail, x);
      wait.Enqueue(x);
      own := own[x := WAIT];
      rs := rs[WAIT := ring + [x]];
      held := held - {x};
    }

    /** `Dequeue(wait_thread_queue)`. */
    method FromWait() returns (x: int)
      requires Linked()
      modifies mem, wait, `rs, `own, `held
      ensures Linked()
      ensures if old(List(WAIT)) == [] then x == NULL && rs == old(rs) && held == old(held)
        else x == old(List(WAIT))[0] && x >= 0 && x !in old(held) && held == old(held) + {x}
             && rs == old(rs)[WAIT := [WAIT_HEAD] + old(List(WAIT))[1..]]
    {
      hide Cycle, Distinct, Forest, Accounted, Loose;
      ghost var ring := rs[WAIT];
      At(WAIT, 0);
      if |ring| > 1 {
        At(WAIT, 1);
        ForestRemove(mem.next, rs, own, WAIT, 0);
        AccountedRemove(rs, own, held, WAIT, 0);
        LooseRemove(mem.next, held, WAIT_HEAD);
        FirstOut(ring);
      }
      x := wait.Dequeue();
      if x != NULL {
        own := own[x := OFF];
        rs := rs[WAIT := Dropped(ring, 0)];
        held := held + {x};
      }
    }

    /** `ListRemove` at node `p` of the free list or the block list. */
    method Unlink(prev: int, ghost i: nat, ghost p: nat) returns (x: int)
      requires Linked() && (i == FREE || i == BLOCK) && p + 1 < |rs[i]| && prev == rs[i][p]
      modifies mem, `rs, `own, `held
      ensures Linked() && x == old(rs[i][p + 1]) && x !in old(held) && held == old(held) + {x}
      ensures rs == old(rs)[i := Dropped(old(rs[i]), p)]
    {
      hide Cycle, Distinct, Forest, Accounted, Loose;
      At(i, p);
      At(i, p + 1);
      ForestRemove(mem.next, rs, own, i, p);
      AccountedRemove(rs, own, held, i, p);
      LooseRemove(mem.next, held, prev);
      x := mem.ListRemove(prev);
      own := own[x := OFF];
      rs := rs[i := Dropped(rs[i], p)];
      held := held + {x};
      WaitUntouched();
    }

    /** The wait queue is still a queue when the other lists have changed. */
    lemma WaitUntouched()
      requires wait.mem == mem && wait.head == WAIT_HEAD && |rs| == 3 && Forest(mem.next, rs, own)
      requires rs[WAIT] == wait.ring && wait.ring[0] == WAIT_HEAD && wait.tail == wait.ring[|wait.ring| - 1]
      ensures wait.Valid()
    {
    }

    /** `ListAdd` right after the head of the free list or the block list. */
    method Push(head: int, x: int, ghost i: nat)
      requires Linked() && x in held && (i == FREE || i == BLOCK) && head == rs[i][0]
      modifies mem, `rs, `own, `held
      ensures Linked() && held == old(held) - {x}
      ensures rs == old(rs)[i := [head, x] + old(rs[i])[1..]]
    {
      hide Cycle, Distinct, Forest, Accounted, Loose;
      At(i, 0);
      HeldNotListed(x);
      ForestAdd(mem.next, rs, own, i, 0, x);
      AccountedAdd(rs, own, held, i, 0, x);
      LooseAdd(mem.next, held, head, x);
      assert Inserted(rs[i], 0, x) == [head, x] + rs[i][1..];
      mem.ListAdd(head, x);
      own := own[x := i];
      rs := rs[i := [head, x] + rs[i][1..]];
      held := held - {x};
      WaitUntouched();
    }

    lemma Heads()
      requires Linked()
      ensures rs[FREE][0] == FREE_HEAD && rs[WAIT][0] == WAIT_HEAD && rs[BLOCK][0] == BLOCK_HEAD
    {
    }

    /** What is listed, other than the heads, is a thread. */
    lemma ThreadAt(i: nat, p: nat)
      requires Linked() && i < 3 && 0 < p < |rs[i]|
      ensures IsThread(rs[i][p])
    {
      hide Loose, Accounted, Cycle, Distinct;
      RingNext(mem.next, rs, own, i, p);
      RingHead(mem.next, rs, own, i, p, FREE);
      RingHead(mem.next, rs, own, i, p, WAIT);
      RingHead(mem.next, rs, own, i, p, BLOCK);
    }

    // ----- the operations of thread.c

    /** `ThreadInit`. */
    constructor ()
      ensures Valid() && fresh(mem) && fresh(wait)
      ensures Now() == State(FreeRing(POOL_THREADS)[1..], [], [], MAIN, {})
      ensures cur == 128 && |Now().free| == 128 && forall i :: 0 <= i < 128 ==> Now().free[i] == 127 - i
    {
      hide FreeRing, FirstOwner, Forest, Accounted, Cycle, Distinct, Loose;
      var m := new ListMemory(NODES);
      BuildFreeList(m);
      FreeRingApart(m.next);
      var q := new Queue(m, WAIT_HEAD);
      m.next := m.next[BLOCK_HEAD := BLOCK_HEAD];
      mem, wait, cur := m, q, MAIN;
      pid := seq(NODES, _ => 0);
      rs, own := FirstRings(), seq(NODES, x => FirstOwner(x));
      held, created := {MAIN}, {};
      FirstForest(m.next, seq(NODES, x => FirstOwner(x)));
      FirstAccounted(seq(NODES, x => FirstOwner(x)));
      SingleRing(m.next, WAIT_HEAD);
      LooseMain(m.next);
      FreeRingAt(POOL_THREADS);
    }

    /** `CreateThread`: the new thread is on no list until it is run. */
    method CreateThread(process: nat) returns (x: int)
      requires Valid()
      modifies mem, `rs, `own, `held, `created, `pid
      ensures Valid() && Now() == Step(old(Now()), Create)
      ensures if old(Now()).free == [] then x == NULL && pid == old(pid)
        else x == old(Now()).free[0] && x !in old(created) && pid == old(pid)[x := process]
      ensures x == NULL ==> Now() == old(Now())
      ensures x != NULL ==> old(Now()).free == [x] + Now().free && created == old(created) + {x}
      ensures x != NULL ==> x !in Now().free
      ensures Now() == old(Now()).(free := Now().free, created := created)
    {
      hide Linked;
      Heads();
      At(FREE, 0);
      if mem.IsListEmpty(FREE_HEAD) {
        return NULL;
      }
      ThreadAt(FREE, 1);
      At(FREE, 1);
      ListDistinct(FREE);
      ghost var ring := rs[FREE];
      x := Unlink(FREE_HEAD, FREE, 0);
      assert Dropped(ring, 0)[1..] == ring[1..][1..];
      created := created + {x};
      pid := pid[x := process];
    }

    ghost predicate WaitsLast(x: int)
      requires Linked()
      reads this, mem, wait
    {
      List(WAIT) != [] && x == List(WAIT)[|List(WAIT)| - 1]
    }

    /**
     The queue operation of `KThreadRun`: only threads of the kernel process are queued. The
     lists survive exactly when the thread is a created one or is already the last to wait,
     which changes nothing.
     */
    method KThreadRun(x: int)
      requires Valid() && IsThread(x)
      modifies mem, wait, `rs, `own, `held, `created
      ensures pid[x] != 0 || old(WaitsLast(x)) ==> Valid() && Now() == old(Now())
      ensures pid[x] == 0 && x in old(created) + {cur} ==> Linked() && Now() == Step(old(Now()), Start(x))
      ensures pid[x] == 0 && x in old(created) + {cur} ==> (Valid() <==> Proper(old(Now()), Start(x)))
      ensures pid[x] == 0 && x in old(created) + {cur} ==>
        Now() == old(Now()).(wait := old(Now()).wait + [x], created := old(created) - {x})
      ensures pid[x] == 0 ==> wait.tail == x && Node(old(mem.next), old(wait.tail))
      ensures pid[x] == 0 ==> mem.next == Add(old(mem.next), old(wait.tail), x)
      ensures pid[x] == 0 && x !in old(created) + {cur} ==> created == old(created)
      ensures pid[x] == 0 && x !in old(created) + {cur} && !old(WaitsLast(x)) ==>
        exists z :: Stranded(mem.next, z) && z !in created + {cur}
      ensures Intact(mem.next, created + {cur}) <==> pid[x] != 0 || x in old(created) || old(WaitsLast(x))
    {
      hide Cycle, Distinct, Forest, Accounted, Loose, Stranded, Intact;
      LinkedIsIntact();
      if pid[x] != 0 {
        return;
      }
      ghost var ring, z := rs[WAIT], x;
      ghost var loose, last := x in held, wait.tail;
      At(WAIT, |ring| - 1);
      if loose {
        HeldNotListed(x);
        LastOf(ring, x);
        ForestAdd(mem.next, rs, own, WAIT, |ring| - 1, x);
        AccountedAdd(rs, own, held, WAIT, |ring| - 1, x);
        LooseAdd(mem.next, held, last, x);
      } else if x != last {
        z := ListedTwice(x, last);
      }
      EnqueueRaw(x);
      if loose {
        own, rs, held, created := own[x := WAIT], rs[WAIT := ring + [x]], held - {x}, created - {x};
        wait.ring := ring + [x];
        WaitUntouched();
        LinkedIsIntact();
        if x == cur {
          HeldAndListed(mem.next, last, created + {cur});
        }
      } else if x != last {
        StrandedBreaksIntact(mem.next, z, held);
      } else {
        assert mem.next == old(mem.next);
      }
    }

    /** `ThreadSwitch`: the first waiting thread runs and the running one goes to the end. */
    method ThreadSwitch()
      requires Valid()
      modifies mem, wait, `rs, `own, `held, `cur
      ensures Valid() && Now() == Step(old(Now()), Switch)
      ensures old(Now()).wait == [] ==> Now() == old(Now())
      ensures old(Now()).wait != [] ==> [cur] + Now().wait == old(Now()).wait + [old(cur)]
      ensures Now() == old(Now()).(wait := Now().wait, cur := cur)
    {
      hide Linked;
      if |rs[WAIT]| > 1 {
        ThreadAt(WAIT, 1);
      }
      var x := FromWait();
      if x == NULL {
        return;
      }
      var c := cur;
      ToWait(c);
      cur := x;
    }

    /**
     `ThreadSleep` as its comment has it: the running thread goes to the block list only. With
     nobody waiting there is nothing to switch to; the thread then runs on while blocked.
     */
    method ThreadSleep()
      requires Valid()
      modifies mem, wait, `rs, `own, `held, `cur
      ensures Linked() && Now() == Step(old(Now()), Sleep)
      ensures Now().block == [old(cur)] + old(Now()).block
      ensures if old(Now()).wait == [] then Now().wait == [] && cur == old(cur)
        else [cur] + Now().wait == old(Now()).wait && old(cur) !in Now().wait && cur != old(cur)
      ensures Now().free == old(Now()).free && created == old(created)
      ensures Valid() <==> Proper(old(Now()), Sleep)
      ensures Intact(mem.next, created + {cur}) <==> Proper(old(Now()), Sleep)
    {
      hide Linked, Intact;
      PlacesPartition(cur);
      if |rs[WAIT]| > 1 {
        ThreadAt(WAIT, 1);
      }
      Heads();
      Push(BLOCK_HEAD, cur, BLOCK);
      var x := FromWait();
      if x != NULL {
        cur := x;
        LinkedIsIntact();
      } else {
        BlockedAndRunning();
      }
    }

    lemma LinkedIsIntact()
      requires Linked()
      ensures Intact(mem.next, held)
    {
    }

    lemma BlockedAndRunning()
      requires Linked() && |rs[BLOCK]| > 1 && rs[BLOCK][1] == cur && held == created
      ensures !Intact(mem.next, created + {cur})
    {
      Heads();
      At(BLOCK, 0);
      At(BLOCK, 1);
      HeldAndListed(mem.next, BLOCK_HEAD, created + {cur});
    }

    /**
     `ThreadSleep` as written: `ThreadSwitch` also queues the sleeping thread, whose one node is
     then on two lists. The old first node of the block list, or its head, is lost: nothing
     points to it, and it is neither running nor created.
     */
    method ThreadSleepAsWritten()
      requires Valid()
      modifies mem, wait, `rs, `own, `held, `cur
      ensures !Intact(mem.next, created + {cur}) && created == old(created)
      ensures old(Now()).wait == [] ==>
        Linked() && !Valid() && Now() == old(Now()).(block := [old(cur)] + old(Now()).block)
      ensures old(Now()).wait != [] ==> cur == old(Now()).wait[0]
      ensures old(Now()).wait != [] ==> exists z :: Stranded(mem.next, z) && z !in created + {cur}
    {
      hide Linked;
      Heads();
      Push(BLOCK_HEAD, cur, BLOCK);
      var x := FromWait();
      if x == NULL {
        BlockedAndRunning();
        return;
      }
      QueuedTwice(cur);
      ghost var z := Succ(rs[BLOCK], 1);
      EnqueueRaw(cur);
      cur := x;
      StrandedBreaksIntact(mem.next, z, created + {cur});
    }

    /** `Enqueue` of a node about which nothing is known. */
    method EnqueueRaw(x: int)
      requires Linked() && Node(mem.next, x) && Node(mem.next, wait.tail)
      modifies mem, wait
      ensures mem.next == Add(old(mem.next), old(wait.tail), x)
      ensures wait.tail == x && wait.ring == old(wait.ring)
    {
      mem.ListAdd(wait.tail, x);
      wait.tail := x;
    }

    lemma QueuedTwice(x: int)
      requires Linked() && |rs[BLOCK]| > 1 && rs[BLOCK][1] == x
      ensures Node(mem.next, x) && Node(mem.next, wait.tail)
      ensures Stranded(Add(mem.next, wait.tail, x), Succ(rs[BLOCK], 1)) && Succ(rs[BLOCK], 1) !in held
    {
      hide Cycle, Distinct;
      At(BLOCK, 0);
      At(BLOCK, if |rs[BLOCK]| > 2 then 2 else 0);
      At(WAIT, |rs[WAIT]| - 1);
      At(BLOCK, 1);
      RingMember(mem.next, rs, own, held, x, WAIT);
      RingMember(mem.next, rs, own, held, x, BLOCK);
      RingApart(mem.next, rs, own, BLOCK);
      AddTwiceStrands(mem.next, rs, own, held, wait.tail, BLOCK, 1);
    }

    /** `ThreadWake`: a thread that is not blocked is left alone. */
    method ThreadWake(x: int)
      requires Valid() && IsThread(x)
      modifies mem, wait, `rs, `own, `held
      ensures Valid() && cur == old(cur) && created == old(created) && Now() == Step(old(Now()), Wake(x))
      ensures if x in old(Now()).block then x !in Now().block && Now().wait == old(Now()).wait + [x]
        else Now() == old(Now())
      ensures forall y :: y in Now().block <==> y in old(Now()).block && y != x
      ensures Now().free == old(Now()).free
    {
      hide Linked, Dropped, Without;
      Heads();
      ListDistinct(BLOCK);
      WithoutMembers(List(BLOCK), x);
      ghost var ring, p := rs[BLOCK], 0;
      var tmp := BLOCK_HEAD;
      At(BLOCK, 0);
      while mem.next[tmp] != BLOCK_HEAD && mem.next[tmp] != x
        invariant p < |ring| && tmp == ring[p] && Node(mem.next, tmp)
        invariant x !in ring[1..p + 1]
        modifies {}
        decreases |ring| - p
      {
        At(BLOCK, p);
        tmp, p := mem.next[tmp], p + 1;
        At(BLOCK, p);
      }
      At(BLOCK, p);
      if mem.next[tmp] == x {
        FoundAt(ring, x, p);
        var y := Unlink(tmp, BLOCK, p);
        ToWait(y);
        assert List(WAIT) == old(List(WAIT)) + [x];
        assert List(BLOCK) == Dropped(ring, p)[1..];
      } else {
        assert ring[1..p + 1] == ring[1..];
      }
    }

    method ThreadWakeAll(xs: seq<int>)
      requires Valid() && forall x :: x in xs ==> IsThread(x)
      modifies mem, wait, `rs, `own, `held
      ensures Valid() && Now() == Run(old(Now()), Wakes(xs))
    {
      hide Linked, Step;
      assert xs[0..] == xs;
      var i := 0;
      while i < |xs|
        invariant 0 <= i <= |xs| && Valid()
        invariant Run(Now(), Wakes(xs[i..])) == Run(old(Now()), Wakes(xs))
      {
        assert xs[i..][0] == xs[i] && xs[i..][1..] == xs[i + 1..];
        assert Wakes(xs[i..])[1..] == Wakes(xs[i + 1..]);
        ThreadWake(xs[i]);
        i := i + 1;
      }
    }

    /**
     The list operation of `DestructThread`. It does not take the thread off the list it is on:
     when the thread is on one, a node is lost that is neither running nor created, and no
     reading of the memory as lists of all other threads is left.
     */
    method DestructThread(x: int)
      requires Valid() && IsThread(x)
      modifies mem, `rs, `own, `held, `created
      ensures x in old(created) || x == cur ==> Linked() && Now() == Step(old(Now()), Destruct(x))
      ensures x in old(created) || x == cur ==>
        Now() == old(Now()).(free := [x] + old(Now()).free, created := old(created) - {x})
      ensures x in old(created) || x == cur ==> (Valid() <==> Proper(old(Now()), Destruct(x)))
      ensures x !in old(created) && x != cur ==> created == old(created)
      ensures x !in old(created) && x != cur ==> exists z :: Stranded(mem.next, z) && z !in created + {cur}
      ensures Intact(mem.next, created + {cur}) <==> x in old(created)
      ensures Node(old(mem.next), FREE_HEAD) && mem.next == Add(old(mem.next), FREE_HEAD, x)
    {
      hide Cycle, Distinct, Forest, Accounted, Loose, Stranded;
      At(FREE, 0);
      ghost var loose, z := x in held, x;
      if loose {
        HeldNotListed(x);
        ForestAdd(mem.next, rs, own, FREE, 0, x);
        AccountedAdd(rs, own, held, FREE, 0, x);
        LooseAdd(mem.next, held, FREE_HEAD, x);
        assert Inserted(rs[FREE], 0, x) == [FREE_HEAD, x] + rs[FREE][1..];
      } else {
        z := ListedTwice(x, FREE_HEAD);
      }
      mem.ListAdd(FREE_HEAD, x);
      if loose {
        own, held, created := own[x := FREE], held - {x}, created - {x};
        rs := rs[FREE := [FREE_HEAD, x] + rs[FREE][1..]];
        WaitUntouched();
        if x == cur {
          HeldAndListed(mem.next, FREE_HEAD, created + {cur});
        }
      } else {
        StrandedBreaksIntact(mem.next, z, held);
      }
    }

    lemma NeighboursDiffer(p: nat)
      requires Linked() && p + 1 < |rs[WAIT]|
      ensures rs[WAIT][p] != rs[WAIT][p + 1]
    {
    }

    /**
     Why bounded waiting needs proper calls: after `DestructThread` of the thread at position `p`
     of the wait queue the queue still leads to it, and from there into the free list.
     */
    lemma DestructDerails(p: nat)
      requires Valid() && p < |List(WAIT)|
      ensures var x, prev := List(WAIT)[p], if p == 0 then WAIT_HEAD else List(WAIT)[p - 1];
        && Node(mem.next, FREE_HEAD) && Node(mem.next, x) && Node(mem.next, prev)
        && var next' := Add(mem.next, FREE_HEAD, x);
           next'[prev] == x && next'[x] == if List(FREE) == [] then FREE_HEAD else List(FREE)[0]
    {
      hide Cycle, Distinct, Forest, Accounted, Loose;
      Heads();
      At(WAIT, p);
      At(WAIT, p + 1);
      At(FREE, 0);
      ThreadAt(WAIT, p + 1);
      if p > 0 {
        ThreadAt(WAIT, p);
      }
      NeighboursDiffer(p);
    }

    /** Adding a listed thread to a list once more loses the node after it. */
    lemma ListedTwice(x: int, prev: int) returns (z: int)
      requires Linked() && IsThread(x) && x !in held && Node(mem.next, prev) && prev != x
      ensures Node(mem.next, x) && Stranded(Add(mem.next, prev, x), z)
      ensures z !in held
    {
      hide Cycle, Distinct;
      assert OnRing(rs, own, x);
      var i := own[x];
      var p :| 0 <= p < |rs[i]| && rs[i][p] == x;
      RingApart(mem.next, rs, own, i);
      RingMember(mem.next, rs, own, held, x, i);
      z := Succ(rs[i], p);
      At(i, if p + 1 < |rs[i]| then p + 1 else 0);
      AddTwiceStrands(mem.next, rs, own, held, prev, i, p);
    }
  }

  lemma {:induction false} CountIn(s: seq<int>, x: int)
    requires Distinct(s)
    ensures multiset(s)[x] == if x in s then 1 else 0
  {
    if s != [] {
      CountIn(s[1..], x);
      assert s == [s[0]] + s[1..];
    }
  }

  // ----- rings

  lemma FoundAt(ring: seq<int>, x: int, p: nat)
    requires p + 1 < |ring| && ring[p + 1] == x && x !in ring[1..p + 1]
    ensures x in ring[1..] && Dropped(ring, p)[1..] == Without(ring[1..], x)
  {
    var s := ring[1..];
    assert s[..p] == ring[1..p + 1] && s[p] == x;
    WithoutAt(s, x, p);
    assert Dropped(ring, p)[1..] == s[..p] + s[p + 1..];
  }

  /** In a ring of more than its head no node follows itself. */
  lemma RingApart(next: seq<int>, rs: seq<seq<int>>, own: seq<int>, i: nat)
    requires Forest(next, rs, own) && i < |rs| && |rs[i]| > 1
    ensures forall p :: 0 <= p < |rs[i]| ==> Succ(rs[i], p) != rs[i][p]
  {
  }

  lemma RingHead(next: seq<int>, rs: seq<seq<int>>, own: seq<int>, i: nat, p: nat, j: nat)
    requires Forest(next, rs, own) && i < |rs| && j < |rs| && 0 < p < |rs[i]|
    ensures rs[j] != [] && rs[i][p] != rs[j][0]
  {
    assert Cycle(next, rs[j]) && Distinct(rs[i]);
    assert own[rs[i][p]] == i && own[rs[j][0]] == j;
  }

  lemma LastOf(ring: seq<int>, x: int)
    requires ring != []
    ensures Inserted(ring, |ring| - 1, x) == ring + [x]
  {
  }

  lemma FirstOut(ring: seq<int>)
    requires |ring| > 1
    ensures Dropped(ring, 0) == [ring[0]] + ring[1..][1..]
  {
  }

  // ----- the process's own list of threads

  /**
   `CreateThread` also links `node`, not `sibling`, into the process's list, ring `i`, and
   `KThreadRun` then queues the same node on ring `j`. Whatever the lists, this loses the node
   that was first on the process's list, or its head, and no reading as lists is left.
   */
  lemma RunBreaksProcessList(next: seq<int>, rs: seq<seq<int>>, own: seq<int>, held: set<int>, i: nat, j: nat, x: int)
    requires Forest(next, rs, own) && Accounted(rs, own, held) && Loose(next, held)
    requires i < |rs| && j < |rs| && i != j && x in held
    ensures rs[i] != [] && rs[j] != [] && Node(next, x)
    ensures Node(next, rs[i][0]) && Node(next, rs[j][|rs[j]| - 1])
    ensures Intact(Add(next, rs[i][0], x), held - {x})
    ensures var next' := Add(Add(next, rs[i][0], x), rs[j][|rs[j]| - 1], x);
      Stranded(next', next[rs[i][0]]) && !Intact(next', held - {x})
  {
    hide Loose, Stranded, Intact;
    assert Cycle(next, rs[i]) && Cycle(next, rs[j]);
    var head, tail := rs[i][0], rs[j][|rs[j]| - 1];
    assert own[head] == i && own[tail] == j;
    var next1, rs1, own1, held1 := Add(next, head, x), rs[i := Inserted(rs[i], 0, x)], own[x := i], held - {x};
    ForestAdd(next, rs, own, i, 0, x);
    AccountedAdd(rs, own, held, i, 0, x);
    LooseAdd(next, held, head, x);
    BothIntact(next1, rs1, own1, held1);
    InsertedAt(rs[i], 0, x, 1);
    InsertedAt(rs[i], 0, x, if |rs[i]| > 1 then 2 else 0);
    assert Succ(rs1[i], 1) == Succ(rs[i], 0);
    AddTwiceStrands(next1, rs1, own1, held1, tail, i, 1);
    assert own[Succ(rs[i], 0)] == i;
    StrandedBreaksIntact(Add(next1, tail, x), Succ(rs[i], 0), held1);
  }

  lemma BothIntact(next: seq<int>, rs: seq<seq<int>>, own: seq<int>, held: set<int>)
    requires Forest(next, rs, own) && Accounted(rs, own, held)
    ensures Intact(next, held)
  {
  }

  // ----- the initial lists

  function FreeRing(n: nat): seq<int> {
    [FREE_HEAD] + seq(n, p requires 0 <= p < n => n - 1 - p)
  }

  lemma FreeRingAt(n: nat)
    ensures |FreeRing(n)[1..]| == n && forall i :: 0 <= i < n ==> FreeRing(n)[1..][i] == n - 1 - i
  {
  }

  function FirstRings(): seq<seq<int>> {
    [FreeRing(POOL_THREADS), [WAIT_HEAD], [BLOCK_HEAD]]
  }

  function FirstOwner(x: int): int {
    if x < MAIN || x == FREE_HEAD then FREE
    else if x == WAIT_HEAD then WAIT
    else if x == BLOCK_HEAD then BLOCK
    else OFF
  }

  /** The free list is not affected by the heads of the other lists. */
  lemma FreeRingApart(next: seq<int>)
    requires |next| == NODES && Cycle(next, FreeRing(POOL_THREADS))
    ensures var next' := next[WAIT_HEAD := WAIT_HEAD][BLOCK_HEAD := BLOCK_HEAD];
      Cycle(next', FreeRing(POOL_THREADS))
    ensures |FreeRing(POOL_THREADS)| == POOL_THREADS + 1 && FreeRing(POOL_THREADS)[0] == FREE_HEAD
  {
  }

  lemma SingleRing(next: seq<int>, h: int)
    requires Node(next, h) && next[h] == h
    ensures Cycle(next, [h]) && Distinct([h])
  {
  }

  lemma LooseMain(next: seq<int>)
    requires |next| == NODES && next[MAIN] == NULL
    ensures Loose(next, {MAIN})
  {
  }

  lemma FreeRingGrows(next: seq<int>, i: nat)
    requires |next| == NODES && i < POOL_THREADS && Cycle(next, FreeRing(i)) && Distinct(FreeRing(i))
    ensures Cycle(Add(next, FREE_HEAD, i), FreeRing(i + 1)) && Distinct(FreeRing(i + 1))
  {
    hide Cycle, Distinct;
    CycleAdd(next, FreeRing(i), 0, i);
    DistinctInserted(FreeRing(i), 0, i);
    assert Inserted(FreeRing(i), 0, i) == FreeRing(i + 1);
  }

  /** The loop that links the pool; the thread added last comes first. */
  method BuildFreeList(m: ListMemory)
    requires |m.next| == NODES && forall x :: 0 <= x < NODES ==> m.next[x] == NULL
    modifies m
    ensures |m.next| == NODES && Cycle(m.next, FreeRing(POOL_THREADS)) && Distinct(FreeRing(POOL_THREADS))
    ensures m.next[MAIN] == NULL
  {
    m.next := m.next[FREE_HEAD := FREE_HEAD];
    assert FreeRing(0) == [FREE_HEAD];
    hide FreeRing, Cycle, Distinct;
    var i: nat := 0;
    while i < POOL_THREADS
      invariant i <= POOL_THREADS && |m.next| == NODES && m.next[MAIN] == NULL
      invariant Cycle(m.next, FreeRing(i)) && Distinct(FreeRing(i))
    {
      FreeRingGrows(m.next, i);
      m.ListAdd(FREE_HEAD, i);
      i := i + 1;
    }
  }

  lemma FirstAccounted(own: seq<int>)
    requires |own| == NODES && forall x :: 0 <= x < NODES ==> own[x] == FirstOwner(x)
    ensures Accounted(FirstRings(), own, {MAIN})
  {
    var rs := FirstRings();
    forall x | 0 <= x < NODES && x != MAIN
      ensures OnRing(rs, own, x)
    {
      if x < MAIN {
        assert rs[FREE][POOL_THREADS - x] == x;
      } else {
        assert rs[own[x]][0] == x;
      }
    }
  }

  lemma FirstForest(next: seq<int>, own: seq<int>)
    requires |next| == NODES && |own| == NODES && forall x :: 0 <= x < NODES ==> own[x] == FirstOwner(x)
    requires Cycle(next, FreeRing(POOL_THREADS)) && Distinct(FreeRing(POOL_THREADS))
    requires next[WAIT_HEAD] == WAIT_HEAD && next[BLOCK_HEAD] == BLOCK_HEAD
    ensures Forest(next, FirstRings(), own)
  {
    var rs := FirstRings();
    forall i, p | 0 <= i < 3 && 0 <= p < |rs[i]|
      ensures own[rs[i][p]] == i
    {
      assert i == FREE && p > 0 ==> rs[i][p] == POOL_THREADS - p;
    }
  }
}
