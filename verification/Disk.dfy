/**
 The disk request queue (kernel/driver/ide.c): submissions and interrupts, without the ports.
 */
module Disk {
  import opened Basics
  import opened Links
  import opened Queues
  import Places
  import opened Scheduler

  const SECTORS: int := 8  // kBlockSize

  /** A queued `IdeBlock`: who asked, and the sectors still to transfer. */
  datatype Request = Request(thread: int, sectors: Word)

  /** How many interrupts a request still needs; a count of 0 wraps around first. */
  function Left(r: Request): (n: int)
    ensures 0 < n <= U32
  {
    if r.sectors == 0 then U32 else r.sectors
  }

  /** The request after `n` of its interrupts. */
  function Reduced(r: Request, n: nat): Request {
    r.(sectors := (r.sectors - n) % U32)
  }

  function Submitted(thread: int, blocks: Word): Request {
    Request(thread, blocks * SECTORS % U32)
  }

  /** The `IdeBlock`s are linked by their nodes; `blocks` holds the other fields of each one. */
  class Ide {
    const queue: Queue
    const sched: Scheduler
    var blocks: map<int, Request>

    /** Requests are queued for threads, in nodes that are none of the scheduler's. */
    ghost predicate Valid()
      reads this, queue, queue.mem, sched, sched.mem, sched.wait
    {
      && queue.Valid() && sched.Valid() && queue.mem != sched.mem && queue != sched.wait
      && Known(queue.Contents(), blocks)
    }

    ghost function Requests(): seq<Request>
      requires queue.Valid() && Known(queue.Contents(), blocks)
      reads this, queue, queue.mem
    {
      Fields(queue.Contents(), blocks)
    }

    /** The queue part of `IdeInit`. */
    constructor (mem: ListMemory, head: int, sched: Scheduler)
      requires Node(mem.next, head) && sched.Valid() && mem != sched.mem
      modifies mem
      ensures Valid() && Requests() == [] && queue.mem == mem && this.sched == sched
      ensures fresh(queue) && sched.Now() == old(sched.Now())
    {
      hide Scheduler.Linked;
      queue := new Queue(mem, head);
      this.sched, blocks := sched, map[];
    }

    /** The queue part of `IdeRead` and `IdeWrite`, for a new block whose node is on no list. */
    method Submit(node: int, thread: int, n: Word)
      requires Valid() && Node(queue.mem.next, node) && node !in queue.ring && Places.IsThread(thread)
      modifies this, queue, queue.mem
      ensures Valid() && Requests() == old(Requests()) + [Submitted(thread, n)]
      ensures Requests() == old(Requests()) + [Request(thread, 8 * n % 0x1_0000_0000)]
      ensures sched.Now() == old(sched.Now())
    {
      hide Scheduler.Linked, Cycle;
      ghost var before := queue.Contents();
      blocks := blocks[node := Request(thread, n * SECTORS % U32)];
      queue.Enqueue(node);
      assert queue.Contents() == before + [node];
    }

    /** `IdeHandler`; without an error it takes the head of the queue to exist. */
    method IdeHandler(error: bool) returns (woken: seq<int>)
      requires Valid() && (error || queue.Contents() != [])
      modifies this, queue, queue.mem, sched, sched.mem, sched.wait
      ensures Valid() && (Requests(), woken) == Interrupt(old(Requests()), error)
      ensures error ==> Requests() == old(Requests()) && woken == []
      ensures !error ==> old(Requests()) != []
      ensures !error ==>
        var head := old(Requests())[0];
        if head.sectors == 1 then Requests() == old(Requests())[1..] && woken == [head.thread]
        else Requests() == [Request(head.thread, (head.sectors - 1) % 0x1_0000_0000)] + old(Requests())[1..] && woken == []
      ensures sched.Now() == Places.Run(old(sched.Now()), Places.Wakes(woken))
    {
      hide Scheduler.Linked, Cycle;
      if error {
        return [];
      }
      ghost var before := queue.Contents();
      var head := queue.QueueGetHead();
      var block := blocks[head].(sectors := (blocks[head].sectors - 1) % U32);
      HeadOnce(queue);
      FieldsOfHead(before, blocks, block);
      blocks := blocks[head := block];
      woken := [];
      if block.sectors == 0 {
        var node := queue.Dequeue();
        assert queue.Contents() == before[1..];
        woken := [block.thread];
        WakeOne(sched.Now(), block.thread);
        sched.ThreadWake(block.thread);
      }
    }
  }

  lemma HeadOnce(q: Queue)
    requires q.Valid() && q.Contents() != []
    ensures q.Contents()[0] !in q.Contents()[1..]
  {
  }

  lemma WakeOne(s: Places.State, x: int)
    ensures Places.Run(s, Places.Wakes([x])) == Places.Step(s, Places.Wake(x))
  {
    assert Places.Wakes([x])[1..] == [];
  }

  ghost predicate Known(nodes: seq<int>, blocks: map<int, Request>) {
    forall i :: 0 <= i < |nodes| ==> nodes[i] in blocks && Places.IsThread(blocks[nodes[i]].thread)
  }

  /** A change to the first block, and its removal. */
  lemma FieldsOfHead(nodes: seq<int>, blocks: map<int, Request>, block: Request)
    requires Known(nodes, blocks) && Places.IsThread(block.thread) && nodes != [] && nodes[0] !in nodes[1..]
    ensures Known(nodes, blocks[nodes[0] := block]) && Known(nodes[1..], blocks[nodes[0] := block])
    ensures Fields(nodes, blocks[nodes[0] := block]) == Fields(nodes, blocks)[0 := block]
    ensures Fields(nodes[1..], blocks[nodes[0] := block]) == Fields(nodes, blocks)[1..]
  {
    var blocks', rest := blocks[nodes[0] := block], nodes[1..];
    forall i | 0 < i < |nodes|
      ensures blocks'[nodes[i]] == blocks[nodes[i]] && rest[i - 1] == nodes[i]
    {
      assert nodes[i] == rest[i - 1];
    }
  }

  ghost function Fields(nodes: seq<int>, blocks: map<int, Request>): (rs: seq<Request>)
    requires Known(nodes, blocks)
  {
    seq(|nodes|, i requires 0 <= i < |nodes| && Known(nodes, blocks) => blocks[nodes[i]])
  }

  /** The queue and the threads woken after one interrupt. */
  function Interrupt(queue: seq<Request>, error: bool): (seq<Request>, seq<int>)
    requires error || queue != []
  {
    if error then (queue, [])
    else if Left(queue[0]) == 1 then (queue[1..], [queue[0].thread])
    else (queue[0 := Reduced(queue[0], 1)], [])
  }

  // ----- runs

  datatype Event = Submit(thread: int, blocks: Word) | Irq(error: bool)

  /** Error-free interrupts arrive only while a request is queued. */
  predicate Legal(queue: seq<Request>, es: seq<Event>)
    decreases |es|
  {
    es == [] ||
    match es[0]
    case Submit(t, n) => Legal(queue + [Submitted(t, n)], es[1..])
    case Irq(e) => (e || queue != []) && Legal(Interrupt(queue, e).0, es[1..])
  }

  function Run(queue: seq<Request>, es: seq<Event>): (seq<Request>, seq<int>)
    requires Legal(queue, es)
    decreases |es|
  {
    if es == [] then (queue, [])
    else
      match es[0]
      case Submit(t, n) => Run(queue + [Submitted(t, n)], es[1..])
      case Irq(e) =>
        var (q, w) := Interrupt(queue, e);
        var (q', w') := Run(q, es[1..]);
        (q', w + w')
  }

  function Submissions(es: seq<Event>): seq<Request> {
    if es == [] then []
    else if es[0].Submit? then [Submitted(es[0].thread, es[0].blocks)] + Submissions(es[1..])
    else Submissions(es[1..])
  }

  function ErrorFree(es: seq<Event>): nat {
    if es == [] then 0 else ErrorFree(es[1..]) + if es[0] == Irq(false) then 1 else 0
  }

  /** Reference: serve the requests one after the other with `k` units of work. */
  function Serve(all: seq<Request>, k: nat): (seq<Request>, seq<int>) {
    if all == [] then ([], [])
    else if k < Left(all[0]) then ([Reduced(all[0], k)] + all[1..], [])
    else
      var (q, w) := Serve(all[1..], k - Left(all[0]));
      (q, [all[0].thread] + w)
  }

  lemma ServeNothing(all: seq<Request>)
    ensures Serve(all, 0) == (all, [])
  {
    if all != [] {
      assert [all[0]] + all[1..] == all;
    }
  }

  lemma ReducedTwice(r: Request, k: nat)
    requires Left(r) > 1 && 0 < k
    ensures Left(Reduced(r, 1)) == Left(r) - 1 && Reduced(Reduced(r, 1), k - 1) == Reduced(r, k)
  {
  }

  /** One unit of work on the head of the queue. */
  lemma ServeOne(all: seq<Request>, k: nat)
    requires all != [] && k > 0
    ensures Left(all[0]) == 1 ==>
      Serve(all, k) == (Serve(all[1..], k - 1).0, [all[0].thread] + Serve(all[1..], k - 1).1)
    ensures Left(all[0]) > 1 ==> Serve(all, k) == Serve(all[0 := Reduced(all[0], 1)], k - 1)
  {
    if Left(all[0]) > 1 {
      ReducedTwice(all[0], k);
      assert all[0 := Reduced(all[0], 1)][1..] == all[1..];
    }
  }

  /**
   First come, first served: whatever the interleaving of submissions and interrupts, the queue
   and the threads woken are those of serving all requests in submission order, one unit of work
   for each error-free interrupt.
   */
  lemma {:induction false} RunServesInOrder(queue: seq<Request>, es: seq<Event>)
    requires Legal(queue, es)
    ensures Run(queue, es) == Serve(queue + Submissions(es), ErrorFree(es))
    decreases |es|
  {
    hide Left, Reduced, Serve;
    if es == [] {
      ServeNothing(queue);
      assert queue + Submissions(es) == queue;
    } else {
      var subs := Submissions(es[1..]);
      match es[0] {
        case Submit(t, n) =>
          RunServesInOrder(queue + [Submitted(t, n)], es[1..]);
          assert queue + [Submitted(t, n)] + subs == queue + ([Submitted(t, n)] + subs);
        case Irq(e) =>
          RunServesInOrder(Interrupt(queue, e).0, es[1..]);
          var later := Run(Interrupt(queue, e).0, es[1..]).1;
          assert [] + later == later;
          if !e {
            ServeOne(queue + subs, ErrorFree(es));
            assert (queue + subs)[0] == queue[0] && (queue + subs)[1..] == queue[1..] + subs;
            var r := Reduced(queue[0], 1);
            assert (queue + subs)[0 := r] == queue[0 := r] + subs;
          }
      }
    }
  }

  // ----- when each requester is woken

  /** The work that the first requests need together. */
  function Needed(all: seq<Request>): nat {
    if all == [] then 0 else Left(all[0]) + Needed(all[1..])
  }

  function Threads(all: seq<Request>): (ts: seq<int>)
    ensures |ts| == |all|
  {
    if all == [] then [] else [all[0].thread] + Threads(all[1..])
  }

  /**
   The requesters woken are the first ones, in order, and the one of request `i` is among them
   exactly from the moment when the requests up to `i` have had the interrupts they need.
   */
  lemma {:induction false} WokenExactly(all: seq<Request>, k: nat, i: nat)
    requires i < |all|
    ensures var w := Serve(all, k).1;
      |w| <= |all| && w == Threads(all)[..|w|] && (i < |w| <==> Needed(all[..i + 1]) <= k)
  {
    assert all[..i + 1][0] == all[0] && all[..i + 1][1..] == all[1..][..i];
    if k >= Left(all[0]) {
      var rest := all[1..];
      if rest != [] {
        WokenExactly(rest, k - Left(all[0]), if i == 0 then 0 else i - 1);
      }
    }
  }

  /** A request of `n` blocks that does not overflow the counter takes 8 n interrupts. */
  lemma InterruptsOf(thread: int, n: Word)
    requires 1 <= n && 8 * n < 0x1_0000_0000
    ensures Left(Submitted(thread, n)) == 8 * n
  {
  }

  // ----- the same in terms of the events

  /** Who asked, in order. */
  function Requesters(es: seq<Event>): seq<int> {
    if es == [] then []
    else (if es[0].Submit? then [es[0].thread] else []) + Requesters(es[1..])
  }

  /** How many interrupts the first `k` requests take: eight for each block, where 0 counts as 2^32. */
  function Interrupts(es: seq<Event>, k: nat): nat {
    if es == [] || k == 0 then 0
    else if es[0].Submit? then
      var n := 8 * es[0].blocks % 0x1_0000_0000;
      (if n == 0 then 0x1_0000_0000 else n) + Interrupts(es[1..], k - 1)
    else Interrupts(es[1..], k)
  }

  lemma {:induction false} SubmissionsOf(es: seq<Event>, k: nat)
    ensures Threads(Submissions(es)) == Requesters(es)
    ensures |Submissions(es)| == |Requesters(es)|
    ensures k <= |Submissions(es)| ==> Needed(Submissions(es)[..k]) == Interrupts(es, k)
  {
    if es != [] {
      if es[0].Submit? {
        SubmissionsOf(es[1..], if k == 0 then 0 else k - 1);
        if 0 < k <= |Submissions(es)| {
          var firsts := Submissions(es)[..k];
          assert firsts[0] == Submissions(es)[0] && firsts[1..] == Submissions(es[1..])[..k - 1];
        }
      } else {
        SubmissionsOf(es[1..], k);
      }
    }
  }

  /**
   From an empty queue, whatever the interleaving: the threads woken are those that asked, in the
   order in which they asked, and requester `i` is woken exactly when its request and those before
   it have had their interrupts.
   */
  lemma RequestersAreWoken(es: seq<Event>, i: nat)
    requires Legal([], es)
    ensures Run([], es).1 <= Requesters(es)
    ensures i < |Requesters(es)| ==> (i < |Run([], es).1| <==> Interrupts(es, i + 1) <= ErrorFree(es))
  {
    hide Serve, Run, Legal;
    var all := Submissions(es);
    RunServesInOrder([], es);
    assert [] + all == all;
    SubmissionsOf(es, i + 1);
    if i < |all| {
      WokenExactly(all, ErrorFree(es), i);
    } else if all != [] {
      WokenExactly(all, ErrorFree(es), 0);
    } else {
      NothingToServe(ErrorFree(es));
    }
  }

  lemma NothingToServe(k: nat)
    ensures Serve([], k) == ([], [])
  {
  }
}
