/**
 The FIFO queue of kernel/lib/queue.h: a circular list with a pointer to its last node.
 */
module Queues {
  import opened Basics
  import opened Links

  class Queue {
    const mem: ListMemory
    const head: int
    var tail: int
    ghost var ring: seq<int>

    ghost predicate Valid()
      reads this, mem
    {
      ring != [] && Cycle(mem.next, ring) && Distinct(ring) && ring[0] == head && tail == ring[|ring| - 1]
    }

    ghost function Contents(): seq<int>
      requires ring != []
      reads this
    {
      ring[1..]
    }

    constructor (mem: ListMemory, head: int)
      requires Node(mem.next, head)
      modifies mem
      ensures Valid() && this.mem == mem && this.head == head && ring == [head]
      ensures mem.next == old(mem.next)[head := head]
    {
      this.mem, this.head, tail, ring := mem, head, head, [head];
      new;
      mem.next := mem.next[head := head];
    }

    method Enqueue(x: int)
      requires Valid() && Node(mem.next, x) && x !in ring
      modifies mem, `tail, `ring
      ensures Valid() && Contents() == old(Contents()) + [x] && ring == old(ring) + [x]
      ensures Node(old(mem.next), old(tail)) && mem.next == Add(old(mem.next), old(tail), x)
    {
      CycleAdd(mem.next, ring, |ring| - 1, x);
      DistinctInserted(ring, |ring| - 1, x);
      assert Inserted(ring, |ring| - 1, x) == ring + [x];
      mem.ListAdd(tail, x);
      tail := x;
      ring := ring + [x];
    }

    method Dequeue() returns (x: int)
      requires Valid()
      modifies mem, `tail, `ring
      ensures Valid()
      ensures if old(Contents()) == [] then x == NULL && ring == old(ring) && mem.next == old(mem.next)
        else x == old(Contents())[0] && x >= 0 && ring == [head] + old(Contents())[1..]
             && Node(old(mem.next), head) && Node(old(mem.next), old(mem.next)[head])
             && mem.next == Remove(old(mem.next), head)
    {
      assert mem.next[ring[0]] == Succ(ring, 0);
      if mem.IsListEmpty(head) {
        return NULL;
      }
      CycleRemove(mem.next, ring, 0);
      assert Dropped(ring, 0) == [head] + ring[2..];
      if mem.next[head] == tail {
        tail := head;
      }
      x := mem.ListRemove(head);
      ring := [head] + ring[2..];
    }

    method QueueGetHead() returns (x: int)
      requires Valid()
      ensures x == if Contents() == [] then NULL else Contents()[0]
    {
      assert mem.next[ring[0]] == Succ(ring, 0);
      x := if mem.IsListEmpty(head) then NULL else mem.next[head];
    }
  }

  // ----- every sequence of operations

  datatype Op = Enq(x: int) | Deq | Head

  function First(contents: seq<int>): int {
    if contents == [] then NULL else contents[0]
  }

  function Rest(contents: seq<int>): seq<int> {
    if contents == [] then [] else contents[1..]
  }

  /** Each enqueued node is a node of memory that is not on the queue at that moment. */
  ghost predicate Legal(ops: seq<Op>, n: nat, head: int, contents: seq<int>) {
    ops == [] ||
    match ops[0]
    case Enq(x) =>
      0 <= x < n && x != head && x !in contents && Legal(ops[1..], n, head, contents + [x])
    case Deq => Legal(ops[1..], n, head, Rest(contents))
    case Head => Legal(ops[1..], n, head, contents)
  }

  /** A queue as a plain sequence: what the calls return, in order, and what is queued at the end. */
  function Fifo(contents: seq<int>, ops: seq<Op>): (seq<int>, seq<int>)
    decreases |ops|
  {
    if ops == [] then ([], contents)
    else
      match ops[0]
      case Enq(x) => Fifo(contents + [x], ops[1..])
      case Deq =>
        var (out, end) := Fifo(Rest(contents), ops[1..]);
        ([First(contents)] + out, end)
      case Head =>
        var (out, end) := Fifo(contents, ops[1..]);
        ([First(contents)] + out, end)
  }

  /** Every sequence of operations on the linked queue returns and leaves what it does on the sequence. */
  method Replay(q: Queue, ops: seq<Op>) returns (out: seq<int>)
    requires q.Valid() && Legal(ops, |q.mem.next|, q.head, q.Contents())
    modifies q, q.mem
    ensures q.Valid() && (out, q.Contents()) == Fifo(old(q.Contents()), ops)
    decreases |ops|
  {
    hide Cycle, Distinct;
    if ops == [] {
      return [];
    }
    ghost var before := q.Contents();
    var x: int;
    match ops[0] {
      case Enq(y) =>
        q.Enqueue(y);
        out := Replay(q, ops[1..]);
      case Deq =>
        x := q.Dequeue();
        assert q.Contents() == Rest(before);
        out := Replay(q, ops[1..]);
        out := [x] + out;
      case Head =>
        x := q.QueueGetHead();
        out := Replay(q, ops[1..]);
        out := [x] + out;
    }
  }

  /** The nodes that go in, in order. */
  function Entering(ops: seq<Op>): seq<int> {
    if ops == [] then []
    else if ops[0].Enq? then [ops[0].x] + Entering(ops[1..])
    else Entering(ops[1..])
  }

  /** The nodes that `Dequeue` handed out, when the calls returned `out`. */
  function Taken(ops: seq<Op>, out: seq<int>): seq<int> {
    if ops == [] || out == [] then []
    else
      match ops[0]
      case Enq(_) => Taken(ops[1..], out)
      case Deq => (if out[0] == NULL then [] else [out[0]]) + Taken(ops[1..], out[1..])
      case Head => Taken(ops[1..], out[1..])
  }

  /**
   First in, first out: whatever the operations, the nodes that came out, followed by the nodes
   still queued, are the nodes queued before followed by the nodes that went in.
   */
  lemma {:induction false} FirstInFirstOut(contents: seq<int>, ops: seq<Op>)
    requires NULL !in contents && forall i :: 0 <= i < |ops| && ops[i].Enq? ==> ops[i].x != NULL
    ensures var (out, end) := Fifo(contents, ops); Taken(ops, out) + end == contents + Entering(ops)
    decreases |ops|
  {
    if ops != [] {
      var rest := ops[1..];
      match ops[0]
      case Enq(x) =>
        FirstInFirstOut(contents + [x], rest);
        assert contents + [x] + Entering(rest) == contents + ([x] + Entering(rest));
      case Deq =>
        FirstInFirstOut(Rest(contents), rest);
        if contents != [] {
          var (out, end) := Fifo(Rest(contents), rest);
          assert [contents[0]] + Taken(rest, out) + end == [contents[0]] + (Taken(rest, out) + end);
          assert contents + Entering(rest) == [contents[0]] + (Rest(contents) + Entering(rest));
        }
      case Head => FirstInFirstOut(contents, rest);
    } else {
      assert contents + Entering(ops) == Taken(ops, []) + contents;
    }
  }
}
