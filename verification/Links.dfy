/**
 Intrusive circular lists (kernel/lib/list.h).

 Every `ListNode` in memory is a number, and `next` is the field of all of them: `next[x]` is
 `x->next`. A list is a ring: a sentinel head followed by its nodes, the last of which points
 back to the head. Several lists live in the same memory; a `Forest` says that they are
 disjoint rings and `own[x]` names the ring that node `x` is on (`OFF` when it is on none).
 */
module Links {
  import opened Basics

  const NULL := -1
  const OFF := -1

  predicate Node(next: seq<int>, x: int) {
    0 <= x < |next|
  }

  /** `ListAdd(prev, node)`. */
  function Add(next: seq<int>, prev: int, node: int): (next': seq<int>)
    requires Node(next, prev) && Node(next, node)
    ensures |next'| == |next|
  {
    var after := next[prev];
    next[prev := node][node := after]
  }

  /** `ListRemove(prev)`; the node that leaves is `next[prev]`. */
  function Remove(next: seq<int>, prev: int): (next': seq<int>)
    requires Node(next, prev) && Node(next, next[prev])
    ensures |next'| == |next|
  {
    var del := next[prev];
    next[prev := next[del]][del := NULL]
  }

  /** All list nodes of the kernel, with the operations of list.h. */
  class ListMemory {
    var next: seq<int>

    constructor (n: nat)
      ensures |next| == n && forall x :: 0 <= x < n ==> next[x] == NULL
    {
      next := seq(n, _ => NULL);
    }

    method ListAdd(prev: int, node: int)
      requires Node(next, prev) && Node(next, node)
      modifies this
      ensures next == Add(old(next), prev, node)
    {
      var after := next[prev];
      next := next[prev := node];
      next := next[node := after];
    }

    method ListRemove(prev: int) returns (del: int)
      requires Node(next, prev) && Node(next, next[prev])
      modifies this
      ensures del == old(next)[prev] && next == Remove(old(next), prev)
    {
      del := next[prev];
      next := next[prev := next[del]];
      next := next[del := NULL];
    }

    predicate IsListEmpty(head: int)
      requires Node(next, head)
      reads this
    {
      next[head] == head
    }
  }

  // ----- rings

  function Succ(r: seq<int>, p: nat): int
    requires p < |r|
  {
    if p + 1 < |r| then r[p + 1] else r[0]
  }

  ghost predicate Cycle(next: seq<int>, r: seq<int>) {
    && r != []
    && (forall p :: 0 <= p < |r| ==> Node(next, r[p]))
    && (forall p :: 0 <= p < |r| ==> next[r[p]] == Succ(r, p))
  }

  function Inserted(r: seq<int>, p: nat, x: int): seq<int>
    requires p < |r|
  {
    r[..p + 1] + [x] + r[p + 1..]
  }

  function Dropped(r: seq<int>, p: nat): seq<int>
    requires p + 1 < |r|
  {
    r[..p + 1] + r[p + 2..]
  }

  lemma InsertedAt(r: seq<int>, p: nat, x: int, q: nat)
    requires p < |r| && q <= |r|
    ensures |Inserted(r, p, x)| == |r| + 1
    ensures Inserted(r, p, x)[q] == if q <= p then r[q] else if q == p + 1 then x else r[q - 1]
  {
  }

  lemma DroppedAt(r: seq<int>, p: nat, q: nat)
    requires p + 1 < |r| && q + 1 < |r|
    ensures |Dropped(r, p)| == |r| - 1
    ensures Dropped(r, p)[q] == if q <= p then r[q] else r[q + 1]
  {
  }

  lemma DistinctInserted(r: seq<int>, p: nat, x: int)
    requires Distinct(r) && p < |r| && x !in r
    ensures Distinct(Inserted(r, p, x))
  {
    var r' := Inserted(r, p, x);
    forall q, q' | 0 <= q < q' < |r'|
      ensures r'[q] != r'[q']
    {
      InsertedAt(r, p, x, q);
      InsertedAt(r, p, x, q');
    }
  }

  lemma CycleAdd(next: seq<int>, r: seq<int>, p: nat, x: int)
    requires Cycle(next, r) && Distinct(r) && p < |r| && Node(next, x) && x !in r
    ensures Cycle(Add(next, r[p], x), Inserted(r, p, x))
  {
    var next', r' := Add(next, r[p], x), Inserted(r, p, x);
    forall q | 0 <= q < |r'|
      ensures Node(next', r'[q]) && next'[r'[q]] == Succ(r', q)
    {
      InsertedAt(r, p, x, q);
      InsertedAt(r, p, x, if q < |r| then q + 1 else 0);
    }
  }

  lemma CycleRemove(next: seq<int>, r: seq<int>, p: nat)
    requires Cycle(next, r) && Distinct(r) && p + 1 < |r|
    ensures next[r[p]] == r[p + 1]
    ensures Cycle(Remove(next, r[p]), Dropped(r, p))
    ensures Distinct(Dropped(r, p)) && r[p + 1] !in Dropped(r, p)
  {
    var next', r' := Remove(next, r[p]), Dropped(r, p);
    forall q | 0 <= q < |r'|
      ensures Node(next', r'[q]) && next'[r'[q]] == Succ(r', q)
    {
      DroppedAt(r, p, q);
      DroppedAt(r, p, if q + 1 < |r'| then q + 1 else 0);
    }
  }

  // ----- several disjoint rings in one memory

  ghost predicate Forest(next: seq<int>, rs: seq<seq<int>>, own: seq<int>) {
    && |own| == |next|
    && (forall i :: 0 <= i < |rs| ==> Cycle(next, rs[i]) && Distinct(rs[i]))
    && (forall i, p :: 0 <= i < |rs| && 0 <= p < |rs[i]| ==> own[rs[i][p]] == i)
  }

  ghost predicate OnRing(rs: seq<seq<int>>, own: seq<int>, x: int)
    requires 0 <= x < |own|
  {
    0 <= own[x] < |rs| && x in rs[own[x]]
  }

  /** Every node is on exactly one ring: none is lost and none is on two lists. */
  ghost predicate Complete(rs: seq<seq<int>>, own: seq<int>) {
    forall x :: 0 <= x < |own| ==> OnRing(rs, own, x)
  }

  /** Every node but the ones that a running operation holds is on exactly one ring. */
  ghost predicate Accounted(rs: seq<seq<int>>, own: seq<int>, held: set<int>) {
    && (forall x :: x in held ==> 0 <= x < |own| && own[x] == OFF)
    && (forall x :: 0 <= x < |own| && x !in held ==> OnRing(rs, own, x))
  }

  lemma ForestAdd(next: seq<int>, rs: seq<seq<int>>, own: seq<int>, i: nat, p: nat, x: int)
    requires Forest(next, rs, own) && i < |rs| && p < |rs[i]|
    requires Node(next, x) && own[x] == OFF
    ensures Node(next, rs[i][p])
    ensures Forest(Add(next, rs[i][p], x), rs[i := Inserted(rs[i], p, x)], own[x := i])
  {
    assert x !in rs[i];
    CycleAdd(next, rs[i], p, x);
    DistinctInserted(rs[i], p, x);
    var next', rs' := Add(next, rs[i][p], x), rs[i := Inserted(rs[i], p, x)];
    forall j | 0 <= j < |rs'|
      ensures Cycle(next', rs'[j]) && Distinct(rs'[j])
    {
      if j != i {
        assert Cycle(next, rs[j]);
        assert forall q :: 0 <= q < |rs[j]| ==> own[rs[j][q]] == j;
      }
    }
  }

  lemma ForestRemove(next: seq<int>, rs: seq<seq<int>>, own: seq<int>, i: nat, p: nat)
    requires Forest(next, rs, own) && i < |rs| && p + 1 < |rs[i]|
    ensures Node(next, rs[i][p]) && Node(next, rs[i][p + 1]) && next[rs[i][p]] == rs[i][p + 1]
    ensures |own| == |next| && own[rs[i][p + 1]] == i
    ensures Forest(Remove(next, rs[i][p]), rs[i := Dropped(rs[i], p)], own[rs[i][p + 1] := OFF])
  {
    CycleRemove(next, rs[i], p);
    var next', rs' := Remove(next, rs[i][p]), rs[i := Dropped(rs[i], p)];
    forall j | 0 <= j < |rs'|
      ensures Cycle(next', rs'[j]) && Distinct(rs'[j])
    {
      if j != i {
        assert Cycle(next, rs[j]);
        assert forall q :: 0 <= q < |rs[j]| ==> own[rs[j][q]] == j;
      }
    }
  }

  /** What following `next` from node `p` of ring `i` gives. */
  lemma RingNext(next: seq<int>, rs: seq<seq<int>>, own: seq<int>, i: nat, p: nat)
    requires Forest(next, rs, own) && i < |rs| && p < |rs[i]|
    ensures Node(next, rs[i][p]) && Node(next, rs[i][0])
    ensures next[rs[i][p]] == if p + 1 < |rs[i]| then rs[i][p + 1] else rs[i][0]
    ensures next[rs[i][p]] == rs[i][0] <==> p + 1 == |rs[i]|
  {
    assert Cycle(next, rs[i]) && Distinct(rs[i]);
    assert next[rs[i][p]] == Succ(rs[i], p);
  }

  /** `own` tells exactly which ring a node is on. */
  lemma RingMember(next: seq<int>, rs: seq<seq<int>>, own: seq<int>, held: set<int>, x: int, i: nat)
    requires Forest(next, rs, own) && Accounted(rs, own, held) && Node(next, x) && i < |rs|
    ensures |own| == |next| && (x in rs[i] <==> own[x] == i) && (x in held ==> own[x] == OFF)
  {
    if x in rs[i] {
      var p :| 0 <= p < |rs[i]| && rs[i][p] == x;
      assert own[rs[i][p]] == i;
    }
    if x !in held {
      assert OnRing(rs, own, x);
    }
  }

  lemma AccountedAdd(rs: seq<seq<int>>, own: seq<int>, held: set<int>, i: nat, p: nat, x: int)
    requires Accounted(rs, own, held) && x in held && i < |rs| && p < |rs[i]|
    ensures Accounted(rs[i := Inserted(rs[i], p, x)], own[x := i], held - {x})
  {
    var r' := Inserted(rs[i], p, x);
    assert r'[p + 1] == x;
    forall y | y in rs[i]
      ensures y in r'
    {
      var q :| 0 <= q < |rs[i]| && rs[i][q] == y;
      InsertedAt(rs[i], p, x, if q <= p then q else q + 1);
    }
    var rs', own' := rs[i := r'], own[x := i];
    forall y | 0 <= y < |own| && y !in held
      ensures OnRing(rs', own', y)
    {
      assert OnRing(rs, own, y);
    }
  }

  lemma AccountedRemove(rs: seq<seq<int>>, own: seq<int>, held: set<int>, i: nat, p: nat)
    requires Accounted(rs, own, held) && i < |rs| && p + 1 < |rs[i]|
    requires 0 <= rs[i][p + 1] < |own| && own[rs[i][p + 1]] != OFF
    ensures rs[i][p + 1] !in held
    ensures Accounted(rs[i := Dropped(rs[i], p)], own[rs[i][p + 1] := OFF], held + {rs[i][p + 1]})
  {
    var r' := Dropped(rs[i], p);
    forall y | y in rs[i] && y != rs[i][p + 1]
      ensures y in r'
    {
      var q :| 0 <= q < |rs[i]| && rs[i][q] == y;
      DroppedAt(rs[i], p, if q <= p then q else q - 1);
    }
    var rs', own' := rs[i := r'], own[rs[i][p + 1] := OFF];
    forall y | 0 <= y < |own| && y != rs[i][p + 1] && y !in held
      ensures OnRing(rs', own', y)
    {
      assert OnRing(rs, own, y);
    }
  }

  // ----- counting nodes

  function Total(rs: seq<seq<int>>): nat {
    if rs == [] then 0 else Total(rs[..|rs| - 1]) + |rs[|rs| - 1]|
  }

  lemma {:induction false} DistinctSize(r: seq<int>)
    requires Distinct(r)
    ensures |set x | x in r| == |r|
  {
    if r != [] {
      var init, last := r[..|r| - 1], r[|r| - 1];
      DistinctSize(init);
      assert r == init + [last];
      assert (set x | x in r) == (set x | x in init) + {last};
    }
  }

  /** The first `n` nodes. */
  function Nodes(n: nat): (s: set<int>)
    ensures |s| == n && forall x :: x in s <==> 0 <= x < n
  {
    if n == 0 then {} else Nodes(n - 1) + {n - 1}
  }

  /** The nodes on the first `n` rings. */
  ghost function OwnedBelow(own: seq<int>, n: nat): (s: set<int>) {
    set x | x in Nodes(|own|) && own[x] < n
  }

  lemma OwnedNext(next: seq<int>, rs: seq<seq<int>>, own: seq<int>, n: nat)
    requires Forest(next, rs, own) && Complete(rs, own) && n < |rs|
    ensures |OwnedBelow(own, n + 1)| == |OwnedBelow(own, n)| + |rs[n]|
  {
    var r := rs[n];
    assert Cycle(next, r) && Distinct(r);
    DistinctSize(r);
    var mine := set x | x in r;
    forall x
      ensures x in mine <==> x in Nodes(|own|) && own[x] == n
    {
      if x in Nodes(|own|) {
        assert OnRing(rs, own, x);
      }
    }
    assert OwnedBelow(own, n + 1) == OwnedBelow(own, n) + mine;
  }

  lemma OwnBounds(rs: seq<seq<int>>, own: seq<int>)
    requires Complete(rs, own)
    ensures forall x :: 0 <= x < |own| ==> 0 <= own[x] < |rs|
  {
    forall x | 0 <= x < |own|
      ensures 0 <= own[x] < |rs|
    {
      assert OnRing(rs, own, x);
    }
  }

  lemma {:induction false} OwnedSize(next: seq<int>, rs: seq<seq<int>>, own: seq<int>, n: nat)
    requires Forest(next, rs, own) && Complete(rs, own) && n <= |rs|
    ensures |OwnedBelow(own, n)| == Total(rs[..n])
  {
    hide Forest;
    if n == 0 {
      OwnBounds(rs, own);
      assert OwnedBelow(own, 0) == {};
    } else {
      OwnedSize(next, rs, own, n - 1);
      OwnedNext(next, rs, own, n - 1);
      assert rs[..n][..n - 1] == rs[..n - 1];
    }
  }

  /** Conservation: the rings together have as many nodes as the memory. */
  lemma RingsHoldAll(next: seq<int>, rs: seq<seq<int>>, own: seq<int>)
    requires Forest(next, rs, own) && Complete(rs, own)
    ensures Total(rs) == |next|
  {
    OwnedSize(next, rs, own, |rs|);
    OwnBounds(rs, own);
    assert OwnedBelow(own, |rs|) == Nodes(|own|);
    assert rs[..|rs|] == rs;
  }

  // ----- what goes wrong when a node is linked twice

  /** No `next` field holds `z`. */
  ghost predicate NoLinkTo(next: seq<int>, z: int) {
    forall x :: 0 <= x < |next| ==> next[x] != z
  }

  /** `z` is in memory, and nothing points to it any more. */
  ghost predicate Stranded(next: seq<int>, z: int) {
    Node(next, z) && NoLinkTo(next, z)
  }

  lemma HasPredecessor(next: seq<int>, rs: seq<seq<int>>, own: seq<int>, z: int)
    requires Forest(next, rs, own) && Node(next, z) && OnRing(rs, own, z)
    ensures exists y :: 0 <= y < |next| && next[y] == z
  {
    var r := rs[own[z]];
    assert Cycle(next, r);
    var q :| 0 <= q < |r| && r[q] == z;
    var before := if q == 0 then |r| - 1 else q - 1;
    assert next[r[before]] == Succ(r, before) == z;
  }

  /** A stranded node is on no ring, so the lists no longer account for all nodes. */
  lemma StrandedBreaksForest(next: seq<int>, z: int, rs: seq<seq<int>>, own: seq<int>)
    requires Stranded(next, z)
    ensures !(Forest(next, rs, own) && Complete(rs, own))
  {
    if Forest(next, rs, own) && Complete(rs, own) {
      assert OnRing(rs, own, z);
      HasPredecessor(next, rs, own, z);
    }
  }

  /**
   The memory can be read as disjoint rings that hold every node but those of `held`, which are
   on none.
   */
  ghost predicate Intact(next: seq<int>, held: set<int>) {
    exists rs, own :: Forest(next, rs, own) && Accounted(rs, own, held)
  }

  /** With nodes held, too: a stranded node that nobody holds leaves no such reading. */
  lemma StrandedBreaksIntact(next: seq<int>, z: int, held: set<int>)
    requires Stranded(next, z) && z !in held
    ensures !Intact(next, held)
  {
    if rs, own :| Forest(next, rs, own) && Accounted(rs, own, held) {
      assert OnRing(rs, own, z);
      HasPredecessor(next, rs, own, z);
    }
  }

  /** A node that is on a list and held as well leaves no such reading either. */
  lemma HeldAndListed(next: seq<int>, y: int, held: set<int>)
    requires Node(next, y) && y !in held && next[y] in held
    ensures !Intact(next, held)
  {
    if rs, own :| Forest(next, rs, own) && Accounted(rs, own, held) {
      assert OnRing(rs, own, y);
    }
  }

  /** Nodes that a running operation holds point nowhere. */
  ghost predicate Loose(next: seq<int>, held: set<int>) {
    forall x :: x in held && 0 <= x < |next| ==> next[x] == NULL
  }

  lemma LooseAdd(next: seq<int>, held: set<int>, prev: int, x: int)
    requires Loose(next, held) && Node(next, prev) && Node(next, x) && prev !in held
    ensures Loose(Add(next, prev, x), held - {x})
  {
  }

  lemma LooseRemove(next: seq<int>, held: set<int>, prev: int)
    requires Loose(next, held) && Node(next, prev) && Node(next, next[prev]) && prev !in held
    ensures Loose(Remove(next, prev), held + {next[prev]})
  {
  }

  /** The only link to a ring's node is the one from its predecessor. */
  lemma OnlyPredecessor(next: seq<int>, rs: seq<seq<int>>, own: seq<int>, held: set<int>, i: nat, p: nat, y: int)
    requires Forest(next, rs, own) && Accounted(rs, own, held) && Loose(next, held)
    requires i < |rs| && p < |rs[i]| && Node(next, y) && next[y] == Succ(rs[i], p)
    ensures y == rs[i][p]
  {
    assert Cycle(next, rs[i]) && Distinct(rs[i]);
    assert Node(next, Succ(rs[i], p)) && y !in held;
    assert OnRing(rs, own, y);
    var j := own[y];
    var q :| 0 <= q < |rs[j]| && rs[j][q] == y;
    assert Cycle(next, rs[j]);
    assert next[rs[j][q]] == Succ(rs[j], q);
    assert own[Succ(rs[i], p)] == i && own[Succ(rs[j], q)] == j;
  }

  /**
   `ListAdd` of a node that is already on a ring strands the node that used to follow it,
   unless that node is the added one itself (the head of an empty list).
   */
  lemma AddTwiceStrands(next: seq<int>, rs: seq<seq<int>>, own: seq<int>, held: set<int>, prev: int, i: nat, p: nat)
    requires Forest(next, rs, own) && Accounted(rs, own, held) && Loose(next, held)
    requires i < |rs| && p < |rs[i]|
    requires Node(next, prev) && prev != rs[i][p] && Succ(rs[i], p) != rs[i][p]
    ensures Node(next, rs[i][p]) && Stranded(Add(next, prev, rs[i][p]), Succ(rs[i], p))
  {
    var z, x := Succ(rs[i], p), rs[i][p];
    assert Cycle(next, rs[i]);
    forall y | 0 <= y < |next|
      ensures Add(next, prev, x)[y] != z
    {
      if next[y] == z {
        OnlyPredecessor(next, rs, own, held, i, p, y);
      }
      if next[prev] == z {
        OnlyPredecessor(next, rs, own, held, i, p, prev);
      }
    }
  }

  /** Once stranded, a node stays stranded until somebody adds it again. */
  lemma StrandedAdd(next: seq<int>, z: int, prev: int, node: int)
    requires Stranded(next, z) && Node(next, prev) && Node(next, node) && node != z
    ensures Stranded(Add(next, prev, node), z)
  {
  }

  lemma StrandedRemove(next: seq<int>, z: int, prev: int)
    requires Stranded(next, z) && Node(next, prev) && Node(next, next[prev])
    ensures Stranded(Remove(next, prev), z)
  {
  }
}
