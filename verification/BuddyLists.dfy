/**
 The buddy allocator of kernel/memory/direct_mapping_allocator.c as functions on its lists.

 `free[t]` and `used[t]` are the block addresses on `free_mem_list[t]` and
 `allocated_mem_list[t]`, in list order. `r` is the size type of the reserved kernel block, so
 the reserved block is `[LO, Origin(r))`. The functions take the branches that the source
 takes; the methods in BuddyAllocator.dfy are proved to compute them on the linked lists.
 */
module BuddyLists {
  import opened Basics
  import opened Dyadic

  const CLASSES: nat := 26            // kMemBlockTypeNum
  const LO: int := 0xc000_0000        // kKVirtualAddr
  const AREA: int := 0x400_0000 - 0x10_0000  // kDirectMappingSize - kNodePoolSize

  function Origin(r: nat): int {
    LO + Pow2(r)
  }

  datatype Lists = Lists(free: seq<seq<int>>, used: seq<seq<int>>)

  predicate Shape(ls: Lists) {
    |ls.free| == CLASSES && |ls.used| == CLASSES
  }

  datatype Option<T> = None | Some(value: T)

  /** The search for a position in address order, followed by `ListAdd`. */
  function Insert(s: seq<int>, a: int): (s': seq<int>)
    ensures |s'| == |s| + 1
  {
    if s == [] || s[0] >= a then [a] + s else [s[0]] + Insert(s[1..], a)
  }

  /** `DivBlock`: split a block of class `c`, splitting a larger one first when there is none. */
  function Div(free: seq<seq<int>>, c: nat): (f: Option<seq<seq<int>>>)
    requires |free| == CLASSES && c <= CLASSES
    ensures f.Some? ==> 0 < c && |f.value| == CLASSES && f.value[c - 1] != []
    decreases CLASSES - c, if c < CLASSES && free[c] == [] then 1 else 0
  {
    if c == 0 || c == CLASSES then
      None
    else if free[c] != [] then
      var a := free[c][0];
      Some(free[c := free[c][1..]][c - 1 := [a + Pow2(c - 1), a] + free[c - 1]])
    else
      match Div(free, c + 1)
      case None => None
      case Some(f) => Div(f, c)
  }

  /** `ReqBytes` once the size type `t` is known; address 0 is failure. */
  function Req(ls: Lists, t: nat): (res: (Lists, int))
    requires Shape(ls) && t < CLASSES
    ensures Shape(res.0)
    decreases if ls.free[t] == [] then 1 else 0
  {
    if ls.free[t] == [] then
      match Div(ls.free, t + 1)
      case None => (ls, 0)
      case Some(f) => Req(ls.(free := f), t)
    else
      var a := ls.free[t][0];
      (Lists(ls.free[t := ls.free[t][1..]], ls.used[t := Insert(ls.used[t], a)]), a)
  }

  /** The first size type from `t` on whose allocated list holds `a`, or `CLASSES`. */
  function ClassOf(used: seq<seq<int>>, a: int, t: nat): (c: nat)
    requires |used| == CLASSES && t <= CLASSES
    ensures t <= c <= CLASSES
    ensures c < CLASSES ==> a in used[c]
    ensures forall s :: t <= s < c ==> a !in used[s]
    decreases CLASSES - t
  {
    if t == CLASSES || a in used[t] then t else ClassOf(used, a, t + 1)
  }

  /** The parity test of `MergeBlock`, in 32-bit unsigned arithmetic. */
  predicate EvenIndex(a: int, t: nat, r: nat) {
    (a - Pow2(r)) % U32 / Pow2(t) % 2 == 0
  }

  predicate IsPair(s: seq<int>, j: nat, t: nat, r: nat) {
    j + 1 < |s| && (s[j] + Pow2(t)) % U32 == s[j + 1] && EvenIndex(s[j], t, r)
  }

  /** The first position from `j` on where `MergeBlock` merges, or `|s|`. */
  function FirstPair(s: seq<int>, j: nat, t: nat, r: nat): (p: nat)
    requires j <= |s|
    ensures p <= |s| && (p < |s| ==> IsPair(s, p, t, r))
    ensures forall q: nat :: j <= q < p ==> !IsPair(s, q, t, r)
    decreases |s| - j
  {
    if j == |s| || IsPair(s, j, t, r) then j else FirstPair(s, j + 1, t, r)
  }

  /** `MergeBlock`: replace the first pair of buddies by their parent and go on one class up. */
  function Merge(free: seq<seq<int>>, t: nat, r: nat): (f: seq<seq<int>>)
    requires |free| == CLASSES && t < CLASSES
    ensures |f| == CLASSES
    decreases CLASSES - t
  {
    var j := FirstPair(free[t], 0, t, r);
    if t == CLASSES - 1 || j == |free[t]| then
      free
    else
      Merge(MergedOnce(free, t, j), t + 1, r)
  }

  function MergedOnce(free: seq<seq<int>>, t: nat, j: nat): (f: seq<seq<int>>)
    requires |free| == CLASSES && t + 1 < CLASSES && j + 1 < |free[t]|
    ensures |f| == CLASSES
  {
    free[t := free[t][..j] + free[t][j + 2..]][t + 1 := Insert(free[t + 1], free[t][j])]
  }

  /** `RelBytes`. */
  function Rel(ls: Lists, a: int, r: nat): (res: Lists)
    requires Shape(ls)
    ensures Shape(res)
  {
    var t := ClassOf(ls.used, a, 0);
    if t == CLASSES then
      ls
    else
      Lists(Merge(ls.free[t := Insert(ls.free[t], a)], t, r), ls.used[t := Without(ls.used[t], a)])
  }

  /** The two nested loops of `DirectMappingInit`, at offset `i` and size type `j`. */
  function Greedy(free: seq<seq<int>>, i: int, j: int): (f: seq<seq<int>>)
    requires |free| == CLASSES && -1 <= j < CLASSES
    ensures |f| == CLASSES
    decreases j + 1, AREA - i
  {
    if j < 0 || i >= AREA then
      free
    else if i + Pow2(j) <= AREA then
      Greedy(free[j := [LO + i] + free[j]], i + Pow2(j), j)
    else
      Greedy(free, i, j - 1)
  }

  function Empty(): (f: seq<seq<int>>)
    ensures |f| == CLASSES && forall t :: 0 <= t < CLASSES ==> f[t] == []
  {
    seq(CLASSES, _ => [])
  }

  /** The lists after `DirectMappingInit`. */
  function Init(r: nat): (ls: Lists)
    requires r < CLASSES
    ensures Shape(ls)
  {
    Lists(Greedy(Empty(), Pow2(r), CLASSES - 1), Empty()[r := [LO]])
  }

  /** One call of the allocator's interface; sizes the 26 lists do not serve are not calls. */
  datatype Call = ReqBytes(t: nat) | RelBytes(a: int)

  function Step(ls: Lists, call: Call, r: nat): (ls': Lists)
    requires Shape(ls) && (call.ReqBytes? ==> call.t < CLASSES)
    ensures Shape(ls')
  {
    match call
    case ReqBytes(t) => Req(ls, t).0
    case RelBytes(a) => Rel(ls, a, r)
  }

  predicate Served(calls: seq<Call>) {
    forall i :: 0 <= i < |calls| && calls[i].ReqBytes? ==> calls[i].t < CLASSES
  }

  function Run(ls: Lists, calls: seq<Call>, r: nat): (ls': Lists)
    requires Shape(ls) && Served(calls)
    ensures Shape(ls')
    decreases |calls|
  {
    if calls == [] then ls else Run(Step(ls, calls[0], r), calls[1..], r)
  }

  // ----- the request path in closed form

  function Smallest(free: seq<seq<int>>, t: nat): (k: nat)
    requires |free| == CLASSES && t <= CLASSES
    ensures t <= k <= CLASSES && (k < CLASSES ==> free[k] != [])
    ensures forall j :: t <= j < k ==> free[j] == []
    decreases CLASSES - t
  {
    if t == CLASSES || free[t] != [] then t else Smallest(free, t + 1)
  }

  /**
   Halve the block `a` of class `k`, which is on no list, until class `t`: the lower half goes
   on the list of its class, the upper half is kept in hand.
   */
  function Carve(rest: seq<seq<int>>, a: int, k: nat, t: nat): (res: (seq<seq<int>>, int))
    requires |rest| == CLASSES && t <= k < CLASSES
    ensures |res.0| == CLASSES
    decreases k
  {
    if k == t then (rest, a) else Carve(rest[k - 1 := [a] + rest[k - 1]], a + Pow2(k - 1), k - 1, t)
  }

  lemma {:induction false} CarveThrough(rest: seq<seq<int>>, a: int, k: nat, m: nat, t: nat)
    requires |rest| == CLASSES && t <= m <= k < CLASSES
    ensures var (rest', a') := Carve(rest, a, k, m); Carve(rest, a, k, t) == Carve(rest', a', m, t)
    decreases k
  {
    if m < k {
      CarveThrough(rest[k - 1 := [a] + rest[k - 1]], a + Pow2(k - 1), k - 1, m, t);
    }
  }

  lemma DivOnce(free: seq<seq<int>>, c: nat)
    requires |free| == CLASSES && 0 < c < CLASSES && free[c] != []
    ensures Smallest(free, c) == c
    ensures var (rest, a) := Carve(free[c := free[c][1..]], free[c][0], c, c - 1);
      Div(free, c) == Some(rest[c - 1 := [a] + rest[c - 1]])
  {
    var g, a := free[c := free[c][1..]], free[c][0];
    assert Carve(g, a, c, c - 1) == Carve(g[c - 1 := [a] + g[c - 1]], a + Pow2(c - 1), c - 1, c - 1);
    var hi, lo := a + Pow2(c - 1), [a] + g[c - 1];
    assert [hi] + lo == [hi, a] + free[c - 1];
    assert g[c - 1 := lo][c - 1 := [hi] + lo] == g[c - 1 := [hi] + lo];
  }

  /** `DivBlock` fails exactly when no class from `c` on has a free block; else it carves. */
  lemma {:induction false} DivCarves(free: seq<seq<int>>, c: nat)
    requires |free| == CLASSES && 0 < c <= CLASSES
    ensures var k := Smallest(free, c);
      if k == CLASSES then Div(free, c) == None
      else
        var (rest, a) := Carve(free[k := free[k][1..]], free[k][0], k, c - 1);
        Div(free, c) == Some(rest[c - 1 := [a] + rest[c - 1]])
    decreases CLASSES - c
  {
    if c < CLASSES {
      var k := Smallest(free, c);
      if free[c] != [] {
        DivOnce(free, c);
      } else {
        DivCarves(free, c + 1);
        if k < CLASSES {
          var g, A := free[k := free[k][1..]], free[k][0];
          var (rest, a) := Carve(g, A, k, c);
          CarveThrough(g, A, k, c, c - 1);
          var f := rest[c := [a] + rest[c]];
          DivOnce(f, c);
          assert f[c := f[c][1..]] == rest;
        }
      }
    }
  }

  lemma ReqCarves(ls: Lists, t: nat)
    requires Shape(ls) && t < CLASSES
    ensures var k := Smallest(ls.free, t);
      if k == CLASSES then Req(ls, t) == (ls, 0)
      else
        var (rest, a) := Carve(ls.free[k := ls.free[k][1..]], ls.free[k][0], k, t);
        Req(ls, t) == (Lists(rest, ls.used[t := Insert(ls.used[t], a)]), a)
  {
    if ls.free[t] == [] {
      DivCarves(ls.free, t + 1);
      var k := Smallest(ls.free, t);
      if k < CLASSES {
        var (rest, a) := Carve(ls.free[k := ls.free[k][1..]], ls.free[k][0], k, t);
        var f := rest[t := [a] + rest[t]];
        assert f[t][1..] == rest[t] && f[t := f[t][1..]] == rest;
      }
    }
  }

  lemma {:induction false} CarveExactly(rest: seq<seq<int>>, a: int, k: nat, t: nat)
    requires |rest| == CLASSES && t <= k < CLASSES
    requires forall j :: t <= j < k ==> rest[j] == []
    ensures var (rest', a') := Carve(rest, a, k, t);
      && a' == a + Pow2(k) - Pow2(t)
      && forall j :: 0 <= j < CLASSES ==>
        rest'[j] == if t <= j < k then [a + Pow2(k) - Pow2(j + 1)] else rest[j]
    decreases k
  {
    if t < k {
      CarveExactly(rest[k - 1 := [a] + rest[k - 1]], a + Pow2(k - 1), k - 1, t);
    }
  }

  /**
   What a request does: it fails, changing nothing, exactly when no class from `t` on has a
   free block. Otherwise the smallest such class `k` gives up its first block `A`; the caller
   gets the last 2^t bytes of `A`, and one block stays free in each class between.
   */
  lemma RequestExactly(ls: Lists, t: nat, j: nat)
    requires Shape(ls) && t < CLASSES && j < CLASSES
    ensures var k, (ls', a) := Smallest(ls.free, t), Req(ls, t);
      if k == CLASSES then ls' == ls && a == 0
      else
        && a == ls.free[k][0] + Pow2(k) - Pow2(t)
        && ls'.used == ls.used[t := Insert(ls.used[t], a)]
        && ls'.free[j] ==
           if t <= j < k then [ls.free[k][0] + Pow2(k) - Pow2(j + 1)]
           else if j == k then ls.free[k][1..] else ls.free[j]
  {
    ReqCarves(ls, t);
    var k := Smallest(ls.free, t);
    if k < CLASSES {
      CarveExactly(ls.free[k := ls.free[k][1..]], ls.free[k][0], k, t);
    }
  }

  // ----- the number of blocks on a group of lists

  function Count(lists: seq<seq<int>>): nat {
    if lists == [] then 0 else |lists[0]| + Count(lists[1..])
  }
}
