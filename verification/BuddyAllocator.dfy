/**
 The buddy allocator on its linked lists (kernel/memory/direct_mapping_allocator.c).

 The descriptor pool is an array of `BLOCKS` descriptors; descriptor `x` has the fields
 `addr[x]` and `mem.next[x]`. Its 53 lists are rings in that one memory: the free lists, the
 allocated lists and the pool. The methods follow the source statement by statement and are
 proved to compute the functions of BuddyLists.dfy.
 */
module BuddyAllocator {
  import opened Basics
  import opened Dyadic
  import opened Links
  import opened BuddyLists
  import opened BuddyView
  import opened BuddyInvariant
  import opened BuddySafety
  import opened BuddyRuns
  import opened BuddyAsWritten

  class Allocator {
    const mem: ListMemory
    const kEnd: int
    var addr: seq<int>
    var heads: seq<int>  // free_mem_list, allocated_mem_list, mem_block_pool

    ghost const r: nat          // size type of the reserved block
    ghost var ls: Lists         // the addresses on the lists
    ghost var pool: nat         // the number of descriptors in the pool
    ghost var rs: seq<seq<int>> // the rings behind the heads
    ghost var own: seq<int>
    ghost var held: set<int>    // descriptors on no list while an operation runs

    ghost predicate Linked()
      reads this, mem
      ensures Linked() ==> Shape(ls) && |heads| == RINGS && |rs| == RINGS && |addr| == BLOCKS && |mem.next| == BLOCKS
      ensures Linked() ==> 0 < kEnd < U32 && IsSizeType(kEnd, r) && r < CLASSES
      ensures Linked() ==> forall x :: x in held ==> 0 <= x < BLOCKS
    {
      && |addr| == BLOCKS && |mem.next| == BLOCKS && |heads| == RINGS && Rings(rs)
      && Forest(mem.next, rs, own) && Accounted(rs, own, held)
      && (forall i :: 0 <= i < RINGS ==> heads[i] == rs[i][0])
      && ls == View(rs, addr) && pool == |rs[POOL]| - 1
      && 0 < kEnd < U32 && IsSizeType(kEnd, r) && r < CLASSES
    }

    /** Between calls every descriptor is on exactly one list. */
    ghost predicate Valid()
      reads this, mem
    {
      Linked() && held == {}
    }

    /** Descriptor conservation: pool, lists and the 53 heads always add up to the pool memory. */
    lemma DescriptorsConserved()
      requires Valid()
      ensures pool + Count(ls.free) + Count(ls.used) + 53 == 0x2_0000
    {
      hide Forest, IsSizeType, Addrs;
      assert Complete(rs, own);
      RingsHoldAll(mem.next, rs, own);
      CountGroup(rs, addr, 0);
      CountGroup(rs, addr, CLASSES);
      assert rs[..POOL][..CLASSES] == rs[..CLASSES] && rs[..POOL][CLASSES..] == rs[CLASSES..POOL];
      TotalSplit(rs[..POOL], CLASSES);
    }

    // ----- list operations

    /** `ListRemove(prev)`, where `prev` is node `p` of ring `i`. */
    method Unlink(prev: int, ghost i: nat, ghost p: nat) returns (x: int)
      requires Linked() && i < RINGS && p + 1 < |rs[i]| && prev == rs[i][p]
      modifies mem, `ls, `pool, `rs, `own, `held
      ensures Linked() && x == old(rs[i][p + 1]) && x !in old(held) && held == old(held) + {x}
      ensures rs == old(rs)[i := Dropped(old(rs[i]), p)]
      ensures var s := old(Addrs(rs[i], addr)); ls == SetList(old(ls), i, s[..p] + s[p + 1..])
      ensures pool == if i == POOL then old(pool) - 1 else old(pool)
    {
      hide Forest, Accounted, View, Addrs;
      ForestRemove(mem.next, rs, own, i, p);
      AccountedRemove(rs, own, held, i, p);
      AddrsDropped(rs[i], p, addr);
      ViewUpdate(rs, addr, i, Dropped(rs[i], p));
      x := mem.ListRemove(prev);
      own := own[x := OFF];
      rs := rs[i := Dropped(rs[i], p)];
      held := held + {x};
      ls, pool := View(rs, addr), |rs[POOL]| - 1;
    }

    /** `ListAdd(prev, x)`, where `prev` is node `p` of ring `i`. */
    method Link(prev: int, x: int, ghost i: nat, ghost p: nat)
      requires Linked() && x in held && i < RINGS && p < |rs[i]| && prev == rs[i][p]
      modifies mem, `ls, `pool, `rs, `own, `held
      ensures Linked() && held == old(held) - {x}
      ensures rs == old(rs)[i := Inserted(old(rs[i]), p, x)]
      ensures var s := old(Addrs(rs[i], addr));
        ls == SetList(old(ls), i, s[..p] + [addr[x]] + s[p..])
      ensures pool == if i == POOL then old(pool) + 1 else old(pool)
    {
      hide Forest, Accounted, View, Addrs;
      HeldIsOff(rs, own, held, x);
      ForestAdd(mem.next, rs, own, i, p, x);
      AccountedAdd(rs, own, held, i, p, x);
      AddrsInserted(rs[i], p, x, addr);
      ViewUpdate(rs, addr, i, Inserted(rs[i], p, x));
      mem.ListAdd(prev, x);
      own := own[x := i];
      rs := rs[i := Inserted(rs[i], p, x)];
      held := held - {x};
      ls, pool := View(rs, addr), |rs[POOL]| - 1;
    }

    /** What the scan loops read at node `p` of ring `i`. */
    lemma ScanAt(i: nat, p: nat)
      requires Linked() && i < RINGS && p < |rs[i]|
      ensures Node(mem.next, rs[i][p]) && heads[i] == rs[i][0]
      ensures mem.next[rs[i][p]] == heads[i] <==> p + 1 == |rs[i]|
      ensures p + 1 < |rs[i]| ==> mem.next[rs[i][p]] == rs[i][p + 1] && Node(mem.next, rs[i][p + 1])
      ensures i < POOL ==> |ListNo(ls, i)| == |rs[i]| - 1 && Addrs(rs[i], addr) == ListNo(ls, i)
      ensures i < POOL && p + 1 < |rs[i]| ==> addr[rs[i][p + 1]] == ListNo(ls, i)[p]
    {
      hide Forest, Accounted, View, Addrs;
      RingNext(mem.next, rs, own, i, p);
      if i < POOL {
        ViewList(rs, addr, i);
      }
      if p + 1 < |rs[i]| {
        RingNext(mem.next, rs, own, i, p + 1);
        if i < POOL {
          AddrsAt(rs[i], addr, p);
        }
      }
    }

    method IsEmpty(i: nat) returns (empty: bool)
      requires Linked() && i < RINGS
      ensures empty <==> if i == POOL then pool == 0 else ListNo(ls, i) == []
    {
      hide Forest, Accounted, View, Addrs;
      ScanAt(i, 0);
      empty := mem.IsListEmpty(heads[i]);
    }

    /** `ListRemove` of the first block of list `i`. */
    method PopFront(i: nat) returns (x: int)
      requires Linked() && i < POOL && ListNo(ls, i) != []
      modifies mem, `ls, `pool, `rs, `own, `held
      ensures Linked() && x !in old(held) && held == old(held) + {x} && pool == old(pool)
      ensures addr[x] == ListNo(old(ls), i)[0] && ls == SetList(old(ls), i, ListNo(old(ls), i)[1..])
    {
      hide Linked, Addrs;
      RingNonempty(i);
      ScanAt(i, 0);
      ghost var s := ListNo(ls, i);
      x := Unlink(heads[i], i, 0);
      assert s[..0] + s[1..] == s[1..];
    }

    lemma RingNonempty(i: nat)
      requires Linked() && i < RINGS
      ensures i < |rs| && rs[i] != []
      ensures pool == |rs[POOL]| - 1
    {
    }

    /** `ListAdd` right after the head of list `i`. */
    method PushFront(i: nat, x: int)
      requires Linked() && i < RINGS && x in held
      modifies mem, `ls, `pool, `rs, `own, `held
      ensures Linked() && held == old(held) - {x}
      ensures pool == if i == POOL then old(pool) + 1 else old(pool)
      ensures ls == if i == POOL then old(ls) else SetList(old(ls), i, [addr[x]] + ListNo(old(ls), i))
    {
      hide Linked, Addrs;
      RingNonempty(i);
      ScanAt(i, 0);
      Link(heads[i], x, i, 0);
      ghost var s := if i == POOL then [] else ListNo(old(ls), i);
      assert s[..0] + [addr[x]] + s[0..] == [addr[x]] + s;
    }

    /** List `i` is the ring `ring`. */
    ghost predicate RingAt(i: nat, ring: seq<int>)
      reads this, mem
    {
      && i < RINGS == |heads| && |addr| == |mem.next| && ring != []
      && Cycle(mem.next, ring) && Distinct(ring) && ring[0] == heads[i]
    }

    lemma RingOf(i: nat)
      requires Linked() && i < RINGS
      ensures RingAt(i, rs[i])
      ensures i < POOL ==> Addrs(rs[i], addr) == ListNo(ls, i)
    {
      hide View, Addrs, Accounted;
      if i < POOL {
        ViewList(rs, addr, i);
      }
    }

    /** The loop that looks for the place of `a` in address order: lines 133-137, 179-185, 258-263. */
    method FindSpot(i: nat, a: int, ghost ring: seq<int>) returns (tmp: int, ghost p: nat)
      requires RingAt(i, ring)
      ensures p < |ring| && tmp == ring[p] && Node(mem.next, tmp)
      ensures var s := Addrs(ring, addr);
        (forall q :: 0 <= q < p ==> s[q] < a) && (p < |s| ==> s[p] >= a)
    {
      hide Cycle, Distinct, Addrs;
      tmp, p := heads[i], 0;
      ghost var s := Addrs(ring, addr);
      RingScan(mem.next, ring, addr, 0);
      while mem.next[tmp] != heads[i] && addr[mem.next[tmp]] < a
        invariant p < |ring| && tmp == ring[p] && Node(mem.next, tmp)
        invariant mem.next[tmp] == heads[i] <==> p == |s|
        invariant p < |s| ==> Node(mem.next, mem.next[tmp]) && addr[mem.next[tmp]] == s[p]
        invariant forall q :: 0 <= q < p ==> s[q] < a
        decreases |s| - p
      {
        RingScan(mem.next, ring, addr, p);
        tmp, p := mem.next[tmp], p + 1;
        RingScan(mem.next, ring, addr, p);
      }
    }

    method InsertInOrder(i: nat, x: int)
      requires Linked() && i < POOL && x in held
      modifies mem, `ls, `pool, `rs, `own, `held
      ensures Linked() && held == old(held) - {x} && pool == old(pool)
      ensures ls == SetList(old(ls), i, Insert(ListNo(old(ls), i), addr[x]))
    {
      hide Linked, RingAt, Addrs;
      RingOf(i);
      RingNonempty(i);
      var tmp, p := FindSpot(i, addr[x], rs[i]);
      ScanAt(i, 0);
      InsertAt(ListNo(ls, i), addr[x], p);
      Link(tmp, x, i, p);
    }

    method SetAddr(x: int, a: int)
      requires Linked() && x in held
      modifies `addr
      ensures Linked() && addr == old(addr)[x := a]
    {
      GroupFrame(mem.next, rs, own, addr, 0, x, a);
      GroupFrame(mem.next, rs, own, addr, CLASSES, x, a);
      addr := addr[x := a];
    }

    // ----- the descriptor pool

    method ReqMemBlock() returns (x: int)
      requires Linked()
      modifies mem, `ls, `pool, `rs, `own, `held
      ensures Linked() && ls == old(ls)
      ensures if old(pool) == 0 then x == NULL && pool == 0 && held == old(held)
        else x !in old(held) && held == old(held) + {x} && pool == old(pool) - 1
    {
      RingNonempty(POOL);
      ScanAt(POOL, 0);
      if mem.IsListEmpty(heads[POOL]) {
        return NULL;
      }
      x := Unlink(heads[POOL], POOL, 0);
    }

    method RelMemBlock(x: int)
      requires Linked() && x in held
      modifies mem, `ls, `pool, `rs, `own, `held
      ensures Linked() && ls == old(ls) && held == old(held) - {x} && pool == old(pool) + 1
    {
      PushFront(POOL, x);
    }

    // ----- initialisation

    /** `DirectMappingInit`. */
    constructor (kEnd: int)
      requires 0 < kEnd <= 0x200_0000
      ensures Valid() && this.kEnd == kEnd && ls == Init(r) && Inv(ls, r)
      ensures fresh(mem)
    {
      hide Linked, Greedy, PoolChain, Pow2, IsSizeType, Inv, Init;
      var m := new ListMemory(BLOCKS);
      var t := GetMemBlockSizeType(kEnd);
      SizeTypeBound(kEnd, t);
      mem, this.kEnd, r := m, kEnd, t;
      addr := seq(BLOCKS, _ => 0);
      heads := [];
      ls, pool, rs, own, held := Lists([], []), 0, [], [], {};
      new;
      Setup(t);
      InitKeeps(t);
    }

    /** The statements of `DirectMappingInit`. */
    method Setup(t: nat)
      requires |mem.next| == BLOCKS && addr == seq(BLOCKS, _ => 0)
      requires 0 < kEnd < U32 && IsSizeType(kEnd, r) && r < CLASSES && t == r
      modifies mem, `addr, `heads, `ls, `pool, `rs, `own, `held
      ensures Valid() && ls == Init(r)
    {
      hide Linked, Greedy, PoolChain, Pow2, IsSizeType;
      MemBlockPoolInit(mem);
      TakeHeads();
      PushBlock(CLASSES + t, LO);
      assert [LO] + ListNo(Lists(Empty(), Empty()), CLASSES + t) == [LO];
      PlaceFree(t);
    }

    /** The loop that turns 52 descriptors into empty lists. */
    method TakeHeads()
      requires |mem.next| == BLOCKS && PoolChain(mem.next, BLOCKS) && addr == seq(BLOCKS, _ => 0)
      requires 0 < kEnd < U32 && IsSizeType(kEnd, r) && r < CLASSES
      modifies mem, `heads, `ls, `pool, `rs, `own, `held
      ensures Valid() && ls == Lists(Empty(), Empty()) && pool == BLOCKS - RINGS
    {
      hide Forest, Accounted, View, FirstRings, FirstOwner, IsSizeType, PoolChain, HeadsTaken, Remove;
      HeadsTakenNone(mem.next);
      var free, used, i := [], [], 0;
      while i < CLASSES
        invariant 0 <= i <= CLASSES && |mem.next| == BLOCKS && HeadsTaken(mem.next, i)
        invariant |free| == i && |used| == i
        invariant forall t :: 0 <= t < i ==> free[t] == HeadNode(t) && used[t] == HeadNode(CLASSES + t)
      {
        TakeTwo(mem.next, i);
        var f := mem.ListRemove(0);
        mem.next := mem.next[f := f];
        var u := mem.ListRemove(0);
        mem.next := mem.next[u := u];
        free, used, i := free + [f], used + [u], i + 1;
      }
      heads := free + used + [0];
      rs, own, held := FirstRings(), seq(BLOCKS, x => FirstOwner(x)), {};
      ls, pool := View(rs, addr), |rs[POOL]| - 1;
      FirstForest(mem.next, own);
      FirstAccounted(own);
      FirstView(addr);
    }

    /** Puts a new descriptor for the block at `a` first on list `i`. */
    method PushBlock(i: nat, a: int)
      requires Valid() && i < POOL && pool > 0
      modifies mem, `addr, `ls, `pool, `rs, `own, `held
      ensures Valid() && pool == old(pool) - 1
      ensures ls == SetList(old(ls), i, [a] + ListNo(old(ls), i))
    {
      hide Linked;
      var block := ReqMemBlock();
      SetAddr(block, a);
      PushFront(i, block);
    }

    /** The nested loops that put the rest of the area on the free lists. */
    method PlaceFree(t: nat)
      requires Valid() && t == r && pool >= 200 && ls == Lists(Empty(), Empty()[r := [LO]])
      modifies mem, `addr, `ls, `pool, `rs, `own, `held
      ensures Valid() && ls == Init(r)
    {
      hide Linked, Greedy;
      var i, j := Pow2(t), CLASSES - 1;
      ghost var free := ls.free;
      Pow2Values();
      while j >= 0 && i < AREA
        invariant -1 <= j < CLASSES && Valid() && ls.used == Empty()[r := [LO]]
        invariant Greedy(ls.free, i, j) == Greedy(free, Pow2(r), CLASSES - 1)
        invariant j >= 0 ==> AREA - i < 2 * Pow2(j)
        invariant pool >= 100 + j
      {
        i := PlaceClass(i, j);
        j := j - 1;
      }
      GreedyDone(ls.free, i, j);
    }

    /** The inner loop: since less than two blocks of class `j` fit, it places at most one. */
    method PlaceClass(i0: int, j: nat) returns (i: int)
      requires Valid() && j < CLASSES && i0 < AREA && AREA - i0 < 2 * Pow2(j) && pool > 0
      modifies mem, `addr, `ls, `pool, `rs, `own, `held
      ensures Valid() && ls.used == old(ls.used) && pool >= old(pool) - 1
      ensures AREA - i < Pow2(j)
      ensures Greedy(ls.free, i, j - 1) == Greedy(old(ls.free), i0, j)
    {
      hide Linked, Greedy;
      i := i0;
      while i + Pow2(j) <= AREA
        invariant Valid() && ls.used == old(ls.used) && i0 <= i <= AREA
        invariant Greedy(ls.free, i, j) == Greedy(old(ls.free), i0, j)
        invariant i == i0 ==> pool == old(pool)
        invariant i > i0 ==> pool == old(pool) - 1 && AREA - i < Pow2(j)
      {
        GreedyStep(ls.free, i, j);
        PushBlock(j, LO + i);
        i := i + Pow2(j);
      }
      GreedyStep(ls.free, i, j);
    }

    // ----- requests

    /** Lines 290-295: the first block of class `c` becomes two of the class below. */
    method SplitFirst(c: nat)
      requires Valid() && 0 < c < CLASSES && pool > 0 && ls.free[c] != []
      modifies mem, `addr, `ls, `pool, `rs, `own, `held
      ensures Valid() && ls.used == old(ls.used) && pool == old(pool) - 1
      ensures Div(old(ls.free), c) == Some(ls.free)
    {
      hide Linked, Pow2, IsSizeType;
      var block1 := PopFront(c);
      var block2 := ReqMemBlock();
      SetAddr(block2, addr[block1] + Pow2(c - 1));
      PushFront(c - 1, block1);
      PushFront(c - 1, block2);
      ghost var a, rest, g := addr[block1], old(ls.free[c - 1]), old(ls.free)[c := old(ls.free[c])[1..]];
      ghost var both := [a + Pow2(c - 1)] + ([a] + rest);
      assert both == [a + Pow2(c - 1), a] + rest;
      assert g[c - 1 := [a] + rest][c - 1 := both] == g[c - 1 := both];
    }

    /** `DivBlock`. */
    method DivBlock(c: nat) returns (ok: bool)
      requires Valid() && c <= CLASSES && pool >= Splits(ls.free, c)
      modifies mem, `addr, `ls, `pool, `rs, `own, `held
      ensures Valid() && ls.used == old(ls.used)
      ensures match Div(old(ls.free), c)
        case None => !ok && ls == old(ls) && pool == old(pool)
        case Some(f) => ok && ls.free == f && pool == old(pool) - Splits(old(ls.free), c)
      decreases CLASSES - c, if c < CLASSES && ls.free[c] == [] then 1 else 0
    {
      hide Linked, Pow2, IsSizeType, Splits;
      if c == 0 || c == CLASSES {
        return false;
      }
      var empty := IsEmpty(c);
      SplitsStep(ls.free, c);
      if !empty {
        SplitFirst(c);
        return true;
      }
      ok := DivBlock(c + 1);
      if ok {
        SplitsStep(ls.free, c);
        ok := DivBlock(c);
      }
    }

    /** `ReqBytes`; `t` is the size type of `size`. */
    method ReqBytes(size: int, ghost t: nat) returns (a: int)
      requires Valid() && 0 < size <= 0x200_0000 && IsSizeType(size, t)
      requires t < CLASSES && pool >= Halvings(ls.free, t)
      modifies mem, `addr, `ls, `pool, `rs, `own, `held
      ensures Valid() && (ls, a) == Req(old(ls), t) && (old(Inv(ls, r)) ==> Inv(ls, r))
      decreases if ls.free[t] == [] then 1 else 0
    {
      hide Linked, Pow2, IsSizeType, Insert, Div, Inv;
      HalvingsStep(ls.free, t);
      if Inv(ls, r) {
        RequestKeeps(ls, t, r);
      }
      var sizeType := GetMemBlockSizeType(size);
      SizeTypeUnique(size, t, sizeType);
      var empty := IsEmpty(sizeType);
      if empty {
        var ok := DivBlock(sizeType + 1);
        if ok {
          a := ReqBytes(size, t);
          return;
        }
        return 0;
      }
      var block := PopFront(sizeType);
      InsertInOrder(CLASSES + sizeType, block);
      return addr[block];
    }

    // ----- releases

    /** The scan of `MergeBlock` over the ring of list `t` for two blocks to merge. */
    method FindPair(t: nat, ghost ring: seq<int>) returns (found: bool, tmp: int, ghost p: nat)
      requires RingAt(t, ring) && 0 < kEnd < U32 && IsSizeType(kEnd, r)
      ensures var s := Addrs(ring, addr);
        p == FirstPair(s, 0, t, r) && (found <==> p < |s|) && |s| == |ring| - 1
      ensures found ==> p + 2 < |ring| && tmp == ring[p]
    {
      hide Cycle, Distinct, Addrs, EvenIndex, IsSizeType, FirstPair;
      ghost var s := Addrs(ring, addr);
      var size := Pow2(t);
      tmp, p := heads[t], 0;
      RingScan(mem.next, ring, addr, 0);
      while mem.next[tmp] != heads[t]
        invariant p < |ring| && tmp == ring[p] && Node(mem.next, tmp)
        invariant mem.next[tmp] == heads[t] <==> p == |s|
        invariant FirstPair(s, 0, t, r) == FirstPair(s, p, t, r)
        decreases |s| - p
      {
        RingScan(mem.next, ring, addr, p);
        RingScan(mem.next, ring, addr, p + 1);
        ParityIs(s[p], t, r);
        FirstPairStep(s, p, t, r);
        var block1 := mem.next[tmp];
        var block2 := mem.next[block1];
        if block2 != heads[t] && (addr[block1] + size) % U32 == addr[block2] {
          var reservedType := GetMemBlockSizeType(kEnd);
          SizeTypeUnique(kEnd, r, reservedType);
          if (addr[block1] - Pow2(reservedType)) % U32 / size % 2 == 0 {
            return true, tmp, p;
          }
        }
        tmp, p := mem.next[tmp], p + 1;
      }
      FirstPairStep(s, p, t, r);
      found := false;
    }

    /** Takes the pair of buddies at node `p` off their free list. */
    method TakePair(t: nat, tmp: int, ghost p: nat) returns (block1: int, block2: int)
      requires Valid() && t < CLASSES - 1 && p + 1 < |ls.free[t]|
      requires |rs[t]| == |ls.free[t]| + 1 && tmp == rs[t][p]
      modifies mem, `ls, `pool, `rs, `own, `held
      ensures Linked() && block1 != block2 && held == {block1, block2} && pool == old(pool)
      ensures addr[block1] == old(ls.free[t][p])
      ensures var s := old(ls.free[t]);
        ls == old(ls).(free := old(ls.free)[t := s[..p] + s[p + 2..]])
    {
      hide Linked, Addrs, IsSizeType, Dropped;
      ScanAt(t, p);
      ghost var s, free := ls.free[t], ls.free;
      DroppedAt(rs[t], p, p);
      block1 := Unlink(tmp, t, p);
      ghost var s1 := s[..p] + s[p + 1..];
      ScanAt(t, p);
      block2 := Unlink(tmp, t, p);
      assert s1[..p] + s1[p + 1..] == s[..p] + s[p + 2..];
      assert free[t := s1][t := s[..p] + s[p + 2..]] == free[t := s[..p] + s[p + 2..]];
    }

    /** Lines 255-264 with both buddies leaving the list. */
    method JoinPair(t: nat, tmp: int, ghost p: nat)
      requires Valid() && t < CLASSES - 1 && p + 1 < |ls.free[t]|
      requires |rs[t]| == |ls.free[t]| + 1 && tmp == rs[t][p]
      modifies mem, `ls, `pool, `rs, `own, `held
      ensures Valid() && ls == Lists(MergedOnce(old(ls.free), t, p), old(ls.used))
      ensures pool == old(pool) + 1
    {
      hide Linked, Insert, IsSizeType;
      var block1, block2 := TakePair(t, tmp, p);
      RelMemBlock(block2);
      InsertInOrder(t + 1, block1);
    }

    lemma ScanAtHead(t: nat)
      requires Linked() && t < POOL
      ensures |rs[t]| == |ListNo(ls, t)| + 1
    {
      hide Linked;
      RingNonempty(t);
      ScanAt(t, 0);
    }

    /** `MergeBlock`. */
    method MergeBlock(t: nat)
      requires Valid() && t < CLASSES
      modifies mem, `ls, `pool, `rs, `own, `held
      ensures Valid() && ls == Lists(Merge(old(ls.free), t, r), old(ls.used))
      decreases CLASSES - t
    {
      hide Linked, RingAt, FirstPair, MergedOnce, IsSizeType;
      if t == CLASSES - 1 {
        return;
      }
      RingOf(t);
      ScanAtHead(t);
      var found, tmp, p := FindPair(t, rs[t]);
      if found {
        PairInRange(ls.free[t], t, r);
        JoinPair(t, tmp, p);
        MergeBlock(t + 1);
      }
    }

    /** The scan of one allocated list for `a`; a higher address ends it. */
    method FindInList(a: int, t: nat) returns (found: bool, prev: int, ghost p: nat)
      requires Valid() && t < CLASSES && Sorted(ls.used[t])
      ensures found <==> a in ls.used[t]
      ensures found ==> p < |ls.used[t]| && ls.used[t][p] == a
      ensures found ==> |rs[CLASSES + t]| == |ls.used[t]| + 1 && prev == rs[CLASSES + t][p]
    {
      hide Linked, Addrs, IsSizeType;
      var i := CLASSES + t;
      RingNonempty(i);
      ghost var s := ls.used[t];
      prev, p := heads[i], 0;
      ScanAt(i, 0);
      while mem.next[prev] != heads[i]
        invariant p <= |s| && prev == rs[i][p] && Node(mem.next, prev)
        invariant mem.next[prev] == heads[i] <==> p == |s|
        invariant a !in s[..p]
        decreases |s| - p
      {
        ScanAt(i, p);
        if addr[mem.next[prev]] == a {
          return true, prev, p;
        }
        if addr[mem.next[prev]] > a {
          break;
        }
        prev, p := mem.next[prev], p + 1;
        ScanAt(i, p);
      }
      found := false;
      assert forall q :: p <= q < |s| ==> s[q] != a;
    }

    /** The search of `RelBytes`, where meeting a higher address ends the scan of its list only. */
    method FindAllocated(a: int) returns (t: nat, prev: int, ghost p: nat)
      requires Valid() && forall c :: 0 <= c < CLASSES ==> Sorted(ls.used[c])
      ensures t == ClassOf(ls.used, a, 0)
      ensures t < CLASSES ==> p < |ls.used[t]| && ls.used[t][p] == a
      ensures t < CLASSES ==> |rs[CLASSES + t]| == |ls.used[t]| + 1 && prev == rs[CLASSES + t][p]
    {
      hide Linked, Addrs, IsSizeType, Sorted;
      t, prev, p := 0, NULL, 0;
      while t < CLASSES
        invariant t <= CLASSES && ClassOf(ls.used, a, 0) == ClassOf(ls.used, a, t)
      {
        var found;
        found, prev, p := FindInList(a, t);
        if found {
          return;
        }
        t := t + 1;
      }
    }

    /** Takes the block at `a` off its allocated list and puts it on the free list. */
    method MoveToFree(a: int, t: nat, prev: int, ghost p: nat)
      requires Valid() && t < CLASSES && p < |ls.used[t]| && ls.used[t][p] == a
      requires |rs[CLASSES + t]| == |ls.used[t]| + 1 && prev == rs[CLASSES + t][p]
      requires Sorted(ls.used[t])
      modifies mem, `ls, `pool, `rs, `own, `held
      ensures Valid() && a in old(ls.used[t])
      ensures ls == Lists(old(ls.free)[t := Insert(old(ls.free[t]), a)],
                          old(ls.used)[t := Without(old(ls.used[t]), a)])
    {
      hide Linked, Addrs, IsSizeType, Insert, Without;
      ScanAt(CLASSES + t, p);
      NotEarlier(ls.used[t], p);
      WithoutAt(ls.used[t], a, p);
      var block := Unlink(prev, CLASSES + t, p);
      InsertInOrder(t, block);
    }

    /** `RelBytes`. */
    method RelBytes(a: int)
      requires Valid() && Inv(ls, r)
      modifies mem, `ls, `pool, `rs, `own, `held
      ensures Valid() && ls == Rel(old(ls), a, r) && Inv(ls, r)
      ensures forall c, u :: 0 <= c < CLASSES ==> (u in ls.used[c] <==> u in old(ls).used[c] && u != a)
    {
      hide Linked, Addrs, IsSizeType, Insert, Merge, Blocks, Tiles, Coalesced, Without;
      ReleaseKeeps(ls, a, r);
      forall c, u | 0 <= c < CLASSES
        ensures u in Rel(ls, a, r).used[c] <==> u in ls.used[c] && u != a
      {
        ReleaseTakes(ls, a, r, c, u);
      }
      var t, prev, p := FindAllocated(a);
      if t == CLASSES {
        return;
      }
      MoveToFree(a, t, prev, p);
      MergeBlock(t);
    }

    // ----- runs

    /**
     Any sequence of calls on the linked lists, and the addresses that they return. The allocated
     lists end with the blocks granted and not released since. When they end as they began, so do
     all lists and the size of the descriptor pool.
     */
    method Replay(calls: seq<Call>) returns (out: seq<int>)
      requires Valid() && Inv(ls, r) && Served(calls) && Affordable(ls, calls, r)
      modifies mem, `addr, `ls, `pool, `rs, `own, `held
      ensures Valid() && Inv(ls, r) && ls == Run(old(ls), calls, r) && out == Returns(old(ls), calls, r)
      ensures forall c: nat, u :: c < CLASSES ==>
        (u in ls.used[c] <==> LiveAfter(u in old(ls).used[c], calls, out, c, u))
      ensures ls.used == old(ls.used) ==> ls == old(ls) && pool == old(pool)
      decreases |calls|
    {
      hide Linked, Inv, Req, Rel, IsSizeType;
      DescriptorsConserved();
      forall c: nat, u | c < CLASSES
        ensures u in Run(ls, calls, r).used[c] <==> LiveAfter(u in ls.used[c], calls, Returns(ls, calls, r), c, u)
      {
        LiveExactly(ls, calls, r, c, u);
      }
      out := [];
      if calls != [] {
        var a := 0;
        match calls[0] {
          case ReqBytes(t) =>
            PowerSize(t);
            a := ReqBytes(Pow2(t), t);
          case RelBytes(b) =>
            RelBytes(b);
        }
        var rest := Replay(calls[1..]);
        out := [a] + rest;
      }
      DescriptorsConserved();
      if ls.used == old(ls.used) {
        FreeListsDetermined(ls, old(ls), r);
      }
    }

    // ----- releases as the text has them

    ghost predicate HasFreeRings(t: nat, frs: seq<seq<int>>, fown: seq<int>)
      reads this, mem
    {
      && |addr| == BLOCKS && |mem.next| == BLOCKS && |heads| == RINGS
      && 0 < kEnd < U32 && IsSizeType(kEnd, r)
      && FreeRings(mem.next, heads, heads[POOL], frs, fown, t)
    }

    /** Lines 255-257, as written. */
    method UnlinkPairAsWritten(tmp: int, ghost ring: seq<int>, ghost p: nat) returns (block1: int)
      requires |heads| == RINGS && Node(mem.next, heads[POOL])
      requires PairAt(mem.next, ring, p) && tmp == ring[p]
      modifies mem
      ensures block1 == ring[p + 1] && mem.next == UnlinkPair(old(mem.next), tmp, heads[POOL])
    {
      block1 := mem.next[tmp];
      var block2 := mem.next[block1];
      var _ := mem.ListRemove(tmp);
      var _ := mem.ListRemove(mem.next[tmp]);
      mem.next := mem.next[block2 := NULL];
      mem.ListAdd(heads[POOL], block2);
    }

    /** The node that lines 255-257 lose, or `z` if that one is lost already. */
    ghost function Lost(ring: seq<int>, p: nat, z: int): int
      requires p + 2 < |ring|
      reads mem
    {
      if Stranded(mem.next, z) then z else Succ(ring, p + 2)
    }

    lemma LostAfterPair(t: nat, ring: seq<int>, p: nat, z: int)
      requires |heads| == RINGS && Node(mem.next, heads[POOL]) && PairAt(mem.next, ring, p)
      requires Stranded(mem.next, z) || (Valid() && t < POOL && ring == rs[t])
      ensures Stranded(UnlinkPair(mem.next, ring[p], heads[POOL]), Lost(ring, p, z))
      ensures Lost(ring, p, z) != ring[p + 1]
    {
      hide UnlinkPair, IsSizeType, View;
      if Stranded(mem.next, z) {
        UnlinkPairKeepsStranded(mem.next, ring, p, heads[POOL], z);
      } else {
        assert Complete(rs, own);
        UnlinkPairStrands(mem.next, rs, own, t, p, POOL);
      }
    }

    lemma FreeRingAt(t: nat, frs: seq<seq<int>>, fown: seq<int>)
      requires HasFreeRings(t, frs, fown)
      ensures |frs| == CLASSES - t && RingAt(t, frs[0]) && |fown| == BLOCKS
      ensures 0 < kEnd < U32 && IsSizeType(kEnd, r) && |heads| == RINGS && Node(mem.next, heads[POOL])
    {
    }

    /** `MergeBlock` as written, in a memory of which only the free lists from `t` on are known. */
    method MergeBlockAsWritten(t: nat, ghost frs: seq<seq<int>>, ghost fown: seq<int>, ghost z: int)
      requires t < CLASSES && HasFreeRings(t, frs, fown)
      modifies mem
      ensures |mem.next| == BLOCKS
      ensures !Pairs(frs[0], addr, t, r) && old(Valid()) ==> Valid()
      ensures Stranded(old(mem.next), z) ==> Stranded(mem.next, z)
      ensures Pairs(frs[0], addr, t, r) && old(Valid()) && frs[0] == old(rs)[t] ==>
        exists y :: Stranded(mem.next, y)
      decreases CLASSES - t
    {
      hide Linked, RingAt, Addrs, FirstPair, UnlinkPair, Stranded, IsSizeType, FreeRings, PairAt;
      if t == CLASSES - 1 {
        return;
      }
      FreeRingAt(t, frs, fown);
      var found, tmp, p := FindPair(t, frs[0]);
      if found {
        UnlinkPairFrame(mem.next, heads, frs, fown, t, p, heads[POOL]);
        ghost var lost, frs1, fown1 := Lost(frs[0], p, z), frs[1..], Shifted(fown, 1, |frs| - 1);
        ghost var sure := Stranded(mem.next, z) || (Valid() && frs[0] == rs[t]);
        if sure {
          LostAfterPair(t, frs[0], p, z);
        }
        var block1 := UnlinkPairAsWritten(tmp, frs[0], p);
        FreeRingAt(t + 1, frs1, fown1);
        var spot, q := FindSpot(t + 1, addr[block1], frs1[0]);
        FreeRingsAdd(mem.next, heads, heads[POOL], frs1, fown1, t + 1, q, block1);
        if sure {
          StrandedAdd(mem.next, lost, spot, block1);
        }
        mem.ListAdd(spot, block1);
        MergeBlockAsWritten(t + 1, frs1[0 := Inserted(frs1[0], q, block1)], fown1[block1 := 0], lost);
      }
    }

    /**
     The search of `RelBytes` as written: a higher address on any list ends all of it, at the
     node `prev` before that address.
     */
    method SearchAsWritten(a: int) returns (t: nat, found: bool, prev: int, ghost p: nat)
      requires Valid() && forall c :: 0 <= c < CLASSES ==> Sorted(ls.used[c])
      ensures t <= CLASSES && (found ==> t < CLASSES)
      ensures forall c, u :: 0 <= c < t && u in ls.used[c] ==> u < a
      ensures t < CLASSES ==> p < |ls.used[t]| && |rs[CLASSES + t]| == |ls.used[t]| + 1
      ensures t < CLASSES ==> prev == rs[CLASSES + t][p]
      ensures t < CLASSES ==> if found then ls.used[t][p] == a else ls.used[t][p] > a && a !in ls.used[t]
    {
      hide Linked, Addrs, IsSizeType, Sorted;
      t, found, prev, p := 0, false, NULL, 0;
      while t < CLASSES
        invariant t <= CLASSES && !found
        invariant forall c, u :: 0 <= c < t && u in ls.used[c] ==> u < a
      {
        var stopped;
        stopped, found, prev, p := ScanAsWritten(a, t);
        if stopped {
          return;
        }
        t := t + 1;
      }
    }

    method ScanAsWritten(a: int, t: nat) returns (stopped: bool, found: bool, prev: int, ghost p: nat)
      requires Valid() && t < CLASSES && Sorted(ls.used[t])
      ensures found ==> stopped
      ensures !stopped ==> forall u :: u in ls.used[t] ==> u < a
      ensures stopped ==> p < |ls.used[t]| && |rs[CLASSES + t]| == |ls.used[t]| + 1
      ensures stopped ==> prev == rs[CLASSES + t][p]
      ensures stopped ==> if found then ls.used[t][p] == a else ls.used[t][p] > a && a !in ls.used[t]
    {
      hide Linked, Addrs, IsSizeType;
      var i := CLASSES + t;
      RingNonempty(i);
      ghost var s := ls.used[t];
      prev, p := heads[i], 0;
      ScanAt(i, 0);
      while mem.next[prev] != heads[i]
        invariant p <= |s| && prev == rs[i][p] && Node(mem.next, prev)
        invariant mem.next[prev] == heads[i] <==> p == |s|
        invariant forall q :: 0 <= q < p ==> s[q] < a
        decreases |s| - p
      {
        ScanAt(i, p);
        if addr[mem.next[prev]] == a {
          return true, true, prev, p;
        }
        if addr[mem.next[prev]] > a {
          assert forall q :: p <= q < |s| ==> s[q] > a;
          return true, false, prev, p;
        }
        prev, p := mem.next[prev], p + 1;
        ScanAt(i, p);
      }
      stopped, found := false, false;
    }

    /** The free lists from `t` on as rings of their own. */
    lemma FreeRingsOf(t: nat)
      requires Linked() && t < CLASSES
      ensures HasFreeRings(t, rs[t..CLASSES], Shifted(own, t, CLASSES - t))
      ensures forall x :: 0 <= x < BLOCKS && own[x] >= CLASSES ==> Shifted(own, t, CLASSES - t)[x] == OFF
    {
      hide IsSizeType, View, Accounted;
      ForestSlice(mem.next, mem.next, rs, own, t, CLASSES - t);
      assert rs[t..t + (CLASSES - t)] == rs[t..CLASSES];
      RingNext(mem.next, rs, own, POOL, 0);
      assert own[rs[POOL][0]] == POOL;
    }

    /** What `ListAdd` of node `p` of an allocated list after node `q` of a free list does. */
    lemma ListedTwice(t: nat, p: nat, q: nat)
      requires Valid() && t < CLASSES && p + 1 < |rs[CLASSES + t]| && q < |rs[t]|
      ensures var x, prev := rs[CLASSES + t][p], rs[t][q];
        && Node(mem.next, x) && Node(mem.next, prev) && x != heads[POOL] && |own| == BLOCKS
        && Stranded(Add(mem.next, prev, x), rs[CLASSES + t][p + 1])
        && Shifted(own, t, CLASSES - t)[x] == OFF
    {
      hide IsSizeType, View;
      var i := CLASSES + t;
      RingNext(mem.next, rs, own, i, p);
      RingNext(mem.next, rs, own, t, q);
      assert own[rs[i][p]] == i && own[rs[t][q]] == t && own[rs[POOL][0]] == POOL;
      assert Distinct(rs[i]);
      AddTwiceStrands(mem.next, rs, own, {}, rs[t][q], i, p);
    }

    /** Lines 178-188 after the early exit: `prev` is still on its allocated list. */
    method InsertListedNode(a: int, t: nat, prev: int, ghost p: nat)
      requires Valid() && t < CLASSES && p + 1 < |rs[CLASSES + t]| && prev == rs[CLASSES + t][p]
      modifies mem
      ensures exists z :: Stranded(mem.next, z)
    {
      hide Linked, Addrs, IsSizeType, FirstPair, FreeRings, RingAt, Stranded;
      RingOf(t);
      RingNonempty(t);
      FreeRingsOf(t);
      ghost var frs, fown, z := rs[t..CLASSES], Shifted(own, t, CLASSES - t), rs[CLASSES + t][p + 1];
      var tmp, q := FindSpot(t, a, rs[t]);
      ListedTwice(t, p, q);
      FreeRingsAdd(mem.next, heads, heads[POOL], frs, fown, t, q, prev);
      mem.ListAdd(tmp, prev);
      assert Stranded(mem.next, z);
      MergeBlockAsWritten(t, frs[0 := Inserted(frs[0], q, prev)], fown[prev := 0], z);
    }

    /**
     `RelBytes` as written. On the calls that `ReleaseIsClean` describes it does what `RelBytes`
     does; on all others it leaves a node that nothing points to, so that the lists no longer
     hold all descriptors.
     */
    method RelBytesAsWritten(a: int)
      requires Valid() && Inv(ls, r)
      modifies mem, `ls, `pool, `rs, `own, `held
      ensures old(ReleaseIsClean(ls, a, r)) ==> Valid() && ls == Rel(old(ls), a, r)
      ensures !old(ReleaseIsClean(ls, a, r)) ==> exists z :: Stranded(mem.next, z)
    {
      hide Linked, Addrs, Insert, Rel, Without, ReleaseIsClean, HasFreeRings, RingAt, Stranded, Inv;
      InvSorted(ls, r);
      var t, found, prev, p := SearchAsWritten(a);
      SearchVerdict(ls, a, r, t, found, p);
      if t == CLASSES {
        return;
      }
      if found {
        MergeVerdict(ls, a, r);
        MoveToFree(a, t, prev, p);
        FreeRingsOf(t);
        RingOf(t);
        MergeBlockAsWritten(t, rs[t..CLASSES], Shifted(own, t, CLASSES - t), NULL);
      } else {
        InsertListedNode(a, t, prev, p);
      }
    }
  }

  lemma InvSorted(ls: Lists, r: nat)
    requires Inv(ls, r)
    ensures forall c :: 0 <= c < CLASSES ==> Sorted(ls.used[c])
  {
  }

  /** What the outcome of the search as written says about the call. */
  lemma SearchVerdict(ls: Lists, a: int, r: nat, t: nat, found: bool, p: nat)
    requires Shape(ls) && t <= CLASSES
    requires forall c, u :: 0 <= c < t && u in ls.used[c] ==> u < a
    requires t < CLASSES ==> p < |ls.used[t]| && if found then ls.used[t][p] == a else ls.used[t][p] > a && a !in ls.used[t]
    ensures t == CLASSES ==> ReleaseIsClean(ls, a, r) && Rel(ls, a, r) == ls
    ensures t < CLASSES && found ==> ClassOf(ls.used, a, 0) == t && SearchReaches(ls.used, a)
    ensures t < CLASSES && !found ==> !ReleaseIsClean(ls, a, r)
  {
    hide Insert, Merge, BuddyAddress, Without;
    if t < CLASSES {
      assert ls.used[t][p] in ls.used[t];
    }
  }

  /** Once the block is found, the call is clean exactly when there is nothing to merge. */
  lemma MergeVerdict(ls: Lists, a: int, r: nat)
    requires Shape(ls) && Inv(ls, r) && r < CLASSES
    requires ClassOf(ls.used, a, 0) < CLASSES && SearchReaches(ls.used, a)
    ensures var t := ClassOf(ls.used, a, 0);
      var s := Insert(ls.free[t], a);
      && (ReleaseIsClean(ls, a, r) <==> !(t < CLASSES - 1 && FirstPair(s, 0, t, r) < |s|))
      && (ReleaseIsClean(ls, a, r) ==>
           Rel(ls, a, r) == Lists(ls.free[t := s], ls.used[t := Without(ls.used[t], a)]))
  {
    hide BuddyAddress, Rel, Inv;
    if ClassOf(ls.used, a, 0) < CLASSES - 1 {
      MergesIffBuddyFree(ls, a, r);
    }
    if NothingToMerge(ls, a, r) {
      CleanRelease(ls, a, r);
    }
  }

  /** `MergeBlock` finds something to merge on this ring. */
  ghost predicate Pairs(ring: seq<int>, addr: seq<int>, t: nat, r: nat)
    requires ring != []
  {
    var s := Addrs(ring, addr); t < CLASSES - 1 && FirstPair(s, 0, t, r) < |s|
  }

  lemma FirstPairStep(s: seq<int>, p: nat, t: nat, r: nat)
    requires p <= |s|
    ensures FirstPair(s, p, t, r) ==
      if p == |s| || IsPair(s, p, t, r) then p else FirstPair(s, p + 1, t, r)
  {
  }

  lemma ParityIs(a: int, t: nat, r: nat)
    ensures EvenIndex(a, t, r) <==> (a - Pow2(r)) % U32 / Pow2(t) % 2 == 0
  {
  }

  /** How many blocks `DivBlock(c)` splits, each taking one descriptor from the pool. */
  function Splits(free: seq<seq<int>>, c: nat): nat
    requires |free| == CLASSES && c <= CLASSES
  {
    var k := Smallest(free, c);
    if c == 0 || k == CLASSES then 0 else k - c + 1
  }

  /** How often `ReqBytes` splits for a request of size type `t`. */
  function Halvings(free: seq<seq<int>>, t: nat): nat
    requires |free| == CLASSES && t < CLASSES
  {
    var k := Smallest(free, t);
    if k == CLASSES then 0 else k - t
  }

  lemma SplitsStep(free: seq<seq<int>>, c: nat)
    requires |free| == CLASSES && 0 < c < CLASSES
    ensures free[c] != [] ==> Splits(free, c) == 1
    ensures free[c] == [] && Div(free, c + 1).Some? ==> Splits(free, c) == Splits(free, c + 1) + 1
    ensures free[c] == [] && Div(free, c + 1).None? ==> Splits(free, c) == Splits(free, c + 1) == 0
  {
    DivCarves(free, c + 1);
  }

  lemma HalvingsStep(free: seq<seq<int>>, t: nat)
    requires |free| == CLASSES && t < CLASSES
    ensures free[t] == [] ==> Halvings(free, t) == Splits(free, t + 1)
    ensures free[t] != [] ==> Halvings(free, t) == 0
  {
  }

  lemma PairInRange(s: seq<int>, t: nat, r: nat)
    ensures FirstPair(s, 0, t, r) < |s| ==> FirstPair(s, 0, t, r) + 1 < |s|
  {
  }

  lemma GreedyStep(free: seq<seq<int>>, i: int, j: nat)
    requires |free| == CLASSES && j < CLASSES && i <= AREA
    ensures Greedy(free, i, j) ==
      if i + Pow2(j) <= AREA then Greedy(free[j := [LO + i] + free[j]], i + Pow2(j), j)
      else Greedy(free, i, j - 1)
  {
  }

  lemma GreedyDone(free: seq<seq<int>>, i: int, j: int)
    requires |free| == CLASSES && -1 <= j < CLASSES && (j < 0 || i >= AREA)
    ensures Greedy(free, i, j) == free
  {
  }

  /** Each request of a run finds enough descriptors in the pool for its splits. */
  ghost predicate Affordable(ls: Lists, calls: seq<Call>, r: nat)
    requires Shape(ls) && Served(calls)
    decreases |calls|
  {
    calls == [] ||
    (&& (calls[0].ReqBytes? ==>
          Halvings(ls.free, calls[0].t) + Count(ls.free) + Count(ls.used) + RINGS <= BLOCKS)
     && Affordable(Step(ls, calls[0], r), calls[1..], r))
  }

  lemma PowerSize(t: nat)
    requires t < CLASSES
    ensures 0 < Pow2(t) <= 0x200_0000 && IsSizeType(Pow2(t), t)
  {
    Pow2Monotone(t, CLASSES - 1);
    Pow2Values();
  }

  lemma SizeTypeBound(size: int, t: nat)
    requires IsSizeType(size, t) && size <= 0x200_0000
    ensures t < CLASSES
  {
    if t >= CLASSES {
      Pow2Monotone(CLASSES - 1, t - 1);
      Pow2Values();
    }
  }
}
