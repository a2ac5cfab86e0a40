/**
 Every call keeps the buddy allocator's invariant. The theorems about whole runs that this gives
 are in BuddyRuns.dfy.
 */
module BuddySafety {
  import opened Basics
  import opened Dyadic
  import opened BuddyLists
  import opened BuddyInvariant

  // ----- addresses and the parity test

  /** A block on a list is an interval inside the managed area. */
  lemma BlockInArea(S: iset<Block>, r: nat, b: Block)
    requires Tiles(S, Low(r), High(r)) && b in S
    ensures LO <= Origin(r) + Start(b.k, b.i)
    ensures Origin(r) + Start(b.k, b.i) + Pow2(b.k) <= LO + AREA
  {
    var x := Start(b.k, b.i);
    InBlockIff(x, b.k, b.i);
    InBlockIff(x + Pow2(b.k) - 1, b.k, b.i);
    assert In(x, b) && In(x + Pow2(b.k) - 1, b);
  }

  /** `LO` is an even multiple of every block size below 2^30. */
  function LoIndex(t: nat): int
    decreases 30 - t
  {
    if t >= 30 then 3 else 2 * LoIndex(t + 1)
  }

  lemma {:induction false} LoIsStart(t: nat)
    requires t <= 30
    ensures Start(t, LoIndex(t)) == LO
    decreases 30 - t
  {
    if t == 30 {
      StartIsMultiple(30, 3);
      Pow2Values();
    } else {
      LoIsStart(t + 1);
    }
  }

  lemma NoBorrow(a: int, r: nat)
    requires LO <= a < LO + AREA && r < CLASSES
    ensures (a - Pow2(r)) % U32 == a - Pow2(r)
  {
    Pow2Monotone(r, CLASSES - 1);
    Pow2Values();
  }

  lemma ParityShift(x: int, t: nat)
    requires t < 30
    ensures (x + LO) / Pow2(t) % 2 == Up(x, t) % 2
  {
    UpIsQuotient(x + LO, t);
    LoIsStart(t);
    UpShift(x, t, LoIndex(t));
    assert LoIndex(t) == 2 * LoIndex(t + 1);
  }

  /**
   The parity test on 32-bit virtual addresses agrees with the parity of the block's index
   relative to the end of the reserved block.
   */
  lemma ParityTest(a: int, t: nat, r: nat)
    requires LO <= a < LO + AREA && t < CLASSES && r < CLASSES
    ensures EvenIndex(a, t, r) <==> Up(a - Origin(r), t) % 2 == 0
  {
    NoBorrow(a, r);
    ParityShift(a - Origin(r), t);
    assert a - Pow2(r) == a - Origin(r) + LO;
  }

  // ----- requests

  /** A state in the middle of a request: block `h` is held, and all else is in order. */
  ghost predicate InHand(rest: seq<seq<int>>, U: iset<Block>, h: Block, r: nat) {
    && Good(rest, Origin(r))
    && var F := Blocks(rest, Origin(r));
       F !! U && h !in F && h !in U && Coalesced(F) && Tiles(F + U + iset{h}, Low(r), High(r))
  }

  /** The two halves of an aligned block are aligned, the upper one half a block further on. */
  lemma HalvesAligned(a: int, k: nat, o: int)
    requires k > 0 && AlignedAt(a, k, o)
    ensures var i := Up(a - o, k);
      && AlignedAt(a, k - 1, o) && BlockAt(a, k - 1, o) == Block(k - 1, 2 * i)
      && AlignedAt(a + Pow2(k - 1), k - 1, o)
      && BlockAt(a + Pow2(k - 1), k - 1, o) == Block(k - 1, 2 * i + 1)
  {
    var i := Up(a - o, k);
    UpStart(k - 1, 2 * i);
    UpStart(k - 1, 2 * i + 1);
    StartNext(k - 1, 2 * i);
  }

  lemma SplitKeeps(rest: seq<seq<int>>, U: iset<Block>, a: int, k: nat, r: nat)
    requires 0 < k < CLASSES && |rest| == CLASSES && rest[k - 1] == []
    requires AlignedAt(a, k, Origin(r)) && InHand(rest, U, BlockAt(a, k, Origin(r)), r)
    ensures var a' := a + Pow2(k - 1);
      && AlignedAt(a', k - 1, Origin(r))
      && InHand(rest[k - 1 := [a]], U, BlockAt(a', k - 1, Origin(r)), r)
  {
    var o := Origin(r);
    var h, F := BlockAt(a, k, o), Blocks(rest, o);
    HalvesAligned(a, k, o);
    var lo, hi := Block(k - 1, 2 * h.i), Block(k - 1, 2 * h.i + 1);
    BlocksPlus(rest, o, k - 1, a, [a]);
    var S := F + U + iset{h};
    TilesSplit(S, h, Low(r), High(r));
    assert F + iset{lo} + U + iset{hi} == S - iset{h} + iset{lo, hi};
    UpStart(k - 1, 2 * h.i);
    UpStart(k - 1, 2 * h.i + 1);
    var x, y := Start(k - 1, 2 * h.i), Start(k - 1, 2 * h.i + 1);
    assert In(x, lo) && In(x, h) && In(y, hi) && In(y, h);
    assert lo !in S && hi !in S;
    assert forall b :: Has(rest, o, b) ==> b.k != k - 1;
  }

  lemma {:induction false} CarveKeeps(rest: seq<seq<int>>, U: iset<Block>, a: int, k: nat, t: nat, r: nat)
    requires t <= k < CLASSES && |rest| == CLASSES
    requires forall j :: t <= j < k ==> rest[j] == []
    requires AlignedAt(a, k, Origin(r)) && InHand(rest, U, BlockAt(a, k, Origin(r)), r)
    ensures var (rest', a') := Carve(rest, a, k, t);
      AlignedAt(a', t, Origin(r)) && InHand(rest', U, BlockAt(a', t, Origin(r)), r)
    decreases k
  {
    if t < k {
      SplitKeeps(rest, U, a, k, r);
      assert [a] + rest[k - 1] == [a];
      CarveKeeps(rest[k - 1 := [a]], U, a + Pow2(k - 1), k - 1, t, r);
    }
  }

  /**
   A request keeps the invariant, and a block it hands out is aligned, vacant before the call
   and allocated after it.
   */
  lemma RequestKeeps(ls: Lists, t: nat, r: nat)
    requires Inv(ls, r) && t < CLASSES
    ensures var (ls', a) := Req(ls, t);
      && Inv(ls', r)
      && (a != 0 ==>
           && AlignedAt(a, t, Origin(r))
           && Vacant(BlockAt(a, t, Origin(r)), Blocks(ls.used, Origin(r)), r)
           && Blocks(ls'.used, Origin(r)) == Blocks(ls.used, Origin(r)) + iset{BlockAt(a, t, Origin(r))})
  {
    ReqCarves(ls, t);
    var k := Smallest(ls.free, t);
    if k < CLASSES {
      var o := Origin(r);
      var A, g := ls.free[k][0], ls.free[k := ls.free[k][1..]];
      var F, U := Blocks(ls.free, o), Blocks(ls.used, o);
      assert A in ls.free[k];
      assert ls.free[k] == [A] + ls.free[k][1..];
      BlocksMinus(ls.free, o, k, A, ls.free[k][1..]);
      var h := BlockAt(A, k, o);
      assert F - iset{h} + U + iset{h} == F + U;
      CarveKeeps(g, U, A, k, t, r);
      HandedOut(ls, g, A, k, t, r);
    }
  }

  lemma HandedOut(ls: Lists, g: seq<seq<int>>, A: int, k: nat, t: nat, r: nat)
    requires Inv(ls, r) && t <= k < CLASSES && |g| == CLASSES
    requires var (rest, a) := Carve(g, A, k, t);
      AlignedAt(a, t, Origin(r)) && InHand(rest, Blocks(ls.used, Origin(r)), BlockAt(a, t, Origin(r)), r)
    ensures var (rest, a) := Carve(g, A, k, t);
      var ls' := Lists(rest, ls.used[t := Insert(ls.used[t], a)]);
      && Inv(ls', r) && a != 0
      && Vacant(BlockAt(a, t, Origin(r)), Blocks(ls.used, Origin(r)), r)
      && Blocks(ls'.used, Origin(r)) == Blocks(ls.used, Origin(r)) + iset{BlockAt(a, t, Origin(r))}
  {
    var o := Origin(r);
    var (rest, a) := Carve(g, A, k, t);
    var F, U, h := Blocks(rest, o), Blocks(ls.used, o), BlockAt(a, t, o);
    BlockOfAddress(ls.used, o, t, a);
    InsertMembers(ls.used[t], a);
    BlocksPlus(ls.used, o, t, a, Insert(ls.used[t], a));
    assert F + (U + iset{h}) == F + U + iset{h};
    BlockInArea(F + U + iset{h}, r, h);
    forall x | In(x, h)
      ensures Low(r) <= x < High(r) && !Covered(U, x)
    {
      assert h in F + U + iset{h};
    }
  }

  // ----- releases

  /** `b` is the only free block that may have a free buddy. */
  ghost predicate CoalescedBut(F: iset<Block>, b: Block) {
    forall c :: c in F && c.k < CLASSES - 1 && Buddy(c) in F ==> c == b || Buddy(c) == b
  }

  /** `MergeBlock` sees a pair exactly when two free buddies are next to each other. */
  lemma PairIsBuddies(a: int, a': int, t: nat, r: nat)
    requires t < CLASSES && r < CLASSES && AlignedAt(a, t, Origin(r))
    requires LO <= a && a + Pow2(t) <= LO + AREA
    ensures (a + Pow2(t)) % U32 == a' && EvenIndex(a, t, r) <==>
      var i := Up(a - Origin(r), t); i % 2 == 0 && a' == Origin(r) + Start(t, i + 1)
  {
    ParityTest(a, t, r);
    StartNext(t, Up(a - Origin(r), t));
  }

  /** Free buddies are next to each other on the list. */
  lemma BuddiesAdjacent(s: seq<int>, t: nat, o: int, i: int, j: nat)
    requires Sorted(s) && (forall a :: a in s ==> AlignedAt(a, t, o))
    requires j < |s| && s[j] == o + Start(t, i) && o + Start(t, i + 1) in s
    ensures j + 1 < |s| && s[j + 1] == o + Start(t, i + 1)
  {
    StartNext(t, i);
    var q :| 0 <= q < |s| && s[q] == o + Start(t, i + 1);
    if j + 1 < q {
      assert s[j + 1] in s;
      var m := Up(s[j + 1] - o, t);
      UpStart(t, i);
      if m <= i {
        if m < i {
          StartOrder(t, m, i);
        }
      } else if i + 1 < m {
        StartOrder(t, i + 1, m);
      }
    }
  }

  ghost predicate Within(s: seq<int>, t: nat) {
    forall a :: a in s ==> LO <= a && a + Pow2(t) <= LO + AREA
  }

  lemma ListWithin(free: seq<seq<int>>, S: iset<Block>, t: nat, r: nat)
    requires Good(free, Origin(r)) && t < CLASSES
    requires Blocks(free, Origin(r)) <= S && Tiles(S, Low(r), High(r))
    ensures Within(free[t], t)
  {
    forall a | a in free[t]
      ensures LO <= a && a + Pow2(t) <= LO + AREA
    {
      assert AlignedAt(a, t, Origin(r));
      assert Has(free, Origin(r), BlockAt(a, t, Origin(r)));
      BlockInArea(S, r, BlockAt(a, t, Origin(r)));
    }
  }

  /** A pair that the scan of `MergeBlock` stops at is a pair of free buddies. */
  lemma ScanStopsAtBuddies(s: seq<int>, j: nat, t: nat, r: nat)
    requires t < CLASSES && r < CLASSES && Within(s, t) && IsPair(s, j, t, r)
    requires forall a :: a in s ==> AlignedAt(a, t, Origin(r))
    ensures var lo := BlockAt(s[j], t, Origin(r));
      lo.i % 2 == 0 && s[j + 1] == Origin(r) + Start(t, lo.i + 1)
  {
    assert s[j] in s;
    PairIsBuddies(s[j], s[j + 1], t, r);
  }

  /** The scan does not miss a pair of free buddies. */
  lemma ScanMissesNone(s: seq<int>, i: int, t: nat, r: nat)
    requires t < CLASSES && r < CLASSES && Within(s, t) && Sorted(s)
    requires forall a :: a in s ==> AlignedAt(a, t, Origin(r))
    requires i % 2 == 0 && Origin(r) + Start(t, i) in s && Origin(r) + Start(t, i + 1) in s
    ensures FirstPair(s, 0, t, r) < |s|
  {
    var q :| 0 <= q < |s| && s[q] == Origin(r) + Start(t, i);
    BuddiesAdjacent(s, t, Origin(r), i, q);
    UpStart(t, i);
    PairIsBuddies(s[q], s[q + 1], t, r);
    assert IsPair(s, q, t, r);
  }

  /** What the scan of `MergeBlock` reports: where block `b` and its buddy are, if both are free. */
  ghost predicate ScanResult(free: seq<seq<int>>, b: Block, t: nat, p: nat, o: int)
    requires t < |free|
  {
    && (p < |free[t]| <==> Buddy(b) in Blocks(free, o))
    && (p < |free[t]| ==>
         var lo := BlockAt(free[t][p], t, o);
         && (lo == b || Buddy(lo) == b) && lo.i % 2 == 0
         && p + 1 < |free[t]| && free[t][p + 1] == o + Start(t, lo.i + 1))
  }

  lemma BuddiesReported(free: seq<seq<int>>, b: Block, t: nat, p: nat, o: int)
    requires Good(free, o) && t < CLASSES - 1 && b.k == t && CoalescedBut(Blocks(free, o), b)
    requires p + 1 < |free[t]|
    requires var lo := BlockAt(free[t][p], t, o);
      lo.i % 2 == 0 && free[t][p + 1] == o + Start(t, lo.i + 1)
    ensures ScanResult(free, b, t, p, o)
  {
    var s := free[t];
    var lo := BlockAt(s[p], t, o);
    assert s[p] in s && s[p + 1] in s;
    assert AlignedAt(s[p], t, o);
    assert lo in Blocks(free, o) && Buddy(lo) in Blocks(free, o);
  }

  lemma NothingReported(free: seq<seq<int>>, b: Block, t: nat, p: nat, o: int)
    requires t < |free| && p == |free[t]| && Buddy(b) !in Blocks(free, o)
    ensures ScanResult(free, b, t, p, o)
  {
  }

  /** The scan finds a pair exactly when block `b` has a free buddy. */
  lemma ScanFindsBuddies(free: seq<seq<int>>, b: Block, t: nat, r: nat)
    requires Good(free, Origin(r)) && t < CLASSES - 1 && r < CLASSES && b.k == t
    requires Within(free[t], t)
    requires b in Blocks(free, Origin(r)) && CoalescedBut(Blocks(free, Origin(r)), b)
    ensures ScanResult(free, b, t, FirstPair(free[t], 0, t, r), Origin(r))
  {
    hide EvenIndex, Up, Start, ScanResult;
    var p := FirstPair(free[t], 0, t, r);
    if p < |free[t]| {
      ScanStopsAtBuddies(free[t], p, t, r);
      BuddiesReported(free, b, t, p, Origin(r));
    } else if Buddy(b) in Blocks(free, Origin(r)) {
      ScanMissesNone(free[t], if b.i % 2 == 0 then b.i else b.i - 1, t, r);
    } else {
      NothingReported(free, b, t, p, Origin(r));
    }
  }

  /** A state in the middle of a release: only block `b` may still have a free buddy. */
  ghost predicate Merging(free: seq<seq<int>>, U: iset<Block>, b: Block, r: nat) {
    && Good(free, Origin(r))
    && var F := Blocks(free, Origin(r));
       b in F && F !! U && Tiles(F + U, Low(r), High(r)) && CoalescedBut(F, b)
  }

  lemma MergedOnceKeeps(free: seq<seq<int>>, U: iset<Block>, b: Block, t: nat, j: nat, r: nat)
    requires Merging(free, U, b, r) && t < CLASSES - 1 && b.k == t
    requires j < |free[t]| && ScanResult(free, b, t, j, Origin(r))
    ensures Merging(MergedOnce(free, t, j), U, Parent(b), r)
  {
    var o, s := Origin(r), free[t];
    var lo, F := BlockAt(s[j], t, o), Blocks(free, Origin(r));
    assert s[j] in s && s[j + 1] in s;
    JoinKeeps(F, U, lo, b, r);
    MergedBlocks(free, t, j, o);
  }

  /** Replacing the one pair of free buddies by their parent, as sets of blocks. */
  lemma JoinKeeps(F: iset<Block>, U: iset<Block>, lo: Block, b: Block, r: nat)
    requires F !! U && Tiles(F + U, Low(r), High(r)) && CoalescedBut(F, b)
    requires lo in F && Buddy(lo) in F && (lo == b || Buddy(lo) == b) && lo.k < CLASSES - 1
    ensures Parent(lo) == Parent(b) && Parent(lo) !in F
    ensures var F' := F - iset{lo, Buddy(lo)} + iset{Parent(lo)};
      F' !! U && Tiles(F' + U, Low(r), High(r)) && CoalescedBut(F', Parent(b))
  {
    var p := Parent(lo);
    assert p !in F + U by {
      UpStart(lo.k, lo.i);
      assert In(Start(lo.k, lo.i), lo) && In(Start(lo.k, lo.i), p);
      assert lo in F + U;
    }
    TilesJoin(F + U, lo, Low(r), High(r));
    assert F - iset{lo, Buddy(lo)} + iset{p} + U == F + U - iset{lo, Buddy(lo)} + iset{p};
  }

  lemma MergedBlocks(free: seq<seq<int>>, t: nat, j: nat, o: int)
    requires Good(free, o) && t < CLASSES - 1 && j + 1 < |free[t]|
    requires var lo := BlockAt(free[t][j], t, o);
      lo.i % 2 == 0 && free[t][j + 1] == o + Start(t, lo.i + 1) && Parent(lo) !in Blocks(free, o)
    ensures var f, lo := MergedOnce(free, t, j), BlockAt(free[t][j], t, o);
      Good(f, o) && Blocks(f, o) == Blocks(free, o) - iset{lo, Buddy(lo)} + iset{Parent(lo)}
  {
    var a, s2 := free[t][j], free[t][..j] + free[t][j + 2..];
    PairBlocks(free, t, j, o);
    ParentAddress(a, t, o);
    assert a in free[t];
    InsertMembers(free[t + 1], a);
    BlocksPlus(free[t := s2], o, t + 1, a, Insert(free[t + 1], a));
  }

  lemma ParentAddress(a: int, t: nat, o: int)
    requires AlignedAt(a, t, o) && Up(a - o, t) % 2 == 0
    ensures AlignedAt(a, t + 1, o) && BlockAt(a, t + 1, o) == Parent(BlockAt(a, t, o))
  {
    UpStart(t + 1, Up(a - o, t) / 2);
  }

  lemma PairBlocks(free: seq<seq<int>>, t: nat, j: nat, o: int)
    requires Good(free, o) && t < CLASSES - 1 && j + 1 < |free[t]|
    requires var lo := BlockAt(free[t][j], t, o);
      lo.i % 2 == 0 && free[t][j + 1] == o + Start(t, lo.i + 1)
    ensures var lo, f := BlockAt(free[t][j], t, o), free[t := free[t][..j] + free[t][j + 2..]];
      Good(f, o) && Blocks(f, o) == Blocks(free, o) - iset{lo, Buddy(lo)}
  {
    hide Up, Start, Sorted, Blocks, AlignedAt;
    var s := free[t];
    var a, lo := s[j], BlockAt(s[j], t, o);
    UpStart(t, lo.i + 1);
    assert BlockAt(s[j + 1], t, o) == Buddy(lo);
    var s1, s2 := s[..j] + s[j + 1..], s[..j] + s[j + 2..];
    SortedDrop(s, j);
    SortedDrop(s1, j);
    assert s1[..j] + s1[j + 1..] == s2;
    BlocksMinus(free, o, t, a, s1);
    BlocksMinus(free[t := s1], o, t, s[j + 1], s2);
    assert free[t := s1][t := s2] == free[t := s2];
  }

  /** One level of `MergeBlock`: either it is done, or the parent is now the only suspect. */
  lemma MergeLevel(free: seq<seq<int>>, U: iset<Block>, b: Block, t: nat, r: nat)
    requires Merging(free, U, b, r) && t < CLASSES - 1 && r < CLASSES && b.k == t
    ensures var j := FirstPair(free[t], 0, t, r);
      if j == |free[t]| then Coalesced(Blocks(free, Origin(r)))
      else Merging(MergedOnce(free, t, j), U, Parent(b), r)
  {
    hide FirstPair, MergedOnce, Tiles, Within;
    ListWithin(free, Blocks(free, Origin(r)) + U, t, r);
    ScanFindsBuddies(free, b, t, r);
    if FirstPair(free[t], 0, t, r) < |free[t]| {
      MergedOnceKeeps(free, U, b, t, FirstPair(free[t], 0, t, r), r);
    }
  }

  lemma {:induction false} MergeKeeps(free: seq<seq<int>>, U: iset<Block>, b: Block, t: nat, r: nat)
    requires Merging(free, U, b, r) && t < CLASSES && r < CLASSES && b.k == t
    ensures var f := Merge(free, t, r);
      && Good(f, Origin(r)) && Blocks(f, Origin(r)) !! U
      && Tiles(Blocks(f, Origin(r)) + U, Low(r), High(r)) && Coalesced(Blocks(f, Origin(r)))
    decreases CLASSES - t
  {
    hide FirstPair, MergedOnce, Tiles;
    if t < CLASSES - 1 {
      MergeLevel(free, U, b, t, r);
      var j := FirstPair(free[t], 0, t, r);
      if j < |free[t]| {
        MergeKeeps(MergedOnce(free, t, j), U, Parent(b), t + 1, r);
      }
    }
  }

  /** The state between the two halves of a release: moved to the free list, not yet merged. */
  lemma Released(ls: Lists, a: int, r: nat)
    requires Inv(ls, r) && r < CLASSES && ClassOf(ls.used, a, 0) < CLASSES
    ensures var t, o := ClassOf(ls.used, a, 0), Origin(r);
      var U, b := Blocks(ls.used, o), BlockAt(a, t, o);
      && Good(ls.used[t := Without(ls.used[t], a)], o) && a !in ls.free[t] && AlignedAt(a, t, o)
      && Blocks(ls.used[t := Without(ls.used[t], a)], o) == U - iset{b}
      && Blocks(ls.free[t := Insert(ls.free[t], a)], o) == Blocks(ls.free, o) + iset{b}
      && Merging(ls.free[t := Insert(ls.free[t], a)], U - iset{b}, b, r)
  {
    var t, o := ClassOf(ls.used, a, 0), Origin(r);
    var F, U, b := Blocks(ls.free, o), Blocks(ls.used, o), BlockAt(a, t, o);
    BlockOfAddress(ls.used, o, t, a);
    SortedWithout(ls.used[t], a);
    BlocksMinus(ls.used, o, t, a, Without(ls.used[t], a));
    BlockOfAddress(ls.free, o, t, a);
    InsertMembers(ls.free[t], a);
    BlocksPlus(ls.free, o, t, a, Insert(ls.free[t], a));
    assert F + iset{b} + (U - iset{b}) == F + U;
  }

  /** A release keeps the invariant. */
  lemma ReleaseKeeps(ls: Lists, a: int, r: nat)
    requires Inv(ls, r) && r < CLASSES
    ensures Inv(Rel(ls, a, r), r)
  {
    var t, o := ClassOf(ls.used, a, 0), Origin(r);
    if t < CLASSES {
      var b := BlockAt(a, t, o);
      Released(ls, a, r);
      MergeKeeps(ls.free[t := Insert(ls.free[t], a)], Blocks(ls.used, o) - iset{b}, b, t, r);
    }
  }
}
