/**
 Theorems about whole runs of the buddy allocator, from `DirectMappingInit` on.
 */
module BuddyRuns {
  import opened Basics
  import opened Dyadic
  import opened BuddyLists
  import opened BuddyInvariant
  import opened BuddySafety

  // ----- the initial decomposition

  lemma TilesGrow(S: iset<Block>, b: Block, lo: int, mid: int)
    requires Tiles(S, lo, mid) && lo <= mid && Start(b.k, b.i) == mid
    ensures b !in S && Tiles(S + iset{b}, lo, mid + Pow2(b.k))
  {
    forall x
      ensures In(x, b) <==> mid <= x < mid + Pow2(b.k)
    {
      InBlockIff(x, b.k, b.i);
    }
    assert In(mid, b);
    forall x | lo <= x < mid + Pow2(b.k)
      ensures Covered(S + iset{b}, x)
    {
      if x < mid {
        assert Covered(S, x);
        var c :| c in S && In(x, c);
      } else {
        assert In(x, b);
      }
    }
  }

  /** The greedy loop at offset `i` and class `j`, where the `n`-th block of class `j` is next. */
  ghost predicate Filling(free: seq<seq<int>>, U: iset<Block>, i: int, j: nat, n: int, r: nat) {
    && Good(free, Origin(r)) && j < CLASSES && i <= AREA
    && i - Pow2(r) == Start(j, n) && Low(r) <= Start(j, n)
    && Blocks(free, Origin(r)) !! U
    && Tiles(Blocks(free, Origin(r)) + U, Low(r), i - Pow2(r))
    && (forall m :: 0 <= m < CLASSES ==> |free[m]| <= 1)
    && (forall m :: 0 <= m < j ==> free[m] == [])
    && (AREA - i < Pow2(j) || (AREA - i < 2 * Pow2(j) && n % 2 == 0 && free[j] == []))
  }

  lemma PlaceBlock(free: seq<seq<int>>, U: iset<Block>, i: int, j: nat, n: int, r: nat)
    requires Filling(free, U, i, j, n, r) && i + Pow2(j) <= AREA
    ensures free[j] == [] && Filling(free[j := [LO + i]], U, i + Pow2(j), j, n + 1, r)
  {
    var o, F, b := Origin(r), Blocks(free, Origin(r)), Block(j, n);
    UpStart(j, n);
    StartNext(j, n);
    BlocksPlus(free, o, j, LO + i, [LO + i]);
    TilesGrow(F + U, b, Low(r), i - Pow2(r));
    assert F + iset{b} + U == F + U + iset{b};
  }

  lemma {:induction false} GreedyTiles(free: seq<seq<int>>, U: iset<Block>, i: int, j: nat, n: int, r: nat)
    requires Filling(free, U, i, j, n, r)
    ensures var f := Greedy(free, i, j);
      && Good(f, Origin(r)) && Blocks(f, Origin(r)) !! U
      && Tiles(Blocks(f, Origin(r)) + U, Low(r), High(r))
      && (forall m :: 0 <= m < CLASSES ==> |f[m]| <= 1)
    decreases j, AREA - i
  {
    if i < AREA {
      if i + Pow2(j) <= AREA {
        PlaceBlock(free, U, i, j, n, r);
        assert [LO + i] + free[j] == [LO + i];
        GreedyTiles(free[j := [LO + i]], U, i + Pow2(j), j, n + 1, r);
      } else if j > 0 {
        GreedyTiles(free, U, i, j - 1, 2 * n, r);
      }
    }
  }

  /** The reserved block is the one just before the origin. */
  lemma ReservedBlock(r: nat)
    requires r < CLASSES
    ensures Good(Init(r).used, Origin(r)) && Good(Empty(), Origin(r))
    ensures Blocks(Empty(), Origin(r)) == iset{}
    ensures Blocks(Init(r).used, Origin(r)) == iset{Block(r, -1)} && Start(r, -1) == Low(r)
  {
    StartIsMultiple(r, -1);
    UpStart(r, -1);
    BlocksPlus(Empty(), Origin(r), r, LO, [LO]);
  }

  lemma SizesFit(r: nat)
    requires r < CLASSES
    ensures Pow2(r) <= AREA && AREA - Pow2(r) < 2 * Pow2(CLASSES - 1)
  {
    Pow2Monotone(r, CLASSES - 1);
    Pow2Values();
  }

  /** Before the loop only the reserved block is placed. */
  lemma ReservedPlaced(U: iset<Block>, r: nat)
    requires r < CLASSES && U == iset{Block(r, -1)} && Start(r, -1) == Low(r)
    requires Good(Empty(), Origin(r)) && Blocks(Empty(), Origin(r)) == iset{}
    ensures Filling(Empty(), U, Pow2(r), CLASSES - 1, 0, r)
  {
    TilesGrow(iset{}, Block(r, -1), Low(r), Low(r));
    assert iset{} + U == U;
    StartIsMultiple(CLASSES - 1, 0);
    SizesFit(r);
  }

  lemma SinglesCoalesced(f: seq<seq<int>>, o: int)
    requires |f| == CLASSES && forall m :: 0 <= m < CLASSES ==> |f[m]| <= 1
    ensures Coalesced(Blocks(f, o))
  {
    forall c | c in Blocks(f, o) && c.k < CLASSES - 1
      ensures Buddy(c) !in Blocks(f, o)
    {
      UpStart(c.k, c.i);
      UpStart(c.k, Buddy(c).i);
      assert |f[c.k]| <= 1;
    }
  }

  /** Taking away a larger power of two does not change bit `t`. */
  lemma LowerBit(x: int, t: nat, j: nat)
    requires t < j
    ensures Up(x - Pow2(j), t) % 2 == Up(x, t) % 2
  {
    var n: int := Pow2(j - t);
    Pow2Sum(j - t, t);
    StartIsMultiple(t, -n);
    UpShift(x, t, -n);
    assert n == 2 * Pow2(j - t - 1);
  }

  lemma TopBit(x: int, j: nat)
    requires 0 <= x < 2 * Pow2(j)
    ensures Up(x, j) == if x < Pow2(j) then 0 else 1
  {
    InBlockIff(x, j, 0);
    StartNext(j, 0);
    StartIsMultiple(j, 0);
    InBlockIff(x, j, 1);
  }

  /** The greedy loop leaves one block in class `t` exactly if bit `t` of what is left to fill is 1. */
  lemma {:induction false} GreedyBits(free: seq<seq<int>>, i: int, j: nat, t: nat)
    requires |free| == CLASSES && j < CLASSES && t < CLASSES && i <= AREA
    requires AREA - i < 2 * Pow2(j) && (AREA - i >= Pow2(j) ==> free[j] == [])
    requires forall m :: 0 <= m < j ==> free[m] == []
    ensures |Greedy(free, i, j)[t]| ==
      if t < j || (t == j && AREA - i >= Pow2(j)) then Up(AREA - i, t) % 2 else |free[t]|
    decreases j, AREA - i
  {
    var rest := AREA - i;
    TopBit(rest, j);
    if i == AREA {
      Pow2Monotone(t, if t < j then j else t);
      TopBit(0, t);
    } else if rest >= Pow2(j) {
      GreedyBits(free[j := [LO + i] + free[j]], i + Pow2(j), j, t);
      if t < j {
        LowerBit(rest, t, j);
      }
    } else if j > 0 {
      GreedyBits(free, i, j - 1, t);
      if t == j - 1 {
        TopBit(rest, t);
      }
    }
  }

  lemma InitUsed(r: nat)
    requires r < CLASSES
    ensures forall t: nat :: t < CLASSES ==> Init(r).used[t] == if t == r then [0xc000_0000] else []
  {
    hide Greedy;
  }

  lemma InitBits(r: nat, t: nat)
    requires r < CLASSES && t < CLASSES
    ensures |Init(r).free[t]| == (AREA - Pow2(r)) / Pow2(t) % 2
  {
    var rest := AREA - Pow2(r);
    SizesFit(r);
    GreedyBits(Empty(), Pow2(r), CLASSES - 1, t);
    UpIsQuotient(rest, t);
    TopBit(rest, CLASSES - 1);
  }

  lemma InitInv(r: nat)
    requires r < CLASSES
    ensures Inv(Init(r), r)
  {
    ReservedBlock(r);
    ReservedPlaced(Blocks(Init(r).used, Origin(r)), r);
    GreedyTiles(Empty(), Blocks(Init(r).used, Origin(r)), Pow2(r), CLASSES - 1, 0, r);
    SinglesCoalesced(Init(r).free, Origin(r));
  }

  /**
   The initial decomposition: for every reserved size the greedy loop covers the rest of the
   area exactly, and its blocks are the binary representation of the size of that rest.
   */
  lemma InitKeeps(r: nat)
    requires r < CLASSES
    ensures Inv(Init(r), r)
    ensures forall t: nat :: t < CLASSES ==> |Init(r).free[t]| == (0x3f0_0000 - Pow2(r)) / Pow2(t) % 2
    ensures forall t: nat :: t < CLASSES ==> Init(r).used[t] == if t == r then [0xc000_0000] else []
  {
    hide Inv, Init, Pow2;
    InitInv(r);
    InitUsed(r);
    forall t: nat | t < CLASSES
      ensures |Init(r).free[t]| == (0x3f0_0000 - Pow2(r)) / Pow2(t) % 2
    {
      InitBits(r, t);
    }
  }

  // ----- runs

  lemma {:induction false} RunKeeps(ls: Lists, calls: seq<Call>, r: nat)
    requires Inv(ls, r) && Served(calls) && r < CLASSES
    ensures Inv(Run(ls, calls, r), r)
    decreases |calls|
  {
    if calls != [] {
      match calls[0] {
        case ReqBytes(t) => RequestKeeps(ls, t, r);
        case RelBytes(a) => ReleaseKeeps(ls, a, r);
      }
      RunKeeps(Step(ls, calls[0], r), calls[1..], r);
    }
  }

  /** Every state that any sequence of calls reaches after initialisation is in order. */
  lemma ReachableInv(calls: seq<Call>, r: nat)
    requires Served(calls) && r < CLASSES
    ensures Inv(Run(Init(r), calls, r), r)
  {
    InitKeeps(r);
    RunKeeps(Init(r), calls, r);
  }

  /**
   Canonical form over runs: two histories that leave the same blocks allocated leave the same
   free lists, whatever happened in between.
   */
  lemma HistoryDoesNotMatter(calls: seq<Call>, calls': seq<Call>, r: nat)
    requires Served(calls) && Served(calls') && r < CLASSES
    requires Run(Init(r), calls, r).used == Run(Init(r), calls', r).used
    ensures Run(Init(r), calls, r) == Run(Init(r), calls', r)
  {
    ReachableInv(calls, r);
    ReachableInv(calls', r);
    FreeListsDetermined(Run(Init(r), calls, r), Run(Init(r), calls', r), r);
  }

  /** When nothing but the reserved block is live, the lists are those of `DirectMappingInit`. */
  lemma NothingLiveRestoresInit(calls: seq<Call>, r: nat)
    requires Served(calls) && r < CLASSES
    requires Run(Init(r), calls, r).used == Init(r).used
    ensures Run(Init(r), calls, r) == Init(r)
  {
    HistoryDoesNotMatter(calls, [], r);
  }

  // ----- allocation and release

  lemma {:induction false} WithoutInsert(s: seq<int>, a: int)
    requires Sorted(s) && a !in s
    ensures a in Insert(s, a) && Without(Insert(s, a), a) == s
  {
    InsertMembers(s, a);
    if s != [] && s[0] < a {
      assert s == [s[0]] + s[1..];
      WithoutInsert(s[1..], a);
      assert Insert(s, a)[1..] == Insert(s[1..], a);
    }
  }

  lemma VacantNotAllocated(used: seq<seq<int>>, a: int, t: nat, r: nat, s: nat)
    requires Good(used, Origin(r)) && s < CLASSES
    requires Vacant(BlockAt(a, t, Origin(r)), Blocks(used, Origin(r)), r)
    ensures a !in used[s]
  {
    var o := Origin(r);
    assert In(a - o, BlockAt(a, t, o)) && In(a - o, BlockAt(a, s, o));
    assert a in used[s] ==> AlignedAt(a, s, o);
  }

  /** The released address is found in the class it was allocated from. */
  lemma AllocatedClass(ls: Lists, t: nat, r: nat)
    requires Inv(ls, r) && t < CLASSES && Req(ls, t).1 != 0
    ensures var (ls', a) := Req(ls, t);
      a !in ls.used[t] && ls'.used[t] == Insert(ls.used[t], a) && a in ls'.used[t]
      && ClassOf(ls'.used, a, 0) == t
  {
    RequestKeeps(ls, t, r);
    ReqCarves(ls, t);
    var (ls', a) := Req(ls, t);
    assert ls'.used == ls.used[t := Insert(ls.used[t], a)];
    forall s | 0 <= s < CLASSES
      ensures a !in ls.used[s]
    {
      VacantNotAllocated(ls.used, a, t, r, s);
    }
    InsertMembers(ls.used[t], a);
  }

  /** Round trip: releasing what a request returned undoes the whole chain of splits. */
  lemma RoundTrip(ls: Lists, t: nat, r: nat)
    requires Inv(ls, r) && t < CLASSES && r < CLASSES && Req(ls, t).1 != 0
    ensures var (ls', a) := Req(ls, t); Rel(ls', a, r) == ls
  {
    var (ls', a) := Req(ls, t);
    AllocatedClass(ls, t, r);
    ReqCarves(ls, t);
    WithoutInsert(ls.used[t], a);
    RequestKeeps(ls, t, r);
    ReleaseKeeps(ls', a, r);
    assert Rel(ls', a, r).used == ls.used;
    FreeListsDetermined(Rel(ls', a, r), ls, r);
  }

  /** No fragmentation: a request fails exactly when no aligned block of its size is vacant. */
  lemma RequestFailsIff(ls: Lists, t: nat, r: nat)
    requires Inv(ls, r) && t < CLASSES
    ensures Req(ls, t).1 == 0 <==>
      forall i :: !Vacant(Block(t, i), Blocks(ls.used, Origin(r)), r)
  {
    hide Tiles, Good, Carve, Vacant, Insert;
    ReqCarves(ls, t);
    RequestKeeps(ls, t, r);
    var o, F, U := Origin(r), Blocks(ls.free, Origin(r)), Blocks(ls.used, Origin(r));
    if Req(ls, t).1 == 0 {
      NeverHandsOutZero(ls, t, r);
      forall i
        ensures !Vacant(Block(t, i), U, r)
      {
        if Vacant(Block(t, i), U, r) {
          var c := VacantIsInOneFreeBlock(F, U, r, t, i);
        }
      }
    } else {
      assert Vacant(Block(t, Up(Req(ls, t).1 - o, t)), U, r);
    }
  }

  lemma NeverHandsOutZero(ls: Lists, t: nat, r: nat)
    requires Inv(ls, r) && t < CLASSES
    ensures Smallest(ls.free, t) < CLASSES ==> LO <= Req(ls, t).1
  {
    var k := Smallest(ls.free, t);
    if k < CLASSES {
      RequestExactly(ls, t, t);
      Pow2Monotone(t, k);
      ListWithin(ls.free, Blocks(ls.free, Origin(r)) + Blocks(ls.used, Origin(r)), k, r);
      assert ls.free[k][0] in ls.free[k];
    }
  }

  // ----- the same in plain addresses

  ghost predicate OnList(ls: Lists, isFree: bool, t: nat, a: int)
    requires Shape(ls)
  {
    t < CLASSES && a in if isFree then ls.free[t] else ls.used[t]
  }

  lemma ListedBlock(ls: Lists, r: nat, isFree: bool, t: nat, a: int) returns (b: Block)
    requires Inv(ls, r) && OnList(ls, isFree, t, a)
    ensures b == BlockAt(a, t, Origin(r)) && a == Origin(r) + Start(t, b.i)
    ensures b in Blocks(ls.free, Origin(r)) + Blocks(ls.used, Origin(r))
    ensures b in Blocks(ls.free, Origin(r)) <==> isFree
  {
    b := BlockAt(a, t, Origin(r));
    assert AlignedAt(a, t, Origin(r));
    assert Has(if isFree then ls.free else ls.used, Origin(r), b);
  }

  /**
   Tiling in plain addresses: every listed block lies in the area at a multiple of its size from
   the end of the reserved block, and two different listings occupy disjoint intervals.
   */
  lemma ListedBlocksDisjoint(ls: Lists, r: nat, f: bool, t: nat, a: int, f': bool, t': nat, a': int)
    requires Inv(ls, r) && OnList(ls, f, t, a) && OnList(ls, f', t', a')
    ensures 0xc000_0000 <= a && a + Pow2(t) <= 0xc3f0_0000 && (a - (0xc000_0000 + Pow2(r))) % Pow2(t) == 0
    ensures (f, t, a) == (f', t', a') || a + Pow2(t) <= a' || a' + Pow2(t') <= a
  {
    var b := ListedBlock(ls, r, f, t, a);
    var c := ListedBlock(ls, r, f', t', a');
    var S, o := Blocks(ls.free, Origin(r)) + Blocks(ls.used, Origin(r)), Origin(r);
    BlockInArea(S, r, b);
    StartIsMultiple(t, b.i);
    MultipleHasNoRemainder(b.i, Pow2(t));
    var x := if a <= a' then a' - o else a - o;
    InBlockIff(x, t, b.i);
    InBlockIff(x, t', c.i);
    if a + Pow2(t) > a' && a' + Pow2(t') > a {
      assert In(x, b) && In(x, c);
    }
  }

  lemma MultipleHasNoRemainder(i: int, p: nat)
    requires p > 0
    ensures i * p % p == 0
  {
    QuotientOf(i * p, i, p);
  }

  /** ... and every address of the area is inside some listed block. */
  lemma ListedBlocksCover(ls: Lists, r: nat, y: int) returns (f: bool, t: nat, a: int)
    requires Inv(ls, r) && LO <= y < LO + AREA
    ensures OnList(ls, f, t, a) && a <= y < a + Pow2(t)
  {
    var F, U, x := Blocks(ls.free, Origin(r)), Blocks(ls.used, Origin(r)), y - Origin(r);
    assert Covered(F + U, x);
    var b :| b in F + U && In(x, b);
    InBlockIff(x, b.k, b.i);
    f, t, a := b in F, b.k, Origin(r) + Start(b.k, b.i);
  }

  /** A granted block is inside the area and disjoint from every block that is live. */
  lemma GrantedBlockIsFresh(ls: Lists, t: nat, r: nat, s: nat, u: int)
    requires Inv(ls, r) && t < CLASSES && Req(ls, t).1 != 0 && OnList(ls, false, s, u)
    ensures var a := Req(ls, t).1;
      LO <= a && a + Pow2(t) <= LO + AREA && (u + Pow2(s) <= a || a + Pow2(t) <= u)
  {
    var (ls', a) := Req(ls, t);
    RequestKeeps(ls, t, r);
    AllocatedClass(ls, t, r);
    ReqCarves(ls, t);
    InsertMembers(ls.used[t], a);
    ListedBlocksDisjoint(ls', r, false, t, a, false, s, u);
  }

  // ----- which blocks are live

  /** A request makes exactly the granted block live. */
  lemma RequestUses(ls: Lists, t: nat, r: nat, c: nat, u: int)
    requires Inv(ls, r) && t < CLASSES && c < CLASSES
    ensures var (ls', a) := Req(ls, t);
      u in ls'.used[c] <==> u in ls.used[c] || (a != 0 && (c, u) == (t, a))
  {
    ReqCarves(ls, t);
    if Req(ls, t).1 != 0 {
      AllocatedClass(ls, t, r);
      InsertMembers(ls.used[t], Req(ls, t).1);
    } else {
      NeverHandsOutZero(ls, t, r);
    }
  }

  /** A release makes exactly the block at that address free; there is no other one at it. */
  lemma ReleaseTakes(ls: Lists, a: int, r: nat, c: nat, u: int)
    requires Inv(ls, r) && c < CLASSES
    ensures u in Rel(ls, a, r).used[c] <==> u in ls.used[c] && u != a
  {
    var t := ClassOf(ls.used, a, 0);
    if t < CLASSES {
      SortedWithout(ls.used[t], a);
      if a in ls.used[c] {
        ListedBlocksDisjoint(ls, r, false, t, a, false, c, a);
      }
    }
  }

  /** ... and this leaves no choice: the state after a release is the one state in order like that. */
  lemma ReleaseDetermined(ls: Lists, a: int, r: nat, ls': Lists)
    requires Inv(ls, r) && Inv(ls', r) && r < CLASSES
    requires forall c, u :: 0 <= c < CLASSES ==> (u in ls'.used[c] <==> u in ls.used[c] && u != a)
    ensures ls' == Rel(ls, a, r)
  {
    hide Tiles, Coalesced, Rel;
    ReleaseKeeps(ls, a, r);
    forall c | 0 <= c < CLASSES
      ensures ls'.used[c] == Rel(ls, a, r).used[c]
    {
      forall u
        ensures u in ls'.used[c] <==> u in Rel(ls, a, r).used[c]
      {
        ReleaseTakes(ls, a, r, c, u);
      }
      SortedUnique(ls'.used[c], Rel(ls, a, r).used[c]);
    }
    FreeListsDetermined(ls', Rel(ls, a, r), r);
  }

  /** The address that each call returns; 0 for a release and for a request that fails. */
  function Returns(ls: Lists, calls: seq<Call>, r: nat): (out: seq<int>)
    requires Shape(ls) && Served(calls)
    ensures |out| == |calls|
    decreases |calls|
  {
    if calls == [] then []
    else
      [if calls[0].ReqBytes? then Req(ls, calls[0].t).1 else 0] + Returns(Step(ls, calls[0], r), calls[1..], r)
  }

  /**
   Whether the block of class `c` at `u` is live after calls that returned `out`: what counts is
   the last call that was granted it or released it.
   */
  predicate LiveAfter(live: bool, calls: seq<Call>, out: seq<int>, c: nat, u: int)
    requires |out| == |calls|
    decreases |calls|
  {
    if calls == [] then live
    else
      match calls[0]
      case ReqBytes(t) => LiveAfter(live || (out[0] != 0 && (t, out[0]) == (c, u)), calls[1..], out[1..], c, u)
      case RelBytes(a) => LiveAfter(live && a != u, calls[1..], out[1..], c, u)
  }

  /** Over every run the allocated lists hold exactly the blocks granted and not released since. */
  lemma {:induction false} LiveExactly(ls: Lists, calls: seq<Call>, r: nat, c: nat, u: int)
    requires Inv(ls, r) && Served(calls) && r < CLASSES && c < CLASSES
    ensures u in Run(ls, calls, r).used[c] <==> LiveAfter(u in ls.used[c], calls, Returns(ls, calls, r), c, u)
    decreases |calls|
  {
    assert Shape(ls);
    hide Inv, Req, Rel;
    if calls != [] {
      match calls[0] {
        case ReqBytes(t) =>
          RequestKeeps(ls, t, r);
          RequestUses(ls, t, r, c, u);
        case RelBytes(a) =>
          ReleaseKeeps(ls, a, r);
          ReleaseTakes(ls, a, r, c, u);
      }
      LiveExactly(Step(ls, calls[0], r), calls[1..], r, c, u);
    }
  }
}
