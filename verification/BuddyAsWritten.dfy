/**
 Where the text of `RelBytes` and `MergeBlock` departs from the comments on them.

 - Lines 165-167 leave the search over all classes as soon as one list holds an address above
   the released one; the node where the search stopped is then inserted into a free list while
   it is still on its allocated list.
 - Line 256 runs after line 255 has already made `block2` the node after `tmp`, so it unlinks
   the node after `block2`; `block2` then goes to the pool while the free list still leads to it.

 Both leave some node that nothing points to. `ReleaseIsClean` says when neither happens.
 */
module BuddyAsWritten {
  import opened Basics
  import opened Dyadic
  import opened Links
  import opened BuddyLists
  import opened BuddyInvariant
  import opened BuddySafety
  import opened BuddyRuns

  // ----- lines 255-257 on the links

  function UnlinkPair(next: seq<int>, tmp: int, pool: int): (next': seq<int>)
    requires Node(next, tmp) && Node(next, pool) && Node(next, next[tmp])
    requires var b2 := next[next[tmp]]; Node(next, b2) && Node(next, next[b2])
    requires next[tmp] != tmp && next[next[tmp]] != next[tmp]
    ensures |next'| == |next|
  {
    var b2 := next[next[tmp]];
    var next1 := Remove(next, tmp);
    var next2 := Remove(next1, next1[tmp]);
    Add(next2[b2 := NULL], pool, b2)
  }

  /** Once a merge has run, the node after `block2` is lost. */
  lemma UnlinkPairStrands(next: seq<int>, rs: seq<seq<int>>, own: seq<int>, i: nat, p: nat, j: nat)
    requires Forest(next, rs, own) && Complete(rs, own) && i < |rs| && j < |rs| && i != j
    requires p + 2 < |rs[i]|
    ensures PairAt(next, rs[i], p) && Node(next, rs[j][0])
    ensures Stranded(UnlinkPair(next, rs[i][p], rs[j][0]), Succ(rs[i], p + 2))
  {
    PairIsAt(next, rs[i], p);
    RingNext(next, rs, own, j, 0);
    var z := Succ(rs[i], p + 2);
    assert own[rs[j][0]] == j && own[rs[i][p + 2]] == i && own[rs[i][0]] == i && own[z] == i;
    forall y | 0 <= y < |next| && y != rs[i][p + 2]
      ensures next[y] != z
    {
      if next[y] == z {
        OnlyPredecessor(next, rs, own, {}, i, p + 2, y);
      }
    }
    LastLinkGone(next, rs[i], p, rs[j][0]);
  }

  /** `block2` held the only link to the node after it. */
  lemma LastLinkGone(next: seq<int>, ring: seq<int>, p: nat, pool: int)
    requires PairAt(next, ring, p) && Node(next, pool) && pool != ring[p + 2]
    requires forall y :: 0 <= y < |next| && y != ring[p + 2] ==> next[y] != Succ(ring, p + 2)
    ensures Stranded(UnlinkPair(next, ring[p], pool), Succ(ring, p + 2))
  {
  }

  ghost predicate PairAt(next: seq<int>, ring: seq<int>, p: nat) {
    && p + 2 < |ring| && Node(next, ring[p]) && Node(next, ring[p + 1]) && Node(next, ring[p + 2])
    && next[ring[p]] == ring[p + 1] && next[ring[p + 1]] == ring[p + 2]
    && next[ring[p + 2]] == Succ(ring, p + 2) && Node(next, Succ(ring, p + 2))
    && ring[p] != ring[p + 1] && ring[p + 1] != ring[p + 2] && ring[p] != ring[p + 2]
    && Succ(ring, p + 2) != ring[p + 1] && Succ(ring, p + 2) != ring[p + 2]
  }

  lemma PairIsAt(next: seq<int>, ring: seq<int>, p: nat)
    requires Cycle(next, ring) && Distinct(ring) && p + 2 < |ring|
    ensures PairAt(next, ring, p)
  {
    assert next[ring[p]] == Succ(ring, p) && next[ring[p + 1]] == Succ(ring, p + 1);
    assert next[ring[p + 2]] == Succ(ring, p + 2);
  }

  /** A node that is lost already stays lost. */
  lemma UnlinkPairKeepsStranded(next: seq<int>, ring: seq<int>, p: nat, pool: int, z: int)
    requires PairAt(next, ring, p) && Node(next, pool) && Stranded(next, z)
    ensures Stranded(UnlinkPair(next, ring[p], pool), z)
  {
    var next1 := Remove(next, ring[p]);
    StrandedRemove(next, z, ring[p]);
    StrandedRemove(next1, z, next1[ring[p]]);
  }

  // ----- the free rings from one class on

  /** The free lists of the classes from `t` on, and whether a node is on one of them. */
  ghost predicate FreeRings(next: seq<int>, heads: seq<int>, pool: int, frs: seq<seq<int>>, fown: seq<int>, t: nat) {
    && t < CLASSES <= |heads| && |frs| == CLASSES - t && Forest(next, frs, fown)
    && (forall k :: 0 <= k < |frs| ==> frs[k][0] == heads[t + k])
    && Node(next, pool) && fown[pool] == OFF
  }

  function Shifted(own: seq<int>, t: nat, n: nat): (own': seq<int>)
    ensures |own'| == |own|
  {
    seq(|own|, x requires 0 <= x < |own| => if t <= own[x] < t + n then own[x] - t else OFF)
  }

  /** Rings whose nodes keep their links stay rings, whatever happens to the other nodes. */
  lemma ForestSlice(next: seq<int>, next': seq<int>, rs: seq<seq<int>>, own: seq<int>, t: nat, n: nat)
    requires Forest(next, rs, own) && t + n <= |rs| && |next'| == |next|
    requires forall x :: 0 <= x < |next| && t <= own[x] < t + n ==> next'[x] == next[x]
    ensures Forest(next', rs[t..t + n], Shifted(own, t, n))
  {
    var rs', own' := rs[t..t + n], Shifted(own, t, n);
    forall i | 0 <= i < |rs'|
      ensures Cycle(next', rs'[i]) && Distinct(rs'[i])
    {
      var ring := rs[t + i];
      assert rs'[i] == ring && Cycle(next, ring);
      assert forall p :: 0 <= p < |ring| ==> own[ring[p]] == t + i;
    }
    forall i, p | 0 <= i < |rs'| && 0 <= p < |rs'[i]|
      ensures own'[rs'[i][p]] == i
    {
      assert Cycle(next, rs[t + i]);
      assert own[rs[t + i][p]] == t + i;
    }
  }

  /** The links that lines 255-257 change. */
  lemma UnlinkPairTouches(next: seq<int>, ring: seq<int>, p: nat, pool: int, x: int)
    requires PairAt(next, ring, p) && Node(next, pool) && Node(next, x)
    requires x != ring[p] && x != ring[p + 1] && x != ring[p + 2] && x != Succ(ring, p + 2) && x != pool
    ensures UnlinkPair(next, ring[p], pool)[x] == next[x]
  {
  }

  /** They are all on the list of `tmp` or in the pool, so the larger classes are not affected. */
  lemma UnlinkPairFrame(next: seq<int>, heads: seq<int>, frs: seq<seq<int>>, fown: seq<int>, t: nat, p: nat, pool: int)
    requires FreeRings(next, heads, pool, frs, fown, t) && t < CLASSES - 1 && p + 2 < |frs[0]|
    ensures PairAt(next, frs[0], p) && Node(next, frs[0][p + 1]) && frs[0][p + 1] != pool
    ensures var next', fown' := UnlinkPair(next, frs[0][p], pool), Shifted(fown, 1, |frs| - 1);
      FreeRings(next', heads, pool, frs[1..], fown', t + 1) && fown'[frs[0][p + 1]] == OFF
  {
    PairIsAt(next, frs[0], p);
    var next' := UnlinkPair(next, frs[0][p], pool);
    var n := |frs| - 1;
    assert fown[frs[0][p]] == 0 && fown[frs[0][p + 1]] == 0 && fown[frs[0][p + 2]] == 0;
    assert fown[frs[0][0]] == 0 && fown[Succ(frs[0], p + 2)] == 0;
    forall x | 0 <= x < |next| && 1 <= fown[x] < 1 + n
      ensures next'[x] == next[x]
    {
      UnlinkPairTouches(next, frs[0], p, pool, x);
    }
    TailRings(next, next', heads, frs, fown, t, pool);
  }

  lemma TailRings(next: seq<int>, next': seq<int>, heads: seq<int>, frs: seq<seq<int>>, fown: seq<int>, t: nat, pool: int)
    requires FreeRings(next, heads, pool, frs, fown, t) && t < CLASSES - 1 && |next'| == |next|
    requires forall x :: 0 <= x < |next| && 1 <= fown[x] < |frs| ==> next'[x] == next[x]
    ensures FreeRings(next', heads, pool, frs[1..], Shifted(fown, 1, |frs| - 1), t + 1)
  {
    ForestSlice(next, next', frs, fown, 1, |frs| - 1);
    assert frs[1..1 + (|frs| - 1)] == frs[1..];
    forall k | 0 <= k < |frs[1..]|
      ensures frs[1..][k][0] == heads[t + 1 + k]
    {
      assert frs[1..][k] == frs[k + 1];
    }
  }

  /** Adding a loose node to the first of the free rings. */
  lemma FreeRingsAdd(next: seq<int>, heads: seq<int>, pool: int, frs: seq<seq<int>>, fown: seq<int>, t: nat, q: nat, x: int)
    requires FreeRings(next, heads, pool, frs, fown, t) && q < |frs[0]|
    requires Node(next, x) && x != pool && fown[x] == OFF
    ensures Node(next, frs[0][q]) && |Add(next, frs[0][q], x)| == |next|
    ensures FreeRings(Add(next, frs[0][q], x), heads, pool, frs[0 := Inserted(frs[0], q, x)], fown[x := 0], t)
  {
    hide Cycle, Distinct;
    ForestAdd(next, frs, fown, 0, q, x);
    InsertedAt(frs[0], q, x, 0);
  }

  // ----- when neither departure shows

  function BuddyAddress(a: int, t: nat, r: nat): int {
    if EvenIndex(a, t, r) then a + Pow2(t) else a - Pow2(t)
  }

  /** No list of a smaller class than the one `a` is on (of any class, if none) reaches above `a`. */
  ghost predicate SearchReaches(used: seq<seq<int>>, a: int)
    requires |used| == CLASSES
  {
    forall c, u :: 0 <= c < ClassOf(used, a, 0) && u in used[c] ==> u < a
  }

  ghost predicate NothingToMerge(ls: Lists, a: int, r: nat)
    requires Shape(ls)
  {
    var t := ClassOf(ls.used, a, 0);
    t >= CLASSES - 1 || BuddyAddress(a, t, r) !in ls.free[t]
  }

  /** The calls of `RelBytes` on which the text does what its comments say. */
  ghost predicate ReleaseIsClean(ls: Lists, a: int, r: nat)
    requires Shape(ls)
  {
    SearchReaches(ls.used, a) && NothingToMerge(ls, a, r)
  }

  lemma BuddyAddressIs(a: int, t: nat, r: nat)
    requires t < CLASSES && r < CLASSES && AlignedAt(a, t, Origin(r)) && LO <= a < LO + AREA
    ensures BuddyAddress(a, t, r) == Origin(r) + Start(t, Buddy(BlockAt(a, t, Origin(r))).i)
  {
    var i := Up(a - Origin(r), t);
    ParityTest(a, t, r);
    StartNext(t, i);
    StartNext(t, i - 1);
  }

  lemma InArea(f: seq<seq<int>>, t: nat, o: int, b: Block, a: int)
    requires |f| == CLASSES && t < CLASSES && Within(f[t], t) && b in Blocks(f, o)
    requires b == BlockAt(a, t, o) && AlignedAt(a, t, o)
    ensures LO <= a < LO + AREA
  {
    assert a in f[t];
  }

  /** In a reachable state a release merges exactly when the released block's buddy is free. */
  lemma MergesIffBuddyFree(ls: Lists, a: int, r: nat)
    requires Inv(ls, r) && r < CLASSES && ClassOf(ls.used, a, 0) < CLASSES - 1
    ensures var t := ClassOf(ls.used, a, 0);
      var s := Insert(ls.free[t], a);
      FirstPair(s, 0, t, r) < |s| <==> BuddyAddress(a, t, r) in ls.free[t]
  {
    hide Tiles, FirstPair, BuddyAddress, CoalescedBut, Insert, Up, Start, Within;
    var t, o := ClassOf(ls.used, a, 0), Origin(r);
    var U, b, f := Blocks(ls.used, o), BlockAt(a, t, o), ls.free[t := Insert(ls.free[t], a)];
    Released(ls, a, r);
    ListWithin(f, Blocks(f, o) + (U - iset{b}), t, r);
    InArea(f, t, o, b, a);
    BuddyAddressIs(a, t, r);
    ScanFindsBuddies(f, b, t, r);
    assert Buddy(b) != b;
  }

  /** A release without a merge only moves the block from one list to the other. */
  lemma CleanRelease(ls: Lists, a: int, r: nat)
    requires Inv(ls, r) && r < CLASSES && ClassOf(ls.used, a, 0) < CLASSES && NothingToMerge(ls, a, r)
    ensures var t := ClassOf(ls.used, a, 0);
      Rel(ls, a, r) == Lists(ls.free[t := Insert(ls.free[t], a)], ls.used[t := Without(ls.used[t], a)])
  {
    var t := ClassOf(ls.used, a, 0);
    if t < CLASSES - 1 {
      MergesIffBuddyFree(ls, a, r);
    }
  }

  /**
   A request that has to split leaves the buddy of its block free, so releasing that block
   right away is never one of the clean calls.
   */
  lemma SplitThenReleaseIsNotClean(ls: Lists, t: nat, r: nat)
    requires Inv(ls, r) && t < CLASSES && r < CLASSES && ls.free[t] == [] && Req(ls, t).1 != 0
    ensures var (ls', a) := Req(ls, t); !ReleaseIsClean(ls', a, r)
  {
    hide Tiles, Rel, Req, BuddyAddress;
    var (ls', a) := Req(ls, t);
    RequestKeeps(ls, t, r);
    AllocatedClass(ls, t, r);
    RoundTrip(ls, t, r);
    if ReleaseIsClean(ls', a, r) {
      CleanRelease(ls', a, r);
    }
  }

  /** The lowest bit of what is left beside the reserved block is 0, and bit 24 or 25 is 1. */
  lemma FirstBits(r: nat)
    requires 0 < r < CLASSES
    ensures (AREA - Pow2(r)) / Pow2(0) % 2 == 0
    ensures (AREA - Pow2(r)) / Pow2(if r < 25 then 25 else 24) == 1
  {
    Pow2Values();
    var even, p24, p25 := Pow2(r - 1), Pow2(24), Pow2(25);
    assert Pow2(r) == 2 * even && Pow2(0) == 1 && p25 == 2 * p24;
    hide Pow2;
    if r < 25 {
      Pow2Monotone(r, 24);
      QuotientOf(AREA - Pow2(r), 1, p25);
    } else {
      QuotientOf(AREA - p25, 1, p24);
    }
  }

  /** Unless a single byte is reserved, no list of single bytes has a block at first; others do. */
  lemma NoFirstByte(r: nat)
    requires 0 < r < CLASSES
    ensures Init(r).free[0] == [] && Init(r).free[if r < 25 then 25 else 24] != []
  {
    InitBits(r, 0);
    InitBits(r, if r < 25 then 25 else 24);
    hide Init, Pow2;
    FirstBits(r);
  }

  /**
   Whatever the size of the kernel, the very first call pair fails as written: after
   initialisation request one byte and release it.
   */
  lemma FirstByteCannotBeReleased(r: nat)
    requires 0 < r < CLASSES
    ensures var (ls, a) := Req(Init(r), 0); a != 0 && !ReleaseIsClean(ls, a, r)
  {
    hide Inv, Req, Greedy, ReleaseIsClean, Init;
    InitKeeps(r);
    NoFirstByte(r);
    NeverHandsOutZero(Init(r), 0, r);
    SplitThenReleaseIsNotClean(Init(r), 0, r);
  }
}
