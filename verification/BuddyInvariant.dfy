/**
 What every call of the buddy allocator keeps, and what follows from it.

 `Inv` says that the lists are sorted, that the blocks on all 52 lists tile the managed area
 exactly, each aligned relative to the end of the reserved block, and that no two free buddies
 are left unmerged. The main consequence is the canonical form: the free lists are a function
 of the allocated ones.
 */
module BuddyInvariant {
  import opened Basics
  import opened Dyadic
  import opened BuddyLists

  // ----- lists as sets of blocks

  ghost predicate Has(ls: seq<seq<int>>, o: int, b: Block) {
    b.k < |ls| && o + Start(b.k, b.i) in ls[b.k]
  }

  ghost function Blocks(ls: seq<seq<int>>, o: int): iset<Block> {
    iset b | Has(ls, o, b)
  }

  ghost predicate Sorted(s: seq<int>) {
    forall i, j :: 0 <= i < j < |s| ==> s[i] < s[j]
  }

  ghost predicate AlignedAt(a: int, t: nat, o: int) {
    Start(t, Up(a - o, t)) == a - o
  }

  ghost predicate Good(ls: seq<seq<int>>, o: int) {
    && |ls| == CLASSES
    && (forall t :: 0 <= t < CLASSES ==> Sorted(ls[t]))
    && (forall t, a :: 0 <= t < CLASSES && a in ls[t] ==> AlignedAt(a, t, o))
  }

  ghost function BlockAt(a: int, t: nat, o: int): Block {
    Block(t, Up(a - o, t))
  }

  // ----- the invariant

  ghost predicate Covered(S: iset<Block>, x: int) {
    exists b :: b in S && In(x, b)
  }

  /** Every position from `lo` to `hi` is in exactly one block of `S`, and no other is in any. */
  ghost predicate Tiles(S: iset<Block>, lo: int, hi: int) {
    && (forall b, x :: b in S && In(x, b) ==> lo <= x < hi)
    && (forall b, c, x :: b in S && c in S && In(x, b) && In(x, c) ==> b == c)
    && (forall x :: lo <= x < hi ==> Covered(S, x))
  }

  ghost predicate Coalesced(F: iset<Block>) {
    forall b :: b in F && b.k < CLASSES - 1 ==> Buddy(b) !in F
  }

  function Low(r: nat): int {
    0 - Pow2(r)
  }

  function High(r: nat): int {
    AREA - Pow2(r)
  }

  ghost predicate Inv(ls: Lists, r: nat) {
    && Shape(ls)
    && Good(ls.free, Origin(r)) && Good(ls.used, Origin(r))
    && var F, U := Blocks(ls.free, Origin(r)), Blocks(ls.used, Origin(r));
       F !! U && Tiles(F + U, Low(r), High(r)) && Coalesced(F)
  }

  // ----- list updates as block-set updates

  lemma {:induction false} InsertMembers(s: seq<int>, a: int)
    requires Sorted(s) && a !in s
    ensures Sorted(Insert(s, a))
    ensures forall x :: x in Insert(s, a) <==> x == a || x in s
  {
    if s != [] && s[0] < a {
      assert s == [s[0]] + s[1..];
      InsertMembers(s[1..], a);
      var rest := Insert(s[1..], a);
      forall i | 0 <= i < |rest|
        ensures s[0] < rest[i]
      {
        assert rest[i] in rest;
      }
    }
  }

  lemma SortedDrop(s: seq<int>, p: nat)
    requires Sorted(s) && p < |s|
    ensures Sorted(s[..p] + s[p + 1..])
    ensures forall x :: x in s[..p] + s[p + 1..] <==> x != s[p] && x in s
  {
    var t := s[..p] + s[p + 1..];
    assert forall i :: 0 <= i < |t| ==> t[i] == s[if i < p then i else i + 1];
    DropMembers(s, p);
  }

  lemma SortedWithout(s: seq<int>, a: int)
    requires Sorted(s) && a in s
    ensures Sorted(Without(s, a))
    ensures forall x :: x in Without(s, a) <==> x != a && x in s
  {
    var p :| 0 <= p < |s| && s[p] == a;
    assert a !in s[..p];
    WithoutAt(s, a, p);
    SortedDrop(s, p);
  }

  lemma StartUnique(a: int, t: nat, o: int, i: int)
    requires AlignedAt(a, t, o)
    ensures o + Start(t, i) == a <==> i == Up(a - o, t)
  {
    UpStart(t, i);
  }

  /** Replacing list `t` by one with the additional address `a` adds the block at `a`. */
  lemma BlocksPlus(ls: seq<seq<int>>, o: int, t: nat, a: int, s: seq<int>)
    requires Good(ls, o) && t < CLASSES && AlignedAt(a, t, o) && Sorted(s)
    requires forall x :: x in s <==> x == a || x in ls[t]
    ensures Good(ls[t := s], o)
    ensures Blocks(ls[t := s], o) == Blocks(ls, o) + iset{BlockAt(a, t, o)}
  {
    forall b: Block
      ensures Has(ls[t := s], o, b) <==> Has(ls, o, b) || b == BlockAt(a, t, o)
    {
      StartUnique(a, t, o, b.i);
    }
  }

  /** Replacing list `t` by one without the address `a` takes the block at `a` away. */
  lemma BlocksMinus(ls: seq<seq<int>>, o: int, t: nat, a: int, s: seq<int>)
    requires Good(ls, o) && t < CLASSES && a in ls[t] && Sorted(s)
    requires forall x :: x in s <==> x != a && x in ls[t]
    ensures Good(ls[t := s], o)
    ensures Blocks(ls[t := s], o) == Blocks(ls, o) - iset{BlockAt(a, t, o)}
    ensures BlockAt(a, t, o) in Blocks(ls, o)
  {
    forall b: Block
      ensures Has(ls[t := s], o, b) <==> Has(ls, o, b) && b != BlockAt(a, t, o)
    {
      StartUnique(a, t, o, b.i);
    }
  }

  lemma BlockOfAddress(ls: seq<seq<int>>, o: int, t: nat, a: int)
    requires Good(ls, o) && t < CLASSES && AlignedAt(a, t, o)
    ensures a in ls[t] <==> BlockAt(a, t, o) in Blocks(ls, o)
  {
  }

  // ----- splitting and joining a tile

  lemma TilesSplit(S: iset<Block>, b: Block, lo: int, hi: int)
    requires Tiles(S, lo, hi) && b in S && b.k > 0
    ensures Tiles(S - iset{b} + iset{Block(b.k - 1, 2 * b.i), Block(b.k - 1, 2 * b.i + 1)}, lo, hi)
  {
    var p, q := Block(b.k - 1, 2 * b.i), Block(b.k - 1, 2 * b.i + 1);
    var S' := S - iset{b} + iset{p, q};
    assert forall x :: In(x, p) ==> In(x, b);
    assert forall x :: In(x, q) ==> In(x, b);
    forall x | lo <= x < hi
      ensures Covered(S', x)
    {
      assert Covered(S, x);
      var c :| c in S && In(x, c);
      if c == b {
        InHalves(x, b);
      }
    }
  }

  lemma TilesJoin(S: iset<Block>, b: Block, lo: int, hi: int)
    requires Tiles(S, lo, hi) && b in S && Buddy(b) in S
    ensures Tiles(S - iset{b, Buddy(b)} + iset{Parent(b)}, lo, hi)
  {
    var p := Parent(b);
    var S' := S - iset{b, Buddy(b)} + iset{p};
    assert forall x :: In(x, p) ==> In(x, b) || In(x, Buddy(b));
    forall x | lo <= x < hi
      ensures Covered(S', x)
    {
      assert Covered(S, x);
      var c :| c in S && In(x, c);
      if c == b || c == Buddy(b) {
        assert In(x, p);
      }
    }
  }

  // ----- canonical form

  /** All of `b` lies in the managed area and outside every allocated block. */
  ghost predicate Vacant(b: Block, U: iset<Block>, r: nat) {
    forall x :: In(x, b) ==> Low(r) <= x < High(r) && !Covered(U, x)
  }

  /** A vacant block whose parent is not one: these are what the free lists should hold. */
  ghost predicate MaximalVacant(b: Block, U: iset<Block>, r: nat) {
    b.k < CLASSES && Vacant(b, U, r) && (b.k < CLASSES - 1 ==> !Vacant(Parent(b), U, r))
  }

  lemma VacantHalf(b: Block, U: iset<Block>, r: nat)
    requires Vacant(Parent(b), U, r)
    ensures Vacant(b, U, r)
  {
    forall x | In(x, b)
      ensures Low(r) <= x < High(r) && !Covered(U, x)
    {
      InParent(x, b);
    }
  }

  /** Full coalescing: every vacant block lies inside a single block on the free lists. */
  lemma {:induction false} VacantIsInOneFreeBlock(F: iset<Block>, U: iset<Block>, r: nat, k: nat, i: int)
    returns (c: Block)
    requires Tiles(F + U, Low(r), High(r)) && Coalesced(F)
    requires k < CLASSES && Vacant(Block(k, i), U, r)
    ensures c in F && k <= c.k && Up(i, c.k - k) == c.i
  {
    if k == 0 {
      assert In(i, Block(0, i));
      assert Covered(F + U, i);
      c :| c in F + U && In(i, c);
    } else {
      VacantHalf(Block(k - 1, 2 * i), U, r);
      VacantHalf(Block(k - 1, 2 * i + 1), U, r);
      var p := VacantIsInOneFreeBlock(F, U, r, k - 1, 2 * i);
      var q := VacantIsInOneFreeBlock(F, U, r, k - 1, 2 * i + 1);
      assert Buddy(Block(k - 1, 2 * i)) == Block(k - 1, 2 * i + 1);
      c := if p.k >= k then p else q;
      UpHalf(2 * i, c.k - k);
      UpHalf(2 * i + 1, c.k - k);
    }
  }

  /**
   Canonical form: the free lists hold exactly the maximal vacant blocks, so they are
   determined by the allocated lists alone.
   */
  lemma CanonicalForm(ls: Lists, r: nat, b: Block)
    requires Inv(ls, r)
    ensures Has(ls.free, Origin(r), b) <==> MaximalVacant(b, Blocks(ls.used, Origin(r)), r)
  {
    var F, U := Blocks(ls.free, Origin(r)), Blocks(ls.used, Origin(r));
    if b in F && b.k < CLASSES - 1 && Vacant(Parent(b), U, r) {
      var c := VacantIsInOneFreeBlock(F, U, r, b.k + 1, b.i / 2);
      UpHalf(b.i, c.k - b.k - 1);
      var x := Start(b.k, b.i);
      UpStart(b.k, b.i);
      NestedIn(x, b, c);
    }
    if MaximalVacant(b, U, r) {
      var c := VacantIsInOneFreeBlock(F, U, r, b.k, b.i);
      if c.k > b.k {
        UpHalf(b.i, c.k - b.k - 1);
        forall x | In(x, Parent(b))
          ensures Low(r) <= x < High(r) && !Covered(U, x)
        {
          NestedIn(x, Parent(b), c);
          assert c in F + U;
        }
      }
    }
  }

  lemma {:induction false} SortedUnique(s: seq<int>, s': seq<int>)
    requires Sorted(s) && Sorted(s') && forall x :: x in s <==> x in s'
    ensures s == s'
  {
    assert s' != [] ==> s'[0] in s';
    if s != [] {
      assert s[0] in s;
      assert s[0] in s' && s'[0] in s;
      assert s[0] == s'[0];
      assert s == [s[0]] + s[1..] && s' == [s'[0]] + s'[1..];
      forall x
        ensures x in s[1..] <==> x in s'[1..]
      {
        assert x in s <==> x in s';
      }
      SortedUnique(s[1..], s'[1..]);
    }
  }

  /** Two reachable states with the same allocated lists have the same free lists. */
  lemma FreeListsDetermined(ls: Lists, ls': Lists, r: nat)
    requires Inv(ls, r) && Inv(ls', r) && ls.used == ls'.used
    ensures ls == ls'
  {
    forall t | 0 <= t < CLASSES
      ensures ls.free[t] == ls'.free[t]
    {
      forall x
        ensures x in ls.free[t] <==> x in ls'.free[t]
      {
        CanonicalForm(ls, r, BlockAt(x, t, Origin(r)));
        CanonicalForm(ls', r, BlockAt(x, t, Origin(r)));
        if x in ls.free[t] {
          assert AlignedAt(x, t, Origin(r));
        }
        if x in ls'.free[t] {
          assert AlignedAt(x, t, Origin(r));
        }
      }
      SortedUnique(ls.free[t], ls'.free[t]);
    }
  }
}
