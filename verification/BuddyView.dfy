/**
 Reading the buddy allocator's lists off its linked descriptors, and the descriptor pool as
 `DirectMappingInit` first sets it up.
 */
module BuddyView {
  import opened Basics
  import opened Dyadic
  import opened Links
  import opened BuddyLists
  import opened BuddyInvariant

  const BLOCKS: nat := 0x10_0000 / 8  // kNodePoolSize / sizeof(MemBlock)
  const RINGS: nat := 53
  const POOL: nat := 52

  // ----- reading the lists off the rings

  function At(addr: seq<int>, x: int): int {
    if 0 <= x < |addr| then addr[x] else 0
  }

  /** The addresses on a ring, without its head. */
  ghost function Addrs(ring: seq<int>, addr: seq<int>): seq<int>
    requires ring != []
  {
    seq(|ring| - 1, p requires 0 <= p < |ring| - 1 => At(addr, ring[p + 1]))
  }

  ghost predicate Rings(rs: seq<seq<int>>) {
    |rs| == RINGS && forall i :: 0 <= i < RINGS ==> rs[i] != []
  }

  /** The 26 lists whose rings start at number `base`. */
  ghost function Group(rs: seq<seq<int>>, addr: seq<int>, base: nat): (ls: seq<seq<int>>)
    requires Rings(rs) && base + CLASSES <= RINGS
    ensures |ls| == CLASSES
  {
    seq(CLASSES, t requires 0 <= t < CLASSES => Addrs(rs[base + t], addr))
  }

  ghost function View(rs: seq<seq<int>>, addr: seq<int>): (ls: Lists)
    requires Rings(rs)
    ensures Shape(ls)
  {
    Lists(Group(rs, addr, 0), Group(rs, addr, CLASSES))
  }

  lemma AddrsInserted(ring: seq<int>, p: nat, x: int, addr: seq<int>)
    requires p < |ring| && 0 <= x < |addr|
    ensures var s := Addrs(ring, addr); Addrs(Inserted(ring, p, x), addr) == s[..p] + [addr[x]] + s[p..]
  {
  }

  lemma AddrsDropped(ring: seq<int>, p: nat, addr: seq<int>)
    requires p + 1 < |ring|
    ensures var s := Addrs(ring, addr); Addrs(Dropped(ring, p), addr) == s[..p] + s[p + 1..]
  {
  }

  lemma GroupUpdate(rs: seq<seq<int>>, addr: seq<int>, base: nat, i: nat, ring: seq<int>)
    requires Rings(rs) && base + CLASSES <= RINGS && i < RINGS && ring != []
    ensures Rings(rs[i := ring])
    ensures Group(rs[i := ring], addr, base) ==
      if base <= i < base + CLASSES then Group(rs, addr, base)[i - base := Addrs(ring, addr)]
      else Group(rs, addr, base)
  {
    forall t | 0 <= t < CLASSES
      ensures Addrs(rs[i := ring][base + t], addr) ==
        if base + t == i then Addrs(ring, addr) else Group(rs, addr, base)[t]
    {
    }
  }

  /** Changing the address of a descriptor that is on no list changes no list. */
  lemma GroupFrame(next: seq<int>, rs: seq<seq<int>>, own: seq<int>, addr: seq<int>, base: nat, x: int, a: int)
    requires Forest(next, rs, own) && Rings(rs) && base + CLASSES <= RINGS
    requires |addr| == |next| && 0 <= x < |addr| && own[x] == OFF
    ensures Group(rs, addr[x := a], base) == Group(rs, addr, base)
  {
    var addr' := addr[x := a];
    forall t | 0 <= t < CLASSES
      ensures Group(rs, addr', base)[t] == Group(rs, addr, base)[t]
    {
      var ring := rs[base + t];
      assert Cycle(next, ring);
      forall p | 0 <= p < |ring|
        ensures ring[p] != x
      {
        assert own[rs[base + t][p]] == base + t;
      }
      assert Addrs(ring, addr') == Addrs(ring, addr);
    }
  }

  lemma {:induction false} InsertAt(s: seq<int>, a: int, p: nat)
    requires p <= |s| && (forall q :: 0 <= q < p ==> s[q] < a) && (p < |s| ==> s[p] >= a)
    ensures Insert(s, a) == s[..p] + [a] + s[p..]
  {
    if p > 0 {
      assert forall q :: 0 <= q < p - 1 ==> s[1..][q] == s[q + 1];
      InsertAt(s[1..], a, p - 1);
      assert [s[0]] + (s[1..][..p - 1] + [a] + s[1..][p - 1..]) == s[..p] + [a] + s[p..];
    } else {
      assert s[..0] + [a] + s[0..] == [a] + s;
    }
  }

  lemma NotEarlier(s: seq<int>, p: nat)
    requires Sorted(s) && p < |s|
    ensures s[p] !in s[..p] && s[p] in s
  {
  }

  // ----- size types

  /** `t` is the size type of `size`: 2^t is the next power of two. */
  ghost predicate IsSizeType(size: int, t: nat) {
    size <= Pow2(t) && (t > 0 ==> Pow2(t - 1) < size)
  }

  lemma SizeTypeUnique(size: int, t: nat, t': nat)
    requires IsSizeType(size, t) && IsSizeType(size, t')
    ensures t == t'
  {
    if t < t' {
      Pow2Monotone(t, t' - 1);
    } else if t' < t {
      Pow2Monotone(t', t - 1);
    }
  }

  lemma QuotientIsOne(size: int, p: int)
    requires p > 0 && size >= 0
    ensures size / p == 1 <==> p <= size < 2 * p
  {
    QuotientOf(size, size / p, p);
    if p <= size < 2 * p {
      QuotientOf(size, 1, p);
    }
  }

  /** `GetMemBlockSizeType` on the argument as an unsigned 32-bit number. */
  method GetMemBlockSizeType(size: int) returns (t: nat)
    requires 0 < size < U32
    ensures IsSizeType(size, t)
  {
    Pow2Values();
    var i: nat := 0;
    while i < 32
      invariant i <= 32 && Pow2(i) <= size
    {
      QuotientIsOne(size, Pow2(i));
      if size / Pow2(i) == 1 {
        break;
      }
      i := i + 1;
    }
    // bit i is the highest one of size, so masking with it gives size only for a power of two
    var masked := size / Pow2(i) % 2 * Pow2(i);
    QuotientIsOne(size, Pow2(i));
    t := if masked == size then i else i + 1;
  }

  // ----- the effect of one link operation on the view

  function ListNo(ls: Lists, i: nat): seq<int>
    requires Shape(ls) && i < POOL
  {
    if i < CLASSES then ls.free[i] else ls.used[i - CLASSES]
  }

  /** The lists with number `i` replaced; the pool is not part of them. */
  function SetList(ls: Lists, i: nat, s: seq<int>): (ls': Lists)
    requires Shape(ls) && i < RINGS
    ensures Shape(ls')
  {
    if i < CLASSES then ls.(free := ls.free[i := s])
    else if i < POOL then ls.(used := ls.used[i - CLASSES := s])
    else ls
  }

  lemma ViewUpdate(rs: seq<seq<int>>, addr: seq<int>, i: nat, ring: seq<int>)
    requires Rings(rs) && i < RINGS && ring != []
    ensures Rings(rs[i := ring])
    ensures View(rs[i := ring], addr) == SetList(View(rs, addr), i, Addrs(ring, addr))
  {
    GroupUpdate(rs, addr, 0, i, ring);
    GroupUpdate(rs, addr, CLASSES, i, ring);
  }

  lemma {:induction false} TotalSplit(rs: seq<seq<int>>, n: nat)
    requires n <= |rs|
    ensures Total(rs) == Total(rs[..n]) + Total(rs[n..])
  {
    if n == |rs| {
      assert rs[..n] == rs;
    } else {
      var init := rs[..|rs| - 1];
      TotalSplit(init, n);
      assert init[..n] == rs[..n] && init[n..] == rs[n..][..|rs| - n - 1];
    }
  }

  lemma {:induction false} CountSnoc(lists: seq<seq<int>>)
    requires lists != []
    ensures Count(lists) == Count(lists[..|lists| - 1]) + |lists[|lists| - 1]|
  {
    if |lists| > 1 {
      CountSnoc(lists[1..]);
      assert lists[1..][..|lists| - 2] == lists[..|lists| - 1][1..];
    }
  }

  lemma {:induction false} CountRings(rings: seq<seq<int>>, lists: seq<seq<int>>)
    requires |rings| == |lists| && forall i :: 0 <= i < |rings| ==> |rings[i]| == |lists[i]| + 1
    ensures Total(rings) == Count(lists) + |lists|
  {
    if rings != [] {
      CountRings(rings[..|rings| - 1], lists[..|lists| - 1]);
      CountSnoc(lists);
    }
  }

  lemma CountGroup(rs: seq<seq<int>>, addr: seq<int>, base: nat)
    requires Rings(rs) && base + CLASSES <= RINGS
    ensures Total(rs[base..base + CLASSES]) == Count(Group(rs, addr, base)) + CLASSES
  {
    var rings, lists := rs[base..base + CLASSES], Group(rs, addr, base);
    forall i | 0 <= i < CLASSES
      ensures |rings[i]| == |lists[i]| + 1
    {
      assert rings[i] == rs[base + i] && lists[i] == Addrs(rs[base + i], addr);
    }
    CountRings(rings, lists);
  }

  // ----- building the pool

  /** The pool as `MemBlockPoolInit` leaves it: every descriptor once, the last one first. */
  function PoolRing(n: nat): seq<int> {
    seq(n, p requires 0 <= p < n => if p == 0 then 0 else n - p)
  }

  /** Descriptor 0 heads the pool, and below `n` each descriptor points to the one before. */
  ghost predicate PoolChain(next: seq<int>, n: nat) {
    0 < n <= |next| && next[0] == n - 1 && forall x :: 0 < x < n ==> next[x] == x - 1
  }

  lemma PoolChainIsRing(next: seq<int>, n: nat)
    requires PoolChain(next, n)
    ensures Cycle(next, PoolRing(n)) && Distinct(PoolRing(n))
  {
  }

  /** Starts by inserting the head after itself, which changes nothing. */
  method MemBlockPoolInit(mem: ListMemory)
    requires |mem.next| == BLOCKS
    modifies mem
    ensures |mem.next| == BLOCKS && PoolChain(mem.next, BLOCKS)
  {
    mem.next := mem.next[0 := 0];
    var tmp := 0;
    while tmp < BLOCKS
      invariant 0 <= tmp <= BLOCKS && |mem.next| == BLOCKS
      invariant if tmp == 0 then mem.next[0] == 0 else PoolChain(mem.next, tmp)
    {
      mem.ListAdd(0, tmp);
      tmp := tmp + 1;
    }
  }

  /** The node that heads ring `i`. */
  function HeadNode(i: nat): int
    requires i < RINGS
  {
    if i == POOL then 0
    else if i < CLASSES then BLOCKS - 1 - 2 * i
    else BLOCKS - 2 - 2 * (i - CLASSES)
  }

  /** The ring that node `x` is on before the first block is placed. */
  function FirstOwner(x: int): int {
    var d := BLOCKS - 1 - x;
    if d >= POOL then POOL else if d % 2 == 0 then d / 2 else CLASSES + d / 2
  }

  function FirstRings(): (rs: seq<seq<int>>)
    ensures Rings(rs)
  {
    seq(POOL, i requires 0 <= i < POOL => [HeadNode(i)]) + [PoolRing(BLOCKS - POOL)]
  }

  ghost predicate HeadsTaken(next: seq<int>, t: nat)
    requires |next| == BLOCKS && t <= CLASSES
  {
    && PoolChain(next, BLOCKS - 2 * t)
    && forall x :: BLOCKS - 2 * t <= x < BLOCKS ==> next[x] == x
  }

  lemma HeadsTakenNone(next: seq<int>)
    requires |next| == BLOCKS && PoolChain(next, BLOCKS)
    ensures HeadsTaken(next, 0)
  {
  }

  /** Taking two descriptors from the pool and making each the head of an empty list. */
  lemma TakeTwo(next: seq<int>, t: nat)
    requires |next| == BLOCKS && t < CLASSES && HeadsTaken(next, t)
    ensures var f := next[0];
      && f == HeadNode(t) && Node(next, f)
      && var next1 := Remove(next, 0)[f := f];
         var u := next1[0];
         && u == HeadNode(CLASSES + t) && |next1| == BLOCKS && Node(next1, u)
         && |Remove(next1, 0)| == BLOCKS && HeadsTaken(Remove(next1, 0)[u := u], t + 1)
  {
  }

  lemma FirstAccounted(own: seq<int>)
    requires |own| == BLOCKS && forall x :: 0 <= x < BLOCKS ==> own[x] == FirstOwner(x)
    ensures Accounted(FirstRings(), own, {})
  {
    var rs := FirstRings();
    forall x | 0 <= x < BLOCKS
      ensures OnRing(rs, own, x)
    {
      var d := BLOCKS - 1 - x;
      if d >= POOL {
        assert rs[POOL][if x == 0 then 0 else BLOCKS - POOL - x] == x;
      } else {
        assert rs[FirstOwner(x)] == [x];
      }
    }
  }

  lemma FirstForest(next: seq<int>, own: seq<int>)
    requires |next| == BLOCKS && HeadsTaken(next, CLASSES)
    requires |own| == BLOCKS && forall x :: 0 <= x < BLOCKS ==> own[x] == FirstOwner(x)
    ensures Forest(next, FirstRings(), own)
    ensures forall i :: 0 <= i < RINGS ==> FirstRings()[i][0] == HeadNode(i)
  {
    PoolChainIsRing(next, BLOCKS - POOL);
  }

  lemma FirstView(addr: seq<int>)
    ensures View(FirstRings(), addr) == Lists(Empty(), Empty())
    ensures |FirstRings()[POOL]| == BLOCKS - POOL
  {
    forall t | 0 <= t < CLASSES
      ensures Group(FirstRings(), addr, 0)[t] == [] && Group(FirstRings(), addr, CLASSES)[t] == []
    {
      assert |FirstRings()[t]| == 1 && |FirstRings()[CLASSES + t]| == 1;
    }
  }

  lemma ViewList(rs: seq<seq<int>>, addr: seq<int>, i: nat)
    requires Rings(rs) && i < POOL
    ensures ListNo(View(rs, addr), i) == Addrs(rs[i], addr)
    ensures |Addrs(rs[i], addr)| == |rs[i]| - 1
  {
  }

  lemma AddrsAt(ring: seq<int>, addr: seq<int>, p: nat)
    requires p + 1 < |ring| && 0 <= ring[p + 1] < |addr|
    ensures p < |Addrs(ring, addr)| && Addrs(ring, addr)[p] == addr[ring[p + 1]]
  {
  }

  lemma RingScan(next: seq<int>, ring: seq<int>, addr: seq<int>, p: nat)
    requires Cycle(next, ring) && Distinct(ring) && |addr| == |next| && p < |ring|
    ensures Node(next, ring[p]) && |Addrs(ring, addr)| == |ring| - 1
    ensures next[ring[p]] == ring[0] <==> p + 1 == |ring|
    ensures p + 1 < |ring| ==> next[ring[p]] == ring[p + 1] && Node(next, ring[p + 1])
    ensures p + 1 < |ring| ==> addr[ring[p + 1]] == Addrs(ring, addr)[p]
  {
    assert next[ring[p]] == Succ(ring, p);
  }

  lemma HeldIsOff(rs: seq<seq<int>>, own: seq<int>, held: set<int>, x: int)
    requires Accounted(rs, own, held) && x in held
    ensures 0 <= x < |own| && own[x] == OFF
  {
  }
}
