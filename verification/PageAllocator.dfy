/**
 The word bitmap (kernel/lib/bitmap.h) and the physical page allocator on it
 (`PageAllocatorInit`, `ReqPage` and `RelPage` in kernel/memory/paging.c).

 The text departs from its comments in four places; `Version` selects which is modelled:
 - bitmap.h reduces the bit index modulo 4 (the size of a word in bytes) instead of 32, so that
   eight pages share a bit;
 - line 362 of paging.c clears the bits of the pages after the last region, where the comment
   has them set;
 - line 394 compares strictly, so that the first page of a region is never released;
 - the sum on line 394 wraps around for the last page, which is then taken to be in memory.
 */
module PageAllocator {
  import opened Basics

  datatype Version = AsWritten | Documented

  const PAGES: nat := 0x10_0000   // kVirtualPageNum
  const FIRST: nat := 0x4000      // kDynamicMappingStartPage

  // ----- bits

  function Modulus(v: Version): nat {
    if v == AsWritten then 4 else 32
  }

  /** The word and the bit that stand for page `i`. */
  function Slot(v: Version, i: nat): (nat, nat) {
    (i / 32, i % Modulus(v))
  }

  /** A 32-bit word as its bits, the lowest first. */
  type Bits32 = w: seq<bool> | |w| == 32 witness seq(32, _ => false)

  /**
   As documented, different pages have different bits; as written they share one exactly when
   they are in the same word and agree modulo 4.
   */
  lemma SharedBit(v: Version, i: nat, j: nat)
    ensures v == Documented ==> (Slot(v, i) == Slot(v, j) <==> i == j)
    ensures v == AsWritten ==> (Slot(v, i) == Slot(v, j) <==> i / 32 == j / 32 && i % 4 == j % 4)
  {
    assert i == 32 * (i / 32) + i % 32 && j == 32 * (j / 32) + j % 32;
  }

  /** Setting the bit of page 0 as written also takes pages 4, 8, ..., 28. */
  lemma PagesZeroAndFourShare()
    ensures Slot(AsWritten, 0) == Slot(AsWritten, 4) && Slot(Documented, 0) != Slot(Documented, 4)
  {
  }

  predicate BitAt(words: seq<Bits32>, v: Version, i: nat)
    requires i < 32 * |words|
  {
    words[i / 32][i % Modulus(v)]
  }

  lemma SameSlotSameBit(words: seq<Bits32>, v: Version, i: nat, j: nat)
    requires i < 32 * |words| && j < 32 * |words|
    ensures Slot(v, i) == Slot(v, j) ==> BitAt(words, v, i) == BitAt(words, v, j)
  {
  }

  /** The words with the bit of index `i` set to `state`. */
  function Marked(words: seq<Bits32>, v: Version, i: nat, state: bool): (words': seq<Bits32>)
    requires i < 32 * |words|
    ensures |words'| == |words|
    ensures forall j: nat :: j < 32 * |words| ==>
      BitAt(words', v, j) == if Slot(v, j) == Slot(v, i) then state else BitAt(words, v, j)
  {
    words[i / 32 := words[i / 32][i % Modulus(v) := state]]
  }

  class Bitmap {
    const v: Version
    var words: seq<Bits32>

    constructor (v: Version, n: nat)
      ensures this.v == v && |words| == n && forall i: nat :: i < 32 * n ==> !IsSet(i)
    {
      this.v, words := v, seq(n, _ => seq(32, _ => false));
    }

    /** `Bitmap`: all bits to `state`. */
    method Fill(state: bool)
      modifies this
      ensures |words| == old(|words|) && forall i: nat :: i < 32 * |words| ==> IsSet(i) == state
    {
      var i := 0;
      while i < |words|
        invariant 0 <= i <= |words| == old(|words|)
        invariant forall k, b :: 0 <= k < i && 0 <= b < 32 ==> words[k][b] == state
      {
        words := words[i := seq(32, _ => state)];
        i := i + 1;
      }
    }

    /** `IsBitmapSet`. */
    predicate IsSet(i: nat)
      requires i < 32 * |words|
      reads this
    {
      BitAt(words, v, i)
    }

    method SetBitmap(i: nat)
      requires i < 32 * |words|
      modifies this
      ensures |words| == old(|words|) && words == Marked(old(words), v, i, true)
      ensures forall j: nat :: j < 32 * |words| ==> IsSet(j) == (old(IsSet(j)) || Slot(v, j) == Slot(v, i))
    {
      words := words[i / 32 := words[i / 32][i % Modulus(v) := true]];
    }

    method ClearBitmap(i: nat)
      requires i < 32 * |words|
      modifies this
      ensures |words| == old(|words|) && words == Marked(old(words), v, i, false)
      ensures forall j: nat :: j < 32 * |words| ==> IsSet(j) == (old(IsSet(j)) && Slot(v, j) != Slot(v, i))
    {
      words := words[i / 32 := words[i / 32][i % Modulus(v) := false]];
    }
  }

  // ----- regions

  datatype Region = Region(addr: int, size: int)

  /**
   The region leaves the last page free and starts before the page below it, so that neither
   the addresses of the loops nor the sums of their tests wrap around.
   */
  predicate Fits(r: Region) {
    0 <= r.addr <= U32 - 2 * PAGE && 0 <= r.size && r.addr + r.size < U32 - PAGE
  }

  /** Sorted and disjoint regions that fit. */
  ghost predicate Regions(rs: seq<Region>) {
    && (forall k :: 0 <= k < |rs| ==> Fits(rs[k]))
    && (forall k, l :: 0 <= k < l < |rs| ==> rs[k].addr + rs[k].size <= rs[l].addr)
  }

  /**
   Why the end must fit: the test of the loop over a region, which wraps around on the last page,
   fails on any page at all exactly if the region ends below the last page.
   */
  lemma RegionLoopEnds(end: int)
    requires 0 <= end < U32
    ensures (exists p: nat :: p < PAGES && Beyond(p, end)) <==> end < U32 - PAGE
  {
    if end < U32 - PAGE {
      assert Beyond(PAGES - 2, end);
    }
  }

  /** The loop over a region that ends at `end` stops at page `p`. */
  predicate Beyond(p: nat, end: int) {
    PageAfter(p * PAGE) > end
  }

  predicate InRegion(r: Region, p: int) {
    r.addr <= p * PAGE && p * PAGE + PAGE <= r.addr + r.size
  }

  /** Page `p` lies wholly inside one of the regions. */
  ghost predicate Inside(rs: seq<Region>, p: int) {
    exists k :: 0 <= k < |rs| && InRegion(rs[k], p)
  }

  // ----- which page decides a bit

  /** The highest page that has the same bit as page `n`. */
  function Top(v: Version, n: nat): nat {
    if v == AsWritten then n / 32 * 32 + n % 4 + 28 else n
  }

  lemma TopShares(v: Version, n: nat, p: nat)
    ensures Slot(v, Top(v, n)) == Slot(v, n)
    ensures Slot(v, p) == Slot(v, n) ==> p <= Top(v, n)
    ensures n < PAGES ==> Top(v, n) < PAGES
    ensures n >= FIRST ==> Top(v, n) >= FIRST
  {
    if v == AsWritten {
      TopAsWritten(n, p);
    } else {
      SharedBit(v, p, n);
    }
  }

  lemma TopAsWritten(n: nat, p: nat)
    ensures var t := n / 32 * 32 + n % 4 + 28; t / 32 == n / 32 && t % 4 == n % 4 && t >= n
    ensures p / 32 == n / 32 && p % 4 == n % 4 ==> p <= n / 32 * 32 + n % 4 + 28
  {
    var w := n / 32;
    assert n == 32 * w + n % 32 && p == 32 * (p / 32) + p % 32;
    FourDivides(w, n % 32);
    FourDivides(p / 32, p % 32);
    FourDivides(w, n % 4 + 28);
  }

  lemma FourDivides(w: nat, x: nat)
    requires x < 32
    ensures (32 * w + x) % 4 == x % 4 && (32 * w + x) / 32 == w
  {
    FourTimes(8 * w + x / 4, x % 4);
    assert 32 * w + x == 4 * (8 * w + x / 4) + x % 4;
  }

  lemma FourTimes(k: nat, r: nat)
    requires r < 4
    ensures (4 * k + r) % 4 == r
  {
  }

  /** The state of a bit after the pages below `p` have been written in order, page `q` as `bad(q)`. */
  ghost function Written(v: Version, n: nat, p: nat, bad: nat -> bool): bool {
    if p == 0 then false
    else if Slot(v, p - 1) == Slot(v, n) then bad(p - 1)
    else Written(v, n, p - 1, bad)
  }

  lemma {:induction false} TopDecides(v: Version, n: nat, p: nat, bad: nat -> bool)
    requires p > Top(v, n)
    ensures Written(v, n, p, bad) == bad(Top(v, n))
  {
    TopShares(v, n, p - 1);
    if p - 1 > Top(v, n) {
      TopDecides(v, n, p - 1, bad);
    }
  }

  // ----- what initialisation makes of a page

  /** Where the loops for region `r` stop when they start at page `p`. */
  function Next(p: nat, r: Region): (q: int)
    requires 0 <= r.addr && 0 <= r.size
    ensures q >= p
  {
    var start := if p * PAGE < r.addr then (r.addr + PAGE - 1) / PAGE else p;
    if start * PAGE + PAGE <= r.addr + r.size then (r.addr + r.size) / PAGE else start
  }

  /** The first page that the loop over the regions, from region `k` and page `p` on, leaves over. */
  ghost function Tail(rs: seq<Region>, k: nat, p: nat): (q: nat)
    requires Regions(rs) && k <= |rs|
    ensures q >= p
    decreases |rs| - k
  {
    if k == |rs| then p else Tail(rs, k + 1, Next(p, rs[k]))
  }

  /** The same from the last region alone: its end, or its start if it holds no whole page. */
  function Reach(rs: seq<Region>): (q: int) {
    if rs == [] then 0
    else
      var r := rs[|rs| - 1];
      var start, end := (r.addr + PAGE - 1) / PAGE, (r.addr + r.size) / PAGE;
      if start <= end then end else start
  }

  /** Where the loops get to for one region; for the last one it is `Reach`. */
  lemma NextReaches(rs: seq<Region>, k: nat, p: nat)
    requires Regions(rs) && k < |rs| && p <= Reach(rs)
    ensures Next(p, rs[k]) <= Reach(rs) && (k == |rs| - 1 ==> Next(p, rs[k]) == Reach(rs))
  {
    var r := rs[|rs| - 1];
    assert k < |rs| - 1 ==> rs[k].addr + rs[k].size <= r.addr;
  }

  lemma {:induction false} TailIsReach(rs: seq<Region>, k: nat, p: nat)
    requires Regions(rs) && k <= |rs| && p <= Reach(rs) && (k == |rs| ==> p == Reach(rs))
    ensures Tail(rs, k, p) == Reach(rs)
    decreases |rs| - k
  {
    hide Next, Reach;
    if k < |rs| {
      NextReaches(rs, k, p);
      TailIsReach(rs, k + 1, Next(p, rs[k]));
    }
  }

  /** A page is below that point exactly if it starts before the last region or ends inside it. */
  lemma ReachIs(rs: seq<Region>, p: nat)
    requires Regions(rs)
    ensures p < Reach(rs) <==>
      rs != [] && (p * 0x1000 < rs[|rs| - 1].addr || p * 0x1000 + 0x1000 <= rs[|rs| - 1].addr + rs[|rs| - 1].size)
  {
  }

  /** There is a region other than less than a page at address 0. */
  ghost predicate AnyPage(rs: seq<Region>) {
    exists k :: 0 <= k < |rs| && (rs[k].addr > 0 || rs[k].size >= PAGE)
  }

  /** Otherwise, and only then, the loops stay at page 0. */
  lemma ReachesAnyPage(rs: seq<Region>)
    requires Regions(rs)
    ensures 0 <= Reach(rs) < PAGES
    ensures Reach(rs) > 0 <==> AnyPage(rs)
  {
    if rs != [] {
      var r := rs[|rs| - 1];
      assert forall k :: 0 <= k < |rs| - 1 ==> rs[k].addr + rs[k].size <= r.addr;
    }
  }

  /**
   Pages outside all regions are made unavailable, those after the last region only in the
   documented version, and only if the loops have reached any page at all.
   */
  ghost predicate Unavailable(v: Version, rs: seq<Region>, p: nat) {
    !Inside(rs, p) && (p < Reach(rs) || (v == Documented && Reach(rs) > 0))
  }

  /** The loops have left region `j` behind: no page from `p` on is inside it. */
  ghost predicate Behind(rs: seq<Region>, k: nat, p: int) {
    forall j :: 0 <= j < k && j < |rs| ==> rs[j].addr + rs[j].size < p * PAGE + PAGE
  }

  lemma GapPage(rs: seq<Region>, k: nat, p: nat)
    requires Regions(rs) && k <= |rs| && Behind(rs, k, p) && (k < |rs| ==> p * PAGE < rs[k].addr)
    ensures !Inside(rs, p)
    ensures k < |rs| ==> Next(p + 1, rs[k]) == Next(p, rs[k]) && Next(p, rs[k]) > p
  {
    if k < |rs| {
      assert forall l :: k < l < |rs| ==> rs[k].addr + rs[k].size <= rs[l].addr;
    }
  }

  lemma RegionPage(rs: seq<Region>, k: nat, p: nat)
    requires Regions(rs) && k < |rs| && rs[k].addr <= p * PAGE && p * PAGE + PAGE <= rs[k].addr + rs[k].size
    ensures Inside(rs, p) && Next(p + 1, rs[k]) == Next(p, rs[k]) && Next(p, rs[k]) > p
  {
    assert InRegion(rs[k], p);
    var end := rs[k].addr + rs[k].size;
    assert end / PAGE * PAGE <= end < end / PAGE * PAGE + PAGE;
  }

  /** `addr + PageSize` in 32 bits. */
  function PageAfter(addr: int): int {
    (addr + PAGE) % U32
  }

  /** What the loop over region `k` needs of each page in it. */
  lemma PageOfRegion(v: Version, rs: seq<Region>, k: nat, p: nat)
    requires Regions(rs) && k < |rs| && Behind(rs, k, p)
    requires rs[k].addr <= p * PAGE && p * PAGE + PAGE <= rs[k].addr + rs[k].size
    ensures !Unavailable(v, rs, p) && Behind(rs, k, p + 1) && Tail(rs, k, p + 1) == Tail(rs, k, p)
  {
    hide Next;
    RegionPage(rs, k, p);
  }

  lemma RegionDone(rs: seq<Region>, k: nat, p: nat)
    requires Regions(rs) && k < |rs| && Behind(rs, k, p) && rs[k].addr <= p * PAGE
    requires p * PAGE + PAGE > rs[k].addr + rs[k].size
    ensures Behind(rs, k + 1, p) && Tail(rs, k + 1, p) == Tail(rs, k, p)
  {
    NextStops(p, rs[k]);
  }

  lemma NextStops(p: nat, r: Region)
    requires 0 <= r.addr <= p * PAGE && 0 <= r.size && p * PAGE + PAGE > r.addr + r.size
    ensures Next(p, r) == p
  {
  }

  // ----- the allocator as a state machine

  type PageNumber = n: nat | n < PAGES

  /** The bits, and the history of which pages are granted and not given back. */
  datatype Pages = Pages(words: seq<Bits32>, held: set<nat>)

  datatype Call = Req | Rel(n: PageNumber)

  /** Granted pages are marked, and no two of them share a bit. */
  ghost predicate InOrder(v: Version, s: Pages)
    ensures InOrder(v, s) ==> |s.words| == 0x8000
  {
    && |s.words| == 0x8000
    && (forall h :: h in s.held ==> FIRST <= h < PAGES && BitAt(s.words, v, h))
    && (forall h, g :: h in s.held && g in s.held && Slot(v, h) == Slot(v, g) ==> h == g)
  }

  /** The first free page from `i` on, or `PAGES`. */
  function Lowest(v: Version, words: seq<Bits32>, i: nat): (p: nat)
    requires |words| == 0x8000 && i <= PAGES
    ensures i <= p <= PAGES && (p < PAGES ==> !BitAt(words, v, p))
    ensures forall n: nat :: i <= n < p ==> BitAt(words, v, n)
    decreases PAGES - i
  {
    if i == PAGES || !BitAt(words, v, i) then i else Lowest(v, words, i + 1)
  }

  /** One call, and the page that it grants, or 0. */
  ghost function Do(v: Version, rs: seq<Region>, s: Pages, c: Call): (res: (Pages, nat))
    requires |s.words| == 0x8000
    ensures |res.0.words| == 0x8000
  {
    match c
    case Req =>
      var i := Lowest(v, s.words, FIRST);
      if i == PAGES then (s, 0) else (Pages(Marked(s.words, v, i, true), s.held + {i}), i)
    case Rel(n) =>
      (Pages(if Releasable(v, rs, n) then Marked(s.words, v, n, false) else s.words, s.held - {n}), 0)
  }

  /** The release takes the bit of another granted page with it. */
  ghost predicate Harmful(v: Version, rs: seq<Region>, s: Pages, c: Call) {
    c.Rel? && Releasable(v, rs, c.n) && exists h :: h in s.held && h != c.n && Slot(v, h) == Slot(v, c.n)
  }

  /** A request keeps the order and grants a page that is not held. */
  lemma RequestKeeps(v: Version, rs: seq<Region>, s: Pages)
    requires |s.words| == 0x8000
    ensures var (s', p) := Do(v, rs, s, Req);
      InOrder(v, s) ==> InOrder(v, s') && (p != 0 ==> p !in s.held && p in s'.held)
  {
    hide BitAt, Slot, Marked;
    var i := Lowest(v, s.words, FIRST);
    if i < PAGES && InOrder(v, s) {
      forall h | h in s.held
        ensures Slot(v, h) != Slot(v, i)
      {
        SameSlotSameBit(s.words, v, h, i);
      }
    }
  }

  /** A release keeps the order if and only if it is not harmful. */
  lemma ReleaseKeepsIff(v: Version, rs: seq<Region>, s: Pages, n: PageNumber)
    requires InOrder(v, s)
    ensures InOrder(v, Do(v, rs, s, Rel(n)).0) <==> !Harmful(v, rs, s, Rel(n))
  {
    hide BitAt, Slot, Marked, Releasable;
  }

  /** As documented no call is harmful. */
  lemma DocumentedIsHarmless(rs: seq<Region>, s: Pages, c: Call)
    ensures !Harmful(Documented, rs, s, c)
  {
    if c.Rel? {
      forall h | h in s.held
        ensures Slot(Documented, h) == Slot(Documented, c.n) ==> h == c.n
      {
        SharedBit(Documented, h, c.n);
      }
    }
  }

  // ----- the allocator

  class PageAllocator {
    const bits: Bitmap
    const rs: seq<Region>
    ghost var held: set<nat>  // pages granted and not given back

    ghost predicate Sized()
      reads bits
    {
      |bits.words| == 0x8000 && Regions(rs)
    }

    ghost predicate Valid()
      reads this, bits
    {
      Sized() && InOrder(bits.v, Now())
    }

    ghost function Now(): Pages
      reads this, bits
    {
      Pages(bits.words, held)
    }

    /** Only pages inside a region are free. */
    ghost predicate Sound()
      requires Sized()
      reads bits
    {
      forall n: nat :: FIRST <= n < PAGES && !bits.IsSet(n) ==> Inside(rs, n)
    }

    /** `PageAllocatorInit`. */
    constructor (v: Version, rs: seq<Region>)
      requires Regions(rs)
      ensures Valid() && bits.v == v && this.rs == rs && held == {} && fresh(bits)
      ensures forall n: nat :: FIRST <= n < PAGES ==> bits.IsSet(n) == Unavailable(v, rs, Top(v, n))
      ensures forall n: nat :: n < FIRST ==> !bits.IsSet(n)
      ensures Sound() <==> v == Documented && AnyPage(rs)
    {
      bits := new Bitmap(v, 0x8000);
      this.rs, held := rs, {};
      new;
      hide Unavailable, Inside, Regions, BitAt;
      ScanRegions();
      ClearLow();
      InitiallySound();
    }

    /** Only pages inside a region start out free, if as documented some page is reached. */
    lemma InitiallySound()
      requires Sized()
      requires forall n: nat :: FIRST <= n < PAGES ==> bits.IsSet(n) == Unavailable(bits.v, rs, Top(bits.v, n))
      ensures Sound() <==> bits.v == Documented && AnyPage(rs)
    {
      hide Reach, Regions, BitAt, AnyPage;
      ReachesAnyPage(rs);
      if bits.v == AsWritten {
        LastPageIsFree(rs);
        assert !bits.IsSet(PAGES - 1);
      } else if Reach(rs) == 0 {
        NoPageInside(rs, FIRST);
        assert !bits.IsSet(FIRST);
      }
    }

    /** After the pages below `p` every bit is as the last of its pages made it. */
    ghost predicate Done(p: nat)
      reads bits
    {
      && Sized() && p <= PAGES
      && forall n: nat :: n < PAGES ==> bits.IsSet(n) == Written(bits.v, n, p, Bad(bits.v, rs))
    }

    /** `SetBitmap` or `ClearBitmap` on the next page. */
    method Mark(p: nat, state: bool)
      requires Done(p) && p < PAGES && Unavailable(bits.v, rs, p) == state
      modifies bits
      ensures Sized() && Done(p + 1)
    {
      hide Unavailable, Regions;
      if state {
        bits.SetBitmap(p);
      } else {
        bits.ClearBitmap(p);
      }
    }

    method MarkGap(k: nat, addr0: int) returns (addr: int)
      requires Sized() && k < |rs| && 0 <= addr0 <= U32 - 2 * PAGE && addr0 % PAGE == 0 && Done(addr0 / PAGE)
      requires Behind(rs, k, addr0 / PAGE) && Tail(rs, k, addr0 / PAGE) == Reach(rs)
      modifies bits
      ensures addr0 <= addr && addr % PAGE == 0 && addr >= rs[k].addr && Done(addr / PAGE)
      ensures addr <= U32 - 2 * PAGE
      ensures Behind(rs, k, addr / PAGE) && Tail(rs, k, addr / PAGE) == Reach(rs)
    {
      hide Inside, Done, Next;
      addr := addr0;
      while addr < rs[k].addr
        invariant addr0 <= addr && addr % PAGE == 0 && Done(addr / PAGE) && Behind(rs, k, addr / PAGE)
        invariant addr <= U32 - 2 * PAGE
        invariant Tail(rs, k, addr / PAGE) == Reach(rs)
      {
        GapPage(rs, k, addr / PAGE);
        Mark(addr / PAGE, true);
        addr := PageAfter(addr);
      }
    }

    /** The loops are at region `k` and page `p`. */
    ghost predicate Reached(k: nat, p: nat)
      reads bits
    {
      Sized() && k <= |rs| && Done(p) && Behind(rs, k, p) && Tail(rs, k, p) == Reach(rs)
    }

    method MarkPage(k: nat, p: nat)
      requires Reached(k, p) && k < |rs| && rs[k].addr <= p * PAGE && p * PAGE + PAGE <= rs[k].addr + rs[k].size
      modifies bits
      ensures Reached(k, p + 1)
    {
      assert Fits(rs[k]);
      hide Inside, Done, Next, Unavailable, Reach, Regions, Behind, Tail;
      PageOfRegion(bits.v, rs, k, p);
      Mark(p, false);
    }

    method MarkRegion(k: nat, addr0: int) returns (addr: int)
      requires k < |rs| && rs[k].addr <= addr0 <= U32 - 2 * PAGE && addr0 % PAGE == 0
      requires 0 <= addr0 && Fits(rs[k]) && Reached(k, addr0 / PAGE)
      modifies bits
      ensures addr0 <= addr <= U32 - 2 * PAGE && addr % PAGE == 0 && Reached(k + 1, addr / PAGE)
    {
      hide Reached;
      addr := addr0;
      while PageAfter(addr) <= rs[k].addr + rs[k].size
        invariant addr0 <= addr <= U32 - 2 * PAGE && addr % PAGE == 0 && Reached(k, addr / PAGE)
        decreases U32 - addr
      {
        MarkPage(k, addr / PAGE);
        addr := PageAfter(addr);
      }
      LeaveRegion(k, addr / PAGE);
    }

    lemma LeaveRegion(k: nat, p: nat)
      requires Reached(k, p) && k < |rs| && rs[k].addr <= p * PAGE && p * PAGE + PAGE > rs[k].addr + rs[k].size
      ensures Reached(k + 1, p)
    {
      RegionDone(rs, k, p);
    }

    /** The loops over the regions and over what is left after the last one. */
    method ScanRegions()
      requires Sized() && forall n: nat :: n < PAGES ==> !bits.IsSet(n)
      modifies bits
      ensures Sized()
      ensures forall n: nat :: FIRST <= n < PAGES ==> bits.IsSet(n) == Unavailable(bits.v, rs, Top(bits.v, n))
    {
      hide Unavailable, Next, Reach;
      ReachesAnyPage(rs);
      TailIsReach(rs, 0, 0);
      var addr, k := 0, 0;
      while k < |rs|
        invariant 0 <= k <= |rs| && 0 <= addr <= U32 - 2 * PAGE && addr % PAGE == 0 && Done(addr / PAGE)
        invariant Behind(rs, k, addr / PAGE) && Tail(rs, k, addr / PAGE) == Reach(rs)
      {
        addr := MarkGap(k, addr);
        addr := MarkRegion(k, addr);
        k := k + 1;
      }
      if addr == 0 {
        NothingWritten();
      }
      MarkRest(addr);
      if addr == 0 {
        NothingReached(bits.v, rs);
        forall n: nat | FIRST <= n < PAGES
          ensures bits.IsSet(n) == Unavailable(bits.v, rs, Top(bits.v, n))
        {
          assert !BitAt(bits.words, bits.v, n);
        }
      } else {
        forall n: nat | FIRST <= n < PAGES
          ensures bits.IsSet(n) == Unavailable(bits.v, rs, Top(bits.v, n))
        {
          TopShares(bits.v, n, n);
          TopDecides(bits.v, n, PAGES, Bad(bits.v, rs));
        }
      }
    }

    lemma NothingWritten()
      requires Done(0)
      ensures forall n: nat :: n < PAGES ==> !BitAt(bits.words, bits.v, n)
    {
      forall n: nat | n < PAGES
        ensures !BitAt(bits.words, bits.v, n)
      {
        assert bits.IsSet(n) == Written(bits.v, n, 0, Bad(bits.v, rs));
      }
    }

    /** The loop until `addr` overflows to 0: it sets as documented and clears as written. */
    method MarkRest(addr0: int)
      requires Sized() && 0 <= addr0 <= U32 - PAGE && addr0 % PAGE == 0 && Done(addr0 / PAGE)
      requires Behind(rs, |rs|, addr0 / PAGE) && addr0 / PAGE == Reach(rs)
      modifies bits
      ensures Sized() && if addr0 == 0 then bits.words == old(bits.words) else Done(PAGES)
    {
      hide Inside, Next, Regions, Written, Unavailable, Reach, Behind, Done;
      var addr := addr0;
      ghost var p := addr / PAGE;
      while addr / PAGE != 0
        invariant 0 <= addr < U32 && addr % PAGE == 0 && Sized() && Done(p)
        invariant addr0 / PAGE <= p <= PAGES && Behind(rs, |rs|, p)
        invariant addr == if p == PAGES then 0 else p * PAGE
        invariant addr0 == 0 ==> addr == 0 && bits.words == old(bits.words)
        decreases PAGES - p
      {
        AfterLastRegion(bits.v, rs, p);
        Mark(addr / PAGE, bits.v == Documented);
        addr := PageAfter(addr);
        p := p + 1;
      }
    }

    /** The first 64 MB belong to the direct mapping allocator. */
    method ClearLow()
      requires Sized()
      modifies bits
      ensures Sized() && forall n: nat :: n < FIRST ==> !bits.IsSet(n)
      ensures forall n: nat :: FIRST <= n < PAGES ==> bits.IsSet(n) == old(bits.IsSet(n))
    {
      hide Regions;
      var i: nat := 0;
      while i < FIRST
        invariant i <= FIRST && Sized()
        invariant forall n: nat :: n < i ==> !bits.IsSet(n)
        invariant forall n: nat :: FIRST <= n < PAGES ==> bits.IsSet(n) == old(bits.IsSet(n))
      {
        bits.ClearBitmap(i);
        i := i + 1;
      }
    }

    /** `ReqPage`: the lowest free page from `FIRST` on, or 0 when there is none. */
    method ReqPage() returns (addr: nat)
      requires Sized()
      modifies this, bits
      ensures addr % PAGE == 0 && (Now(), addr / PAGE) == Do(bits.v, rs, old(Now()), Req)
      ensures addr == 0 || 0x400_0000 <= addr <= 0xffff_f000
      ensures Sized() && (old(Valid()) ==> Valid()) && (old(Sound()) ==> Sound())
      ensures addr == 0 <==> forall n: nat :: FIRST <= n < PAGES ==> old(bits.IsSet(n))
      ensures addr == 0 ==> Now() == old(Now())
      ensures addr != 0 ==> Granted(old(bits.words), addr / PAGE)
      ensures addr != 0 ==> held == old(held) + {addr / PAGE} && (old(Valid()) ==> addr / PAGE !in old(held))
      ensures addr != 0 ==> forall j: nat :: j < PAGES ==>
        bits.IsSet(j) == (old(bits.IsSet(j)) || Slot(bits.v, j) == Slot(bits.v, addr / PAGE))
      ensures addr != 0 && old(Sound()) ==> Inside(rs, addr / PAGE)
    {
      hide Regions, Inside, Slot, BitAt, InOrder, Marked;
      var i := LowestFree();
      RequestKeeps(bits.v, rs, Now());
      if i == PAGES {
        return 0;
      }
      assert i * PAGE / PAGE == i;
      addr := i * PAGE;
      bits.SetBitmap(i);
      held := held + {i};
    }

    /** The search loop of `ReqPage`. */
    method LowestFree() returns (i: nat)
      requires Sized()
      ensures FIRST <= i <= PAGES
      ensures i == PAGES ==> forall n: nat :: FIRST <= n < PAGES ==> bits.IsSet(n)
      ensures i < PAGES ==> !bits.IsSet(i) && Granted(bits.words, i)
      ensures i == Lowest(bits.v, bits.words, FIRST)
    {
      hide Regions, BitAt;
      i := FIRST;
      while i < PAGES
        invariant FIRST <= i <= PAGES && Lowest(bits.v, bits.words, i) == Lowest(bits.v, bits.words, FIRST)
        invariant forall n: nat :: FIRST <= n < i ==> bits.IsSet(n)
      {
        if !bits.IsSet(i) {
          forall n: nat | FIRST <= n < i
            ensures BitAt(bits.words, bits.v, n)
          {
            assert bits.IsSet(n);
          }
          return;
        }
        i := i + 1;
      }
    }

    /** Page `i` was the lowest free one. */
    ghost predicate Granted(words: seq<Bits32>, i: nat)
      requires |words| == 0x8000
    {
      && FIRST <= i < PAGES && !BitAt(words, bits.v, i)
      && forall n: nat :: FIRST <= n < i ==> BitAt(words, bits.v, n)
    }

    /**
     `RelPage`, without the clearing of the page itself, for any page. The granted pages stay
     marked unless the released page takes the bit of another one with it, which can only happen
     as written.
     */
    method RelPage(n: nat)
      requires Sized() && n < PAGES
      modifies this, bits
      ensures Now() == Do(bits.v, rs, old(Now()), Rel(n)).0
      ensures Sized() && held == old(held) - {n}
      ensures forall j: nat :: j < PAGES ==>
        bits.IsSet(j) == (old(bits.IsSet(j)) && !(Releasable(bits.v, rs, n) && Slot(bits.v, j) == Slot(bits.v, n)))
      ensures old(Valid()) ==> (Valid() <==> !Harmful(bits.v, rs, old(Now()), Rel(n)))
      ensures old(Valid()) && bits.v == Documented ==> Valid()
      ensures old(Sound()) ==>
        (Sound() <==> (Releasable(bits.v, rs, n) ==>
          forall j: nat :: FIRST <= j < PAGES && Slot(bits.v, j) == Slot(bits.v, n) ==> Inside(rs, j)))
      ensures bits.v == Documented && old(Sound()) ==> Sound()
    {
      hide Regions;
      var addr, k := n * PAGE, 0;
      held := held - {n};
      while k < |rs|
        invariant 0 <= k <= |rs| && bits.words == old(bits.words) && held == old(held) - {n}
        invariant forall l :: 0 <= l < k ==> !Covers(bits.v, rs[l], n)
      {
        if (if bits.v == AsWritten then rs[k].addr < addr else rs[k].addr <= addr)
           && rs[k].addr + rs[k].size >= (if bits.v == AsWritten then PageAfter(addr) else addr + PAGE) {
          assert Covers(bits.v, rs[k], n);
          assert bits.v == Documented ==> InRegion(rs[k], n);
          bits.ClearBitmap(n);
          return;
        }
        k := k + 1;
      }
    }
  }

  /**
   The test of `RelPage` on one region: as written it fails on the region's first page, and its
   sum wraps around on the last page of all.
   */
  predicate Covers(v: Version, r: Region, n: nat) {
    if v == AsWritten then r.addr < n * PAGE && r.addr + r.size >= PageAfter(n * PAGE)
    else r.addr <= n * PAGE && r.addr + r.size >= n * PAGE + PAGE
  }

  ghost predicate Releasable(v: Version, rs: seq<Region>, n: nat) {
    exists k :: 0 <= k < |rs| && Covers(v, rs[k], n)
  }

  lemma AfterLastRegion(v: Version, rs: seq<Region>, p: nat)
    requires Regions(rs) && Behind(rs, |rs|, p) && 0 < Reach(rs) <= p
    ensures Unavailable(v, rs, p) == (v == Documented) && Behind(rs, |rs|, p + 1)
  {
    GapPage(rs, |rs|, p);
  }

  lemma NoPageInside(rs: seq<Region>, p: nat)
    requires Regions(rs) && !AnyPage(rs)
    ensures !Inside(rs, p)
  {
  }

  lemma NothingReached(v: Version, rs: seq<Region>)
    requires Reach(rs) == 0
    ensures forall p: nat :: !Unavailable(v, rs, p)
  {
  }

  ghost function Bad(v: Version, rs: seq<Region>): nat -> bool {
    (q: nat) => Unavailable(v, rs, q)
  }

  // ----- what the departures cost

  /**
   As documented, exactly the pages inside a region start out free, if and only if the loops
   reach any page at all.
   */
  lemma DocumentedInit(rs: seq<Region>)
    requires Regions(rs)
    ensures (forall n: nat :: FIRST <= n < PAGES ==> (Unavailable(Documented, rs, Top(Documented, n)) <==> !Inside(rs, n)))
       <==> AnyPage(rs)
  {
    hide Reach;
    ReachesAnyPage(rs);
    if Reach(rs) == 0 {
      assert Top(Documented, FIRST) == FIRST && !Inside(rs, FIRST);
    }
  }

  /**
   As written, the highest page that shares the bit of `n` decides, and pages after the last
   region count as available.
   */
  lemma AsWrittenInit(rs: seq<Region>, n: nat)
    requires Regions(rs)
    ensures var top := n / 32 * 32 + n % 4 + 28;
      !Unavailable(AsWritten, rs, Top(AsWritten, n)) <==> Inside(rs, top) || Reach(rs) <= top
  {
  }

  /** As written, the last page of all is never inside a region and always starts out free. */
  lemma LastPageIsFree(rs: seq<Region>)
    requires Regions(rs)
    ensures !Inside(rs, PAGES - 1) && !Unavailable(AsWritten, rs, Top(AsWritten, PAGES - 1))
  {
    hide Reach;
    ReachesAnyPage(rs);
  }

  /** A concrete failure: with memory up to page 0x4001 only, page 0x4001 starts out free. */
  lemma MissingPageIsFree()
    ensures var rs := [Region(0, 0x400_1000)];
      Regions(rs) && !Inside(rs, 0x4001) && !Unavailable(AsWritten, rs, Top(AsWritten, 0x4001))
  {
    var rs := [Region(0, 0x400_1000)];
    assert Reach(rs) == 0x4001;
  }

  /**
   As documented, exactly the pages inside a region can be given back; as written, below the last
   page, exactly those of them that are not the first of their region.
   */
  lemma ReleasableExactly(rs: seq<Region>, n: nat)
    requires Regions(rs)
    ensures Releasable(Documented, rs, n) <==> Inside(rs, n)
    ensures n < PAGES - 1 ==>
      (Releasable(AsWritten, rs, n) <==>
        Inside(rs, n) && forall k :: 0 <= k < |rs| && InRegion(rs[k], n) ==> rs[k].addr != n * PAGE)
  {
    hide Regions;
    forall k | 0 <= k < |rs|
      ensures Covers(Documented, rs[k], n) <==> InRegion(rs[k], n)
      ensures n < PAGES - 1 ==> (Covers(AsWritten, rs[k], n) <==> InRegion(rs[k], n) && rs[k].addr != n * PAGE)
    {
    }
    forall k, l | 0 <= k < |rs| && 0 <= l < |rs| && InRegion(rs[k], n) && InRegion(rs[l], n)
      ensures k == l
    {
      OneRegion(rs, n, k, l);
    }
    if Releasable(AsWritten, rs, n) && n < PAGES - 1 {
      var k :| 0 <= k < |rs| && Covers(AsWritten, rs[k], n);
      assert InRegion(rs[k], n);
    }
    if Inside(rs, n) {
      var k :| 0 <= k < |rs| && InRegion(rs[k], n);
      assert Covers(Documented, rs[k], n);
    }
  }

  lemma OneRegion(rs: seq<Region>, n: nat, k: nat, l: nat)
    requires Regions(rs) && k < |rs| && l < |rs| && InRegion(rs[k], n) && InRegion(rs[l], n)
    ensures k == l
  {
  }

  /**
   A failure for every list of regions: the last page is in no memory, and as written it can be
   given back all the same, unless there is no memory at all.
   */
  lemma LastPageIsReleasable(rs: seq<Region>)
    requires Regions(rs)
    ensures !Inside(rs, PAGES - 1) && !Releasable(Documented, rs, PAGES - 1)
    ensures Releasable(AsWritten, rs, PAGES - 1) <==> rs != []
  {
    if rs != [] {
      assert Covers(AsWritten, rs[0], PAGES - 1);
    }
  }

  /**
   A concrete failure with 128 MB of memory: the first page is granted, page 0x4004, which is
   free, is released, and as written the next request grants the first page again.
   */
  method ReleaseOfAFreePage(v: Version) returns (p: nat, q: nat)
    ensures p == FIRST * PAGE && q == if v == AsWritten then p else p + PAGE
  {
    hide Unavailable, Inside, BitAt, Slot;
    var rs := [Region(0, 0x800_0000)];
    var a := new PageAllocator(v, rs);
    StartsFree(v, FIRST);
    StartsFree(v, FIRST + 1);
    FirstSlots(v);
    assert !a.bits.IsSet(FIRST) && !a.bits.IsSet(FIRST + 1);
    p := a.ReqPage();
    a.RelPage(0x4004);
    q := a.ReqPage();
  }

  lemma StartsFree(v: Version, n: nat)
    requires FIRST <= n <= FIRST + 4
    ensures !Unavailable(v, [Region(0, 0x800_0000)], Top(v, n))
  {
    assert InRegion([Region(0, 0x800_0000)][0], Top(v, n));
  }

  lemma FirstSlots(v: Version)
    ensures Slot(v, FIRST) == Slot(v, 0x4004) <==> v == AsWritten
    ensures Slot(v, FIRST) != Slot(v, FIRST + 1) && Slot(v, 0x4004) != Slot(v, FIRST + 1)
    ensures Releasable(v, [Region(0, 0x800_0000)], 0x4004)
  {
    assert Covers(v, [Region(0, 0x800_0000)][0], 0x4004);
  }
}
