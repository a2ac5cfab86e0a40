/**
 Page-table construction (`PagingInit` in kernel/memory/paging.c) against the two-level walk of
 section 4.3, "32-Bit Paging", and the access rights of section 4.6 of the Intel 64 and IA-32 Software Developer's Manual, Volume 3A.

 Physical memory is an array of 32-bit words; word `i` is at address `4 * i`.
 */
module Paging {
  import opened Basics

  const ENTRIES: int := 1024          // kPteMaxNum, kPdeNum
  const USER_PDES: int := 768         // kUPdeNum
  const DIRECT_PDES: int := 16        // kKPdeDirectMappingNum
  const K_BASE: int := 0xc000_0000    // kKVirtualAddr
  const K_PD: int := 0xc000_1000      // kKPdAddr
  const K_PT: int := 0xc000_d000      // kKPtAddr
  const WRITE_PRESENT: int := 3       // kKPdeWritePresentAccess, kKPteWritePresentAccess
  const USER_ABSENT: int := 6         // kUPdeWriteAbsentAccess
  const KERNEL_ABSENT: int := 2       // kKPdeWriteAbsentAccess
  const TABLES_END: int := 0x1_d000   // end of the last table

  // ----- the hardware walk

  /** Where an address leads, and whether writing to it and user-mode access are allowed. */
  datatype Translation = Fault | Maps(physical: int, writable: bool, user: bool)

  /** Bits 31:12 of an entry, as an address. */
  function Frame(entry: int): int {
    entry / PAGE * PAGE
  }

  predicate Present(entry: int) {
    entry % 2 == 1
  }

  /** The R/W bit. */
  predicate Writable(entry: int) {
    entry / 2 % 2 == 1
  }

  /** The U/S bit. */
  predicate UserMode(entry: int) {
    entry / 4 % 2 == 1
  }

  function WordAt(mem: seq<int>, a: int): int {
    if 0 <= a / 4 < |mem| then mem[a / 4] else 0
  }

  /**
   Translation of a 32-bit linear address, with CR4.PSE = 0 (all pages are 4 KB). A right is given
   if both entries give it.
   */
  function Walk(mem: seq<int>, cr3: int, va: int): Translation
    requires 0 <= va < U32
  {
    var pde := WordAt(mem, Frame(cr3) + 4 * (va / 0x40_0000));
    if !Present(pde) then Fault
    else
      var pte := WordAt(mem, Frame(pde) + 4 * (va / PAGE % ENTRIES));
      if !Present(pte) then Fault
      else Maps(Frame(pte) + va % PAGE, Writable(pde) && Writable(pte), UserMode(pde) && UserMode(pte))
  }

  // ----- entries

  /** `SetPde` and `SetPte` fill the bit fields access, ignored and address of one word. */
  function Entry(access: int, address: int): int {
    access + address / PAGE % 0x10_0000 * PAGE
  }

  lemma EntryFields(access: int, address: int)
    requires 0 <= access < 0x100 && 0 <= address < U32 && address % PAGE == 0
    ensures var e := Entry(access, address);
      && Frame(e) == address && e % PAGE == access
      && (Present(e) <==> access % 2 == 1) && (Writable(e) <==> access / 2 % 2 == 1) && (UserMode(e) <==> access / 4 % 2 == 1)
  {
    var q := address / PAGE;
    assert address == q * PAGE && q % 0x10_0000 == q;
    assert Entry(access, address) == access + q * PAGE;
    hide Entry, Present, Writable, UserMode;
    assert (access + q * PAGE) / PAGE == q;
    AccessBits(access, q);
  }

  /** The address does not reach into the low bits. */
  lemma AccessBits(access: int, q: int)
    requires 0 <= access < 0x100 && 0 <= q
    ensures var e := access + q * PAGE;
      && (Present(e) <==> access % 2 == 1) && (Writable(e) <==> access / 2 % 2 == 1) && (UserMode(e) <==> access / 4 % 2 == 1)
  {
    EvenMore(access, q * 0x800);
    assert (access + q * PAGE) / 2 == access / 2 + 2 * (q * 0x400);
    EvenMore(access / 2, q * 0x400);
    assert (access + q * PAGE) / 4 == access / 4 + 2 * (q * 0x200);
    EvenMore(access / 4, q * 0x200);
  }

  lemma EvenMore(x: int, k: int)
    ensures (x + 2 * k) % 2 == x % 2
  {
  }

  // ----- PagingInit

  method SetEntry(phys: array<int>, i: int, access: int, address: int)
    requires 0 <= i < phys.Length
    modifies phys
    ensures phys[..] == old(phys[..])[i := Entry(access, address)]
  {
    phys[i] := access + address / PAGE % 0x10_0000 * PAGE;
  }

  /** The page directory entry number `i` that `PagingInit` writes. */
  function Directory(i: int): int {
    if i == 0 then Entry(WRITE_PRESENT, K_PT - K_BASE - 4 * ENTRIES)
    else if i < USER_PDES then Entry(USER_ABSENT, 0)
    else if i < USER_PDES + DIRECT_PDES then Entry(WRITE_PRESENT, K_PT - K_BASE + (i - USER_PDES) * 4 * ENTRIES)
    else Entry(KERNEL_ABSENT, 0)
  }

  const PD: int := (K_PD - K_BASE) / 4                    // word number of the directory
  const LOW: int := (K_PT - K_BASE - 4 * ENTRIES) / 4     // of the table for the first 4 MB
  const DIRECT: int := (K_PT - K_BASE) / 4                // of the tables for the direct mapping

  /** Memory with the first entries of the directory and of the tables written, and no more. */
  function Image(before: seq<int>, pdes: int, low: int, direct: int): (mem: seq<int>)
    ensures |mem| == |before|
  {
    seq(|before|, x requires 0 <= x < |before| =>
      if PD <= x < PD + pdes then Directory(x - PD)
      else if LOW <= x < LOW + low then Entry(WRITE_PRESENT, (x - LOW) * PAGE)
      else if DIRECT <= x < DIRECT + direct then Entry(WRITE_PRESENT, (x - DIRECT) * PAGE)
      else before[x])
  }

  lemma ImageStep(before: seq<int>, pdes: int, low: int, direct: int)
    requires 0 <= pdes <= ENTRIES && 0 <= low <= ENTRIES && 0 <= direct <= DIRECT_PDES * ENTRIES
    requires TABLES_END / 4 <= |before|
    ensures Image(before, 0, 0, 0) == before
    ensures pdes < ENTRIES ==>
      Image(before, pdes + 1, low, direct) == Image(before, pdes, low, direct)[PD + pdes := Directory(pdes)]
    ensures low < ENTRIES ==>
      Image(before, pdes, low + 1, direct) ==
      Image(before, pdes, low, direct)[LOW + low := Entry(WRITE_PRESENT, low * PAGE)]
    ensures direct < DIRECT_PDES * ENTRIES ==>
      Image(before, pdes, low, direct + 1) ==
      Image(before, pdes, low, direct)[DIRECT + direct := Entry(WRITE_PRESENT, direct * PAGE)]
  {
    hide Entry, Directory;
  }

  lemma EntryIs(n: int)
    requires 0 <= n < 0x10_0000
    ensures Entry(WRITE_PRESENT, n * 0x1000) == n * 0x1000 + 3
  {
  }

  /**
   The words in numbers. Absent entries are 6 below 3 GB and 2 above the direct mapping, and nothing but the directory at
   0x1000 and the tables from 0xc000 to 0x1d000 is written.
   */
  lemma ImageInNumbers(before: seq<int>)
    requires TABLES_END / 4 <= |before|
    ensures var mem := Image(before, ENTRIES, ENTRIES, DIRECT_PDES * ENTRIES);
      && (forall x :: 0x401 <= x < 0x700 ==> mem[x] == 6)
      && (forall x :: 0x710 <= x < 0x800 ==> mem[x] == 2)
      && mem[0x400] == 0xc003 && (forall x :: 0x700 <= x < 0x710 ==> mem[x] == 0xd003 + (x - 0x700) * 0x1000)
      && (forall x :: 0x3000 <= x < 0x3400 ==> mem[x] == (x - 0x3000) * 0x1000 + 3)
      && (forall x :: 0x3400 <= x < 0x7400 ==> mem[x] == (x - 0x3400) * 0x1000 + 3)
      && (forall x :: 0 <= x < |mem| && !(0x400 <= x < 0x800) && !(0x3000 <= x < 0x7400) ==> mem[x] == before[x])
  {
    var mem := Image(before, ENTRIES, ENTRIES, DIRECT_PDES * ENTRIES);
    assert PD == 0x400;
    forall x | 0x401 <= x < 0x700
      ensures mem[x] == 6
    {
      assert mem[x] == Directory(x - PD);
    }
    forall x | 0x710 <= x < 0x800
      ensures mem[x] == 2
    {
      assert mem[x] == Directory(x - PD);
    }
    assert mem[0x400] == Directory(0) == 0xc003;
    forall x | 0x700 <= x < 0x710
      ensures mem[x] == 0xd003 + (x - 0x700) * 0x1000
    {
      assert mem[x] == Directory(x - PD);
      EntryIs(0xd + (x - 0x700));
    }
    forall x | 0x3000 <= x < 0x3400
      ensures mem[x] == (x - 0x3000) * 0x1000 + 3
    {
      EntryIs(x - 0x3000);
    }
    forall x | 0x3400 <= x < 0x7400
      ensures mem[x] == (x - 0x3400) * 0x1000 + 3
    {
      EntryIs(x - 0x3400);
    }
  }

  method PagingInit(phys: array<int>) returns (cr3: int)
    requires phys.Length >= TABLES_END / 4
    modifies phys
    ensures cr3 == 0x1000
    ensures phys[..] == Image(old(phys[..]), ENTRIES, ENTRIES, DIRECT_PDES * ENTRIES)
    ensures forall va :: 0 <= va < U32 ==> Walk(phys[..], cr3, va) == Intended(va)
    ensures forall x :: 0x401 <= x < 0x700 ==> phys[x] == 6
    ensures forall x :: 0x710 <= x < 0x800 ==> phys[x] == 2
    ensures phys[0x400] == 0xc003 && forall x :: 0x700 <= x < 0x710 ==> phys[x] == 0xd003 + (x - 0x700) * 0x1000
    ensures forall x :: 0x3000 <= x < 0x3400 ==> phys[x] == (x - 0x3000) * 0x1000 + 3
    ensures forall x :: 0x3400 <= x < 0x7400 ==> phys[x] == (x - 0x3400) * 0x1000 + 3
    ensures forall x :: 0 <= x < phys.Length && !(0x400 <= x < 0x800) && !(0x3000 <= x < 0x7400) ==>
      phys[x] == old(phys[x])
  {
    hide Image, Entry, Walk, Intended;
    ghost var before := phys[..];
    cr3 := K_PD - K_BASE;
    var pt := (K_PT - K_BASE - 4 * ENTRIES) / 4;
    ImageStep(before, 0, 0, 0);
    SetEntry(phys, PD + 0, WRITE_PRESENT, 4 * pt);
    var j := 0;
    while j < ENTRIES
      invariant 0 <= j <= ENTRIES && phys[..] == Image(before, 1, j, 0)
    {
      ImageStep(before, 1, j, 0);
      SetEntry(phys, pt + j, WRITE_PRESENT, j * PAGE);
      j := j + 1;
    }
    var i := 1;
    while i < USER_PDES
      invariant 1 <= i <= USER_PDES && phys[..] == Image(before, i, ENTRIES, 0)
    {
      ImageStep(before, i, ENTRIES, 0);
      SetEntry(phys, PD + i, USER_ABSENT, 0);
      i := i + 1;
    }
    var pageAddr := 0;
    pt := (K_PT - K_BASE) / 4;
    while i < DIRECT_PDES + USER_PDES
      invariant USER_PDES <= i <= DIRECT_PDES + USER_PDES
      invariant pt == DIRECT + (i - USER_PDES) * ENTRIES && pageAddr == (i - USER_PDES) * ENTRIES * PAGE
      invariant phys[..] == Image(before, i, ENTRIES, (i - USER_PDES) * ENTRIES)
    {
      pageAddr := DirectTable(phys, i, pt, pageAddr, before);
      pt := pt + ENTRIES;
      i := i + 1;
    }
    while i < ENTRIES
      invariant DIRECT_PDES + USER_PDES <= i <= ENTRIES
      invariant phys[..] == Image(before, i, ENTRIES, DIRECT_PDES * ENTRIES)
    {
      ImageStep(before, i, ENTRIES, DIRECT_PDES * ENTRIES);
      SetEntry(phys, PD + i, KERNEL_ABSENT, 0);
      i := i + 1;
    }
    ImageInNumbers(before);
    assert phys[..] == Image(before, ENTRIES, ENTRIES, DIRECT_PDES * ENTRIES);
    forall va | 0 <= va < U32
      ensures Walk(phys[..], cr3, va) == Intended(va)
    {
      WalkIsIntended(before, va);
    }
  }

  /** One turn of the loop over the direct mapping area: a directory entry and its table. */
  method DirectTable(phys: array<int>, i: int, pt: int, from: int, ghost before: seq<int>) returns (pageAddr: int)
    requires USER_PDES <= i < DIRECT_PDES + USER_PDES && TABLES_END / 4 <= |before| == phys.Length
    requires pt == DIRECT + (i - USER_PDES) * ENTRIES && from == (i - USER_PDES) * ENTRIES * PAGE
    requires phys[..] == Image(before, i, ENTRIES, (i - USER_PDES) * ENTRIES)
    modifies phys
    ensures pageAddr == (i - USER_PDES + 1) * ENTRIES * PAGE
    ensures phys[..] == Image(before, i + 1, ENTRIES, (i - USER_PDES + 1) * ENTRIES)
  {
    hide Image, Entry;
    ghost var done := (i - USER_PDES) * ENTRIES;
    ImageStep(before, i, ENTRIES, done);
    SetEntry(phys, PD + i, WRITE_PRESENT, 4 * pt);
    pageAddr := from;
    var j := 0;
    while j < ENTRIES
      invariant 0 <= j <= ENTRIES && pageAddr == (done + j) * PAGE
      invariant phys[..] == Image(before, i + 1, ENTRIES, done + j)
    {
      ImageStep(before, i + 1, ENTRIES, done + j);
      SetEntry(phys, pt + j, WRITE_PRESENT, pageAddr);
      pageAddr := pageAddr + PAGE;
      j := j + 1;
    }
  }

  // ----- the map that the kernel wants

  /**
   The first 4 MB to themselves, the 64 MB from 3 GB on to the first 64 MB, both writable and for
   the supervisor only; nothing else.
   */
  function Intended(va: int): Translation {
    if 0 <= va < 0x40_0000 then Maps(va, true, false)
    else if 0xc000_0000 <= va < 0xc400_0000 then Maps(va - 0xc000_0000, true, false)
    else Fault
  }

  lemma DirectoryEntry(i: int)
    requires 0 <= i < ENTRIES
    ensures Present(Directory(i)) <==> i == 0 || USER_PDES <= i < USER_PDES + DIRECT_PDES
    ensures Present(Directory(i)) ==> Writable(Directory(i)) && !UserMode(Directory(i))
    ensures i == 0 ==> Frame(Directory(i)) == 4 * LOW
    ensures USER_PDES <= i < USER_PDES + DIRECT_PDES ==> Frame(Directory(i)) == 4 * (DIRECT + (i - USER_PDES) * ENTRIES)
  {
    hide Entry, Frame, Present, Writable, UserMode;
    EntryFields(WRITE_PRESENT, K_PT - K_BASE - 4 * ENTRIES);
    EntryFields(USER_ABSENT, 0);
    EntryFields(KERNEL_ABSENT, 0);
    if USER_PDES <= i < USER_PDES + DIRECT_PDES {
      EntryFields(WRITE_PRESENT, K_PT - K_BASE + (i - USER_PDES) * 4 * ENTRIES);
    }
  }

  lemma WordIs(mem: seq<int>, w: int)
    requires 0 <= w < |mem|
    ensures WordAt(mem, 4 * w) == mem[w]
  {
  }

  /** The walk over the tables that `PagingInit` builds is the intended map, for every address. */
  lemma WalkIsIntended(before: seq<int>, va: int)
    requires TABLES_END / 4 <= |before| && 0 <= va < U32
    ensures Walk(Image(before, ENTRIES, ENTRIES, DIRECT_PDES * ENTRIES), K_PD - K_BASE, va) == Intended(va)
  {
    hide Entry, Present, Directory, WordAt, Writable, UserMode;
    var mem := Image(before, ENTRIES, ENTRIES, DIRECT_PDES * ENTRIES);
    var i, j := va / 0x40_0000, va / PAGE % ENTRIES;
    assert va == i * 0x40_0000 + j * PAGE + va % PAGE;
    assert Frame(K_PD - K_BASE) == 4 * PD;
    WordIs(mem, PD + i);
    DirectoryEntry(i);
    if i == 0 {
      WordIs(mem, LOW + j);
      EntryFields(WRITE_PRESENT, j * PAGE);
    } else if USER_PDES <= i < USER_PDES + DIRECT_PDES {
      var n := (i - USER_PDES) * ENTRIES + j;
      WordIs(mem, DIRECT + n);
      EntryFields(WRITE_PRESENT, n * PAGE);
    }
  }
}
