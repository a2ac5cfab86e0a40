/**
 The register and stack side of a thread switch (kernel/thread/switch_reg.S, with
 `CreateThread`, `KThreadRun`, `ThreadSwitch` and `GetCurThread`).

 Memory is a sequence of bytes; words are stored in four of them, at any alignment, because the
 kernel stacks start at an odd address. A thread is the address of its `Thread` structure.
 */
module ContextSwitch {
  import opened Basics

  type Byte = x: int | 0 <= x < 0x100
  type Memory = seq<Byte>

  // ----- words in memory

  function Load(m: Memory, a: int): Word
    requires 0 <= a && a + 4 <= |m|
  {
    (m[a] as int) + 0x100 * (m[a + 1] as int) + 0x1_0000 * (m[a + 2] as int) + 0x100_0000 * (m[a + 3] as int)
  }

  function Store(m: Memory, a: int, v: Word): (m': Memory)
    requires 0 <= a && a + 4 <= |m|
    ensures |m'| == |m|
  {
    m[a := v % 0x100][a + 1 := v / 0x100 % 0x100][a + 2 := v / 0x1_0000 % 0x100][a + 3 := v / 0x100_0000]
  }

  lemma LoadStored(m: Memory, a: int, v: Word)
    requires 0 <= a && a + 4 <= |m|
    ensures Load(Store(m, a, v), a) == v
  {
    assert v / 0x1_0000 == v / 0x100 / 0x100 && v / 0x100_0000 == v / 0x1_0000 / 0x100;
  }

  lemma LoadElsewhere(m: Memory, a: int, v: Word, b: int)
    requires 0 <= a && a + 4 <= |m| && 0 <= b && b + 4 <= |m| && (b + 4 <= a || a + 4 <= b)
    ensures Load(Store(m, a, v), b) == Load(m, b)
  {
  }

  /** The two memories agree on the bytes from `lo` to `hi`. */
  ghost predicate Same(m: Memory, m': Memory, lo: int, hi: int) {
    |m'| == |m| && forall x :: lo <= x < hi && 0 <= x < |m| ==> m'[x] == m[x]
  }

  lemma LoadSame(m: Memory, m': Memory, lo: int, hi: int, a: int)
    requires Same(m, m', lo, hi) && lo <= a && a + 4 <= hi && 0 <= a && a + 4 <= |m|
    ensures Load(m', a) == Load(m, a)
  {
  }

  // ----- the processor

  datatype Cpu = Cpu(eip: Word, esp: Word, eax: Word, edx: Word, ebx: Word, esi: Word, edi: Word, ebp: Word)

  class Machine {
    var cpu: Cpu
    var mem: Memory

    constructor (cpu: Cpu, mem: Memory)
      ensures this.cpu == cpu && this.mem == mem
    {
      this.cpu, this.mem := cpu, mem;
    }

    method Push(v: Word)
      requires cpu.esp >= 4 && cpu.esp <= |mem|
      modifies this
      ensures cpu == old(cpu).(esp := old(cpu).esp - 4) && mem == Store(old(mem), old(cpu).esp - 4, v)
    {
      cpu := cpu.(esp := cpu.esp - 4);
      mem := Store(mem, cpu.esp, v);
    }

    method Pop() returns (v: Word)
      requires cpu.esp + 4 <= |mem| < U32
      modifies `cpu
      ensures v == Load(mem, old(cpu).esp) && cpu == old(cpu).(esp := old(cpu).esp + 4)
    {
      v := Load(mem, cpu.esp);
      cpu := cpu.(esp := cpu.esp + 4);
    }

    method CreateThread(t: Word, base: int)
      requires 0 <= t && t + STRUCT_SIZE <= |mem| < U32 && 0 <= base && base + 0x1000 <= |mem|
      modifies `mem
      ensures mem == CreatedMemory(old(mem), t, base)
    {
      var stackAddr := 0x1000 + base - 1;
      mem := Store(mem, t + STACK_ADDR, stackAddr);
      mem := Store(mem, t + ESP, stackAddr - 4);
      mem := Store(mem, stackAddr - 4, t);
    }

    method KThreadRun(t: int, start: Word)
      requires 0 <= t && t + STRUCT_SIZE <= |mem| && 20 <= Load(mem, t + ESP) <= |mem|
      requires var e := Load(mem, t + ESP); t + ESP + 4 <= e - 20 || e <= t + ESP
      modifies `mem
      ensures mem == StartedMemory(old(mem), t, start)
    {
      hide Load, Store;
      var e := Load(mem, t + ESP) - 4;
      LoadStored(mem, t + ESP, e);
      LoadElsewhere(Store(mem, t + ESP, e), e, start, t + ESP);
      mem := Store(mem, t + ESP, e);
      mem := Store(mem, e, start);
      e := Load(mem, t + ESP) - 16;
      mem := Store(mem, t + ESP, e);
      mem := Store(mem, e, 0);
      mem := Store(mem, e + 4, 0);
      mem := Store(mem, e + 8, 0);
      mem := Store(mem, e + 12, 0);
    }

    /** The instructions of `_SwitchReg` up to the store of `esp`. */
    method SaveRegs()
      requires 16 <= cpu.esp && cpu.esp + 12 <= |mem| && Load(mem, cpu.esp + 4) + 4 <= |mem|
      modifies this
      ensures mem == SavedMemory(old(cpu), old(mem))
      ensures cpu == old(cpu).(eax := Load(old(mem), old(cpu).esp + 4),
                               edx := Load(old(mem), old(cpu).esp + 8), esp := old(cpu).esp - 16)
    {
      hide Load, Store;
      cpu := cpu.(eax := Load(mem, cpu.esp + 4));
      cpu := cpu.(edx := Load(mem, cpu.esp + 8));
      Push(cpu.ebx);
      Push(cpu.esi);
      Push(cpu.edi);
      Push(cpu.ebp);
      mem := Store(mem, cpu.eax, cpu.esp);
    }

    /** The four `popl` and the `ret`. */
    method LoadRegs()
      requires cpu.esp + 20 <= |mem| < U32
      modifies `cpu
      ensures var s := old(cpu).esp;
        cpu == old(cpu).(ebp := Load(mem, s), edi := Load(mem, s + 4), esi := Load(mem, s + 8),
                         ebx := Load(mem, s + 12), eip := Load(mem, s + 16), esp := s + 20)
    {
      hide Load;
      var v := Pop();
      cpu := cpu.(ebp := v);
      v := Pop();
      cpu := cpu.(edi := v);
      v := Pop();
      cpu := cpu.(esi := v);
      v := Pop();
      cpu := cpu.(ebx := v);
      v := Pop();
      cpu := cpu.(eip := v);
    }

    /** `_SwitchReg`. */
    method SwitchReg()
      requires |mem| < U32 && CanSwitch(cpu, mem)
      modifies this
      ensures (cpu, mem) == Switched(old(cpu), old(mem))
    {
      hide Load, SavedMemory;
      SaveRegs();
      cpu := cpu.(esp := Load(mem, cpu.edx));
      LoadRegs();
    }
  }

  /** `KThreadRun` on memory: a frame that returns to `start` with zero registers. */
  function StartedMemory(m: Memory, t: int, start: Word): (m': Memory)
    requires 0 <= t && t + STRUCT_SIZE <= |m| && 20 <= Load(m, t + ESP) <= |m|
    ensures |m'| == |m|
  {
    var e := Load(m, t + ESP);
    var m1 := Store(Store(m, t + ESP, e - 4), e - 4, start);
    var m2 := Store(m1, t + ESP, e - 20);
    Store(Store(Store(Store(m2, e - 20, 0), e - 16, 0), e - 12, 0), e - 8, 0)
  }

  /** `CreateThread` on memory, for a stack of 4 KB at `base`. */
  function CreatedMemory(m: Memory, t: Word, base: int): (m': Memory)
    requires 0 <= t && t + STRUCT_SIZE <= |m| < U32 && 0 <= base && base + 0x1000 <= |m|
    ensures |m'| == |m|
  {
    var stackAddr := 0x1000 + base - 1;
    Store(Store(Store(m, t + STACK_ADDR, stackAddr), t + ESP, stackAddr - 4), stackAddr - 4, t)
  }

  /** The memory after the four pushes and the store of `esp`. */
  function SavedMemory(cpu: Cpu, m: Memory): (m': Memory)
    requires 16 <= cpu.esp && cpu.esp + 12 <= |m| && Load(m, cpu.esp + 4) + 4 <= |m|
    ensures |m'| == |m|
  {
    var s := cpu.esp - 16;
    var m1 := Store(Store(Store(Store(m, s + 12, cpu.ebx), s + 8, cpu.esi), s + 4, cpu.edi), s, cpu.ebp);
    Store(m1, Load(m, cpu.esp + 4), s)
  }

  /** Every memory access of the switch is inside memory. */
  predicate CanSwitch(cpu: Cpu, m: Memory) {
    && 16 <= cpu.esp && cpu.esp + 12 <= |m|
    && Load(m, cpu.esp + 4) + 4 <= |m| && Load(m, cpu.esp + 8) + 4 <= |m|
    && Load(SavedMemory(cpu, m), Load(m, cpu.esp + 8)) + 20 <= |m|
  }

  function Switched(cpu: Cpu, m: Memory): (Cpu, Memory)
    requires |m| < U32 && CanSwitch(cpu, m)
  {
    var m' := SavedMemory(cpu, m);
    var s := Load(m', Load(m, cpu.esp + 8));
    (Cpu(Load(m', s + 16), s + 20, Load(m, cpu.esp + 4), Load(m, cpu.esp + 8),
         Load(m', s + 12), Load(m', s + 8), Load(m', s + 4), Load(m', s)), m')
  }

  // ----- what the switch writes and reads back

  /** Where the switch saves: four words below the return address, and the `esp` field. */
  ghost predicate Apart(s: int, field: int, b: int) {
    (b + 4 <= s || s + 16 <= b) && (b + 4 <= field || field + 4 <= b)
  }

  lemma SavedElsewhere(cpu: Cpu, m: Memory, b: int)
    requires 16 <= cpu.esp && cpu.esp + 12 <= |m| && Load(m, cpu.esp + 4) + 4 <= |m|
    requires 0 <= b && b + 4 <= |m| && Apart(cpu.esp - 16, Load(m, cpu.esp + 4), b)
    ensures Load(SavedMemory(cpu, m), b) == Load(m, b)
  {
    hide Load, Store;
    var s := cpu.esp - 16;
    var m1 := Store(m, s + 12, cpu.ebx);
    var m2 := Store(m1, s + 8, cpu.esi);
    var m3 := Store(m2, s + 4, cpu.edi);
    var m4 := Store(m3, s, cpu.ebp);
    LoadElsewhere(m, s + 12, cpu.ebx, b);
    LoadElsewhere(m1, s + 8, cpu.esi, b);
    LoadElsewhere(m2, s + 4, cpu.edi, b);
    LoadElsewhere(m3, s, cpu.ebp, b);
    LoadElsewhere(m4, Load(m, cpu.esp + 4), s, b);
  }

  lemma SavedWords(cpu: Cpu, m: Memory)
    requires 16 <= cpu.esp && cpu.esp + 12 <= |m| && Load(m, cpu.esp + 4) + 4 <= |m|
    requires var f := Load(m, cpu.esp + 4); f + 4 <= cpu.esp - 16 || cpu.esp <= f
    ensures var m', s := SavedMemory(cpu, m), cpu.esp - 16;
      && Load(m', s) == cpu.ebp && Load(m', s + 4) == cpu.edi && Load(m', s + 8) == cpu.esi
      && Load(m', s + 12) == cpu.ebx && Load(m', Load(m, cpu.esp + 4)) == s
  {
    hide Load, Store;
    var s, f := cpu.esp - 16, Load(m, cpu.esp + 4);
    var m1 := Store(m, s + 12, cpu.ebx);
    var m2 := Store(m1, s + 8, cpu.esi);
    var m3 := Store(m2, s + 4, cpu.edi);
    var m4 := Store(m3, s, cpu.ebp);
    LoadStored(m, s + 12, cpu.ebx);
    LoadElsewhere(m1, s + 8, cpu.esi, s + 12);
    LoadElsewhere(m2, s + 4, cpu.edi, s + 12);
    LoadElsewhere(m3, s, cpu.ebp, s + 12);
    LoadStored(m1, s + 8, cpu.esi);
    LoadElsewhere(m2, s + 4, cpu.edi, s + 8);
    LoadElsewhere(m3, s, cpu.ebp, s + 8);
    LoadStored(m2, s + 4, cpu.edi);
    LoadElsewhere(m3, s, cpu.ebp, s + 4);
    LoadStored(m3, s, cpu.ebp);
    LoadElsewhere(m4, f, s, s + 12);
    LoadElsewhere(m4, f, s, s + 8);
    LoadElsewhere(m4, f, s, s + 4);
    LoadElsewhere(m4, f, s, s);
    LoadStored(m4, f, s);
  }

  // ----- threads in memory

  const STRUCT_SIZE: int := 24  // tid, stack_addr, pcb, esp, node, sibling
  const STACK_ADDR: int := 4    // offset of the `stack_addr` field
  const ESP: int := 12          // offset of the `esp` field

  /** A kernel stack: words from `lo` up to the slot that holds the thread's own address. */
  datatype Stack = Stack(lo: int, slot: int)

  type Layout = map<int, Stack>

  ghost predicate Clear(lo: int, hi: int, lo': int, hi': int) {
    hi <= lo' || hi' <= lo
  }

  /** Structures and stacks are inside memory and do not overlap. */
  ghost predicate Placed(L: Layout, n: int) {
    && (forall t :: t in L ==> 0 <= t && t + STRUCT_SIZE <= n && t < U32)
    && (forall t :: t in L ==> 0 <= L[t].lo && L[t].lo + 20 <= L[t].slot && L[t].slot + 4 <= n)
    && (forall t, u :: t in L && u in L ==> Clear(t, t + STRUCT_SIZE, L[u].lo, L[u].slot + 4))
    && (forall t, u :: t in L && u in L && t != u ==> Clear(t, t + STRUCT_SIZE, u, u + STRUCT_SIZE))
    && (forall t, u :: t in L && u in L && t != u ==> Clear(L[t].lo, L[t].slot + 4, L[u].lo, L[u].slot + 4))
  }

  /** The distances between two threads that the proofs below use. */
  lemma Separate(L: Layout, n: int, t: int, u: int)
    requires Placed(L, n) && t in L && u in L
    ensures 0 <= t && t + STRUCT_SIZE <= n && 0 <= L[t].lo && L[t].lo + 20 <= L[t].slot && L[t].slot + 4 <= n
    ensures 0 <= u && u + STRUCT_SIZE <= n && 0 <= L[u].lo && L[u].lo + 20 <= L[u].slot && L[u].slot + 4 <= n
    ensures Clear(t, t + STRUCT_SIZE, L[u].lo, L[u].slot + 4) && Clear(u, u + STRUCT_SIZE, L[t].lo, L[t].slot + 4)
    ensures t != u ==> Clear(t, t + STRUCT_SIZE, u, u + STRUCT_SIZE)
    ensures t != u ==> Clear(L[t].lo, L[t].slot + 4, L[u].lo, L[u].slot + 4)
  {
  }

  /** What a thread finds when it runs again. */
  datatype Context = Context(eip: Word, esp: Word, ebx: Word, esi: Word, edi: Word, ebp: Word)

  function ContextOf(cpu: Cpu): Context {
    Context(cpu.eip, cpu.esp, cpu.ebx, cpu.esi, cpu.edi, cpu.ebp)
  }

  /** The context `c` of thread `t` is saved on its stack. */
  ghost predicate Holds(m: Memory, t: int, k: Stack, c: Context) {
    && 0 <= t && t + STRUCT_SIZE <= |m| && 0 <= k.lo && k.slot + 4 <= |m|
    && k.lo + 20 <= c.esp <= k.slot
    && Load(m, t + ESP) == c.esp - 20
    && Load(m, c.esp - 20) == c.ebp && Load(m, c.esp - 16) == c.edi
    && Load(m, c.esp - 12) == c.esi && Load(m, c.esp - 8) == c.ebx && Load(m, c.esp - 4) == c.eip
  }

  /** The slot on top of the stack names the thread, and the thread's `stack_addr` is just above it. */
  ghost predicate Anchored(m: Memory, t: int, k: Stack) {
    && 0 <= t && t + STRUCT_SIZE <= |m| && 0 <= k.slot && k.slot + 4 <= |m|
    && Load(m, k.slot) == t && Load(m, t + STACK_ADDR) == k.slot + 4
  }

  datatype System = System(cpu: Cpu, mem: Memory, cur: int, esp0: int, L: Layout, saved: map<int, Context>)

  /** What holds between any two steps; `saved` is the history of what was switched out. */
  ghost predicate Inv(s: System) {
    && |s.mem| < U32 && Placed(s.L, |s.mem|)
    && s.cur in s.L && s.cur !in s.saved && s.esp0 == s.L[s.cur].slot
    && (forall t :: t in s.saved ==> t in s.L && Holds(s.mem, t, s.L[t], s.saved[t]))
    && (forall t :: t in s.L ==> Anchored(s.mem, t, s.L[t]))
  }

  /** `GetCurThread` finds the running thread. */
  lemma CurThread(s: System)
    requires Inv(s)
    ensures 0 <= s.esp0 && s.esp0 + 4 <= |s.mem| && Load(s.mem, s.esp0) == s.cur
  {
    assert Anchored(s.mem, s.cur, s.L[s.cur]);
  }

  const MAIN_SLOT: int := 0xbc00 - 4  // kMainStackAddr - sizeof(Thread *)
  const MAIN_STACK: int := 0x7c00     // where the boot code puts the bottom of the stack

  /** After `ThreadInit` the main thread runs alone, its address stored on top of its stack. */
  lemma MainThread(cpu: Cpu, m: Memory, main: Word)
    requires 0xbc00 <= |m| < U32 && main + STRUCT_SIZE <= |m|
    requires Clear(main, main + STRUCT_SIZE, MAIN_STACK, MAIN_SLOT + 4)
    ensures var m' := Store(Store(Store(m, main + STACK_ADDR, 0xbc00), main + ESP, MAIN_SLOT), MAIN_SLOT, main);
      Inv(System(cpu, m', main, MAIN_SLOT, map[main := Stack(MAIN_STACK, MAIN_SLOT)], map[]))
  {
    hide Load, Store;
    var m1 := Store(m, main + STACK_ADDR, 0xbc00);
    var m2 := Store(m1, main + ESP, MAIN_SLOT);
    LoadStored(m, main + STACK_ADDR, 0xbc00);
    LoadElsewhere(m1, main + ESP, MAIN_SLOT, main + STACK_ADDR);
    LoadElsewhere(m2, MAIN_SLOT, main, main + STACK_ADDR);
    LoadStored(m2, MAIN_SLOT, main);
  }

  // ----- the switch

  /** The processor is at the entry of `SwitchReg(&cur->esp, &next->esp)`, on the stack of `cur`. */
  ghost predicate AtSwitch(s: System, next: int)
    requires Inv(s)
  {
    var k := s.L[s.cur];
    && next in s.saved && k.lo + 16 <= s.cpu.esp && s.cpu.esp + 12 <= k.slot
    && Load(s.mem, s.cpu.esp + 4) == s.cur + ESP && Load(s.mem, s.cpu.esp + 8) == next + ESP
  }

  /** The context that `cur` is switched out with: it will return from `SwitchReg`. */
  ghost function Leaving(s: System): Context
    requires Inv(s) && s.cpu.esp + 12 <= s.L[s.cur].slot
  {
    Context(Load(s.mem, s.cpu.esp), s.cpu.esp + 4, s.cpu.ebx, s.cpu.esi, s.cpu.edi, s.cpu.ebp)
  }

  /** Saving the running thread leaves every other thread's saved context as it was. */
  lemma SaveKeepsOthers(s: System, next: int, t: int)
    requires Inv(s) && AtSwitch(s, next) && t in s.saved
    ensures Holds(SavedMemory(s.cpu, s.mem), t, s.L[t], s.saved[t])
  {
    hide Load, SavedMemory, Placed;
    var e := s.saved[t].esp;
    Separate(s.L, |s.mem|, s.cur, t);
    SavedElsewhere(s.cpu, s.mem, t + ESP);
    SavedElsewhere(s.cpu, s.mem, e - 20);
    SavedElsewhere(s.cpu, s.mem, e - 16);
    SavedElsewhere(s.cpu, s.mem, e - 12);
    SavedElsewhere(s.cpu, s.mem, e - 8);
    SavedElsewhere(s.cpu, s.mem, e - 4);
  }

  lemma SaveKeepsAnchor(s: System, next: int, t: int)
    requires Inv(s) && AtSwitch(s, next) && t in s.L
    ensures Anchored(SavedMemory(s.cpu, s.mem), t, s.L[t])
  {
    hide Load, SavedMemory, Placed, Holds;
    Separate(s.L, |s.mem|, s.cur, t);
    assert Anchored(s.mem, t, s.L[t]);
    SavedElsewhere(s.cpu, s.mem, s.L[t].slot);
    SavedElsewhere(s.cpu, s.mem, t + STACK_ADDR);
  }

  lemma SaveHolds(s: System, next: int)
    requires Inv(s) && AtSwitch(s, next)
    ensures Holds(SavedMemory(s.cpu, s.mem), s.cur, s.L[s.cur], Leaving(s))
  {
    hide Load, SavedMemory;
    assert Clear(s.cur, s.cur + STRUCT_SIZE, s.L[s.cur].lo, s.L[s.cur].slot + 4);
    SavedWords(s.cpu, s.mem);
    SavedElsewhere(s.cpu, s.mem, s.cpu.esp);
  }

  /** The end of `ThreadSwitch`: the TSS gets the new thread's `stack_addr` less one word, then `SwitchReg`. */
  ghost function AfterSwitch(s: System, next: int): System
    requires Inv(s) && AtSwitch(s, next) && CanSwitch(s.cpu, s.mem)
  {
    var (cpu, mem) := Switched(s.cpu, s.mem);
    System(cpu, mem, next, Load(s.mem, next + STACK_ADDR) - 4, s.L, (s.saved - {next})[s.cur := Leaving(s)])
  }

  /**
   One switch: it never leaves memory, the new thread gets exactly the context it was saved
   with, and the context of the old one is now saved in turn.
   */
  lemma SwitchIsTransparent(s: System, next: int)
    requires Inv(s) && AtSwitch(s, next)
    ensures CanSwitch(s.cpu, s.mem)
    ensures ContextOf(AfterSwitch(s, next).cpu) == s.saved[next] && Inv(AfterSwitch(s, next))
  {
    hide Load, SavedMemory, Holds, Switched, CanSwitch;
    assert Anchored(s.mem, next, s.L[next]);
    SaveKeepsOthers(s, next, next);
    SwitchFits(s, next);
    SwitchResult(s.cpu, s.mem, next, s.L[next], s.saved[next]);
    var s' := AfterSwitch(s, next);
    forall t | t in s'.saved
      ensures t in s'.L && Holds(s'.mem, t, s'.L[t], s'.saved[t])
    {
      if t == s.cur {
        SaveHolds(s, next);
      } else {
        SaveKeepsOthers(s, next, t);
      }
    }
    forall t | t in s'.L
      ensures Anchored(s'.mem, t, s'.L[t])
    {
      SaveKeepsAnchor(s, next, t);
    }
  }

  /** What the pops and the return read is the context that the stack holds. */
  lemma SwitchResult(cpu: Cpu, m: Memory, next: int, k: Stack, c: Context)
    requires |m| < U32 && CanSwitch(cpu, m) && Load(m, cpu.esp + 8) == next + ESP
    requires Holds(SavedMemory(cpu, m), next, k, c)
    ensures ContextOf(Switched(cpu, m).0) == c && Switched(cpu, m).1 == SavedMemory(cpu, m)
  {
    hide Load, SavedMemory;
  }

  lemma SwitchFits(s: System, next: int)
    requires Inv(s) && AtSwitch(s, next)
    requires Holds(SavedMemory(s.cpu, s.mem), next, s.L[next], s.saved[next])
    ensures CanSwitch(s.cpu, s.mem)
  {
    hide Load, SavedMemory;
  }

  // ----- new threads

  /** `CreateThread` has prepared `t`, and `KThreadRun` has not run it yet. */
  ghost predicate Prepared(s: System, t: int)
    requires Inv(s)
  {
    t in s.L && t != s.cur && t !in s.saved && Load(s.mem, t + ESP) == s.L[t].slot
  }

  ghost function AfterStart(s: System, t: int, start: Word): System
    requires Inv(s) && Prepared(s, t)
  {
    s.(mem := StartedMemory(s.mem, t, start),
       saved := s.saved[t := Context(start, s.L[t].slot, 0, 0, 0, 0)])
  }

  lemma StartElsewhere(m: Memory, t: int, start: Word, b: int)
    requires 0 <= t && t + STRUCT_SIZE <= |m| && 20 <= Load(m, t + ESP) <= |m|
    requires 0 <= b && b + 4 <= |m| && Clear(b, b + 4, t + ESP, t + ESP + 4)
    requires Clear(b, b + 4, Load(m, t + ESP) - 20, Load(m, t + ESP))
    ensures Load(StartedMemory(m, t, start), b) == Load(m, b)
  {
    hide Load, Store;
    var e := Load(m, t + ESP);
    var m0 := Store(m, t + ESP, e - 4);
    var m1 := Store(m0, e - 4, start);
    var m2 := Store(m1, t + ESP, e - 20);
    var m3 := Store(m2, e - 20, 0);
    var m4 := Store(m3, e - 16, 0);
    var m5 := Store(m4, e - 12, 0);
    LoadElsewhere(m, t + ESP, e - 4, b);
    LoadElsewhere(m0, e - 4, start, b);
    LoadElsewhere(m1, t + ESP, e - 20, b);
    LoadElsewhere(m2, e - 20, 0, b);
    LoadElsewhere(m3, e - 16, 0, b);
    LoadElsewhere(m4, e - 12, 0, b);
    LoadElsewhere(m5, e - 8, 0, b);
  }

  lemma StartHolds(m: Memory, t: int, k: Stack, start: Word)
    requires 0 <= t && t + STRUCT_SIZE <= |m| < U32 && 0 <= k.lo && k.lo + 20 <= k.slot && k.slot + 4 <= |m|
    requires Clear(t, t + STRUCT_SIZE, k.lo, k.slot + 4) && Load(m, t + ESP) == k.slot
    ensures Holds(StartedMemory(m, t, start), t, k, Context(start, k.slot, 0, 0, 0, 0))
  {
    hide Load, Store;
    var e, f := k.slot, t + ESP;
    var m0 := Store(m, f, e - 4);
    var m1 := Store(m0, e - 4, start);
    var m2 := Store(m1, f, e - 20);
    var m3 := Store(m2, e - 20, 0);
    var m4 := Store(m3, e - 16, 0);
    var m5 := Store(m4, e - 12, 0);
    var m6 := Store(m5, e - 8, 0);
    LoadStored(m0, e - 4, start);
    LoadElsewhere(m1, f, e - 20, e - 4);
    LoadElsewhere(m2, e - 20, 0, e - 4);
    LoadElsewhere(m3, e - 16, 0, e - 4);
    LoadElsewhere(m4, e - 12, 0, e - 4);
    LoadElsewhere(m5, e - 8, 0, e - 4);
    LoadStored(m1, f, e - 20);
    LoadElsewhere(m2, e - 20, 0, f);
    LoadElsewhere(m3, e - 16, 0, f);
    LoadElsewhere(m4, e - 12, 0, f);
    LoadElsewhere(m5, e - 8, 0, f);
    LoadStored(m2, e - 20, 0);
    LoadElsewhere(m3, e - 16, 0, e - 20);
    LoadElsewhere(m4, e - 12, 0, e - 20);
    LoadElsewhere(m5, e - 8, 0, e - 20);
    LoadStored(m3, e - 16, 0);
    LoadElsewhere(m4, e - 12, 0, e - 16);
    LoadElsewhere(m5, e - 8, 0, e - 16);
    LoadStored(m4, e - 12, 0);
    LoadElsewhere(m5, e - 8, 0, e - 12);
    LoadStored(m5, e - 8, 0);
  }

  /** The start frame disturbs no other thread's saved context. */
  lemma StartKeepsOthers(s: System, t: int, start: Word, u: int)
    requires Inv(s) && Prepared(s, t) && u in s.saved
    ensures Holds(StartedMemory(s.mem, t, start), u, s.L[u], s.saved[u])
  {
    hide Load, StartedMemory, Placed;
    var e := s.saved[u].esp;
    Separate(s.L, |s.mem|, t, u);
    StartElsewhere(s.mem, t, start, u + ESP);
    StartElsewhere(s.mem, t, start, e - 20);
    StartElsewhere(s.mem, t, start, e - 16);
    StartElsewhere(s.mem, t, start, e - 12);
    StartElsewhere(s.mem, t, start, e - 8);
    StartElsewhere(s.mem, t, start, e - 4);
  }

  lemma StartKeepsAnchor(s: System, t: int, start: Word, u: int)
    requires Inv(s) && Prepared(s, t) && u in s.L
    ensures Anchored(StartedMemory(s.mem, t, start), u, s.L[u])
  {
    hide Load, StartedMemory, Placed, Holds;
    Separate(s.L, |s.mem|, t, u);
    assert Anchored(s.mem, u, s.L[u]);
    StartElsewhere(s.mem, t, start, s.L[u].slot);
    StartElsewhere(s.mem, t, start, u + STACK_ADDR);
  }

  /** A thread that `KThreadRun` has prepared will start at `start` with all four registers zero. */
  lemma StartKeeps(s: System, t: int, start: Word)
    requires Inv(s) && Prepared(s, t)
    ensures Inv(AfterStart(s, t, start))
  {
    hide Load, Store, StartedMemory;
    var s' := AfterStart(s, t, start);
    assert Clear(t, t + STRUCT_SIZE, s.L[t].lo, s.L[t].slot + 4);
    StartHolds(s.mem, t, s.L[t], start);
    forall u | u in s'.saved
      ensures u in s'.L && Holds(s'.mem, u, s'.L[u], s'.saved[u])
    {
      if u != t {
        StartKeepsOthers(s, t, start, u);
      }
    }
    forall u | u in s'.L
      ensures Anchored(s'.mem, u, s'.L[u])
    {
      StartKeepsAnchor(s, t, start, u);
    }
  }

  /** The layout with a new thread `t` whose 4 KB stack starts at `base`. */
  function WithThread(L: Layout, t: int, base: int): Layout {
    L[t := Stack(base, base + 0xffb)]
  }

  ghost predicate CanCreate(s: System, t: Word, base: int) {
    t !in s.L && Placed(WithThread(s.L, t, base), |s.mem| - 1)
  }

  ghost function AfterCreate(s: System, t: Word, base: int): System
    requires Inv(s) && CanCreate(s, t, base)
  {
    assert t in WithThread(s.L, t, base);
    s.(mem := CreatedMemory(s.mem, t, base), L := WithThread(s.L, t, base))
  }

  lemma CreateElsewhere(m: Memory, t: Word, base: int, b: int)
    requires t + STRUCT_SIZE <= |m| < U32 && 0 <= base && base + 0x1000 <= |m|
    requires 0 <= b && b + 4 <= |m| && Clear(b, b + 4, t, t + STRUCT_SIZE) && Clear(b, b + 4, base, base + 0xfff)
    ensures Load(CreatedMemory(m, t, base), b) == Load(m, b)
  {
    hide Load, Store;
    var a := 0x1000 + base - 1;
    var m1 := Store(m, t + STACK_ADDR, a);
    var m2 := Store(m1, t + ESP, a - 4);
    LoadElsewhere(m, t + STACK_ADDR, a, b);
    LoadElsewhere(m1, t + ESP, a - 4, b);
    LoadElsewhere(m2, a - 4, t, b);
  }

  lemma CreateKeepsOthers(s: System, t: Word, base: int, u: int)
    requires Inv(s) && CanCreate(s, t, base) && u in s.saved
    ensures t + STRUCT_SIZE <= |s.mem| && 0 <= base && base + 0x1000 <= |s.mem|
    ensures Holds(CreatedMemory(s.mem, t, base), u, s.L[u], s.saved[u])
  {
    hide Load, CreatedMemory, Placed;
    var e, L := s.saved[u].esp, WithThread(s.L, t, base);
    assert L[u] == s.L[u] && L[t].slot + 4 == base + 0xfff;
    Separate(L, |s.mem| - 1, t, u);
    CreateElsewhere(s.mem, t, base, u + ESP);
    CreateElsewhere(s.mem, t, base, e - 20);
    CreateElsewhere(s.mem, t, base, e - 16);
    CreateElsewhere(s.mem, t, base, e - 12);
    CreateElsewhere(s.mem, t, base, e - 8);
    CreateElsewhere(s.mem, t, base, e - 4);
  }

  lemma CreateKeepsAnchor(s: System, t: Word, base: int, u: int)
    requires Inv(s) && CanCreate(s, t, base) && u in s.L
    ensures t + STRUCT_SIZE <= |s.mem| && 0 <= base && base + 0x1000 <= |s.mem|
    ensures Anchored(CreatedMemory(s.mem, t, base), u, s.L[u])
  {
    hide Load, CreatedMemory, Placed, Holds;
    var L := WithThread(s.L, t, base);
    assert L[u] == s.L[u] && L[t].slot + 4 == base + 0xfff && Anchored(s.mem, u, s.L[u]);
    Separate(L, |s.mem| - 1, t, u);
    CreateElsewhere(s.mem, t, base, s.L[u].slot);
    CreateElsewhere(s.mem, t, base, u + STACK_ADDR);
  }

  lemma CreateStores(m: Memory, t: Word, base: int)
    requires t + STRUCT_SIZE <= |m| < U32 && 0 <= base && base + 0x1000 <= |m|
    requires Clear(t, t + STRUCT_SIZE, base, base + 0xfff)
    ensures var m' := CreatedMemory(m, t, base);
      && Load(m', t + 4) == base + 0xfff && Load(m', t + 12) == base + 0xffb && Load(m', base + 0xffb) == t
      && Anchored(m', t, Stack(base, base + 0xffb))
  {
    hide Load, Store;
    var a := 0x1000 + base - 1;
    var m1 := Store(m, t + STACK_ADDR, a);
    var m2 := Store(m1, t + ESP, a - 4);
    LoadStored(m, t + STACK_ADDR, a);
    LoadElsewhere(m1, t + ESP, a - 4, t + STACK_ADDR);
    LoadElsewhere(m2, a - 4, t, t + STACK_ADDR);
    LoadStored(m1, t + ESP, a - 4);
    LoadElsewhere(m2, a - 4, t, t + ESP);
    LoadStored(m2, a - 4, t);
  }

  lemma PlacedMore(L: Layout, n: int)
    requires Placed(L, n)
    ensures Placed(L, n + 1)
  {
  }

  /** `CreateThread` gives the new thread a stack with its own address on top. */
  lemma CreateKeeps(s: System, t: Word, base: int)
    requires Inv(s) && CanCreate(s, t, base)
    ensures Inv(AfterCreate(s, t, base)) && Prepared(AfterCreate(s, t, base), t)
  {
    hide Load, Store, CreatedMemory, Placed, Holds, Anchored;
    var s', L := AfterCreate(s, t, base), WithThread(s.L, t, base);
    assert t in L && L[t].slot + 4 == base + 0xfff;
    PlacedMore(L, |s.mem| - 1);
    Separate(L, |s.mem| - 1, t, t);
    CreateStores(s.mem, t, base);
    assert t !in s.saved;
    forall u | u in s'.saved
      ensures u in s'.L && Holds(s'.mem, u, s'.L[u], s'.saved[u])
    {
      CreateKeepsOthers(s, t, base, u);
    }
    forall u | u in s'.L
      ensures Anchored(s'.mem, u, s'.L[u])
    {
      if u != t {
        CreateKeepsAnchor(s, t, base, u);
      }
    }
  }

  // ----- whole runs

  /** The running thread does anything but write to other threads or over its own slot and `stack_addr`. */
  ghost predicate OwnWork(s: System, s': System)
    requires Inv(s)
  {
    && s' == s.(cpu := s'.cpu, mem := s'.mem)
    && (forall t :: t in s.L && t != s.cur ==>
         Same(s.mem, s'.mem, s.L[t].lo, s.L[t].slot + 4) && Same(s.mem, s'.mem, t + ESP, t + ESP + 4))
    && (forall t :: t in s.L ==> Same(s.mem, s'.mem, t + STACK_ADDR, t + STACK_ADDR + 4))
    && Same(s.mem, s'.mem, s.L[s.cur].slot, s.L[s.cur].slot + 4)
  }

  datatype Event = Work | Switch(next: int) | Start(thread: int, start: Word) | Create(t: Word, base: int)

  ghost predicate Step(s: System, e: Event, s': System)
    requires Inv(s)
  {
    match e
    case Work => OwnWork(s, s')
    case Switch(next) => AtSwitch(s, next) && CanSwitch(s.cpu, s.mem) && s' == AfterSwitch(s, next)
    case Start(t, start) => Prepared(s, t) && s' == AfterStart(s, t, start)
    case Create(t, base) => CanCreate(s, t, base) && s' == AfterCreate(s, t, base)
  }

  lemma WorkKeeps(s: System, s': System)
    requires Inv(s) && OwnWork(s, s')
    ensures Inv(s')
  {
    hide Load, Holds, Same;
    SameSize(s.mem, s'.mem, s.L[s.cur].slot, s.L[s.cur].slot + 4);
    forall t | t in s.saved
      ensures Holds(s'.mem, t, s.L[t], s.saved[t])
    {
      SameHolds(s.mem, s'.mem, t, s.L[t], s.saved[t]);
    }
    forall t | t in s.L
      ensures Anchored(s'.mem, t, s.L[t])
    {
      assert Anchored(s.mem, t, s.L[t]);
      LoadSame(s.mem, s'.mem, t + STACK_ADDR, t + STACK_ADDR + 4, t + STACK_ADDR);
      LoadSame(s.mem, s'.mem, if t == s.cur then s.L[t].slot else s.L[t].lo, s.L[t].slot + 4, s.L[t].slot);
    }
  }

  lemma SameSize(m: Memory, m': Memory, lo: int, hi: int)
    requires Same(m, m', lo, hi)
    ensures |m'| == |m|
  {
  }

  /** A context stays saved as long as nobody writes to the stack and the `esp` field. */
  lemma SameHolds(m: Memory, m': Memory, t: int, k: Stack, c: Context)
    requires Holds(m, t, k, c) && Same(m, m', k.lo, k.slot + 4) && Same(m, m', t + ESP, t + ESP + 4)
    ensures Holds(m', t, k, c)
  {
    hide Load;
    LoadSame(m, m', t + ESP, t + ESP + 4, t + ESP);
    LoadSame(m, m', k.lo, k.slot + 4, c.esp - 20);
    LoadSame(m, m', k.lo, k.slot + 4, c.esp - 16);
    LoadSame(m, m', k.lo, k.slot + 4, c.esp - 12);
    LoadSame(m, m', k.lo, k.slot + 4, c.esp - 8);
    LoadSame(m, m', k.lo, k.slot + 4, c.esp - 4);
  }

  lemma StepKeeps(s: System, e: Event, s': System)
    requires Inv(s) && Step(s, e, s')
    ensures Inv(s')
  {
    match e
    case Work => WorkKeeps(s, s');
    case Switch(next) => SwitchIsTransparent(s, next);
    case Start(t, start) => StartKeeps(s, t, start);
    case Create(t, base) => CreateKeeps(s, t, base);
  }

  /** A run: each event leads from one state to the next. */
  ghost predicate IsRun(ss: seq<System>, es: seq<Event>) {
    && |ss| == |es| + 1
    && forall i :: 0 <= i < |es| ==> Inv(ss[i]) && Step(ss[i], es[i], ss[i + 1])
  }

  lemma {:induction false} RunKeeps(ss: seq<System>, es: seq<Event>, i: nat)
    requires ss != [] && Inv(ss[0]) && |ss| == |es| + 1 && i < |ss|
    requires forall k :: 0 <= k < |es| && Inv(ss[k]) ==> Step(ss[k], es[k], ss[k + 1])
    ensures Inv(ss[i])
    decreases i
  {
    hide Inv, Step;
    if i > 0 {
      RunKeeps(ss, es, i - 1);
      StepKeeps(ss[i - 1], es[i - 1], ss[i]);
    }
  }

  /** What is saved for a thread stays until the thread is switched in. */
  lemma {:induction false} SavedStays(ss: seq<System>, es: seq<Event>, t: int, i: nat, j: nat)
    requires IsRun(ss, es) && i <= j < |es| && ss[i].cur != t && t in ss[i].saved
    requires forall k :: i <= k < j ==> es[k] != Switch(t)
    ensures ss[j].cur != t && t in ss[j].saved && ss[j].saved[t] == ss[i].saved[t]
    decreases j
  {
    hide Load, Holds, Switched, Placed, StartedMemory, CreatedMemory, CanSwitch;
    if i < j {
      SavedStays(ss, es, t, i, j - 1);
      assert Step(ss[j - 1], es[j - 1], ss[j]) && Inv(ss[j - 1]);
    }
  }

  lemma SwitchesTo(s: System, next: int)
    requires Inv(s) && AtSwitch(s, next) && CanSwitch(s.cpu, s.mem)
    ensures var s' := AfterSwitch(s, next);
      s'.cur == next && s.cur in s'.saved && s'.saved[s.cur] == Leaving(s)
  {
  }

  lemma ResumedFromSaved(ss: seq<System>, es: seq<Event>, t: int, i: nat, j: nat)
    requires IsRun(ss, es) && i <= j < |es| && ss[i].cur != t && t in ss[i].saved
    requires (forall k :: i <= k < j ==> es[k] != Switch(t)) && es[j] == Switch(t)
    ensures ss[j + 1].cur == t && ContextOf(ss[j + 1].cpu) == ss[i].saved[t]
  {
    hide Load, Inv, Switched, CanSwitch, AfterSwitch, AfterStart, AfterCreate;
    SavedStays(ss, es, t, i, j);
    assert Inv(ss[j]) && Step(ss[j], es[j], ss[j + 1]);
    SwitchIsTransparent(ss[j], t);
    SwitchesTo(ss[j], t);
  }

  /**
   Transparency of context switching: over every run, a thread that is switched in again gets
   the stack pointer, return address and registers that it was switched out with.
   */
  lemma ResumedAsLeft(ss: seq<System>, es: seq<Event>, t: int, i: nat, j: nat)
    requires IsRun(ss, es) && i < j < |es| && ss[i].cur == t && es[i].Switch?
    requires Inv(ss[i]) && AtSwitch(ss[i], es[i].next)
    requires (forall k :: i <= k < j ==> es[k] != Switch(t)) && es[j] == Switch(t)
    ensures ss[j + 1].cur == t && ContextOf(ss[j + 1].cpu) == Leaving(ss[i])
  {
    hide Load, Inv, Switched, CanSwitch, AfterSwitch, AfterStart, AfterCreate;
    assert Step(ss[i], es[i], ss[i + 1]);
    SwitchesTo(ss[i], es[i].next);
    ResumedFromSaved(ss, es, t, i + 1, j);
  }

  /**
   A new kernel thread: the first time it is switched in it is at `start_func`, with an empty
   stack and the four callee-saved registers zero.
   */
  lemma FirstArrival(ss: seq<System>, es: seq<Event>, t: int, start: Word, i: nat, j: nat)
    requires IsRun(ss, es) && i < j < |es| && es[i] == Start(t, start)
    requires Inv(ss[i]) && Prepared(ss[i], t)
    requires (forall k :: i <= k < j ==> es[k] != Switch(t)) && es[j] == Switch(t)
    ensures ContextOf(ss[j + 1].cpu) == Context(start, ss[i].L[t].slot, 0, 0, 0, 0)
  {
    hide Load, Switched, CanSwitch, StartedMemory, Holds;
    assert Step(ss[i], es[i], ss[i + 1]);
    ResumedFromSaved(ss, es, t, i + 1, j);
  }

  // ----- such runs exist

  /** The stack of `t` has room for the call of `SwitchReg` and the registers that it saves. */
  ghost predicate Roomy(L: Layout, t: int) {
    t in L && L[t].lo + 28 <= L[t].slot
  }

  /** The running thread has pushed the arguments of `SwitchReg(&cur->esp, &next->esp)`. */
  ghost function Called(s: System, next: int): (s': System)
    requires Inv(s) && next in s.saved && Roomy(s.L, s.cur)
  {
    var e := s.L[s.cur].lo + 16;
    s.(cpu := s.cpu.(esp := e), mem := Store(Store(s.mem, e + 4, s.cur + ESP), e + 8, next + ESP))
  }

  lemma SameStored(m: Memory, a: int, v: Word, lo: int, hi: int)
    requires 0 <= a && a + 4 <= |m| && Clear(a, a + 4, lo, hi)
    ensures Same(m, Store(m, a, v), lo, hi)
  {
  }

  /** Two stores of words from `a` on leave what is clear of them. */
  lemma SameStoredTwice(m: Memory, a: int, v: Word, w: Word, lo: int, hi: int)
    requires 0 <= a && a + 8 <= |m| && Clear(a, a + 8, lo, hi)
    ensures Same(m, Store(Store(m, a, v), a + 4, w), lo, hi)
  {
    hide Store;
    SameStored(m, a, v, lo, hi);
    SameStored(Store(m, a, v), a + 4, w, lo, hi);
  }

  /** A thread with room on its stack can at any time call for a switch to any saved thread. */
  lemma CallIsWork(s: System, next: int)
    requires Inv(s) && next in s.saved && Roomy(s.L, s.cur)
    ensures OwnWork(s, Called(s, next)) && Inv(Called(s, next)) && AtSwitch(Called(s, next), next)
  {
    hide Load, Store, Holds, Placed, Same, Anchored;
    var s', e := Called(s, next), s.L[s.cur].lo + 16;
    Separate(s.L, |s.mem|, s.cur, next);
    forall t | t in s.L
      ensures Same(s.mem, s'.mem, t + STACK_ADDR, t + STACK_ADDR + 4)
      ensures t != s.cur ==> Same(s.mem, s'.mem, s.L[t].lo, s.L[t].slot + 4)
      ensures t != s.cur ==> Same(s.mem, s'.mem, t + ESP, t + ESP + 4)
    {
      Separate(s.L, |s.mem|, s.cur, t);
      SameStoredTwice(s.mem, e + 4, s.cur + ESP, next + ESP, t + STACK_ADDR, t + STACK_ADDR + 4);
      SameStoredTwice(s.mem, e + 4, s.cur + ESP, next + ESP, t + ESP, t + ESP + 4);
      if t != s.cur {
        SameStoredTwice(s.mem, e + 4, s.cur + ESP, next + ESP, s.L[t].lo, s.L[t].slot + 4);
      }
    }
    SameStoredTwice(s.mem, e + 4, s.cur + ESP, next + ESP, s.L[s.cur].slot, s.L[s.cur].slot + 4);
    WorkKeeps(s, s');
    var m1 := Store(s.mem, e + 4, s.cur + ESP);
    LoadStored(s.mem, e + 4, s.cur + ESP);
    LoadElsewhere(m1, e + 8, next + ESP, e + 4);
    LoadStored(m1, e + 8, next + ESP);
  }

  /** Two threads with room can hand the processor to each other and back. */
  lemma BackAndForth(s: System, next: int) returns (ss: seq<System>, es: seq<Event>)
    requires Inv(s) && next in s.saved && Roomy(s.L, s.cur) && Roomy(s.L, next)
    ensures IsRun(ss, es) && ss[0] == s && es == [Work, Switch(next), Work, Switch(s.cur)]
    ensures Inv(ss[1]) && ss[1].cur == s.cur && AtSwitch(ss[1], next)
    ensures ss[4].cur == s.cur && ContextOf(ss[4].cpu) == Leaving(ss[1])
  {
    hide Load, Inv, OwnWork, AtSwitch, CanSwitch, Called, AfterSwitch;
    var s1 := TakeTurn(s, next);
    SwitchIsTransparent(s1, next);
    var s2 := AfterSwitch(s1, next);
    SwitchKeepsLayout(s1, next);
    var s3 := TakeTurn(s2, s.cur);
    SwitchIsTransparent(s3, s.cur);
    var s4 := AfterSwitch(s3, s.cur);
    SwitchKeepsLayout(s3, s.cur);
    ss, es := [s, s1, s2, s3, s4], [Work, Switch(next), Work, Switch(s.cur)];
    ResumedAsLeft(ss, es, s.cur, 1, 3);
  }

  lemma TakeTurn(s: System, next: int) returns (s': System)
    requires Inv(s) && next in s.saved && Roomy(s.L, s.cur)
    ensures OwnWork(s, s') && Inv(s') && AtSwitch(s', next)
    ensures s'.cur == s.cur && s'.L == s.L && s'.saved == s.saved
  {
    CallIsWork(s, next);
    s' := Called(s, next);
  }

  lemma SwitchKeepsLayout(s: System, next: int)
    requires Inv(s) && AtSwitch(s, next) && CanSwitch(s.cpu, s.mem)
    ensures var s' := AfterSwitch(s, next);
      s'.L == s.L && s'.cur == next && s.cur in s'.saved && s.cur != next
  {
  }

  /** The main thread right after `ThreadInit` with 128 KB of memory. */
  ghost function FirstState(cpu: Cpu): (s: System) {
    var m, main := seq(0x2_0000, _ => 0), 0x1_0000;
    var m' := Store(Store(Store(m, main + STACK_ADDR, 0xbc00), main + ESP, MAIN_SLOT), MAIN_SLOT, main);
    System(cpu, m', main, MAIN_SLOT, map[main := Stack(MAIN_STACK, MAIN_SLOT)], map[])
  }

  /** A second thread is created and started. */
  lemma SecondThread(cpu: Cpu, t: Word, base: int, start: Word) returns (s1: System, s2: System)
    requires t == 0x1_0100 && base == 0x1_1000
    ensures var s := FirstState(cpu); Inv(s) && Step(s, Create(t, base), s1)
    ensures Inv(s1) && Step(s1, Start(t, start), s2) && Inv(s2)
    ensures t in s2.saved && Roomy(s2.L, t) && Roomy(s2.L, s2.cur)
  {
    hide Load, Store, Inv;
    var s, main := FirstState(cpu), 0x1_0000;
    MainThread(cpu, seq(0x2_0000, _ => 0), main);
    assert CanCreate(s, t, base);
    CreateKeeps(s, t, base);
    s1 := AfterCreate(s, t, base);
    StartKeeps(s1, t, start);
    s2 := AfterStart(s1, t, start);
  }

  /** From `ThreadInit` on: a second thread is created, started, switched to and left again. */
  lemma FirstSwitches(cpu: Cpu, start: Word) returns (ss: seq<System>, es: seq<Event>)
    ensures IsRun(ss, es) && ss[0] == FirstState(cpu)
    ensures |es| == 6 && es[3].Switch? && es[5] == Switch(ss[3].cur)
    ensures Inv(ss[3]) && AtSwitch(ss[3], es[3].next)
    ensures ss[6].cur == ss[3].cur && ContextOf(ss[6].cpu) == Leaving(ss[3])
  {
    hide Inv, Step, AtSwitch, FirstState, Roomy, Leaving, ContextOf;
    var s, t, base := FirstState(cpu), 0x1_0100, 0x1_1000;
    var s1, s2 := SecondThread(cpu, t, base, start);
    var ss', es' := BackAndForth(s2, t);
    ss, es := [s, s1] + ss', [Create(t, base), Start(t, start)] + es';
    forall i | 0 <= i < |es|
      ensures Inv(ss[i]) && Step(ss[i], es[i], ss[i + 1])
    {
      if i >= 2 {
        assert Inv(ss'[i - 2]) && Step(ss'[i - 2], es'[i - 2], ss'[i - 1]);
      }
    }
  }
}
