/**
 Interrupt entry and return (interrupt.c) over the memory-backed ISR stack (stack.h, memory.c):
 little-endian words in RAM, the per-core stack layout of vm_create, and the proof that IRET
 restores what entry saved.
 */
module Context {
  import opened Mmio
  import opened Bytes

  const U32: nat := 0x1_0000_0000
  const U64: nat := 0x1_0000_0000_0000_0000
  const REG_COUNT: nat := 32
  const ISR_ARG_REG: nat := 31
  const ISR_STACK_SIZE: nat := 256
  const FRAME: nat := 34
  const UNREGISTERED: nat := 0xFFFF_FFFF_FFFF_FFFF

  // ---------------------------------------------------------------------------
  // Little-endian words
  // ---------------------------------------------------------------------------

  function Pow256(n: nat): (r: nat)
    ensures r >= 1
  {
    if n == 0 then 1 else 256 * Pow256(n - 1)
  }

  /** The n low bytes of v, least significant first: byte k is (v >> 8k) & 0xFF. */
  function Digits(v: nat, n: nat): (bs: seq<byte>)
    ensures |bs| == n
  {
    if n == 0 then [] else [v % 256] + Digits(v / 256, n - 1)
  }

  function Value(bs: seq<byte>): nat {
    if bs == [] then 0 else bs[0] + 256 * Value(bs[1..])
  }

  lemma {:induction false} DigitsRoundTrip(v: nat, n: nat)
    requires v < Pow256(n)
    ensures Value(Digits(v, n)) == v
  {
    if n > 0 {
      DigitsRoundTrip(v / 256, n - 1);
      assert Digits(v, n)[1..] == Digits(v / 256, n - 1);
    }
  }

  lemma {:induction false} ValueConcat(a: seq<byte>, b: seq<byte>)
    ensures Value(a + b) == Value(a) + Pow256(|a|) * Value(b)
  {
    if a == [] {
      assert a + b == b;
    } else {
      ValueConcat(a[1..], b);
      assert (a + b)[1..] == a[1..] + b;
      MulAssoc(256, Pow256(|a| - 1), Value(b));
    }
  }

  lemma MulAssoc(a: int, b: int, c: int)
    ensures a * (b * c) == (a * b) * c
  {
  }

  lemma {:induction false} ValueBound(bs: seq<byte>)
    ensures Value(bs) < Pow256(|bs|)
  {
    if bs != [] {
      ValueBound(bs[1..]);
    }
  }

  lemma Powers()
    ensures Pow256(4) == U32 && Pow256(8) == U64
  {
    assert Pow256(2) == 0x1_0000;
    assert Pow256(4) == 0x1_0000_0000;
    assert Pow256(6) == 0x1_0000_0000_0000;
  }

  type Memory = seq<byte>

  function Read32(m: Memory, addr: nat): nat
    requires addr + 4 <= |m|
  {
    Value(m[addr..addr + 4])
  }

  /** vm_read64 outside device ranges: two 32-bit reads. */
  function Read64(m: Memory, addr: nat): nat
    requires addr + 8 <= |m|
  {
    Read32(m, addr) + Read32(m, addr + 4) * U32
  }

  function Write64(m: Memory, addr: nat, v: nat): (r: Memory)
    requires addr + 8 <= |m|
    ensures |r| == |m|
  {
    m[..addr] + Digits(v, 8) + m[addr + 8..]
  }

  lemma Read64IsValue(m: Memory, addr: nat)
    requires addr + 8 <= |m|
    ensures Read64(m, addr) == Value(m[addr..addr + 8]) < U64
  {
    var lo, hi := m[addr..addr + 4], m[addr + 4..addr + 8];
    assert m[addr..addr + 8] == lo + hi;
    ValueConcat(lo, hi);
    ValueBound(m[addr..addr + 8]);
    Powers();
  }

  /** A word written is read back, and every other aligned-apart word is unchanged. */
  lemma WriteThenRead(m: Memory, addr: nat, v: nat)
    requires addr + 8 <= |m| && v < U64
    ensures Read64(Write64(m, addr, v), addr) == v
  {
    var r := Write64(m, addr, v);
    assert r[addr..addr + 8] == Digits(v, 8);
    Read64IsValue(r, addr);
    Powers();
    DigitsRoundTrip(v, 8);
  }

  /** Bytes outside [addr, addr + 8) are untouched. */
  lemma WriteElsewhere(m: Memory, addr: nat, v: nat, i: nat)
    requires addr + 8 <= |m| && i < |m| && !(addr <= i < addr + 8)
    ensures Write64(m, addr, v)[i] == m[i]
  {
  }

  // ---------------------------------------------------------------------------
  // The ISR stack
  // ---------------------------------------------------------------------------

  datatype Cpu = Cpu(regs: seq<nat>, flags: nat, ip: nat, isp: nat, inInterrupt: bool, isrBase: nat)

  /** 32 registers and flags of 32 bits, ip of 64 bits. */
  predicate CpuTyped(c: Cpu) {
    && |c.regs| == REG_COUNT && (forall i :: 0 <= i < REG_COUNT ==> c.regs[i] < U32)
    && c.flags < U32 && c.ip < U64
  }

  predicate CpuOk(c: Cpu) {
    CpuTyped(c) && c.isp == (if c.inInterrupt then ISR_STACK_SIZE - FRAME else ISR_STACK_SIZE)
  }

  predicate StackInRam(m: Memory, base: nat) {
    base + ISR_STACK_SIZE * 8 <= |m|
  }

  function Slot(m: Memory, base: nat, i: nat): nat
    requires StackInRam(m, base) && i < ISR_STACK_SIZE
  {
    Read64(m, base + i * 8)
  }

  /** Push the words one after the other, starting below isp. */
  function PushAll(m: Memory, base: nat, isp: nat, ws: seq<nat>): (r: Memory)
    requires StackInRam(m, base) && |ws| <= isp <= ISR_STACK_SIZE
    ensures |r| == |m|
    decreases |ws|
  {
    if ws == [] then m
    else PushAll(Write64(m, base + (isp - 1) * 8, ws[0]), base, isp - 1, ws[1..])
  }

  /** Only the pushed slots change. */
  lemma {:induction false} PushAllElsewhere(m: Memory, base: nat, isp: nat, ws: seq<nat>, i: nat)
    requires StackInRam(m, base) && |ws| <= isp <= ISR_STACK_SIZE && i < |m|
    requires !(base + (isp - |ws|) * 8 <= i < base + isp * 8)
    ensures PushAll(m, base, isp, ws)[i] == m[i]
    decreases |ws|
  {
    if ws != [] {
      WriteElsewhere(m, base + (isp - 1) * 8, ws[0], i);
      PushAllElsewhere(Write64(m, base + (isp - 1) * 8, ws[0]), base, isp - 1, ws[1..], i);
    }
  }

  lemma SlotDependsOnBytes(m: Memory, n: Memory, base: nat, i: nat)
    requires StackInRam(m, base) && |n| == |m| && i < ISR_STACK_SIZE
    requires forall k :: base + i * 8 <= k < base + i * 8 + 8 ==> n[k] == m[k]
    ensures Slot(n, base, i) == Slot(m, base, i)
  {
    var a := base + i * 8;
    assert n[a..a + 4] == m[a..a + 4];
    assert n[a + 4..a + 4 + 4] == m[a + 4..a + 4 + 4];
  }

  /** The k-th word pushed sits k + 1 slots below the old top. */
  lemma {:induction false} PushedWord(m: Memory, base: nat, isp: nat, ws: seq<nat>, k: nat)
    requires StackInRam(m, base) && |ws| <= isp <= ISR_STACK_SIZE && k < |ws|
    requires forall i :: 0 <= i < |ws| ==> ws[i] < U64
    ensures Slot(PushAll(m, base, isp, ws), base, isp - 1 - k) == ws[k]
    decreases |ws|
  {
    var m1 := Write64(m, base + (isp - 1) * 8, ws[0]);
    if k == 0 {
      WriteThenRead(m, base + (isp - 1) * 8, ws[0]);
      var r := PushAll(m, base, isp, ws);
      forall i | base + (isp - 1) * 8 <= i < base + (isp - 1) * 8 + 8
        ensures r[i] == m1[i]
      {
        PushAllElsewhere(m1, base, isp - 1, ws[1..], i);
      }
      SlotDependsOnBytes(m1, r, base, isp - 1);
    } else {
      PushedWord(m1, base, isp - 1, ws[1..], k - 1);
    }
  }

  // ---------------------------------------------------------------------------
  // Entry and return
  // ---------------------------------------------------------------------------

  /** What entry pushes, in order: ip, flags, then all registers. */
  function Saved(c: Cpu): seq<nat> {
    [c.ip, c.flags] + c.regs
  }

  function EnterMemory(m: Memory, c: Cpu): (r: Memory)
    requires CpuOk(c) && !c.inInterrupt && StackInRam(m, c.isrBase)
    ensures |r| == |m|
  {
    PushAll(m, c.isrBase, c.isp, Saved(c))
  }

  function EnterCpu(c: Cpu, v: nat, isr: nat): Cpu
    requires CpuOk(c) && !c.inInterrupt
  {
    c.(regs := c.regs[ISR_ARG_REG := v], ip := isr % U32, isp := c.isp - FRAME, inInterrupt := true)
  }

  /** IRET: registers 31 down to 0, then flags, then ip, each cut to 32 bits. */
  function IretCpu(m: Memory, c: Cpu): Cpu
    requires CpuOk(c) && c.inInterrupt && StackInRam(m, c.isrBase)
  {
    c.(regs := seq(REG_COUNT, i requires 0 <= i < REG_COUNT => Slot(m, c.isrBase, c.isp + REG_COUNT - 1 - i) % U32),
       flags := Slot(m, c.isrBase, c.isp + REG_COUNT) % U32,
       ip := Slot(m, c.isrBase, c.isp + REG_COUNT + 1) % U32,
       isp := c.isp + FRAME, inInterrupt := false)
  }

  /** Entry and return keep isp tied to in_interrupt, so the ISR stack can neither overflow nor underflow. */
  lemma StackPointerStays(m: Memory, c: Cpu, v: nat, isr: nat)
    requires CpuOk(c) && StackInRam(m, c.isrBase) && v < U32
    ensures !c.inInterrupt ==> c.isp >= FRAME && CpuOk(EnterCpu(c, v, isr))
    ensures c.inInterrupt ==> c.isp + FRAME <= ISR_STACK_SIZE && CpuOk(IretCpu(m, c))
  {
  }

  ghost predicate SameStack(m: Memory, n: Memory, base: nat) {
    |n| == |m| && StackInRam(m, base) && forall i :: base <= i < base + ISR_STACK_SIZE * 8 ==> n[i] == m[i]
  }

  lemma SameSlots(m: Memory, n: Memory, base: nat, i: nat)
    requires SameStack(m, n, base) && i < ISR_STACK_SIZE
    ensures Slot(n, base, i) == Slot(m, base, i)
  {
    SlotDependsOnBytes(m, n, base, i);
  }

  /** After entry, and as long as the stack is left alone, slot 255 - k holds the k-th word saved. */
  lemma SavedSlot(m: Memory, c: Cpu, m2: Memory, k: nat)
    requires CpuOk(c) && !c.inInterrupt && StackInRam(m, c.isrBase) && k < FRAME
    requires SameStack(EnterMemory(m, c), m2, c.isrBase)
    ensures Slot(m2, c.isrBase, ISR_STACK_SIZE - 1 - k) == Saved(c)[k]
  {
    var ws := Saved(c);
    assert forall i :: 0 <= i < FRAME ==> ws[i] < U64;
    PushedWord(m, c.isrBase, ISR_STACK_SIZE, ws, k);
    SameSlots(EnterMemory(m, c), m2, c.isrBase, ISR_STACK_SIZE - 1 - k);
  }

  /** Whatever the handler did, as long as it left the stack alone (c2, m2), IRET reads back register i. */
  lemma RegisterRestored(m: Memory, c: Cpu, m2: Memory, c2: Cpu, i: nat)
    requires CpuOk(c) && !c.inInterrupt && StackInRam(m, c.isrBase)
    requires CpuOk(c2) && c2.inInterrupt && c2.isrBase == c.isrBase && i < REG_COUNT
    requires SameStack(EnterMemory(m, c), m2, c.isrBase)
    ensures IretCpu(m2, c2).regs[i] == c.regs[i]
  {
    SavedSlot(m, c, m2, 2 + i);
    assert Saved(c)[2 + i] == c.regs[i];
    assert c2.isp + REG_COUNT - 1 - i == ISR_STACK_SIZE - 1 - (2 + i);
  }

  lemma FlagsAndIpRestored(m: Memory, c: Cpu, m2: Memory, c2: Cpu)
    requires CpuOk(c) && !c.inInterrupt && StackInRam(m, c.isrBase)
    requires CpuOk(c2) && c2.inInterrupt && c2.isrBase == c.isrBase
    requires SameStack(EnterMemory(m, c), m2, c.isrBase)
    ensures IretCpu(m2, c2).flags == c.flags && IretCpu(m2, c2).ip == c.ip % U32
  {
    SavedSlot(m, c, m2, 0);
    SavedSlot(m, c, m2, 1);
  }

  /**
   Enter the handler of vector v; let the handler and all other cores do anything that leaves this
   core's ISR stack alone (c2, m2); then IRET. All 32 registers, the flags and the stack pointer are
   what they were, and so are the low 32 bits of ip.
   */
  lemma IretRestoresContext(m: Memory, c: Cpu, m2: Memory, c2: Cpu)
    requires CpuOk(c) && !c.inInterrupt && StackInRam(m, c.isrBase)
    requires CpuOk(c2) && c2.inInterrupt && c2.isrBase == c.isrBase
    requires SameStack(EnterMemory(m, c), m2, c.isrBase)
    ensures IretCpu(m2, c2) == c.(ip := c.ip % U32)
  {
    var r := IretCpu(m2, c2);
    forall i | 0 <= i < REG_COUNT
      ensures r.regs[i] == c.regs[i]
    {
      RegisterRestored(m, c, m2, c2, i);
    }
    assert r.regs == c.regs;
    FlagsAndIpRestored(m, c, m2, c2);
  }

  // ---------------------------------------------------------------------------
  // The stack layout of vm_create
  // ---------------------------------------------------------------------------

  const CALL_STACK_BASE: nat := 0x800
  const CALL_BYTES: nat := 256 * 8
  const DATA_BYTES: nat := 256 * 4
  const ISR_BYTES: nat := 256 * 8
  const PER_CORE: nat := CALL_BYTES + DATA_BYTES + ISR_BYTES
  const MAX_CORES: nat := 64

  function CoreBase(cores: nat, i: nat): nat
    requires 1 <= cores <= MAX_CORES && i < cores
  {
    if cores == 1 then CALL_STACK_BASE else MEM_SIZE - PER_CORE * cores + PER_CORE * i
  }

  function IsrBase(cores: nat, i: nat): nat
    requires 1 <= cores <= MAX_CORES && i < cores
  {
    CoreBase(cores, i) + CALL_BYTES + DATA_BYTES
  }

  /** Every core's ISR stack lies in RAM, above the vector table, outside every device and apart from all other cores' stacks. */
  lemma StacksAreDisjoint(cores: nat, i: nat, j: nat, a: nat)
    requires 1 <= cores <= MAX_CORES && i < cores && j < cores && i != j
    requires IsrBase(cores, i) <= a < IsrBase(cores, i) + ISR_BYTES
    ensures 0x800 <= a < MEM_SIZE
    ensures Scan(Devices(), a) == NO_DEVICE
    ensures !(CoreBase(cores, j) <= a < CoreBase(cores, j) + PER_CORE)
  {
    StackOutsideDevices(cores, i, a);
    assert i < j ==> PER_CORE * i + PER_CORE <= PER_CORE * j;
    assert j < i ==> PER_CORE * j + PER_CORE <= PER_CORE * i;
  }

  lemma StackOutsideDevices(cores: nat, i: nat, a: nat)
    requires 1 <= cores <= MAX_CORES && i < cores
    requires IsrBase(cores, i) <= a < IsrBase(cores, i) + ISR_BYTES
    ensures 0x800 <= a < MEM_SIZE
    ensures Scan(Devices(), a) == NO_DEVICE
  {
    assert PER_CORE * i + PER_CORE <= PER_CORE * cores;
    assert forall d :: 0 <= d < |Devices()| ==> !Covers(Devices()[d], a);
  }

  /** So another core's entry leaves this core's saved context alone. */
  lemma OtherCoresEntryIsHarmless(m: Memory, cores: nat, i: nat, c: Cpu, j: nat)
    requires 1 <= cores <= MAX_CORES && i < cores && j < cores && i != j && |m| == MEM_SIZE
    requires CpuOk(c) && !c.inInterrupt && c.isrBase == IsrBase(cores, j)
    ensures StackInRam(m, IsrBase(cores, j))
    ensures SameStack(m, EnterMemory(m, c), IsrBase(cores, i))
  {
    assert PER_CORE * j + PER_CORE <= PER_CORE * cores && PER_CORE * i + PER_CORE <= PER_CORE * cores;
    var r := EnterMemory(m, c);
    forall a | IsrBase(cores, i) <= a < IsrBase(cores, i) + ISR_BYTES
      ensures r[a] == m[a]
    {
      StacksAreDisjoint(cores, i, j, a);
      PushAllElsewhere(m, c.isrBase, c.isp, Saved(c), a);
    }
  }

  // ---------------------------------------------------------------------------
  // Runs of the whole machine
  // ---------------------------------------------------------------------------

  datatype Machine = Machine(mem: Memory, cpus: seq<Cpu>)

  /**
   A core enters a handler, returns from one, starts another core, or executes any other instruction,
   which may rewrite its registers, flags, ip and the memory, but knows nothing of isp and in_interrupt.
   */
  datatype Action =
    | Enter(i: nat, v: nat, isr: nat)
    | Iret(i: nat)
    | StartAp(i: nat, target: nat, entry: nat)
    | Instr(i: nat, regs: seq<nat>, flags: nat, ip: nat, mem: Memory)

  function Executed(c: Cpu, a: Action): Cpu
    requires a.Instr?
  {
    c.(regs := a.regs, flags := a.flags, ip := a.ip)
  }

  ghost predicate Inv(s: Machine) {
    && 1 <= |s.cpus| <= MAX_CORES && |s.mem| == MEM_SIZE
    && forall i :: 0 <= i < |s.cpus| ==> CpuOk(s.cpus[i]) && s.cpus[i].isrBase == IsrBase(|s.cpus|, i)
  }

  predicate Enabled(s: Machine, a: Action) {
    && a.i < |s.cpus|
    && match a
       case Enter(i, v, _) => !s.cpus[i].inInterrupt && v < U32
       case Iret(i) => s.cpus[i].inInterrupt
       case StartAp(i, target, entry) => i == 0 && 0 < target < |s.cpus| && entry < U64
       case Instr(i, _, _, _, mem) => CpuTyped(Executed(s.cpus[i], a)) && |mem| == |s.mem|
  }

  /** The machine as vm_create leaves it, with a program at textBase. */
  ghost function Boot(mem: Memory, cores: nat, textBase: nat): (s: Machine)
    requires 1 <= cores <= MAX_CORES && |mem| == MEM_SIZE && textBase < U64
    ensures Inv(s) && |s.cpus| == cores
  {
    var zeros := seq(REG_COUNT, _ => 0);
    Machine(mem, seq(cores, i requires 0 <= i < cores =>
                   Cpu(zeros, 0, textBase, ISR_STACK_SIZE, false, IsrBase(cores, i))))
  }

  lemma IsrStackInRam(cores: nat, i: nat)
    requires 1 <= cores <= MAX_CORES && i < cores
    ensures IsrBase(cores, i) + ISR_BYTES <= MEM_SIZE
  {
    assert PER_CORE * i + PER_CORE <= PER_CORE * cores;
  }

  ghost function Next(s: Machine, a: Action): (r: Machine)
    requires Inv(s) && Enabled(s, a)
    ensures Inv(r) && |r.cpus| == |s.cpus|
  {
    var c := s.cpus[a.i];
    IsrStackInRam(|s.cpus|, a.i);
    match a
    case Enter(i, v, isr) =>
      StackPointerStays(s.mem, c, v, isr);
      Machine(EnterMemory(s.mem, c), s.cpus[i := EnterCpu(c, v, isr)])
    case Iret(i) =>
      StackPointerStays(s.mem, c, 0, 0);
      s.(cpus := s.cpus[i := IretCpu(s.mem, c)])
    case StartAp(_, target, entry) => s.(cpus := s.cpus[target := s.cpus[target].(ip := entry)])
    case Instr(i, _, _, _, mem) => Machine(mem, s.cpus[i := Executed(c, a)])
  }

  ghost predicate Possible(s: Machine, run: seq<Action>)
    requires Inv(s)
    decreases |run|
  {
    run != [] ==> Enabled(s, run[0]) && Possible(Next(s, run[0]), run[1..])
  }

  ghost function After(s: Machine, run: seq<Action>): (r: Machine)
    requires Inv(s) && Possible(s, run)
    ensures Inv(r) && |r.cpus| == |s.cpus|
    decreases |run|
  {
    if run == [] then s else After(Next(s, run[0]), run[1..])
  }

  /**
   Entering the handler of vector v, whose table entry is isr, jumps to isr with v in r31; the other
   registers and the flags are as they were, and no other core notices.
   */
  lemma EntryJumpsToHandler(s: Machine, i: nat, v: nat, isr: nat)
    requires Inv(s) && Enabled(s, Enter(i, v, isr))
    ensures var c, r := s.cpus[i], Next(s, Enter(i, v, isr));
            && r.cpus[i].ip == isr % U32 && r.cpus[i].regs[31] == v && r.cpus[i].regs[..31] == c.regs[..31]
            && |r.cpus[i].regs| == 32 && r.cpus[i].flags == c.flags && r.cpus[i].inInterrupt
            && forall j :: 0 <= j < |s.cpus| && j != i ==> r.cpus[j] == s.cpus[j]
  {
  }

  /** Where the context goes: ip in the top slot of the ISR stack, flags below it, then r0 to r31. */
  lemma EntrySavesContext(s: Machine, i: nat, v: nat, isr: nat, k: nat)
    requires Inv(s) && Enabled(s, Enter(i, v, isr)) && k < REG_COUNT
    ensures var c, m := s.cpus[i], Next(s, Enter(i, v, isr)).mem;
            && StackInRam(m, c.isrBase)
            && Slot(m, c.isrBase, 255) == c.ip && Slot(m, c.isrBase, 254) == c.flags && Slot(m, c.isrBase, 253 - k) == c.regs[k]
  {
    var c := s.cpus[i];
    IsrStackInRam(|s.cpus|, i);
    SavedSlot(s.mem, c, EnterMemory(s.mem, c), 0);
    SavedSlot(s.mem, c, EnterMemory(s.mem, c), 1);
    SavedSlot(s.mem, c, EnterMemory(s.mem, c), 2 + k);
  }

  /** Entry writes the 34 topmost words of its own ISR stack and nothing else. */
  lemma EntryWritesItsFrameOnly(s: Machine, i: nat, v: nat, isr: nat, a: nat)
    requires Inv(s) && Enabled(s, Enter(i, v, isr)) && a < MEM_SIZE
    requires !(s.cpus[i].isrBase + 222 * 8 <= a < s.cpus[i].isrBase + 256 * 8)
    ensures Next(s, Enter(i, v, isr)).mem[a] == s.mem[a]
  {
    IsrStackInRam(|s.cpus|, i);
    PushAllElsewhere(s.mem, s.cpus[i].isrBase, ISR_STACK_SIZE, Saved(s.cpus[i]), a);
  }

  /** The boot core starts another core at an entry point; nothing else about any core changes. */
  lemma StartApSetsEntry(s: Machine, target: nat, entry: nat, j: nat)
    requires Inv(s) && Enabled(s, StartAp(0, target, entry)) && j < |s.cpus|
    ensures var r := Next(s, StartAp(0, target, entry));
            && r.cpus[target].ip == entry && r.mem == s.mem
            && r.cpus[j].(ip := 0) == s.cpus[j].(ip := 0) && (j != target ==> r.cpus[j] == s.cpus[j])
  {
  }

  /** At power-on every core is outside any handler, at the start of the program, with an empty ISR stack and zero registers. */
  lemma BootState(mem: Memory, cores: nat, textBase: nat, i: nat, k: nat)
    requires 1 <= cores <= MAX_CORES && |mem| == MEM_SIZE && textBase < U64 && i < cores && k < REG_COUNT
    ensures var c := Boot(mem, cores, textBase).cpus[i];
            && c.ip == textBase && c.isp == 256 && !c.inInterrupt && c.flags == 0 && c.regs[k] == 0
            && Boot(mem, cores, textBase).mem == mem
  {
  }

  /**
   The layout: one core keeps its stacks at 0x800; several have theirs side by side at the very top of
   RAM, each 2048 bytes of call stack, 1024 of data stack and 2048 of ISR stack.
   */
  lemma StackLayout(cores: nat, i: nat)
    requires 1 <= cores <= MAX_CORES && i < cores
    ensures cores == 1 ==> CoreBase(cores, i) == 0x800
    ensures cores > 1 && i == cores - 1 ==> CoreBase(cores, i) + 5120 == 0x400_0000
    ensures cores > 1 && i + 1 < cores ==> CoreBase(cores, i + 1) == CoreBase(cores, i) + 5120
    ensures IsrBase(cores, i) == CoreBase(cores, i) + 3072
  {
  }

  /**
   In every state reachable from power-on isp is 256 - 34 * in_interrupt on every core: an entry always
   finds room for its 34 words and a return always finds them, so neither panic of the ISR stack happens.
   */
  lemma StackNeverOverflows(mem: Memory, cores: nat, textBase: nat, run: seq<Action>, i: nat)
    requires 1 <= cores <= MAX_CORES && |mem| == MEM_SIZE && textBase < U64 && i < cores
    requires Possible(Boot(mem, cores, textBase), run)
    ensures var c := After(Boot(mem, cores, textBase), run).cpus[i];
            && c.isp == ISR_STACK_SIZE - (if c.inInterrupt then FRAME else 0)
            && (!c.inInterrupt ==> c.isp >= FRAME)
            && (c.inInterrupt ==> c.isp + FRAME <= ISR_STACK_SIZE)
  {
  }

  /** The step is not core i's own return, and an ordinary instruction keeps off core i's ISR stack. */
  ghost predicate Respects(s: Machine, a: Action, i: nat)
    requires i < |s.cpus|
  {
    && !(a.Iret? && a.i == i)
    && (a.Instr? ==> SameStack(s.mem, a.mem, s.cpus[i].isrBase))
  }

  ghost predicate AllRespect(s: Machine, run: seq<Action>, i: nat)
    requires Inv(s) && Possible(s, run) && i < |s.cpus|
    decreases |run|
  {
    run != [] ==> Respects(s, run[0], i) && AllRespect(Next(s, run[0]), run[1..], i)
  }

  lemma StepKeepsStack(s: Machine, a: Action, i: nat)
    requires Inv(s) && Enabled(s, a) && i < |s.cpus| && s.cpus[i].inInterrupt && Respects(s, a, i)
    ensures SameStack(s.mem, Next(s, a).mem, s.cpus[i].isrBase)
    ensures Next(s, a).cpus[i].inInterrupt && Next(s, a).cpus[i].isrBase == s.cpus[i].isrBase
  {
    IsrStackInRam(|s.cpus|, i);
    if a.Enter? {
      OtherCoresEntryIsHarmless(s.mem, |s.cpus|, i, s.cpus[a.i], a.i);
    }
  }

  lemma {:induction false} RunKeepsStack(s: Machine, run: seq<Action>, i: nat)
    requires Inv(s) && Possible(s, run) && i < |s.cpus| && s.cpus[i].inInterrupt && AllRespect(s, run, i)
    ensures SameStack(s.mem, After(s, run).mem, s.cpus[i].isrBase)
    ensures After(s, run).cpus[i].inInterrupt && After(s, run).cpus[i].isrBase == s.cpus[i].isrBase
    decreases |run|
  {
    IsrStackInRam(|s.cpus|, i);
    if run != [] {
      StepKeepsStack(s, run[0], i);
      RunKeepsStack(Next(s, run[0]), run[1..], i);
    }
  }

  /**
   On any number of cores: core i enters a handler, then anything happens on all cores that keeps off
   core i's ISR stack, then core i executes IRET. Its registers, flags and stack pointer are back, and
   its ip modulo 2^32.
   */
  lemma HandlerIsTransparent(s: Machine, i: nat, v: nat, isr: nat, run: seq<Action>)
    requires Inv(s) && Enabled(s, Enter(i, v, isr))
    requires Possible(Next(s, Enter(i, v, isr)), run)
    requires AllRespect(Next(s, Enter(i, v, isr)), run, i)
    ensures Enabled(After(Next(s, Enter(i, v, isr)), run), Iret(i))
    ensures Next(After(Next(s, Enter(i, v, isr)), run), Iret(i)).cpus[i] == s.cpus[i].(ip := s.cpus[i].ip % U32)
  {
    var s1 := Next(s, Enter(i, v, isr));
    RunKeepsStack(s1, run, i);
    var s2 := After(s1, run);
    IsrStackInRam(|s.cpus|, i);
    IretRestoresContext(s.mem, s.cpus[i], s2.mem, s2.cpus[i]);
  }
}
