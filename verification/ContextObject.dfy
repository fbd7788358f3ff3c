/**
 Memory access and interrupt entry as code: RAM is an array, 32-bit reads go through the cached
 device lookup, 64-bit writes do not, and entry and IRET push and pop one word at a time.
 */
module ContextObject {
  import opened Bytes
  import opened Mmio
  import opened Context

  const IVT_SIZE: nat := 256

  lemma TableOutsideDevices(a: nat)
    requires a < IVT_SIZE * 8
    ensures Scan(Devices(), a) == NO_DEVICE
  {
    assert forall d :: 0 <= d < |Devices()| ==> !Covers(Devices()[d], a);
  }

  class Core {
    const mem: array<byte>
    const bus: Bus
    var cpu: Cpu
    var panicked: bool

    ghost predicate Valid()
      reads this, bus
    {
      && mem.Length == MEM_SIZE && bus.Valid() && bus.devs == Devices()
      && |cpu.regs| == REG_COUNT
    }

    /** The ISR stack of this core is RAM that no device covers. */
    ghost predicate PlainStack()
      reads this
    {
      && cpu.isrBase + ISR_BYTES <= MEM_SIZE
      && forall a :: cpu.isrBase <= a < cpu.isrBase + ISR_BYTES ==> Scan(Devices(), a) == NO_DEVICE
    }

    /** A core of a machine with the given number of cores, as vm_create lays out its stacks. */
    constructor (mem: array<byte>, cores: nat, i: nat, ip: nat)
      requires mem.Length == MEM_SIZE && 1 <= cores <= MAX_CORES && i < cores && ip < U64
      ensures Valid() && PlainStack() && CpuOk(cpu) && !cpu.inInterrupt && !panicked
      ensures this.mem == mem && fresh(bus) && cpu.isrBase == IsrBase(cores, i)
    {
      this.mem := mem;
      var b := new Bus(Devices());
      bus := b;
      var regs := seq(REG_COUNT, _ => 0);
      cpu := Cpu(regs, 0, ip, ISR_STACK_SIZE, false, IsrBase(cores, i));
      panicked := false;
      IsrStackInRam(cores, i);
      forall a | IsrBase(cores, i) <= a < IsrBase(cores, i) + ISR_BYTES
        ensures Scan(Devices(), a) == NO_DEVICE
      {
        StackOutsideDevices(cores, i, a);
      }
    }

    /** vm_write64: straight into RAM, byte by byte. */
    method WriteWord(addr: nat, v: nat)
      requires Valid()
      modifies mem, this`panicked
      ensures addr + 8 <= MEM_SIZE ==> mem[..] == Write64(old(mem[..]), addr, v) && panicked == old(panicked)
      ensures addr + 8 > MEM_SIZE ==> panicked && mem[..] == old(mem[..])
    {
      if addr + 8 > mem.Length {
        panicked := true;
        return;
      }
      ghost var ds := Digits(v, 8);
      var k, rest := 0, v;
      while k < 8
        invariant 0 <= k <= 8 && Digits(rest, 8 - k) == ds[k..] && panicked == old(panicked)
        invariant forall i :: 0 <= i < k ==> mem[addr + i] == ds[i]
        invariant forall i :: 0 <= i < mem.Length && !(addr <= i < addr + k) ==> mem[i] == old(mem[i])
      {
        assert ds[k..][0] == ds[k] == rest % 256;
        assert ds[k..][1..] == ds[k + 1..] == Digits(rest / 256, 8 - (k + 1));
        mem[addr + k] := rest % 256;
        rest := rest / 256;
        k := k + 1;
      }
      assert mem[..] == Write64(old(mem[..]), addr, v);
    }

    /** vm_read32 of an address; a device's answer is not modelled. */
    method ReadHalf(addr: nat) returns (v: nat)
      requires Valid()
      modifies bus, this`panicked
      ensures Valid()
      ensures Scan(Devices(), addr) == NO_DEVICE && addr + 4 <= MEM_SIZE ==>
                v == Read32(mem[..], addr) && panicked == old(panicked)
      ensures Scan(Devices(), addr) == NO_DEVICE && addr + 4 > MEM_SIZE ==> panicked && v == 0
    {
      DevicesAreDisjoint();
      var dev := bus.Find(addr);
      if dev != NO_DEVICE {
        return 0;
      }
      if addr + 4 > mem.Length {
        panicked := true;
        return 0;
      }
      var b0: int, b1: int, b2: int, b3: int := mem[addr], mem[addr + 1], mem[addr + 2], mem[addr + 3];
      v := b0 + b1 * 0x100 + b2 * 0x1_0000 + b3 * 0x100_0000;
      FourBytes(mem[addr..addr + 4]);
      assert mem[..][addr..addr + 4] == mem[addr..addr + 4];
    }

    method ReadWord(addr: nat) returns (v: nat)
      requires Valid() && addr + 8 <= MEM_SIZE
      requires Scan(Devices(), addr) == NO_DEVICE && Scan(Devices(), addr + 4) == NO_DEVICE
      modifies bus, this`panicked
      ensures Valid() && panicked == old(panicked) && v == Read64(mem[..], addr)
    {
      var lo := ReadHalf(addr);
      var hi := ReadHalf(addr + 4);
      v := lo + hi * U32;
    }

    method IsrPush(v: nat)
      requires Valid() && PlainStack() && cpu.isp <= ISR_STACK_SIZE
      modifies this, mem
      ensures Valid() && PlainStack()
      ensures old(cpu.isp) == 0 ==> panicked && cpu == old(cpu) && mem[..] == old(mem[..])
      ensures old(cpu.isp) > 0 ==>
                && cpu == old(cpu).(isp := old(cpu.isp) - 1) && panicked == old(panicked)
                && mem[..] == Write64(old(mem[..]), cpu.isrBase + cpu.isp * 8, v)
    {
      if cpu.isp == 0 {
        panicked := true;
        return;
      }
      cpu := cpu.(isp := cpu.isp - 1);
      WriteWord(cpu.isrBase + cpu.isp * 8, v);
    }

    method IsrPop() returns (v: nat)
      requires Valid() && PlainStack() && cpu.isp <= ISR_STACK_SIZE
      modifies this, bus
      ensures Valid() && PlainStack()
      ensures old(cpu.isp) == ISR_STACK_SIZE ==> panicked && v == 0 && cpu == old(cpu)
      ensures old(cpu.isp) < ISR_STACK_SIZE ==>
                && cpu == old(cpu).(isp := old(cpu.isp) + 1) && panicked == old(panicked)
                && StackInRam(mem[..], cpu.isrBase) && v == Slot(mem[..], cpu.isrBase, old(cpu.isp))
    {
      if cpu.isp >= ISR_STACK_SIZE {
        panicked := true;
        return 0;
      }
      v := ReadWord(cpu.isrBase + cpu.isp * 8);
      cpu := cpu.(isp := cpu.isp + 1);
    }

    /** One push of a sequence: what remains to be pushed leads to the same memory. */
    method PushNext(w: nat, ghost rest: seq<nat>)
      requires Valid() && PlainStack() && |rest| < cpu.isp <= ISR_STACK_SIZE
      modifies this, mem
      ensures Valid() && PlainStack() && panicked == old(panicked)
      ensures cpu == old(cpu).(isp := old(cpu.isp) - 1)
      ensures PushAll(mem[..], cpu.isrBase, cpu.isp, rest) == PushAll(old(mem[..]), cpu.isrBase, old(cpu.isp), [w] + rest)
    {
      assert ([w] + rest)[1..] == rest;
      IsrPush(w);
    }

    /** Push the words one after the other; enough room, so no panic. */
    method PushWords(ws: seq<nat>)
      requires Valid() && PlainStack() && |ws| <= cpu.isp <= ISR_STACK_SIZE
      modifies this, mem
      ensures Valid() && PlainStack() && panicked == old(panicked)
      ensures cpu == old(cpu).(isp := old(cpu.isp) - |ws|)
      ensures mem[..] == PushAll(old(mem[..]), cpu.isrBase, old(cpu.isp), ws)
    {
      var i := 0;
      ghost var goal := PushAll(mem[..], cpu.isrBase, cpu.isp, ws);
      assert ws[0..] == ws;
      while i < |ws|
        invariant 0 <= i <= |ws| && Valid() && PlainStack() && panicked == old(panicked)
        invariant cpu == old(cpu).(isp := old(cpu.isp) - i)
        invariant PushAll(mem[..], cpu.isrBase, cpu.isp, ws[i..]) == goal
      {
        assert ws[i..] == [ws[i]] + ws[i + 1..];
        PushNext(ws[i], ws[i + 1..]);
        i := i + 1;
      }
    }

    /** vm_enter_interrupt: the vector's handler address is read from the table at the bottom of memory. */
    method EnterInterrupt(v: nat)
      requires Valid() && PlainStack() && CpuOk(cpu)
      modifies this, mem, bus
      ensures Valid() && PlainStack() && CpuOk(cpu) && panicked == old(panicked)
      ensures v >= IVT_SIZE || old(cpu.inInterrupt) || Read64(old(mem[..]), v * 8) == UNREGISTERED ==>
                cpu == old(cpu) && mem[..] == old(mem[..])
      ensures v < IVT_SIZE && !old(cpu.inInterrupt) && Read64(old(mem[..]), v * 8) != UNREGISTERED ==>
                && cpu == EnterCpu(old(cpu), v, Read64(old(mem[..]), v * 8))
                && StackInRam(old(mem[..]), old(cpu.isrBase))
                && mem[..] == EnterMemory(old(mem[..]), old(cpu))
      ensures v < IVT_SIZE && !old(cpu.inInterrupt) && Read64(old(mem[..]), v * 8) != UNREGISTERED ==>
                && cpu.ip == Read64(old(mem[..]), v * 8) % U32 && cpu.regs == old(cpu.regs)[31 := v]
                && cpu.flags == old(cpu.flags) && cpu.isp == old(cpu.isp) - 34 && cpu.inInterrupt
    {
      if v >= IVT_SIZE { return; }
      if cpu.inInterrupt { return; }
      TableOutsideDevices(v * 8);
      TableOutsideDevices(v * 8 + 4);
      var isr := ReadWord(v * 8);
      if isr == UNREGISTERED { return; }
      PushWords([cpu.ip, cpu.flags] + cpu.regs);
      cpu := cpu.(regs := cpu.regs[ISR_ARG_REG := v], ip := isr % U32, inInterrupt := true);
    }

    /** The register loop of vm_iret: r31 first, r0 last. */
    method PopRegisters() returns (regs: seq<nat>)
      requires Valid() && PlainStack() && CpuOk(cpu) && cpu.inInterrupt
      modifies this, bus
      ensures Valid() && PlainStack() && panicked == old(panicked)
      ensures cpu == old(cpu).(isp := old(cpu.isp) + REG_COUNT)
      ensures StackInRam(mem[..], old(cpu.isrBase)) && regs == IretCpu(mem[..], old(cpu)).regs
    {
      ghost var c0, m := cpu, mem[..];
      regs := cpu.regs;
      var i := REG_COUNT;
      while i > 0
        invariant 0 <= i <= REG_COUNT && Valid() && PlainStack() && panicked == old(panicked)
        invariant cpu == c0.(isp := c0.isp + REG_COUNT - i) && |regs| == REG_COUNT && mem[..] == m
        invariant forall k :: i <= k < REG_COUNT ==> regs[k] == IretCpu(m, c0).regs[k]
      {
        i := i - 1;
        var w := IsrPop();
        regs := regs[i := w % U32];
      }
    }

    /** vm_iret */
    method ReturnFromInterrupt()
      requires Valid() && PlainStack() && CpuOk(cpu)
      modifies this, bus
      ensures Valid() && PlainStack() && CpuOk(cpu) && panicked == old(panicked)
      ensures !old(cpu.inInterrupt) ==> cpu == old(cpu)
      ensures old(cpu.inInterrupt) ==> StackInRam(mem[..], old(cpu.isrBase)) && cpu == IretCpu(mem[..], old(cpu))
    {
      if !cpu.inInterrupt { return; }
      StackPointerStays(mem[..], cpu, 0, 0);
      var regs := PopRegisters();
      var flags := IsrPop();
      var ip := IsrPop();
      cpu := cpu.(regs := regs, flags := flags % U32, ip := ip % U32, inInterrupt := false);
    }
  }

  lemma FourBytes(bs: seq<byte>)
    requires |bs| == 4
    ensures Value(bs) == (bs[0] as int) + (bs[1] as int) * 0x100 + (bs[2] as int) * 0x1_0000 + (bs[3] as int) * 0x100_0000
  {
    assert Value(bs[1..]) == bs[1] + 256 * Value(bs[1..][1..]);
    assert bs[1..][1..] == bs[2..];
    assert Value(bs[2..]) == bs[2] + 256 * Value(bs[2..][1..]);
    assert bs[2..][1..] == [bs[3]];
  }
}
