/**
 The scheduler as sched.c runs it: a table of slots scanned and updated in place. Each method is
 proved to perform the transition of the same name in module Sched, so the theorems about runs
 apply to it. A task entry is foreign code: PumpBegin, and PickForRun
 with RunBegin, are sched_pump_once and one turn of sched_run up to the call of the entry; PumpEnd
 and RunEnd are what follows its return.
 */
module SchedObject {
  import opened Sched
  import opened SchedInv
  import opened SchedCalls
  import opened Bitmap
  import SchedRuns
  import FdTable

  /** A slot as the code keeps it: its child queue is a 32-bit word. */
  type Cell = SlotOf<bv32>

  const EMPTY_CELL: Cell :=
    Slot(false, false, 0, 0, 0, 0, 0, Unused, 0, 0, None, 0, FdTable.Zeroed())

  const IDLE_CELL: Cell :=
    Slot(true, true, 0, -1, 0, IDLE_ENTRY, 0, Runnable, 0, 0, None, 0, FdTable.Stdio())

  /** The same slot with the set of its word's one bits. */
  function Lift(c: Cell): Slot {
    Slot(c.used, c.isIdle, c.quantum, c.parent, c.exitCode, c.entry, c.tid, c.state, c.wakeTick, c.runTicks,
         c.waitq, Ones32(c.childQ), c.fds)
  }

  /** Slot i put on queue q and blocked. */
  function Attached(s: State, i: nat, q: QueueId, wake: nat): State
    requires Shape(s) && ValidQ(s, q) && i < MAX_TASKS
  {
    var s1 := WithBits(s, q, Bits(s, q) + {i});
    WithSlot(s1, i, s1.tasks[i].(waitq := Some(q), state := Blocked, wakeTick := wake, quantum := 0))
  }

  class Scheduler {
    const tasks: array<Cell>
    var ext: seq<bv32>
    var current: nat
    var ticks: nat
    var needResched: bool
    var nextTid: nat
    ghost var slots: seq<Slot>        // what tasks means
    ghost var queues: seq<set<nat>>   // what ext means

    ghost function View(): State
      reads this
    {
      State(slots, queues, current, ticks, needResched, nextTid)
    }

    ghost predicate Valid()
      reads this, tasks
    {
      && tasks.Length == MAX_TASKS && Shape(View())
      && (forall i :: 0 <= i < MAX_TASKS ==> slots[i] == Lift(tasks[i]))
      && |queues| == |ext| && (forall k :: 0 <= k < |ext| ==> queues[k] == Ones32(ext[k]))
    }

    constructor ()
      ensures Valid() && fresh(tasks)
      ensures View() == Init()
    {
      tasks := new Cell[MAX_TASKS](_ => EMPTY_CELL);
      ext := [];
      current, ticks, needResched, nextTid := 0, 0, false, 1;
      slots, queues := Init().tasks, [];
      ZeroIsEmpty32();
      new;
      tasks[0] := IDLE_CELL;
    }

    /** Store a slot. */
    method Put(i: nat, cell: Cell)
      requires Valid() && i < MAX_TASKS && Shape(WithSlot(View(), i, Lift(cell)))
      modifies tasks, this`slots
      ensures Valid() && View() == WithSlot(old(View()), i, Lift(cell)) && tasks[i] == cell
    {
      tasks[i] := cell;
      slots := slots[i := Lift(cell)];
    }

    /** The word of a queue. */
    method Word(q: QueueId) returns (w: bv32)
      requires Valid() && ValidQ(View(), q)
      ensures Ones32(w) == Bits(View(), q)
    {
      match q
      case Child(p) => w := tasks[p].childQ;
      case Ext(k) => w := ext[k];
    }

    method SetWord(q: QueueId, w: bv32)
      requires Valid() && ValidQ(View(), q)
      modifies this`ext, tasks, this`slots, this`queues
      ensures Valid() && View() == WithBits(old(View()), q, Ones32(w))
    {
      match q {
        case Child(p) => Put(p, tasks[p].(childQ := w));
        case Ext(k) =>
          ext := ext[k := w];
          queues := queues[k := Ones32(w)];
      }
    }

    /** sched_waitq_init on a queue of other kernel code, which is new. */
    method InitQueue() returns (k: nat)
      requires Valid()
      modifies this`ext, this`queues
      ensures Valid() && k == |old(ext)| && View() == SchedRuns.AddQueue(old(View()))
    {
      k := |ext|;
      ZeroIsEmpty32();
      ext := ext + [0];
      queues := queues + [{}];
    }

    /** waitq_set_bit on the queue's word */
    method SetBit(q: QueueId, i: nat)
      requires Valid() && ValidQ(View(), q) && i < MAX_TASKS
      modifies this`ext, tasks, this`slots, this`queues
      ensures Valid() && View() == WithBits(old(View()), q, Bits(old(View()), q) + {i})
    {
      var w := Word(q);
      SetWord(q, Set32(w, i));
    }

    /** waitq_clear_bit on the queue's word */
    method ClearBit(q: QueueId, i: nat)
      requires Valid() && ValidQ(View(), q) && i < MAX_TASKS
      modifies this`ext, tasks, this`slots, this`queues
      ensures Valid() && View() == WithBits(old(View()), q, Bits(old(View()), q) - {i})
    {
      var w := Word(q);
      SetWord(q, Clear32(w, i));
    }

    method DetachWaitq(i: nat)
      requires Valid() && i < MAX_TASKS
      modifies this`ext, tasks, this`slots, this`queues
      ensures Valid() && View() == Detach(old(View()), i)
    {
      if tasks[i].waitq.None? { return; }
      var q := tasks[i].waitq.value;
      ClearBit(q, i);
      Put(i, tasks[i].(waitq := None));
    }

    method Wake(i: nat)
      requires Valid() && i < MAX_TASKS
      modifies this`ext, this`needResched, tasks, this`slots, this`queues
      ensures Valid() && View() == WakeNow(old(View()), i)
    {
      DetachWaitq(i);
      Put(i, tasks[i].(wakeTick := 0, state := Runnable, quantum := 0));
      needResched := true;
    }

    method WakeIfAsleep(i: nat)
      requires Valid() && i < MAX_TASKS
      modifies this`ext, this`needResched, tasks, this`slots, this`queues
      ensures Valid() && View() == WakeSlot(old(View()), i)
    {
      if !tasks[i].used || tasks[i].isIdle { return; }
      if tasks[i].state != Blocked && tasks[i].state != Sleeping { return; }
      Wake(i);
    }

    method TestBit(q: QueueId, i: nat) returns (b: bool)
      requires Valid() && ValidQ(View(), q) && i < MAX_TASKS
      ensures b <==> i in Bits(View(), q)
    {
      var w := Word(q);
      b := Test32(w, i);
    }

    method WaitqWakeOne(q: QueueId)
      requires Valid() && ValidQ(View(), q)
      modifies this`ext, this`needResched, tasks, this`slots, this`queues
      ensures Valid() && View() == WakeOne(old(View()), q)
    {
      var i := 1;
      while i < MAX_TASKS
        invariant 1 <= i <= MAX_TASKS && Valid() && View() == old(View())
        invariant WakeOneFrom(View(), q, i) == WakeOne(old(View()), q)
      {
        var bit := TestBit(q, i);
        if bit {
          WakeIfAsleep(i);
          return;
        }
        i := i + 1;
      }
    }

    method WaitqWakeAll(q: QueueId)
      requires Valid() && ValidQ(View(), q)
      modifies this`ext, this`needResched, tasks, this`slots, this`queues
      ensures Valid() && View() == WakeAll(old(View()), q)
    {
      var i := 1;
      while i < MAX_TASKS
        invariant 1 <= i <= MAX_TASKS && Valid() && ValidQ(View(), q)
        invariant WakeAllFrom(View(), q, i) == WakeAll(old(View()), q)
      {
        ghost var s := View();
        assert WakeAllFrom(s, q, i) == WakeAllFrom(if i in Bits(s, q) then WakeSlot(s, i) else s, q, i + 1);
        var bit := TestBit(q, i);
        if bit {
          WakeIfAsleep(i);
        }
        i := i + 1;
      }
    }

    method TryWakeSleepers(now: nat)
      requires Valid()
      modifies this`ext, this`needResched, tasks, this`slots, this`queues
      ensures Valid() && View() == WakeSleepersFrom(old(View()), now, 0)
    {
      var i := 0;
      while i < MAX_TASKS
        invariant 0 <= i <= MAX_TASKS && Valid()
        invariant WakeSleepersFrom(View(), now, i) == WakeSleepersFrom(old(View()), now, 0)
      {
        if tasks[i].used && (tasks[i].state == Sleeping || tasks[i].state == Blocked)
           && !(tasks[i].wakeTick == 0 || tasks[i].wakeTick > now) {
          Wake(i);
        }
        i := i + 1;
      }
    }

    method ScheduleTick()
      requires Valid()
      modifies this, tasks
      ensures Valid() && View() == Tick(old(View()))
    {
      ticks := (ticks + 1) % U32;
      assert View() == old(View()).(ticks := ticks);
      TryWakeSleepers(ticks);
      ChargeCurrent();
    }

    method ChargeCurrent()
      requires Valid()
      modifies this`needResched, tasks, this`slots
      ensures Valid() && View() == ChargeQuantum(old(View()))
    {
      var slot := tasks[current];
      if slot.used && !slot.isIdle && slot.state == Running {
        Put(current, slot.(quantum := slot.quantum + 1));
        if tasks[current].quantum >= QUANTUM_TICKS {
          needResched := true;
        }
      }
    }

    method AllocSlot() returns (i: int)
      requires Valid()
      ensures i == FreeSlotFrom(View().tasks, 1)
    {
      i := 1;
      while i < MAX_TASKS
        invariant 1 <= i <= MAX_TASKS
        invariant FreeSlotFrom(View().tasks, i) == FreeSlotFrom(View().tasks, 1)
      {
        if !tasks[i].used { return; }
        i := i + 1;
      }
      i := -1;
    }

    method FillSlot(i: nat, entry: nat)
      requires Valid() && i < MAX_TASKS
      modifies tasks, this`slots
      ensures Valid() && View() == WithSlot(old(View()), i, NewSlot(old(View()), entry))
    {
      var parent := if tasks[current].used then AsInt32(tasks[current].tid) else 0;
      var cell := Slot(true, false, 0, parent, 0, entry, nextTid, Runnable, 0, 0, None, 0, FdTable.Stdio());
      ZeroIsEmpty32();
      assert Lift(cell) == NewSlot(View(), entry);
      Put(i, cell);
    }

    method SpawnTask(entry: nat) returns (tid: int)
      requires Valid()
      modifies this, tasks
      ensures Valid() && (View(), tid) == Spawn(old(View()), entry)
    {
      if entry == 0 { return -1; }
      var i := AllocSlot();
      if i < 0 { return -1; }
      tid := AsInt32(nextTid);
      FillSlot(i, entry);
      nextTid := (nextTid + 1) % U32;
      if nextTid == 0 { nextTid := 1; }
      needResched := true;
    }

    method YieldTask()
      requires Valid()
      modifies this, tasks
      ensures Valid() && View() == Yield(old(View()))
    {
      if !tasks[current].used { return; }
      if tasks[current].state == Running {
        Put(current, tasks[current].(state := Runnable));
      }
      Put(current, tasks[current].(quantum := 0));
      needResched := true;
    }

    method SleepFor(n: nat)
      requires Valid()
      modifies this, tasks
      ensures Valid() && View() == SleepTicks(old(View()), n)
    {
      if !tasks[current].used { return; }
      if tasks[current].isIdle { return; }
      var wake := (ticks + (if n != 0 then n else 1)) % U32;
      Put(current, tasks[current].(wakeTick := wake, state := Sleeping, quantum := 0));
      needResched := true;
    }

    method Attach(i: nat, q: QueueId, wake: nat)
      requires Valid() && ValidQ(View(), q) && i < MAX_TASKS
      modifies this`ext, tasks, this`slots, this`queues
      ensures Valid() && View() == Attached(old(View()), i, q, wake)
    {
      SetBit(q, i);
      Put(i, tasks[i].(waitq := Some(q), state := Blocked, wakeTick := wake, quantum := 0));
    }

    method SleepOn(q: QueueId, timeout: nat)
      requires Valid() && ValidQ(View(), q)
      modifies this, tasks
      ensures Valid() && View() == WaitqSleep(old(View()), q, timeout)
    {
      if !tasks[current].used || tasks[current].isIdle { return; }
      var wake := if timeout != 0 then (ticks + timeout) % U32 else 0;
      var i := current;
      DetachWaitq(i);
      Attach(i, q, wake);
      needResched := true;
    }

    method FindTid(tid: int) returns (i: int)
      requires Valid()
      ensures i == FindByTid(View(), tid)
    {
      if tid == 0 { return 0; }
      i := 1;
      while i < MAX_TASKS
        invariant 1 <= i <= MAX_TASKS
        invariant FindByTidFrom(View().tasks, tid, i) == FindByTidFrom(View().tasks, tid, 1)
      {
        if tasks[i].used && tasks[i].tid == tid { return; }
        i := i + 1;
      }
      i := -1;
    }

    /** The part of sched_exit_code that concerns the exiting slot alone. */
    method Zombify(code: bv32)
      requires Valid()
      modifies this`ext, tasks, this`slots, this`queues
      ensures Valid() && View() == Zombified(old(View()), code)
    {
      DetachWaitq(current);
      Put(current, tasks[current].(fds := FdTable.CloseAll(tasks[current].fds), exitCode := code,
                                   state := Zombie, wakeTick := 0, quantum := 0));
    }

    method WakeParentOf(parent: int)
      requires Valid()
      modifies this`ext, this`needResched, tasks, this`slots, this`queues
      ensures Valid() && View() == WakeParent(old(View()), parent)
    {
      if parent >= 0 {
        var p := FindTid(parent);
        if p >= 0 {
          WaitqWakeAll(Child(p));
        }
      }
    }

    method ExitTask(code: bv32)
      requires Valid()
      modifies this, tasks
      ensures Valid() && View() == Exit(old(View()), code)
    {
      if !tasks[current].used || tasks[current].isIdle { return; }
      Zombify(code);
      WakeParentOf(tasks[current].parent);
      needResched := true;
    }

    /** sched_try_reap_child: the reaped tid, 0 for "children but no zombie", or NO_CHILD. */
    method TryReapChild(parentTid: int, pid: int) returns (rc: int, status: Option<bv32>)
      requires Valid()
      modifies tasks, this`slots
      ensures Valid()
      ensures var s := old(View());
              var z := FindZombieFrom(s.tasks, parentTid, pid, 1);
              if z >= 0 then
                && View() == WithSlot(s, z, EMPTY_SLOT)
                && rc == AsInt32(s.tasks[z].tid) && status == Some(ExitStatus(s.tasks[z].exitCode))
              else
                && View() == s && status == None
                && rc == if HasChild(s.tasks, parentTid, pid) then 0 else WAITPID_NO_CHILD
    {
      status := None;
      var hasChild := false;
      var i := 1;
      while i < MAX_TASKS
        invariant 1 <= i <= MAX_TASKS && Valid() && View() == old(View())
        invariant FindZombieFrom(View().tasks, parentTid, pid, i) == FindZombieFrom(View().tasks, parentTid, pid, 1)
        invariant hasChild <==> exists j :: 1 <= j < i && IsChildOf(View().tasks[j], parentTid, pid)
      {
        if IsChildOf(tasks[i], parentTid, pid) {
          hasChild := true;
          if tasks[i].state == Zombie {
            status := Some(ExitStatus(tasks[i].exitCode));
            rc := AsInt32(tasks[i].tid);
            ZeroIsEmpty32();
            Put(i, EMPTY_CELL);
            return;
          }
        }
        i := i + 1;
      }
      rc := if hasChild then 0 else WAITPID_NO_CHILD;
    }

    /** A reaped tid is never 0, so the code's test "rc != 0" separates the cases. */
    method WaitFor(pid: int, nohang: bool) returns (rc: int, status: Option<bv32>)
      requires Valid() && Inv(View())
      modifies this, tasks
      ensures Valid() && (View(), WaitResult(rc, status)) == Waitpid(old(View()), pid, nohang)
    {
      if !tasks[current].used || tasks[current].isIdle { return WAITPID_NO_CHILD, None; }
      ghost var z := FindZombieFrom(View().tasks, AsInt32(View().tasks[current].tid), pid, 1);
      assert z >= 0 ==> SlotInv(View().tasks[z], z);
      rc, status := TryReapChild(AsInt32(tasks[current].tid), pid);
      if rc != 0 { return; }
      if nohang { return; }
      SleepOn(Child(current), 0);
      rc := WAITPID_BLOCKED;
    }

    method PickNextIdx() returns (i: nat)
      requires Valid()
      ensures i == PickNext(View())
    {
      var off := 1;
      while off <= MAX_TASKS
        invariant 1 <= off <= MAX_TASKS + 1
        invariant PickFrom(View(), off) == PickNext(View())
      {
        var idx := (current + off) % MAX_TASKS;
        if idx != 0 && tasks[idx].used && tasks[idx].state == Runnable { return idx; }
        off := off + 1;
      }
      i := 0;
    }

    method PumpBegin(ghost c: SchedRuns.Config) returns (entered: bool, slot: nat, prev: nat)
      requires Valid() && View() == c.s
      modifies this, tasks
      ensures Valid() && View() == SchedRuns.Pump(c).s
      ensures SchedRuns.Pump(c).stack ==
              if entered then c.stack + [SchedRuns.Frame(SchedRuns.PumpFrame, slot, prev)] else c.stack
    {
      prev := current;
      slot := PickNextIdx();
      if !tasks[slot].used || tasks[slot].entry == 0 || tasks[slot].state != Runnable {
        return false, slot, prev;
      }
      current := slot;
      Put(slot, tasks[slot].(state := Running, runTicks := tasks[slot].runTicks + 1));
      entered := true;
    }

    method PumpEnd(slot: nat, prev: nat, ghost c: SchedRuns.Config)
      requires Valid() && View() == c.s && slot < MAX_TASKS && prev < MAX_TASKS
      requires c.stack != [] && c.stack[|c.stack| - 1] == SchedRuns.Frame(SchedRuns.PumpFrame, slot, prev)
      modifies this, tasks
      ensures Valid() && View() == SchedRuns.Return(c).s
    {
      if tasks[slot].state == Running {
        Put(slot, tasks[slot].(state := Runnable));
      }
      current := prev;
    }

    /** The head of the sched_run loop. */
    method PickForRun(ghost c: SchedRuns.Config)
      requires Valid() && View() == c.s
      modifies this`current, this`needResched
      ensures Valid() && View() == SchedRuns.Pick(c).s
    {
      var again := current != 0 && tasks[current].used && tasks[current].state == Runnable;
      if needResched || !again {
        needResched := false;
        PickIgnoresResched(c.s, View());
        current := PickNextIdx();
      }
    }

    /** The rest of a sched_run turn up to the call of the entry. */
    method RunBegin(ghost c: SchedRuns.Config) returns (entered: bool)
      requires Valid() && View() == c.s
      modifies this`needResched, tasks, this`slots
      ensures Valid() && View() == SchedRuns.RunCurrent(c).s
      ensures SchedRuns.RunCurrent(c).stack ==
              if entered then c.stack + [SchedRuns.Frame(SchedRuns.RunFrame, current, current)] else c.stack
    {
      if !tasks[current].used || tasks[current].entry == 0 || tasks[current].state != Runnable {
        needResched := true;
        return false;
      }
      Put(current, tasks[current].(state := Running, runTicks := tasks[current].runTicks + 1));
      entered := true;
    }

    method RunEnd(ghost c: SchedRuns.Config)
      requires Valid() && View() == c.s
      requires c.stack == [SchedRuns.Frame(SchedRuns.RunFrame, current, current)]
      modifies tasks, this`slots
      ensures Valid() && View() == SchedRuns.Return(c).s
    {
      if tasks[current].state == Running {
        Put(current, tasks[current].(state := Runnable));
      }
    }
  }

  /** The pick does not depend on the resched flag. */
  lemma {:induction false} PickFromIgnoresResched(s: State, r: State, off: nat)
    requires Shape(s) && Shape(r) && r.tasks == s.tasks && r.current == s.current && 1 <= off <= MAX_TASKS + 1
    ensures PickFrom(r, off) == PickFrom(s, off)
    decreases MAX_TASKS + 1 - off
  {
    if off <= MAX_TASKS {
      PickFromIgnoresResched(s, r, off + 1);
    }
  }

  lemma PickIgnoresResched(s: State, r: State)
    requires Shape(s) && Shape(r) && r.tasks == s.tasks && r.current == s.current
    ensures PickNext(r) == PickNext(s)
  {
    PickFromIgnoresResched(s, r, 1);
  }
}
