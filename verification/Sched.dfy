/**
 The task table of kernel/src/sched.c as a value: slots, wait queues, and every scheduler call
 as a function from one state to the next. A wait queue's bitmap is represented by the set of
 slot indices whose bit is set; SchedObject.dfy holds the words.
 */
module Sched {
  import FdTable
  import Search

  const MAX_TASKS: nat := 16
  const QUANTUM_TICKS: nat := 4
  const U32: nat := 0x1_0000_0000

  const WAITPID_ANY: int := -1
  const WAITPID_NO_CHILD: int := -1
  const WAITPID_BLOCKED: int := -2

  datatype Option<+T> = None | Some(value: T)

  datatype TaskState = Unused | Runnable | Running | Sleeping | Blocked | Zombie

  /** Slot i's own child queue, or one of the queues owned by other kernel code. */
  datatype QueueId = Child(slot: nat) | Ext(id: nat)

  /** A task slot whose child queue is of type Q: a set of slot indices here, a machine word in the code. */
  datatype SlotOf<Q> = Slot(
    used: bool, isIdle: bool, quantum: nat, parent: int, exitCode: bv32, entry: nat,
    tid: nat, state: TaskState, wakeTick: nat, runTicks: nat,
    waitq: Option<QueueId>, childQ: Q, fds: FdTable.Table)

  type Slot = SlotOf<set<nat>>

  datatype State = State(
    tasks: seq<Slot>, ext: seq<set<nat>>, current: nat, ticks: nat, needResched: bool, nextTid: nat)

  /** A slot after sched_clear_task: all bytes zero. */
  const EMPTY_SLOT: Slot :=
    Slot(false, false, 0, 0, 0, 0, 0, Unused, 0, 0, None, {}, FdTable.Zeroed())

  const IDLE_ENTRY: nat := 1

  const IDLE_SLOT: Slot :=
    Slot(true, true, 0, -1, 0, IDLE_ENTRY, 0, Runnable, 0, 0, None, {}, FdTable.Stdio())

  function Init(): (s: State)
    ensures Shape(s)
  {
    var tasks := seq(MAX_TASKS, i => if i == 0 then IDLE_SLOT else EMPTY_SLOT);
    assert forall i :: 0 <= i < MAX_TASKS ==> tasks[i] == IDLE_SLOT || tasks[i] == EMPTY_SLOT;
    assert FdTable.Sized(FdTable.Zeroed()) && FdTable.Sized(FdTable.Stdio());
    State(tasks, [], 0, 0, false, 1)
  }

  /** Only the shape of the table; every call keeps it. */
  predicate Shape(s: State) {
    && |s.tasks| == MAX_TASKS
    && s.current < MAX_TASKS
    && (forall i :: 0 <= i < MAX_TASKS ==> FdTable.Sized(s.tasks[i].fds))
    && (forall i :: 0 <= i < MAX_TASKS && s.tasks[i].waitq.Some? ==> ValidQ(s, s.tasks[i].waitq.value))
  }

  predicate ValidQ(s: State, q: QueueId) {
    match q
    case Child(i) => i < |s.tasks|
    case Ext(k) => k < |s.ext|
  }

  function Bits(s: State, q: QueueId): set<nat>
    requires ValidQ(s, q)
  {
    match q
    case Child(i) => s.tasks[i].childQ
    case Ext(k) => s.ext[k]
  }

  function WithBits(s: State, q: QueueId, b: set<nat>): State
    requires ValidQ(s, q)
  {
    match q
    case Child(i) => s.(tasks := s.tasks[i := s.tasks[i].(childQ := b)])
    case Ext(k) => s.(ext := s.ext[k := b])
  }

  function WithSlot(s: State, i: nat, slot: Slot): State
    requires i < |s.tasks|
  {
    s.(tasks := s.tasks[i := slot])
  }

  // ---------------------------------------------------------------------------
  // Wait queues
  // ---------------------------------------------------------------------------

  function Detach(s: State, i: nat): (r: State)
    requires Shape(s) && i < MAX_TASKS
    ensures Shape(r) && |r.ext| == |s.ext|
  {
    if s.tasks[i].waitq.None? then s
    else
      var q := s.tasks[i].waitq.value;
      var s1 := WithBits(s, q, Bits(s, q) - {i});
      WithSlot(s1, i, s1.tasks[i].(waitq := None))
  }

  /** The fields sched_wake_slot and the tick handler write. */
  function Woken(slot: Slot): Slot {
    slot.(wakeTick := 0, state := Runnable, quantum := 0)
  }

  predicate Asleep(slot: Slot) {
    slot.state == Blocked || slot.state == Sleeping
  }

  function WakeNow(s: State, i: nat): (r: State)
    requires Shape(s) && i < MAX_TASKS
    ensures Shape(r) && |r.ext| == |s.ext|
  {
    var s1 := Detach(s, i);
    WithSlot(s1, i, Woken(s1.tasks[i])).(needResched := true)
  }

  function WakeSlot(s: State, i: nat): (r: State)
    requires Shape(s) && i < MAX_TASKS
    ensures Shape(r) && |r.ext| == |s.ext|
  {
    if !s.tasks[i].used || s.tasks[i].isIdle || !Asleep(s.tasks[i]) then s else WakeNow(s, i)
  }

  function WakeOneFrom(s: State, q: QueueId, i: nat): (r: State)
    requires Shape(s) && ValidQ(s, q) && i <= MAX_TASKS
    ensures Shape(r) && |r.ext| == |s.ext|
    decreases |s.tasks| - i
  {
    if i == MAX_TASKS then s
    else if i in Bits(s, q) then WakeSlot(s, i)
    else WakeOneFrom(s, q, i + 1)
  }

  function WakeOne(s: State, q: QueueId): (r: State)
    requires Shape(s) && ValidQ(s, q)
    ensures Shape(r) && |r.ext| == |s.ext|
  {
    WakeOneFrom(s, q, 1)
  }

  function WakeAllFrom(s: State, q: QueueId, i: nat): (r: State)
    requires Shape(s) && ValidQ(s, q) && i <= MAX_TASKS
    ensures Shape(r) && |r.ext| == |s.ext|
    decreases |s.tasks| - i
  {
    if i == MAX_TASKS then s
    else WakeAllFrom(if i in Bits(s, q) then WakeSlot(s, i) else s, q, i + 1)
  }

  function WakeAll(s: State, q: QueueId): (r: State)
    requires Shape(s) && ValidQ(s, q)
    ensures Shape(r) && |r.ext| == |s.ext|
  {
    WakeAllFrom(s, q, 1)
  }

  /** sched_waitq_sleep by the current task. */
  function WaitqSleep(s: State, q: QueueId, timeout: nat): (r: State)
    requires Shape(s) && ValidQ(s, q)
    ensures Shape(r) && |r.ext| == |s.ext|
  {
    var i := s.current;
    if !s.tasks[i].used || s.tasks[i].isIdle then s
    else
      var s1 := Detach(s, i);
      var s2 := WithBits(s1, q, Bits(s1, q) + {i});
      var wake := if timeout != 0 then (s.ticks + timeout) % U32 else 0;
      WithSlot(s2, i, s2.tasks[i].(waitq := Some(q), state := Blocked, wakeTick := wake, quantum := 0))
        .(needResched := true)
  }

  // ---------------------------------------------------------------------------
  // Time
  // ---------------------------------------------------------------------------

  function SleepTicks(s: State, n: nat): (r: State)
    requires Shape(s)
    ensures Shape(r) && |r.ext| == |s.ext|
  {
    var i := s.current;
    if !s.tasks[i].used || s.tasks[i].isIdle then s
    else
      var wake := (s.ticks + (if n != 0 then n else 1)) % U32;
      WithSlot(s, i, s.tasks[i].(wakeTick := wake, state := Sleeping, quantum := 0)).(needResched := true)
  }

  /** Does the tick handler wake this slot when the counter reads now? */
  predicate Due(slot: Slot, now: nat) {
    slot.used && Asleep(slot) && slot.wakeTick != 0 && slot.wakeTick <= now
  }

  function WakeSleepersFrom(s: State, now: nat, i: nat): (r: State)
    requires Shape(s) && i <= MAX_TASKS
    ensures Shape(r) && |r.ext| == |s.ext|
    decreases |s.tasks| - i
  {
    if i == MAX_TASKS then s
    else WakeSleepersFrom(if Due(s.tasks[i], now) then WakeNow(s, i) else s, now, i + 1)
  }

  /** The quantum accounting at the end of schedule_tick. */
  function ChargeQuantum(s: State): (r: State)
    requires Shape(s)
    ensures Shape(r) && |r.ext| == |s.ext|
  {
    var slot := s.tasks[s.current];
    if slot.used && !slot.isIdle && slot.state == Running then
      var q := slot.quantum + 1;
      WithSlot(s, s.current, slot.(quantum := q)).(needResched := s.needResched || q >= QUANTUM_TICKS)
    else s
  }

  /** schedule_tick once the counter reads now. */
  function TickTo(s: State, now: nat): (r: State)
    requires Shape(s)
    ensures Shape(r) && |r.ext| == |s.ext|
  {
    ChargeQuantum(WakeSleepersFrom(s.(ticks := now), now, 0))
  }

  function Tick(s: State): (r: State)
    requires Shape(s)
    ensures Shape(r) && |r.ext| == |s.ext|
  {
    TickTo(s, (s.ticks + 1) % U32)
  }

  // ---------------------------------------------------------------------------
  // Spawn, yield, exit, waitpid
  // ---------------------------------------------------------------------------

  function FreeSlotFrom(tasks: seq<Slot>, i: nat): (r: int)
    requires i <= |tasks|
    ensures r == -1 || (i <= r < |tasks| && !tasks[r].used)
    ensures forall k :: i <= k < (if r == -1 then |tasks| else r) ==> tasks[k].used
  {
    Search.FirstFrom(tasks, (t: Slot) => !t.used, i)
  }

  /** The C cast of a 32-bit unsigned tid to int. */
  function AsInt32(x: nat): int {
    if x < 0x8000_0000 then x else x - U32
  }

  /** And back. */
  function AsUint32(x: int): int {
    if x < 0 then x + U32 else x
  }

  /** The slot sched_spawn builds. */
  function NewSlot(s: State, entry: nat): Slot
    requires Shape(s)
  {
    var parent := if s.tasks[s.current].used then AsInt32(s.tasks[s.current].tid) else 0;
    Slot(true, false, 0, parent, 0, entry, s.nextTid, Runnable, 0, 0, None, {}, FdTable.Stdio())
  }

  function Spawn(s: State, entry: nat): (r: (State, int))
    requires Shape(s)
    ensures Shape(r.0) && |r.0.ext| == |s.ext|
  {
    var i := FreeSlotFrom(s.tasks, 1);
    if entry == 0 || i < 0 then (s, -1)
    else
      var next := (s.nextTid + 1) % U32;
      (WithSlot(s, i, NewSlot(s, entry)).(nextTid := if next == 0 then 1 else next, needResched := true),
       AsInt32(s.nextTid))
  }

  function Yield(s: State): (r: State)
    requires Shape(s)
    ensures Shape(r) && |r.ext| == |s.ext|
  {
    var slot := s.tasks[s.current];
    if !slot.used then s
    else
      WithSlot(s, s.current, slot.(quantum := 0, state := if slot.state == Running then Runnable else slot.state))
        .(needResched := true)
  }

  function FindByTidFrom(tasks: seq<Slot>, tid: int, i: nat): (r: int)
    requires i <= |tasks|
    ensures r == -1 || (i <= r < |tasks| && tasks[r].used && tasks[r].tid == tid)
    ensures forall k :: i <= k < (if r == -1 then |tasks| else r) ==> !(tasks[k].used && tasks[k].tid == tid)
  {
    Search.FirstFrom(tasks, (t: Slot) => t.used && t.tid == tid, i)
  }

  /** sched_find_by_tid: tid 0 is always slot 0. */
  function FindByTid(s: State, tid: int): (r: int)
    requires Shape(s)
    ensures -1 <= r < MAX_TASKS
  {
    if tid == 0 then 0 else FindByTidFrom(s.tasks, tid, 1)
  }

  /** The exiting slot once it is detached: descriptors closed, code recorded, ZOMBIE. */
  function Exited(slot: Slot, code: bv32): Slot
    requires FdTable.Sized(slot.fds)
  {
    slot.(fds := FdTable.CloseAll(slot.fds), exitCode := code, state := Zombie, wakeTick := 0, quantum := 0)
  }

  function WakeParent(s: State, parent: int): (r: State)
    requires Shape(s)
    ensures Shape(r) && |r.ext| == |s.ext|
  {
    if parent < 0 then s
    else
      var p := FindByTid(s, parent);
      if p < 0 then s else WakeAll(s, Child(p))
  }

  function Exit(s: State, code: bv32): (r: State)
    requires Shape(s)
    ensures Shape(r) && |r.ext| == |s.ext|
  {
    var i := s.current;
    if !s.tasks[i].used || s.tasks[i].isIdle then s
    else
      var s1 := Detach(s, i);
      var s2 := WithSlot(s1, i, Exited(s1.tasks[i], code));
      WakeParent(s2, s2.tasks[i].parent).(needResched := true)
  }

  /** Does the slot hold a child of parentTid that matches pid? The C code compares tids as 32-bit words. */
  predicate IsChildOf<Q>(slot: SlotOf<Q>, parentTid: int, pid: int) {
    && slot.used && !slot.isIdle
    && slot.parent == parentTid
    && (pid == WAITPID_ANY || slot.tid == AsUint32(pid))
  }

  function ExitStatus(code: bv32): bv32 {
    (code & 0xFF) << 8
  }

  /** First matching zombie at or after i, or -1. */
  function FindZombieFrom(tasks: seq<Slot>, parentTid: int, pid: int, i: nat): (r: int)
    requires i <= |tasks|
    ensures r == -1 || (i <= r < |tasks| && IsChildOf(tasks[r], parentTid, pid) && tasks[r].state == Zombie)
    ensures forall k :: i <= k < (if r == -1 then |tasks| else r) ==>
                          !(IsChildOf(tasks[k], parentTid, pid) && tasks[k].state == Zombie)
  {
    Search.FirstFrom(tasks, (t: Slot) => IsChildOf(t, parentTid, pid) && t.state == Zombie, i)
  }

  predicate HasChild(tasks: seq<Slot>, parentTid: int, pid: int) {
    exists i :: 1 <= i < |tasks| && IsChildOf(tasks[i], parentTid, pid)
  }

  /** What waitpid returns: its code and, when it reaps, the status it stores. */
  datatype WaitResult = WaitResult(rc: int, status: Option<bv32>)

  function Waitpid(s: State, pid: int, nohang: bool): (r: (State, WaitResult))
    requires Shape(s)
    ensures Shape(r.0) && |r.0.ext| == |s.ext|
  {
    var slot := s.tasks[s.current];
    if !slot.used || slot.isIdle then (s, WaitResult(WAITPID_NO_CHILD, None))
    else
      var z := FindZombieFrom(s.tasks, AsInt32(slot.tid), pid, 1);
      if z >= 0 then
        (WithSlot(s, z, EMPTY_SLOT), WaitResult(AsInt32(s.tasks[z].tid), Some(ExitStatus(s.tasks[z].exitCode))))
      else if !HasChild(s.tasks, AsInt32(slot.tid), pid) then (s, WaitResult(WAITPID_NO_CHILD, None))
      else if nohang then (s, WaitResult(0, None))
      else (WaitqSleep(s, Child(s.current), 0), WaitResult(WAITPID_BLOCKED, None))
  }

  // ---------------------------------------------------------------------------
  // Picking the next task
  // ---------------------------------------------------------------------------

  predicate IdxRunnable(s: State, i: nat)
    requires Shape(s) && i < MAX_TASKS
  {
    i != 0 && s.tasks[i].used && s.tasks[i].state == Runnable
  }

  function PickFrom(s: State, off: nat): (r: nat)
    requires Shape(s) && 1 <= off <= MAX_TASKS + 1
    ensures r < MAX_TASKS
    decreases |s.tasks| + 1 - off
  {
    if off > MAX_TASKS then 0
    else if IdxRunnable(s, (s.current + off) % MAX_TASKS) then (s.current + off) % MAX_TASKS
    else PickFrom(s, off + 1)
  }

  function PickNext(s: State): (r: nat)
    requires Shape(s)
    ensures r < MAX_TASKS
  {
    PickFrom(s, 1)
  }

  /** One descriptor call by the current task; EBADF when its slot is gone. */
  function FdCall(s: State, op: FdTable.Op): (r: (State, int))
    requires Shape(s)
    ensures Shape(r.0) && |r.0.ext| == |s.ext|
  {
    var slot := s.tasks[s.current];
    if !slot.used then (s, FdTable.EBADF)
    else
      var (t, rc) := FdTable.Apply(slot.fds, op);
      (WithSlot(s, s.current, slot.(fds := t)), rc)
  }
}
