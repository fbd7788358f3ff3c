/** What the scheduler's calls promise their callers, stated on what a task observes. */
module SchedLaws {
  import opened Sched
  import opened SchedInv
  import opened SchedCalls
  import opened SchedRuns
  import opened SchedTheorems
  import FdTable

  /** A task that can call: its slot is used and it is not the idle task. */
  predicate Live(s: State)
    requires Shape(s)
  {
    s.tasks[s.current].used && !s.tasks[s.current].isIdle
  }

  // ---------------------------------------------------------------------------
  // Waiting on a queue, with and without a timeout
  // ---------------------------------------------------------------------------

  /** The wake tick of a wait that starts at tick t: none for a timeout of 0. */
  function WaitDeadline(t: nat, timeout: nat): nat {
    if timeout == 0 then 0 else (t + timeout) % U32
  }

  lemma WaitqSleepSetsDeadline(s: State, q: QueueId, timeout: nat)
    requires Inv(s) && Live(s) && ValidQ(s, q) && (q.Child? ==> q.slot == s.current)
    ensures var r := WaitqSleep(s, q, timeout);
            && SleepsUntil(r, s.current, WaitDeadline(s.ticks, timeout)) && r.tasks[s.current].waitq == Some(q)
            && r.ticks == s.ticks && r.current == s.current && r.needResched
  {
    AttachSelf(s, q, timeout);
  }

  /** Slot i is asleep on queue q, or it is awake because of a wake or the time. */
  ghost predicate WaitOutcome(c: Config, es: seq<Event>, i: nat, q: QueueId, w: nat)
    requires Shape(c.s) && Possible(c, es) && i < MAX_TASKS
  {
    var over := WasReleased(c, es, i) || TimeUp(c.s.ticks, w, TickCount(es));
    && (Awake(After(c, es).s, i) <==> over)
    && (!over ==> Asleep(After(c, es).s.tasks[i]) && After(c, es).s.tasks[i].waitq == Some(q))
  }

  /**
   sched_waitq_sleep by a live task, through any run in which it makes no state-changing call of its own:
   it is awake if and only if a wake of the queue has reached it or its timeout has passed, and until then
   it is asleep on that queue.
   */
  lemma TimedWait(c: Config, k: nat, timeout: nat, es: seq<Event>)
    requires Good(c) && Live(c.s) && k < |c.s.ext|
    requires Possible(Next(c, QueueSleep(k, timeout)), es) && NeverDisturbed(Next(c, QueueSleep(k, timeout)), es, c.s.current)
    ensures WaitOutcome(Next(c, QueueSleep(k, timeout)), es, c.s.current, Ext(k), WaitDeadline(c.s.ticks, timeout))
  {
    WaitqSleepSetsDeadline(c.s, Ext(k), timeout);
    NextGood(c, QueueSleep(k, timeout));
    SleepersFate(Next(c, QueueSleep(k, timeout)), es, c.s.current, WaitDeadline(c.s.ticks, timeout));
  }

  lemma TimeoutPlain(t: nat, n: nat, ticks: nat)
    requires 0 < n && t + n < U32
    ensures TimeUp(t, WaitDeadline(t, n), ticks) <==> ticks >= n
  {
  }

  /** Slot i is awake exactly if the wait is over, and asleep on queue q before. */
  ghost predicate WaitsUntil(r: State, i: nat, q: QueueId, over: bool)
    requires i < |r.tasks|
  {
    (Awake(r, i) <==> over) && (!over ==> Asleep(r.tasks[i]) && r.tasks[i].waitq == Some(q))
  }

  /** With a timeout of n ticks that does not wrap, and nobody waking it, the task is awake exactly from the n-th tick on. */
  lemma TimedWaitLasts(c: Config, k: nat, n: nat, es: seq<Event>)
    requires Good(c) && Live(c.s) && k < |c.s.ext| && 0 < n && c.s.ticks + n < U32
    requires Possible(Next(c, QueueSleep(k, n)), es) && NeverDisturbed(Next(c, QueueSleep(k, n)), es, c.s.current)
    requires !WasReleased(Next(c, QueueSleep(k, n)), es, c.s.current)
    ensures WaitsUntil(After(Next(c, QueueSleep(k, n)), es).s, c.s.current, Ext(k), TickCount(es) >= n)
  {
    TimedWait(c, k, n, es);
    TimeoutPlain(c.s.ticks, n, TickCount(es));
    assert Next(c, QueueSleep(k, n)).s.ticks == c.s.ticks by { WaitqSleepSetsDeadline(c.s, Ext(k), n); }
  }

  /** Without a timeout it waits through every run that does not wake the queue. */
  lemma UntimedWaitLasts(c: Config, k: nat, es: seq<Event>)
    requires Good(c) && Live(c.s) && k < |c.s.ext|
    requires Possible(Next(c, QueueSleep(k, 0)), es) && NeverDisturbed(Next(c, QueueSleep(k, 0)), es, c.s.current)
    requires !WasReleased(Next(c, QueueSleep(k, 0)), es, c.s.current)
    ensures WaitsUntil(After(Next(c, QueueSleep(k, 0)), es).s, c.s.current, Ext(k), false)
  {
    TimedWait(c, k, 0, es);
  }

  // ---------------------------------------------------------------------------
  // waitpid
  // ---------------------------------------------------------------------------

  /** The zombie in slot z is the one waitpid must reap: a match, and no lower slot holds one. */
  ghost predicate FirstZombie(s: State, parentTid: int, pid: int, z: nat) {
    && 1 <= z < |s.tasks| && IsChildOf(s.tasks[z], parentTid, pid) && s.tasks[z].state == Zombie
    && forall j :: 1 <= j < z ==> !(IsChildOf(s.tasks[j], parentTid, pid) && s.tasks[j].state == Zombie)
  }

  /** What waitpid answers and does, case by case. */
  lemma WaitpidAnswers(s: State, pid: int, nohang: bool, z: nat)
    requires Inv(s)
    ensures var (r, w) := Waitpid(s, pid, nohang);
            var self := AsInt32(s.tasks[s.current].tid);
            if !Live(s) then w == WaitResult(-1, None) && r == s
            else if FirstZombie(s, self, pid, z) then
              && w == WaitResult(AsInt32(s.tasks[z].tid), Some((s.tasks[z].exitCode & 0xFF) << 8))
              && r == s.(tasks := s.tasks[z := EMPTY_SLOT])
            else if exists j :: FirstZombie(s, self, pid, j) then true
            else if forall j :: 1 <= j < MAX_TASKS ==> !IsChildOf(s.tasks[j], self, pid) then
              w == WaitResult(-1, None) && r == s
            else if nohang then w == WaitResult(0, None) && r == s
            else w == WaitResult(-2, None) && r.tasks[s.current].state == Blocked && r.tasks[s.current].waitq == Some(Child(s.current))
  {
    if Live(s) {
      var self := AsInt32(s.tasks[s.current].tid);
      var f := FindZombieFrom(s.tasks, self, pid, 1);
      if f >= 0 {
        assert FirstZombie(s, self, pid, f);
      } else {
        AttachSelf(s, Child(s.current), 0);
      }
    }
  }

  /**
   A task that waitpid has parked stays asleep on its child queue through every run that does not wake it
   there, however long: the park has no timeout.
   */
  lemma WaitpidParkLasts(c: Config, pid: int, es: seq<Event>)
    requires Good(c) && MayPark(c, pid)
    requires Possible(Parked(c, pid), es) && NeverDisturbed(Parked(c, pid), es, c.s.current)
    ensures Next(c, CallWaitpid(pid, false)) == Parked(c, pid)
    ensures WaitsUntil(After(Parked(c, pid), es).s, c.s.current, Child(c.s.current), WasReleased(Parked(c, pid), es, c.s.current))
  {
    MayParkParks(c, pid);
    WaitqSleepSetsDeadline(c.s, Child(c.s.current), 0);
    NextGood(c, CallWaitpid(pid, false));
    SleepersFate(Parked(c, pid), es, c.s.current, 0);
  }

  lemma MayParkParks(c: Config, pid: int)
    requires Good(c) && MayPark(c, pid)
    ensures Next(c, CallWaitpid(pid, false)) == Parked(c, pid)
  {
  }

  // ---------------------------------------------------------------------------
  // Spawn
  // ---------------------------------------------------------------------------

  /** Spawn fails, and then changes nothing, exactly without an entry or without a free slot. */
  lemma SpawnFailsExactlyWhen(s: State, entry: nat)
    requires Inv(s) && s.nextTid < U32 - 1
    ensures var (r, tid) := Spawn(s, entry);
            var fails := entry == 0 || forall j :: 1 <= j < MAX_TASKS ==> s.tasks[j].used;
            (tid == -1 <==> fails) && (fails ==> r == s)
  {
  }

  /** The new task in the lowest free slot: what it runs, who its parent is, and that it starts afresh. */
  lemma SpawnedTask(s: State, entry: nat, i: nat)
    requires Inv(s) && entry != 0 && 1 <= i < MAX_TASKS && !s.tasks[i].used && forall j :: 1 <= j < i ==> s.tasks[j].used
    ensures var (r, tid) := Spawn(s, entry);
            var t := r.tasks[i];
            && tid == AsInt32(s.nextTid) && t.tid == s.nextTid && t.entry == entry && t.state == Runnable
            && t.parent == (if s.tasks[s.current].used then AsInt32(s.tasks[s.current].tid) else 0)
            && t.used && !t.isIdle && t.quantum == 0 && t.runTicks == 0 && t.wakeTick == 0 && t.exitCode == 0
            && t.waitq == None && t.childQ == {} && t.fds == FdTable.Stdio()
            && r == s.(tasks := s.tasks[i := t], nextTid := if s.nextTid == U32 - 1 then 1 else s.nextTid + 1, needResched := true)
  {
    assert FreeSlotFrom(s.tasks, 1) == i;
  }

  // ---------------------------------------------------------------------------
  // Giving up the processor
  // ---------------------------------------------------------------------------

  /** sched_run has entered the current task, and it is executing. */
  ghost predicate InEntry(c: Config) {
    && Good(c) && Live(c.s) && c.stack == [Frame(RunFrame, c.s.current, c.s.current)]
    && c.s.tasks[c.s.current].state == Running
  }

  /**
   A task that yields and returns is runnable again with a fresh quantum, and the next pick goes to
   another task whenever another is runnable.
   */
  lemma YieldGivesWay(c: Config, t: nat)
    requires InEntry(c) && t < MAX_TASKS && IdxRunnable(c.s, t)
    ensures var c1 := Next(c, CallYield);
            && c1.s == c.s.(tasks := c.s.tasks[c.s.current := c.s.tasks[c.s.current].(state := Runnable, quantum := 0)], needResched := true)
            && Enabled(c1, EntryReturn) && (var c2 := Next(c1, EntryReturn);
              && c2.s.tasks[c.s.current].state == Runnable && c2.s.tasks[c.s.current].quantum == 0
              && c2.s.tasks[t] == c.s.tasks[t] && Enabled(c2, RunPick)
              && Next(c2, RunPick).s.current != c.s.current && IdxRunnable(c2.s, Next(c2, RunPick).s.current))
  {
    var c1 := Next(c, CallYield);
    var c2 := Next(c1, EntryReturn);
    assert t != c.s.current;
    assert c2.stack == [] && c2.s.needResched && c2.s.current == c.s.current;
    PickApproaches(c2.s, t);
  }

  /** A task that returns without giving up anything stays current, runnable, until a reschedule is asked for. */
  lemma ReturnKeepsTurn(c: Config)
    requires InEntry(c) && !c.s.needResched
    ensures Enabled(c, EntryReturn)
    ensures var c1 := Next(c, EntryReturn);
            && c1.s == c.s.(tasks := c.s.tasks[c.s.current := c.s.tasks[c.s.current].(state := Runnable)]) && c1.stack == []
            && Next(c1, RunPick) == c1
  {
    assert SlotInv(c.s.tasks[c.s.current], c.s.current);
  }

  /** One turn of sched_run with something to run: the picked task is entered as RUNNING, nobody else is touched. */
  lemma TurnEntersPicked(c: Config, t: nat)
    requires Good(c) && c.stack == [] && c.s.needResched && t < MAX_TASKS && IdxRunnable(c.s, t)
    ensures var p := PickNext(c.s);
            var r := Next(Next(c, RunPick), RunEnter);
            && r.s.current == p && !r.s.needResched && r.stack == [Frame(RunFrame, p, p)]
            && r.s.tasks == c.s.tasks[p := c.s.tasks[p].(state := Running, runTicks := c.s.tasks[p].runTicks + 1)]
            && r.s.ticks == c.s.ticks && r.s.ext == c.s.ext
  {
    PickApproaches(c.s, t);
    assert SlotInv(c.s.tasks[PickNext(c.s)], PickNext(c.s));
  }

  /** A turn whose current task cannot be entered changes nothing but asks for a new pick. */
  lemma BarredTurn(c: Config)
    requires Good(c) && c.stack == [] && c.s.tasks[c.s.current].state != Runnable
    ensures Next(c, RunEnter) == c.(s := c.s.(needResched := true))
    ensures Next(Next(c, RunEnter), RunPick).s.current == PickNext(c.s)
  {
    var s1 := c.s.(needResched := true);
    SamePick(c.s, s1, 1);
  }

  lemma {:induction false} SamePick(s: State, r: State, off: nat)
    requires Shape(s) && Shape(r) && r.tasks == s.tasks && r.current == s.current && 1 <= off <= MAX_TASKS + 1
    ensures PickFrom(s, off) == PickFrom(r, off)
    decreases MAX_TASKS + 1 - off
  {
    if off <= MAX_TASKS {
      SamePick(s, r, off + 1);
    }
  }

  /** With nothing to run the idle task is entered. */
  lemma IdleTurn(c: Config)
    requires Good(c) && c.stack == [] && forall t :: 0 <= t < MAX_TASKS ==> !IdxRunnable(c.s, t)
    ensures var r := Next(Next(c, RunPick), RunEnter);
            r.s.current == 0 && r.s.tasks[0].state == Running && r.stack == [Frame(RunFrame, 0, 0)]
  {
    IdleOnlyWhenNothingElse(c.s);
    IdleOnlyWhenNothingElse(Pick(c).s);
    assert SlotInv(c.s.tasks[0], 0);
  }

  /** A pump in a blocked task enters the picked task as RUNNING and remembers where to return. */
  lemma PumpEntersPicked(c: Config, t: nat)
    requires Good(c) && Enabled(c, PumpEnter) && t < MAX_TASKS && IdxRunnable(c.s, t)
    ensures var p := PickNext(c.s);
            var r := Next(c, PumpEnter);
            && r.s.current == p && r.stack == c.stack + [Frame(PumpFrame, p, c.s.current)]
            && r.s.tasks == c.s.tasks[p := c.s.tasks[p].(state := Running, runTicks := c.s.tasks[p].runTicks + 1)]
  {
    PickApproaches(c.s, t);
    assert SlotInv(c.s.tasks[PickNext(c.s)], PickNext(c.s));
  }

  /** Everything that changes who should run asks for a reschedule, and whoever slept or was woken starts a fresh quantum. */
  lemma ReschedulesAndRefills(s: State, q: QueueId, timeout: nat, n: nat, code: bv32)
    requires Inv(s) && Live(s) && ValidQ(s, q) && (q.Child? ==> q.slot == s.current)
    ensures SleepTicks(s, n).needResched && SleepTicks(s, n).tasks[s.current].quantum == 0
    ensures WaitqSleep(s, q, timeout).needResched && WaitqSleep(s, q, timeout).tasks[s.current].quantum == 0
    ensures Exit(s, code).needResched
  {
    assert SlotInv(s.tasks[s.current], s.current);
  }

  lemma WakeReschedules(s: State, i: nat)
    requires Inv(s) && i < MAX_TASKS && s.tasks[i].used && Asleep(s.tasks[i])
    ensures WakeSlot(s, i).needResched && WakeSlot(s, i).tasks[i].quantum == 0 && WakeSlot(s, i).tasks[i].state == Runnable
    ensures WakeSlot(s, i).tasks[i].wakeTick == 0 && WakeSlot(s, i).tasks[i].waitq == None
  {
    assert SlotInv(s.tasks[i], i);
  }

  // ---------------------------------------------------------------------------
  // The quantum
  // ---------------------------------------------------------------------------

  function Ticks(s: State, n: nat): (r: State)
    requires Shape(s)
    ensures Shape(r)
    decreases n
  {
    if n == 0 then s else Ticks(Tick(s), n - 1)
  }

  /** Nobody is waiting for the clock. */
  ghost predicate NoTimers(s: State) {
    forall j :: 0 <= j < |s.tasks| && Asleep(s.tasks[j]) ==> s.tasks[j].wakeTick == 0
  }

  lemma {:induction false} NothingDue(s: State, now: nat, i: nat)
    requires Shape(s) && i <= MAX_TASKS && NoTimers(s)
    ensures WakeSleepersFrom(s, now, i) == s
    decreases MAX_TASKS - i
  {
    if i < MAX_TASKS {
      NothingDue(s, now, i + 1);
    }
  }

  /** With nobody waiting for the clock, a running task is asked to give way exactly when it has used four ticks. */
  lemma {:induction false} QuantumIsFourTicks(s: State, n: nat)
    requires Shape(s) && Live(s) && NoTimers(s) && s.tasks[s.current].state == Running && !s.needResched
    requires s.tasks[s.current].quantum < 4
    ensures var r := Ticks(s, n);
            && (s.tasks[s.current].quantum + n < 4 ==> !r.needResched && r.tasks[s.current].quantum == s.tasks[s.current].quantum + n)
            && (s.tasks[s.current].quantum + n == 4 ==> r.needResched)
    decreases n
  {
    if n > 0 {
      var now := (s.ticks + 1) % U32;
      NothingDue(s.(ticks := now), now, 0);
      var s1 := Tick(s);
      assert s1.tasks == s.tasks[s.current := s.tasks[s.current].(quantum := s.tasks[s.current].quantum + 1)];
      if s.tasks[s.current].quantum + 1 < 4 {
        QuantumIsFourTicks(s1, n - 1);
      }
    }
  }

  // ---------------------------------------------------------------------------
  // Descriptors of a task
  // ---------------------------------------------------------------------------

  function FdCalls(s: State, ops: seq<FdTable.Op>): (r: State)
    requires Shape(s)
    ensures Shape(r)
    decreases |ops|
  {
    if ops == [] then s else FdCalls(FdCall(s, ops[0]).0, ops[1..])
  }

  /** The calls of one task act on its own table only, as a history of that table, and answer as it does. */
  lemma {:induction false} FdCallsAreTheTasksOwn(s: State, ops: seq<FdTable.Op>)
    requires Shape(s) && s.tasks[s.current].used
    ensures FdCalls(s, ops) ==
            s.(tasks := s.tasks[s.current := s.tasks[s.current].(fds := FdTable.ApplyAll(s.tasks[s.current].fds, ops))])
    ensures ops != [] ==> FdCall(s, ops[0]).1 == FdTable.Apply(s.tasks[s.current].fds, ops[0]).1
    decreases |ops|
  {
    if ops == [] {
      assert s.tasks[s.current := s.tasks[s.current]] == s.tasks;
    } else {
      FdCallsAreTheTasksOwn(FdCall(s, ops[0]).0, ops[1..]);
    }
  }

  /** A tid leads to the slot that holds it, tid 0 to the idle slot, and to none if nobody holds it. */
  lemma TidLookup(s: State, tid: int)
    requires Shape(s)
    ensures FindByTid(s, 0) == 0
    ensures tid != 0 ==>
              if exists j :: 1 <= j < MAX_TASKS && s.tasks[j].used && s.tasks[j].tid == tid
              then 1 <= FindByTid(s, tid) < MAX_TASKS && s.tasks[FindByTid(s, tid)].used && s.tasks[FindByTid(s, tid)].tid == tid
              else FindByTid(s, tid) == -1
  {
  }

  /** Without a task there is no table: every descriptor call is a bad descriptor. */
  lemma NoTaskNoDescriptors(s: State, op: FdTable.Op)
    requires Shape(s) && !s.tasks[s.current].used
    ensures FdCall(s, op) == (s, -1)
  {
  }

  /** The kernel starts with the idle task alone, current and runnable, at tick 0, with nothing to reschedule. */
  lemma KernelStart(i: nat)
    requires 1 <= i < MAX_TASKS
    ensures var s := Init();
            && s.current == 0 && s.ticks == 0 && !s.needResched && s.nextTid == 1 && s.ext == []
            && s.tasks[0].used && s.tasks[0].isIdle && s.tasks[0].tid == 0 && s.tasks[0].parent == -1 && s.tasks[0].state == Runnable
            && !s.tasks[i].used && s.tasks[i].state == Unused
  {
  }
}
