/** What holds over every run of the scheduler, stated on its own. */
module SchedTheorems {
  import opened Sched
  import opened SchedInv
  import opened SchedCalls
  import opened SchedRuns
  import FdTable

  // ---------------------------------------------------------------------------
  // Safety in every reachable configuration
  // ---------------------------------------------------------------------------

  /** Bit i of a queue is set iff slot i is used and points at it; BLOCKED tasks are attached; attached ones are asleep. */
  lemma QueuesAndSlotsAgree(es: seq<Event>, i: nat, q: QueueId)
    requires Possible(Start(), es) && i < MAX_TASKS && ValidQ(After(Start(), es).s, q)
    ensures var s := After(Start(), es).s;
            && (i in Bits(s, q) <==> s.tasks[i].used && s.tasks[i].waitq == Some(q))
            && (s.tasks[i].state == Blocked ==> s.tasks[i].waitq.Some?)
            && (s.tasks[i].waitq.Some? ==> s.tasks[i].state == Blocked || s.tasks[i].state == Sleeping)
  {
    StartGood();
    RunGood(Start(), es);
    var s := After(Start(), es).s;
    assert SlotInv(s.tasks[i], i);
    assert i in Bits(s, q) <==> i in Waiters(s.tasks, q);
  }

  /** At most one slot is RUNNING, it is the current one, and slot 0 never sleeps, blocks or dies. */
  lemma OneTaskRuns(es: seq<Event>, i: nat)
    requires Possible(Start(), es) && i < MAX_TASKS
    ensures var s := After(Start(), es).s;
            && (s.tasks[i].state == Running ==> i == s.current)
            && (s.tasks[0].state == Runnable || s.tasks[0].state == Running)
  {
    StartGood();
    RunGood(Start(), es);
    assert SlotInv(After(Start(), es).s.tasks[0], 0);
  }

  /**
   A task parked by waitpid for p, with a tid below 2^31, has a live matching child and no matching
   zombie, while no tid has been handed out twice.
   */
  lemma NoLostChildExit(es: seq<Event>, i: nat)
    requires Possible(Start(), es) && After(Start(), es).spawns < MAX_SPAWNS
    requires 1 <= i < MAX_TASKS && ParkedOnChild(After(Start(), es).s, i) && After(Start(), es).s.tasks[i].tid < SIGNED_LIMIT
    ensures var c := After(Start(), es);
            && i in c.parked
            && (exists j :: 1 <= j < MAX_TASKS && IsChildOf(c.s.tasks[j], c.s.tasks[i].tid, c.parked[i]) && c.s.tasks[j].state != Zombie)
            && (forall j :: 1 <= j < MAX_TASKS && IsChildOf(c.s.tasks[j], c.s.tasks[i].tid, c.parked[i]) ==> c.s.tasks[j].state != Zombie)
  {
    StartGood();
    RunGood(Start(), es);
    assert Served(After(Start(), es).s, i);
  }

  /** No two live tasks have the same tid. */
  ghost predicate DistinctTids(s: State) {
    forall i, j :: 1 <= i < j < |s.tasks| && s.tasks[i].used && s.tasks[j].used ==> s.tasks[i].tid != s.tasks[j].tid
  }

  lemma {:induction false} TidIsFound(tasks: seq<Slot>, i: nat, from: nat)
    requires from <= i < |tasks| && tasks[i].used
    requires forall j :: from <= j < |tasks| && j != i && tasks[j].used ==> tasks[j].tid != tasks[i].tid
    ensures FindByTidFrom(tasks, tasks[i].tid, from) == i
    decreases i - from
  {
    if from < i {
      TidIsFound(tasks, i, from + 1);
    }
  }

  /**
   The bound is exact: the code keeps a parent's tid as a signed word, and the exit of a child wakes the
   parent parked in waitpid if and only if the parent's tid is below 2^31; otherwise it touches nobody.
   */
  lemma ExitReachesParentExactlyWhen(s: State, code: bv32, i: nat)
    requires Inv(s) && DistinctTids(s) && 1 <= i < MAX_TASKS && i != s.current && ParkedOnChild(s, i)
    requires s.tasks[s.current].used && !s.tasks[s.current].isIdle
    requires s.tasks[s.current].parent == AsInt32(s.tasks[i].tid)
    ensures Awake(Exit(s, code), i) <==> s.tasks[i].tid < SIGNED_LIMIT
    ensures s.tasks[i].tid >= SIGNED_LIMIT ==>
              forall j :: 0 <= j < MAX_TASKS && j != s.current ==> Exit(s, code).tasks[j] == s.tasks[j]
  {
    assert SlotInv(s.tasks[i], i);
    ExitOn(s, code, i);
    if s.tasks[i].tid < SIGNED_LIMIT {
      TidIsFound(s.tasks, i, 1);
    } else {
      forall j | 0 <= j < MAX_TASKS && j != s.current
        ensures Exit(s, code).tasks[j] == s.tasks[j]
      {
        ExitOn(s, code, j);
      }
    }
  }

  /** Task 2^31 waits for any child; its child, task 2^31 + 1, is running. */
  function ParentOfHighTid(): State {
    var parent := EMPTY_SLOT.(used := true, entry := IDLE_ENTRY, tid := SIGNED_LIMIT, state := Blocked,
                              waitq := Some(Child(1)), childQ := {1}, fds := FdTable.Stdio());
    var child := EMPTY_SLOT.(used := true, entry := IDLE_ENTRY, tid := SIGNED_LIMIT + 1, state := Running,
                             parent := AsInt32(SIGNED_LIMIT), fds := FdTable.Stdio());
    Init().(tasks := Init().tasks[1 := parent][2 := child], current := 2, nextTid := SIGNED_LIMIT + 2)
  }

  lemma ParentOfHighTidOk()
    ensures var s := ParentOfHighTid(); Inv(s) && DistinctTids(s) && ParkedOnChild(s, 1)
  {
    var s := ParentOfHighTid();
    InitInv();
    FdTable.StdioInv();
    assert forall i :: 3 <= i < MAX_TASKS ==> s.tasks[i] == Init().tasks[i] == EMPTY_SLOT;
    assert s.tasks[0] == IDLE_SLOT;
    forall i | 0 <= i < MAX_TASKS
      ensures SlotInv(s.tasks[i], i)
    {
      assert SlotInv(Init().tasks[i], i);
    }
    forall q | ValidQ(s, q)
      ensures Bits(s, q) == Waiters(s.tasks, q)
    {
      assert q == Child(1) ==> Waiters(s.tasks, q) == {1};
      assert q != Child(1) ==> Waiters(s.tasks, q) == {};
    }
  }

  /** There the exit is lost: the parent stays parked although a child it waits for is a zombie. */
  lemma ChildExitIsLost(code: bv32)
    ensures var s := ParentOfHighTid();
            Inv(s) && (var r := Exit(s, code);
              && ParkedOnChild(r, 1)
              && IsChildOf(r.tasks[2], AsInt32(r.tasks[1].tid), WAITPID_ANY) && r.tasks[2].state == Zombie)
  {
    var s := ParentOfHighTid();
    ParentOfHighTidOk();
    ExitReachesParentExactlyWhen(s, code, 1);
    ZombifiedKeepsInv(s, code);
    ExitKeeps(s, code);
    assert QuietSlot(Zombified(s, code).tasks[2], Exit(s, code).tasks[2], 2);
  }

  /** Each reap reported (code & 0xFF) << 8 of that task's last exit, no task is reaped twice, and its slot is free. */
  lemma EachExitReapedOnce(es: seq<Event>, k: nat)
    requires Possible(Start(), es) && After(Start(), es).spawns < MAX_SPAWNS
    requires k < |After(Start(), es).reaps|
    ensures var c := After(Start(), es);
            var (tid, status) := c.reaps[k];
            && tid in c.exits && status == (c.exits[tid] & 0xFF) << 8
            && (forall l :: 0 <= l < |c.reaps| && l != k ==> c.reaps[l].0 != tid)
            && (forall i :: 1 <= i < MAX_TASKS && c.s.tasks[i].used ==> c.s.tasks[i].tid != tid)
  {
    StartGood();
    RunGood(Start(), es);
    var c := After(Start(), es);
    assert NobodyHas(c.s.tasks, c.reaps[k].0);
  }

  /** Reference counts of every live task stay exact in every reachable configuration. */
  lemma DescriptorTablesStayExact(es: seq<Event>, i: nat, o: nat)
    requires Possible(Start(), es) && i < MAX_TASKS && o < FdTable.MAX_FDS && After(Start(), es).s.tasks[i].used
    ensures var t := After(Start(), es).s.tasks[i].fds;
            && FdTable.Sized(t)
            && t.ofiles[o].refs == |FdTable.Names(t.fdtab, o)|
            && (t.ofiles[o].used <==> t.ofiles[o].refs > 0)
  {
    StartGood();
    RunGood(Start(), es);
    assert SlotInv(After(Start(), es).s.tasks[i], i);
  }

  // ---------------------------------------------------------------------------
  // Every pump restores g_current_idx
  // ---------------------------------------------------------------------------

  /** The call stack never gets shallower than n while the events happen. */
  ghost predicate StaysDeep(c: Config, es: seq<Event>, n: nat)
    requires Shape(c.s) && Possible(c, es)
    decreases |es|
  {
    |c.stack| >= n && (es != [] ==> StaysDeep(Next(c, es[0]), es[1..], n))
  }

  lemma StepKeepsLowerFrames(c: Config, e: Event, n: nat)
    requires Good(c) && Enabled(c, e) && n <= |c.stack| && n <= |Next(c, e).stack|
    ensures Next(c, e).stack[..n] == c.stack[..n]
  {
  }

  lemma {:induction false} RunKeepsLowerFrames(c: Config, es: seq<Event>, n: nat)
    requires Good(c) && Possible(c, es) && StaysDeep(c, es, n)
    ensures |After(c, es).stack| >= n && After(c, es).stack[..n] == c.stack[..n]
    decreases |es|
  {
    if es != [] {
      StepKeepsLowerFrames(c, es[0], n);
      NextGood(c, es[0]);
      RunKeepsLowerFrames(Next(c, es[0]), es[1..], n);
    }
  }

  /**
   A task blocked in sched_block_until_runnable pumps another one. Whatever that one does, including
   blocking and pumping in turn to any depth, when its entry returns g_current_idx and the call stack
   are what they were.
   */
  lemma PumpRestoresCurrent(c: Config, es: seq<Event>)
    requires Good(c) && Enabled(c, PumpEnter) && |Pump(c).stack| == |c.stack| + 1
    requires Possible(Pump(c), es) && StaysDeep(Pump(c), es, |c.stack| + 1)
    requires |After(Pump(c), es).stack| == |c.stack| + 1
    ensures Enabled(After(Pump(c), es), EntryReturn)
    ensures Return(After(Pump(c), es)).s.current == c.s.current
    ensures Return(After(Pump(c), es)).stack == c.stack
  {
    var c1 := Pump(c);
    var c2 := After(c1, es);
    var n := |c.stack| + 1;
    PumpKeepsGood(c);
    RunGood(c1, es);
    RunKeepsLowerFrames(c1, es, n);
    assert c2.stack == c2.stack[..n] == c1.stack[..n] == c1.stack;
    assert c1.stack == c.stack + [Frame(PumpFrame, PickNext(c.s), c.s.current)];
    assert c2.stack[..|c.stack|] == c.stack;
  }

  // ---------------------------------------------------------------------------
  // Sleeping: until the wake tick, or until a wake of the queue the sleeper is on
  // ---------------------------------------------------------------------------

  /** Task i is asleep until tick w, whether or not it is also on a wait queue. */
  ghost predicate SleepsUntil(s: State, i: nat, w: nat)
    requires i < |s.tasks|
  {
    s.tasks[i].used && Asleep(s.tasks[i]) && s.tasks[i].wakeTick == w
  }

  ghost predicate Awake(s: State, i: nat)
    requires i < |s.tasks|
  {
    s.tasks[i].used && (s.tasks[i].state == Runnable || s.tasks[i].state == Running) && s.tasks[i].waitq == None
  }

  /** The task itself makes no call that changes its own scheduling state. */
  predicate LeavesAlone(c: Config, e: Event, i: nat) {
    c.s.current == i ==> !e.CallExit? && !e.CallSleep? && !e.CallWaitpid? && !e.QueueSleep?
  }

  /** The exiting task's parent, as sched_exit_code looks it up, or -1. */
  function ParentSlot(s: State): int
    requires Shape(s)
  {
    var self := s.tasks[s.current];
    if !self.used || self.isIdle || self.parent < 0 then -1 else FindByTid(s, self.parent)
  }

  /** Does this event wake the queue that slot i is on in a way that reaches slot i? */
  predicate Releases(c: Config, e: Event, i: nat)
    requires Shape(c.s) && i < MAX_TASKS
  {
    var q := c.s.tasks[i].waitq;
    match e
    case QueueWakeAll(k) => q == Some(Ext(k))
    case QueueWakeOne(k) => q == Some(Ext(k)) && forall j :: 0 <= j < i ==> c.s.tasks[j].waitq != Some(Ext(k))
    case CallExit(_) => q == Some(Child(i)) && ParentSlot(c.s) == i
    case _ => false
  }

  lemma TickToEffect(s: State, now: nat, i: nat)
    requires Inv(s) && i < MAX_TASKS && now < U32
    ensures TickTo(s, now).ticks == now
    ensures Due(s.tasks[i], now) ==> TickTo(s, now).tasks[i].state == Runnable && Awake(TickTo(s, now), i)
    ensures !Due(s.tasks[i], now) && s.tasks[i].state != Running ==> TickTo(s, now).tasks[i] == s.tasks[i]
    ensures Awake(s, i) ==> Awake(TickTo(s, now), i)
  {
    var s1 := s.(ticks := now);
    InvIgnoresCounters(s, s1);
    WakeSleepersKeeps(s1, now, 0);
    WakeSleepersEffect(s1, now, 0, i);
    assert QuietSlot(s1.tasks[i], WakeSleepersFrom(s1, now, 0).tasks[i], i);
  }

  /** The value after one more tick of the 32-bit counter. */
  function Ticked(t: nat): nat {
    (t + 1) % U32
  }

  /**
   How many ticks a counter that reads t needs to reach one that wakes a sleeper with wake tick w, which is
   not 0: the code compares ticks as plain numbers, so a wake tick that lies behind the counter is reached
   by the next tick, or, when that tick wraps the counter, only w ticks after it.
   */
  function TicksLeft(t: nat, w: nat): nat {
    if t < w then w - t
    else if t + 1 < U32 then 1
    else 1 + w
  }

  lemma TicksLeftStep(t: nat, w: nat)
    requires t < U32 && 0 < w < U32
    ensures w <= Ticked(t) <==> TicksLeft(t, w) == 1
    ensures TicksLeft(t, w) > 1 ==> TicksLeft(Ticked(t), w) == TicksLeft(t, w) - 1
    ensures TicksLeft(t, w) >= 1
  {
  }

  lemma TickOnSleeper(c: Config, i: nat, w: nat)
    requires Good(c) && i < MAX_TASKS && SleepsUntil(c.s, i, w)
    ensures Tick(c.s).ticks == Ticked(c.s.ticks)
    ensures if w != 0 && TicksLeft(c.s.ticks, w) == 1 then Tick(c.s).tasks[i].state == Runnable && Awake(Tick(c.s), i)
            else SleepsUntil(Tick(c.s), i, w) && Tick(c.s).tasks[i].waitq == c.s.tasks[i].waitq
  {
    assert SlotInv(c.s.tasks[i], i);
    TickToEffect(c.s, Ticked(c.s.ticks), i);
    if w != 0 {
      TicksLeftStep(c.s.ticks, w);
    }
  }

  /** wake_all on q: slot i is released if it is on q, and untouched otherwise. */
  lemma WakeAllOn(s: State, q: QueueId, i: nat)
    requires Inv(s) && ValidQ(s, q) && i < MAX_TASKS
    ensures WakeAll(s, q).ticks == s.ticks
    ensures s.tasks[i].waitq == Some(q) ==> WakeAll(s, q).tasks[i].state == Runnable && Awake(WakeAll(s, q), i)
    ensures s.tasks[i].waitq != Some(q) ==> WakeAll(s, q).tasks[i] == s.tasks[i]
  {
    assert SlotInv(s.tasks[i], i);
    assert i in Bits(s, q) <==> i in Waiters(s.tasks, q);
    WakeAllReleasesEveryWaiter(s, q);
  }

  /** wake_one on q: slot i is released if it is the lowest on q, and untouched otherwise. */
  lemma WakeOneOn(s: State, q: QueueId, i: nat)
    requires Inv(s) && ValidQ(s, q) && i < MAX_TASKS
    ensures WakeOne(s, q).ticks == s.ticks
    ensures var lowest := s.tasks[i].waitq == Some(q) && forall j :: 0 <= j < i ==> s.tasks[j].waitq != Some(q);
            if lowest then WakeOne(s, q).tasks[i].state == Runnable && Awake(WakeOne(s, q), i)
            else WakeOne(s, q).tasks[i] == s.tasks[i]
  {
    assert SlotInv(s.tasks[i], i);
    assert Bits(s, q) == Waiters(s.tasks, q);
    var l := WakeOneWakesLowest(s, q);
    if Bits(s, q) != {} {
      assert l in Waiters(s.tasks, q);
      forall j | 0 <= j < l
        ensures s.tasks[j].waitq != Some(q)
      {
        assert SlotInv(s.tasks[j], j);
        assert j in Bits(s, q) <==> j in Waiters(s.tasks, q);
      }
      WakeOneKeeps(s, q);
      assert QuietSlot(s.tasks[l], WakeOne(s, q).tasks[l], l);
    } else {
      assert i !in Waiters(s.tasks, q);
    }
  }

  lemma {:induction false} SameTidsFound(a: seq<Slot>, b: seq<Slot>, tid: int, i: nat)
    requires |a| == |b| && i <= |a| && forall j :: 0 <= j < |a| ==> a[j].used == b[j].used && a[j].tid == b[j].tid
    ensures FindByTidFrom(a, tid, i) == FindByTidFrom(b, tid, i)
    decreases |a| - i
  {
    if i < |a| {
      SameTidsFound(a, b, tid, i + 1);
    }
  }

  /** Exit by another task: slot i is released if it waits for a child of its own and the exiting task is one. */
  lemma ExitOn(s: State, code: bv32, i: nat)
    requires Inv(s) && i < MAX_TASKS && i != s.current && s.tasks[s.current].used && !s.tasks[s.current].isIdle
    ensures Exit(s, code).ticks == s.ticks
    ensures if s.tasks[i].waitq == Some(Child(i)) && ParentSlot(s) == i
            then Exit(s, code).tasks[i].state == Runnable && Awake(Exit(s, code), i)
            else Exit(s, code).tasks[i] == s.tasks[i]
  {
    ZombifiedKeepsInv(s, code);
    var z := Zombified(s, code);
    var parent := z.tasks[s.current].parent;
    SameTidsFound(s.tasks, z.tasks, parent, 1);
    assert SlotInv(z.tasks[i], i);
    if parent >= 0 && FindByTid(z, parent) >= 0 {
      WakeAllOn(z, Child(FindByTid(z, parent)), i);
    }
  }

  lemma PlainCallOnSleeper(c: Config, e: Event, i: nat, w: nat)
    requires Good(c) && Enabled(c, e) && i < MAX_TASKS && IsPlainCall(e) && !e.TimerTick? && LeavesAlone(c, e, i)
    requires SleepsUntil(c.s, i, w)
    ensures Next(c, e).s.ticks == c.s.ticks
    ensures if Releases(c, e, i) then Next(c, e).s.tasks[i].state == Runnable && Awake(Next(c, e).s, i)
            else SleepsUntil(Next(c, e).s, i, w) && Next(c, e).s.tasks[i].waitq == c.s.tasks[i].waitq
  {
    match e
    case QueueWakeOne(k) => WakeOneOn(c.s, Ext(k), i);
    case QueueWakeAll(k) => WakeAllOn(c.s, Ext(k), i);
    case QueueSleep(k, t) =>
      if c.s.tasks[c.s.current].used && !c.s.tasks[c.s.current].isIdle {
        AttachKeepsSlots(c.s, Ext(k), t);
      }
    case _ =>
  }

  lemma WaitpidMisses(c: Config, pid: int, nohang: bool, i: nat)
    requires Good(c) && i < MAX_TASKS && i != c.s.current && c.s.tasks[i].state != Zombie
    ensures AfterWaitpid(c, pid, nohang).s.tasks[i] == c.s.tasks[i]
    ensures AfterWaitpid(c, pid, nohang).s.ticks == c.s.ticks
  {
    WaitpidCases(c, pid, nohang);
    if MayPark(c, pid) {
      ParkIsSameFamily(c, pid);
    }
  }

  lemma SpawnMisses(c: Config, entry: nat, i: nat)
    requires Good(c) && i < MAX_TASKS && c.s.tasks[i].used
    ensures AfterSpawn(c, entry).s.tasks[i] == c.s.tasks[i] && AfterSpawn(c, entry).s.ticks == c.s.ticks
  {
  }

  lemma SwitchMissesSleeper(c: Config, e: Event, i: nat)
    requires Shape(c.s) && Enabled(c, e) && i < MAX_TASKS && Asleep(c.s.tasks[i])
    requires e.PumpEnter? || e.RunPick? || e.RunEnter? || e.EntryReturn?
    ensures Next(c, e).s.tasks[i] == c.s.tasks[i] && Next(c, e).s.ticks == c.s.ticks
  {
  }

  lemma OtherEventOnSleeper(c: Config, e: Event, i: nat, w: nat)
    requires Good(c) && Enabled(c, e) && i < MAX_TASKS && !IsPlainCall(e) && LeavesAlone(c, e, i)
    requires SleepsUntil(c.s, i, w)
    ensures Next(c, e).s.ticks == c.s.ticks
    ensures if Releases(c, e, i) then Next(c, e).s.tasks[i].state == Runnable && Awake(Next(c, e).s, i)
            else SleepsUntil(Next(c, e).s, i, w) && Next(c, e).s.tasks[i].waitq == c.s.tasks[i].waitq
  {
    match e
    case CallSpawn(entry) => SpawnMisses(c, entry, i);
    case CallExit(code) =>
      if c.s.tasks[c.s.current].used && !c.s.tasks[c.s.current].isIdle {
        ExitOn(c.s, code, i);
      }
    case CallWaitpid(pid, nohang) => WaitpidMisses(c, pid, nohang, i);
    case _ => SwitchMissesSleeper(c, e, i);
  }

  /** One event: a wake of its queue or the due tick makes the sleeper runnable; nothing else does. */
  lemma EventOnSleeper(c: Config, e: Event, i: nat, w: nat)
    requires Good(c) && Enabled(c, e) && i < MAX_TASKS && LeavesAlone(c, e, i)
    requires SleepsUntil(c.s, i, w)
    ensures Next(c, e).s.ticks == if e.TimerTick? then Ticked(c.s.ticks) else c.s.ticks
    ensures if Releases(c, e, i) || (e.TimerTick? && w != 0 && TicksLeft(c.s.ticks, w) == 1)
            then Next(c, e).s.tasks[i].state == Runnable && Awake(Next(c, e).s, i)
            else SleepsUntil(Next(c, e).s, i, w) && Next(c, e).s.tasks[i].waitq == c.s.tasks[i].waitq
  {
    if e.TimerTick? {
      TickOnSleeper(c, i, w);
    } else if IsPlainCall(e) {
      PlainCallOnSleeper(c, e, i, w);
    } else {
      OtherEventOnSleeper(c, e, i, w);
    }
  }

  lemma PlainCallOnAwake(c: Config, e: Event, i: nat)
    requires Good(c) && Enabled(c, e) && i < MAX_TASKS && IsPlainCall(e) && LeavesAlone(c, e, i) && Awake(c.s, i)
    ensures Awake(Next(c, e).s, i)
  {
    match e
    case TimerTick => TickToEffect(c.s, Ticked(c.s.ticks), i);
    case QueueWakeOne(k) => WakeOneOn(c.s, Ext(k), i);
    case QueueWakeAll(k) => WakeAllOn(c.s, Ext(k), i);
    case QueueSleep(k, t) =>
      if c.s.tasks[c.s.current].used && !c.s.tasks[c.s.current].isIdle {
        AttachKeepsSlots(c.s, Ext(k), t);
      }
    case _ =>
  }

  lemma SwitchOnAwake(c: Config, e: Event, i: nat)
    requires Shape(c.s) && Enabled(c, e) && i < MAX_TASKS && Awake(c.s, i)
    requires e.PumpEnter? || e.RunPick? || e.RunEnter? || e.EntryReturn?
    ensures Awake(Next(c, e).s, i)
  {
  }

  lemma EventOnAwake(c: Config, e: Event, i: nat)
    requires Good(c) && Enabled(c, e) && i < MAX_TASKS && LeavesAlone(c, e, i) && Awake(c.s, i)
    ensures Awake(Next(c, e).s, i)
  {
    if IsPlainCall(e) {
      PlainCallOnAwake(c, e, i);
    } else {
      match e
      case CallSpawn(entry) => SpawnMisses(c, entry, i);
      case CallExit(code) =>
        if c.s.tasks[c.s.current].used && !c.s.tasks[c.s.current].isIdle {
          ExitOn(c.s, code, i);
        }
      case CallWaitpid(pid, nohang) => WaitpidMisses(c, pid, nohang, i);
      case _ => SwitchOnAwake(c, e, i);
    }
  }

  ghost predicate NeverDisturbed(c: Config, es: seq<Event>, i: nat)
    requires Shape(c.s) && Possible(c, es)
    decreases |es|
  {
    es != [] ==> LeavesAlone(c, es[0], i) && NeverDisturbed(Next(c, es[0]), es[1..], i)
  }

  /** Some event of the run wakes the queue that slot i is then on, and reaches slot i. */
  ghost predicate WasReleased(c: Config, es: seq<Event>, i: nat)
    requires Shape(c.s) && Possible(c, es) && i < MAX_TASKS
    decreases |es|
  {
    es != [] && (Releases(c, es[0], i) || WasReleased(Next(c, es[0]), es[1..], i))
  }

  function TickCount(es: seq<Event>): nat {
    if es == [] then 0 else (if es[0].TimerTick? then 1 else 0) + TickCount(es[1..])
  }

  lemma {:induction false} AwakeStays(c: Config, es: seq<Event>, i: nat)
    requires Good(c) && Possible(c, es) && i < MAX_TASKS && Awake(c.s, i) && NeverDisturbed(c, es, i)
    ensures Awake(After(c, es).s, i) && !WasReleased(c, es, i)
    decreases |es|
  {
    if es != [] {
      EventOnAwake(c, es[0], i);
      NextGood(c, es[0]);
      AwakeStays(Next(c, es[0]), es[1..], i);
    }
  }

  /** Has the time of a sleeper with wake tick w come after n ticks of a counter that read t? Never, if w is 0. */
  predicate TimeUp(t: nat, w: nat, n: nat) {
    w != 0 && n >= TicksLeft(t, w)
  }

  /** A sleeper on no queue cannot be released: only its own calls could put it on one. */
  lemma {:induction false} UnattachedIsNeverReleased(c: Config, es: seq<Event>, i: nat, w: nat)
    requires Good(c) && Possible(c, es) && i < MAX_TASKS && SleepsUntil(c.s, i, w) && NeverDisturbed(c, es, i)
    requires c.s.tasks[i].waitq == None
    ensures !WasReleased(c, es, i)
    decreases |es|
  {
    if es != [] {
      var c' := Next(c, es[0]);
      EventOnSleeper(c, es[0], i, w);
      NextGood(c, es[0]);
      if Awake(c'.s, i) {
        AwakeStays(c', es[1..], i);
      } else {
        UnattachedIsNeverReleased(c', es[1..], i, w);
      }
    }
  }

  lemma TimeUpStep(t: nat, w: nat, es: seq<Event>)
    requires t < U32 && w < U32
    ensures es == [] ==> !TimeUp(t, w, TickCount(es))
    ensures es != [] && !es[0].TimerTick? ==> TickCount(es) == TickCount(es[1..])
    ensures es != [] && es[0].TimerTick? ==>
              if w != 0 && TicksLeft(t, w) == 1 then TimeUp(t, w, TickCount(es))
              else TimeUp(t, w, TickCount(es)) == TimeUp(Ticked(t), w, TickCount(es[1..]))
  {
    if w != 0 {
      TicksLeftStep(t, w);
    }
  }

  /** What has become of a sleeper after a run: still asleep, or awake because of a wake or the time. */
  ghost predicate SleepOutcome(c: Config, es: seq<Event>, i: nat, w: nat)
    requires Shape(c.s) && Possible(c, es) && i < MAX_TASKS
  {
    if WasReleased(c, es, i) || TimeUp(c.s.ticks, w, TickCount(es)) then Awake(After(c, es).s, i)
    else SleepsUntil(After(c, es).s, i, w) && After(c, es).s.tasks[i].waitq == c.s.tasks[i].waitq
  }

  lemma {:induction false} SleepersFate(c: Config, es: seq<Event>, i: nat, w: nat)
    requires Good(c) && Possible(c, es) && i < MAX_TASKS && SleepsUntil(c.s, i, w) && NeverDisturbed(c, es, i)
    ensures SleepOutcome(c, es, i, w)
    decreases |es|
  {
    assert SlotInv(c.s.tasks[i], i);
    TimeUpStep(c.s.ticks, w, es);
    if es != [] {
      var c' := Next(c, es[0]);
      EventOnSleeper(c, es[0], i, w);
      NextGood(c, es[0]);
      if Awake(c'.s, i) {
        AwakeStays(c', es[1..], i);
      } else {
        SleepersFate(c', es[1..], i, w);
      }
    }
  }

  /**
   A sleeper with any wake tick, on a wait queue or on none, through any run in which it makes no call of
   its own that changes its state: it is asleep if and only if no wake of its queue has reached it and its
   time is not up, and otherwise it is awake. Wrap-around of the tick counter is part of TicksLeft.
   */
  lemma SleeperWakesExactlyOnTime(c: Config, es: seq<Event>, i: nat, w: nat)
    requires Good(c) && Possible(c, es) && i < MAX_TASKS && SleepsUntil(c.s, i, w) && NeverDisturbed(c, es, i)
    ensures SleepsUntil(After(c, es).s, i, w) <==> !WasReleased(c, es, i) && !TimeUp(c.s.ticks, w, TickCount(es))
    ensures Awake(After(c, es).s, i) <==> WasReleased(c, es, i) || TimeUp(c.s.ticks, w, TickCount(es))
  {
    SleepersFate(c, es, i, w);
  }

  lemma {:induction false} TicksAdvance(c: Config, es: seq<Event>, i: nat, w: nat)
    requires Good(c) && Possible(c, es) && i < MAX_TASKS && SleepsUntil(c.s, i, w) && NeverDisturbed(c, es, i)
    requires w != 0 && !WasReleased(c, es, i) && TickCount(es) < TicksLeft(c.s.ticks, w)
    ensures SleepsUntil(After(c, es).s, i, w)
    ensures TicksLeft(After(c, es).s.ticks, w) == TicksLeft(c.s.ticks, w) - TickCount(es)
    decreases |es|
  {
    assert SlotInv(c.s.tasks[i], i);
    TicksLeftStep(c.s.ticks, w);
    if es != [] {
      EventOnSleeper(c, es[0], i, w);
      NextGood(c, es[0]);
      TicksAdvance(Next(c, es[0]), es[1..], i, w);
    }
  }

  /** The due tick makes a task that is still asleep RUNNABLE. */
  lemma DueTickWakes(c: Config, es: seq<Event>, i: nat, w: nat)
    requires Good(c) && Possible(c, es) && i < MAX_TASKS && SleepsUntil(c.s, i, w) && NeverDisturbed(c, es, i)
    requires w != 0 && !WasReleased(c, es, i) && TickCount(es) + 1 == TicksLeft(c.s.ticks, w)
    ensures Next(After(c, es), TimerTick).s.tasks[i].state == Runnable
  {
    TicksAdvance(c, es, i, w);
    RunGood(c, es);
    TickOnSleeper(After(c, es), i, w);
  }

  /** sched_sleep_ticks(n) by a live task, on a queue or on none, puts it to sleep until ticks + max(n, 1), modulo 2^32. */
  lemma SleepTicksSetsDeadline(s: State, n: nat)
    requires Inv(s) && s.tasks[s.current].used && s.current != 0
    ensures SleepsUntil(SleepTicks(s, n), s.current, (s.ticks + (if n == 0 then 1 else n)) % U32)
    ensures SleepTicks(s, n).ticks == s.ticks && SleepTicks(s, n).tasks[s.current].waitq == s.tasks[s.current].waitq
  {
    assert SlotInv(s.tasks[s.current], s.current);
  }

  /** A live task calls sched_sleep_ticks(n), and then the run goes on. */
  lemma SleepCallOutcome(c: Config, n: nat, es: seq<Event>)
    requires Good(c) && c.s.current != 0 && c.s.tasks[c.s.current].used && n > 0
    requires Possible(Next(c, CallSleep(n)), es) && NeverDisturbed(Next(c, CallSleep(n)), es, c.s.current)
    ensures var c1, i := Next(c, CallSleep(n)), c.s.current;
            var up := TimeUp(c.s.ticks, (c.s.ticks + n) % U32, TickCount(es));
            && (Asleep(After(c1, es).s.tasks[i]) <==> !WasReleased(c1, es, i) && !up)
            && (Awake(After(c1, es).s, i) <==> WasReleased(c1, es, i) || up)
            && (c.s.tasks[i].waitq == None ==> !WasReleased(c1, es, i))
  {
    var w := (c.s.ticks + n) % U32;
    SleepTicksSetsDeadline(c.s, n);
    NextGood(c, CallSleep(n));
    var c1 := Next(c, CallSleep(n));
    SleeperWakesExactlyOnTime(c1, es, c.s.current, w);
    if c1.s.tasks[c.s.current].waitq == None {
      UnattachedIsNeverReleased(c1, es, c.s.current, w);
    }
  }

  /**
   A sleep of m ticks that starts at tick t lasts m ticks if and only if its deadline does not wrap, or the
   very next tick wraps; a deadline of exactly 2^32 is stored as 0 and never comes; any other sleep whose
   deadline wraps ends at the next tick.
   */
  lemma SleepLength(t: nat, m: nat)
    requires t < U32 && 0 < m < U32
    ensures var w := (t + m) % U32;
            && (w == 0 <==> t + m == U32)
            && (w != 0 ==> (TicksLeft(t, w) == m <==> t + m < U32 || t == U32 - 1))
            && (w != 0 && !(t + m < U32 || t == U32 - 1) ==> TicksLeft(t, w) == 1)
  {
  }

  /** Such a sleeper on no queue never wakes, whatever happens and however long one waits. */
  lemma SleepForever(c: Config, es: seq<Event>, i: nat)
    requires Good(c) && Possible(c, es) && i < MAX_TASKS && SleepsUntil(c.s, i, 0) && NeverDisturbed(c, es, i)
    requires c.s.tasks[i].waitq == None
    ensures SleepsUntil(After(c, es).s, i, 0)
  {
    SleepersFate(c, es, i, 0);
    UnattachedIsNeverReleased(c, es, i, 0);
  }

  /** A live task that parks on a queue and then sleeps is asleep until its tick, and still on the queue. */
  lemma QueueThenSleep(s: State, k: nat, n: nat)
    requires Inv(s) && k < |s.ext| && s.current != 0 && s.tasks[s.current].used && 0 < n
    ensures var r := SleepTicks(WaitqSleep(s, Ext(k), 0), n);
            && Inv(r) && |r.ext| == |s.ext| && r.ticks == s.ticks
            && SleepsUntil(r, s.current, (s.ticks + n) % U32) && r.tasks[s.current].waitq == Some(Ext(k))
  {
    assert SlotInv(s.tasks[s.current], s.current);
    var s1 := WaitqSleep(s, Ext(k), 0);
    WaitqSleepKeepsInv(s, Ext(k), 0);
    AttachKeepsSlots(s, Ext(k), 0);
    SleepKeeps(s1, n);
    SleepTicksSetsDeadline(s1, n);
  }

  /** The current task parks on queue k, sleeps for n ticks, and is woken with the queue before any tick. */
  ghost predicate WokenEarly(s: State, k: nat, n: nat)
    requires Shape(s) && k < |s.ext|
  {
    var asleep := SleepTicks(WaitqSleep(s, Ext(k), 0), n);
    && SleepsUntil(asleep, s.current, (s.ticks + n) % U32)
    && ValidQ(asleep, Ext(k))
    && WakeAll(asleep, Ext(k)).tasks[s.current].state == Runnable
    && WakeAll(asleep, Ext(k)).ticks == s.ticks
  }

  /**
   A blocked read leaves its caller on the queue, so a sleep after it ends with the next wake of that
   queue, whatever the task, the queue and the length of the sleep: no tick has passed.
   */
  lemma QueueWakeEndsSleepEarly(s: State, k: nat, n: nat)
    requires Inv(s) && k < |s.ext| && s.current != 0 && s.tasks[s.current].used && 0 < n
    ensures WokenEarly(s, k, n)
  {
    QueueThenSleep(s, k, n);
    WakeAllOn(SleepTicks(WaitqSleep(s, Ext(k), 0), n), Ext(k), s.current);
  }

  /** The scheduler is in its outer loop, the idle task is current, and slot 1 is free. */
  ghost predicate Fresh(c: Config) {
    Good(c) && c.stack == [] && c.s.current == 0 && !c.s.tasks[1].used && c.s.ticks == 0 && |c.s.ext| == 1
  }

  lemma QueueThenFresh()
    ensures Enabled(Start(), NewQueue) && Fresh(Next(Start(), NewQueue))
  {
    StartGood();
    NextGood(Start(), NewQueue);
  }

  /** A task spawned then is picked and entered by the next turn of sched_run. */
  lemma FirstTaskStarts(c: Config)
    requires Fresh(c)
    ensures var c1 := AfterSpawn(c, IDLE_ENTRY);
            var r := RunCurrent(Pick(c1));
            && Good(r) && r.s.current == 1 && r.s.tasks[1].used && r.s.ticks == 0 && |r.s.ext| == 1
  {
    assert FreeSlotFrom(c.s.tasks, 1) == 1;
    var c1 := AfterSpawn(c, IDLE_ENTRY);
    SpawnKeepsGood(c, IDLE_ENTRY);
    assert PickNext(c1.s) == 1;
    RunKeepsGood(c1);
    RunKeepsGood(Pick(c1));
  }

  /** An event in front of a possible run. */
  lemma Cons(c: Config, e: Event, rest: seq<Event>)
    requires Shape(c.s) && Enabled(c, e) && Possible(Next(c, e), rest)
    ensures Possible(c, [e] + rest) && After(c, [e] + rest) == After(Next(c, e), rest)
  {
    assert ([e] + rest)[1..] == rest;
  }

  /** The running task parks on queue 0, sleeps, and the queue is woken. */
  function ParkSleepWake(n: nat): seq<Event> {
    [QueueSleep(0, 0)] + ([CallSleep(n)] + ([QueueWakeAll(0)] + []))
  }

  lemma ParkSleepWakeRuns(c: Config, n: nat)
    requires Good(c) && c.s.current == 1 && c.s.tasks[1].used && |c.s.ext| == 1 && n > 0
    ensures Possible(c, ParkSleepWake(n))
    ensures var r := After(c, ParkSleepWake(n)).s; r.tasks[1].state == Runnable && r.ticks == c.s.ticks
  {
    var c1 := Next(c, QueueSleep(0, 0));
    var c2 := Next(c1, CallSleep(n));
    assert c2.s == SleepTicks(WaitqSleep(c.s, Ext(0), 0), n);
    QueueThenSleep(c.s, 0, n);
    QueueWakeEndsSleepEarly(c.s, 0, n);
    Cons(c2, QueueWakeAll(0), []);
    Cons(c1, CallSleep(n), [QueueWakeAll(0)] + []);
    Cons(c, QueueSleep(0, 0), [CallSleep(n)] + ([QueueWakeAll(0)] + []));
  }

  /** From the start of the kernel: create a queue, spawn a task, run it; it parks, sleeps for n ticks, the queue is woken. */
  function EarlyWakeRun(n: nat): seq<Event> {
    [NewQueue] + ([CallSpawn(IDLE_ENTRY)] + ([RunPick] + ([RunEnter] + ParkSleepWake(n))))
  }

  lemma FirstTaskThenRuns(c: Config, n: nat)
    requires Fresh(c) && n > 0
    ensures var es := [CallSpawn(IDLE_ENTRY)] + ([RunPick] + ([RunEnter] + ParkSleepWake(n)));
            Possible(c, es) && After(c, es).s.tasks[1].state == Runnable && After(c, es).s.ticks == 0
  {
    FirstTaskStarts(c);
    var c1 := Next(c, CallSpawn(IDLE_ENTRY));
    var c2 := Next(c1, RunPick);
    var c3 := Next(c2, RunEnter);
    ParkSleepWakeRuns(c3, n);
    Cons(c2, RunEnter, ParkSleepWake(n));
    Cons(c1, RunPick, [RunEnter] + ParkSleepWake(n));
    Cons(c, CallSpawn(IDLE_ENTRY), [RunPick] + ([RunEnter] + ParkSleepWake(n)));
  }

  /** So the early wake happens, for any length of sleep: the task is runnable again and no tick has passed. */
  lemma EarlyWakeIsReachable(n: nat)
    requires n > 0
    ensures Possible(Start(), EarlyWakeRun(n))
    ensures var r := After(Start(), EarlyWakeRun(n)).s; r.tasks[1].state == Runnable && r.ticks == 0
  {
    QueueThenFresh();
    FirstTaskThenRuns(Next(Start(), NewQueue), n);
    Cons(Start(), NewQueue, [CallSpawn(IDLE_ENTRY)] + ([RunPick] + ([RunEnter] + ParkSleepWake(n))));
  }

  // ---------------------------------------------------------------------------
  // Round robin
  // ---------------------------------------------------------------------------

  /** How far ahead of index b the picker meets t: 1 .. MAX_TASKS. */
  function Distance(b: nat, t: nat): nat
    requires b < MAX_TASKS && t < MAX_TASKS
  {
    if t > b then t - b else t + MAX_TASKS - b
  }

  lemma {:induction false} PickFromMeets(s: State, off: nat, t: nat)
    requires Shape(s) && 1 <= off <= MAX_TASKS && t < MAX_TASKS && IdxRunnable(s, t)
    requires off <= Distance(s.current, t)
    ensures var r := PickFrom(s, off);
            IdxRunnable(s, r) && (r == t || Distance(r, t) < Distance(s.current, t))
    decreases MAX_TASKS - off
  {
    var idx := (s.current + off) % MAX_TASKS;
    if !IdxRunnable(s, idx) {
      PickFromMeets(s, off + 1, t);
    }
  }

  /** Some non-idle task runnable: the pick is runnable, and it is t or strictly closer to t. */
  lemma PickApproaches(s: State, t: nat)
    requires Shape(s) && t < MAX_TASKS && IdxRunnable(s, t)
    ensures IdxRunnable(s, PickNext(s))
    ensures PickNext(s) == t || Distance(PickNext(s), t) < Distance(s.current, t)
  {
    PickFromMeets(s, 1, t);
  }

  lemma {:induction false} PickFromRunnable(s: State, off: nat)
    requires Shape(s) && 1 <= off <= MAX_TASKS + 1
    ensures PickFrom(s, off) != 0 ==> IdxRunnable(s, PickFrom(s, off))
    decreases MAX_TASKS + 1 - off
  {
    if off <= MAX_TASKS {
      PickFromRunnable(s, off + 1);
    }
  }

  /** Idle is picked exactly when no other task is runnable. */
  lemma IdleOnlyWhenNothingElse(s: State)
    requires Shape(s)
    ensures PickNext(s) == 0 <==> forall t :: 0 <= t < MAX_TASKS ==> !IdxRunnable(s, t)
  {
    PickFromRunnable(s, 1);
    if t :| 0 <= t < MAX_TASKS && IdxRunnable(s, t) {
      PickApproaches(s, t);
    }
  }

  /** The index sched_run picked last, seen through any nesting of pumps. */
  ghost function Base(c: Config): nat {
    if c.stack == [] then c.s.current
    else if c.stack[0].kind == RunFrame then c.stack[0].slot
    else c.stack[0].prev
  }

  lemma CallsKeepCurrent(c: Config, e: Event)
    requires Good(c) && Enabled(c, e) && !e.PumpEnter? && !e.RunPick? && !e.RunEnter? && !e.EntryReturn?
    ensures Next(c, e).s.current == c.s.current && Next(c, e).stack == c.stack
  {
    if IsPlainCall(e) {
      PlainCallKeeps(c.s, e);
    } else {
      match e
      case CallExit(code) =>
        if c.s.tasks[c.s.current].used && !c.s.tasks[c.s.current].isIdle {
          ZombifiedKeepsInv(c.s, code);
          ExitKeeps(c.s, code);
        }
      case CallWaitpid(pid, nohang) =>
        WaitpidCases(c, pid, nohang);
        if MayPark(c, pid) {
          ParkIsSameFamily(c, pid);
        }
      case _ =>
    }
  }

  lemma OnlyPickMovesBase(c: Config, e: Event)
    requires Good(c) && Enabled(c, e) && !e.RunPick?
    ensures Base(Next(c, e)) == Base(c)
  {
    if !e.PumpEnter? && !e.RunEnter? && !e.EntryReturn? {
      CallsKeepCurrent(c, e);
    }
  }

  /** Does this event actually choose a task? */
  predicate Picks(c: Config, e: Event)
    requires Shape(c.s)
  {
    e.RunPick? && (c.s.needResched || !IdxRunnable(c.s, c.s.current))
  }

  ghost function PickCount(c: Config, es: seq<Event>): nat
    requires Shape(c.s) && Possible(c, es)
    decreases |es|
  {
    if es == [] then 0 else (if Picks(c, es[0]) then 1 else 0) + PickCount(Next(c, es[0]), es[1..])
  }

  ghost predicate RunnableAtEveryPick(c: Config, es: seq<Event>, t: nat)
    requires Shape(c.s) && Possible(c, es) && t < MAX_TASKS
    decreases |es|
  {
    es != [] ==>
      && (Picks(c, es[0]) ==> IdxRunnable(c.s, t))
      && RunnableAtEveryPick(Next(c, es[0]), es[1..], t)
  }

  ghost predicate EventuallyPicked(c: Config, es: seq<Event>, t: nat)
    requires Shape(c.s) && Possible(c, es)
    decreases |es|
  {
    es != [] && ((Picks(c, es[0]) && PickNext(c.s) == t) || EventuallyPicked(Next(c, es[0]), es[1..], t))
  }

  lemma {:induction false} PickedWithinDistance(c: Config, es: seq<Event>, t: nat)
    requires Good(c) && Possible(c, es) && t < MAX_TASKS && Base(c) < MAX_TASKS
    requires RunnableAtEveryPick(c, es, t) && PickCount(c, es) >= Distance(Base(c), t)
    ensures EventuallyPicked(c, es, t)
    decreases |es|
  {
    if es != [] {
      var c' := Next(c, es[0]);
      NextGood(c, es[0]);
      if Picks(c, es[0]) {
        PickApproaches(c.s, t);
        if PickNext(c.s) != t {
          PickedWithinDistance(c', es[1..], t);
        }
      } else {
        if !es[0].RunPick? {
          OnlyPickMovesBase(c, es[0]);
        }
        PickedWithinDistance(c', es[1..], t);
      }
    }
  }

  /** A task that is runnable at each of 16 picks of sched_run is one of those picked, however the run interleaves. */
  lemma RoundRobinBound(c: Config, es: seq<Event>, t: nat)
    requires Good(c) && Possible(c, es) && t < MAX_TASKS
    requires RunnableAtEveryPick(c, es, t) && PickCount(c, es) >= MAX_TASKS
    ensures EventuallyPicked(c, es, t)
  {
    assert Base(c) < MAX_TASKS;
    PickedWithinDistance(c, es, t);
  }

  // ---------------------------------------------------------------------------
  // Spawn, exit, waitpid: the round trip
  // ---------------------------------------------------------------------------

  /** What the parent sees of a freshly spawned child. */
  lemma SpawnMakesChild(s: State, entry: nat, i: nat)
    requires Inv(s) && TidsOk(s) && s.nextTid < U32 - 1 && s.current != 0 && s.tasks[s.current].used
    requires entry != 0 && FreeSlotFrom(s.tasks, 1) == i
    ensures var (s1, tid) := Spawn(s, entry);
            && tid == AsInt32(s.nextTid) && 1 <= i < MAX_TASKS && i != s.current
            && !s.tasks[i].used && IdxRunnable(s1, i) && s1.tasks[i].entry == entry
            && IsChildOf(s1.tasks[i], AsInt32(s.tasks[s.current].tid), tid)
            && s1.tasks[i].fds == FdTable.Stdio()
            && (forall j :: 1 <= j < MAX_TASKS && j != i && s1.tasks[j].used ==> s1.tasks[j].tid != s.nextTid)
            && (forall j :: 0 <= j < MAX_TASKS && j != i ==> s1.tasks[j] == s.tasks[j])
  {
  }

  lemma {:induction false} OnlyZombieIsFound(tasks: seq<Slot>, parentTid: int, pid: int, z: nat, i: nat)
    requires i <= z < |tasks| && IsChildOf(tasks[z], parentTid, pid) && tasks[z].state == Zombie
    requires forall j :: i <= j < |tasks| && j != z ==> !IsChildOf(tasks[j], parentTid, pid)
    ensures FindZombieFrom(tasks, parentTid, pid, i) == z
    decreases z - i
  {
    if i < z {
      OnlyZombieIsFound(tasks, parentTid, pid, z, i + 1);
    }
  }

  /** Exit by the task in slot i, seen from another task p on no queue: only slot i has changed. */
  lemma ExitSeenByOther(s: State, code: bv32, p: nat)
    requires Inv(s) && s.tasks[s.current].used && !s.tasks[s.current].isIdle
    requires p < MAX_TASKS && p != s.current && s.tasks[p].waitq == None
    ensures Exit(s, code).tasks[p] == s.tasks[p]
    ensures forall j :: 0 <= j < MAX_TASKS ==> Exit(s, code).tasks[j].used == s.tasks[j].used
    ensures forall j :: 0 <= j < MAX_TASKS ==> Exit(s, code).tasks[j].tid == s.tasks[j].tid
    ensures var z := Exit(s, code).tasks[s.current];
            z.state == Zombie && z.exitCode == code && z.parent == s.tasks[s.current].parent && !z.isIdle
  {
    ExitOn(s, code, p);
    ZombifiedKeepsInv(s, code);
    ExitKeeps(s, code);
    var z, r := Zombified(s, code), Exit(s, code);
    forall j | 0 <= j < MAX_TASKS
      ensures r.tasks[j].used == s.tasks[j].used && r.tasks[j].tid == s.tasks[j].tid
    {
      assert QuietSlot(z.tasks[j], r.tasks[j], j);
    }
    assert QuietSlot(z.tasks[s.current], r.tasks[s.current], s.current);
  }

  /**
   A task spawns a child, the child exits with a code, the task waits for it by pid: waitpid returns
   the child's pid and (code & 0xFF) << 8 at once, and the slot is free again (tid 0xFFFFFFFF apart, whose
   pid reads as "any child").
   */
  lemma SpawnExitWaitRoundTrip(s: State, entry: nat, code: bv32, nohang: bool)
    requires Inv(s) && TidsOk(s) && s.nextTid < U32 - 1
    requires s.current != 0 && s.tasks[s.current].used && s.tasks[s.current].waitq == None
    requires entry != 0 && FreeSlotFrom(s.tasks, 1) >= 0
    ensures var (s1, tid) := Spawn(s, entry);
            var i := FreeSlotFrom(s.tasks, 1);
            var s2 := Exit(s1.(current := i), code).(current := s.current);
            var (s3, w) := Waitpid(s2, tid, nohang);
            w == WaitResult(tid, Some((code & 0xFF) << 8)) && s3.tasks[i] == EMPTY_SLOT
  {
    var p, i := s.current, FreeSlotFrom(s.tasks, 1);
    var (s1, tid) := Spawn(s, entry);
    SpawnMakesChild(s, entry, i);
    SpawnKeepsInv(s, entry);
    var sc := s1.(current := i);
    InvIgnoresCounters(s1, sc);
    assert SlotInv(s.tasks[p], p) && SlotInv(sc.tasks[i], i);
    ExitSeenByOther(sc, code, p);
    var s2 := Exit(sc, code).(current := p);
    OnlyZombieIsFound(s2.tasks, AsInt32(s2.tasks[p].tid), tid, i, 1);
  }

  // ---------------------------------------------------------------------------
  // The quantum
  // ---------------------------------------------------------------------------

  lemma TickChargesRunner(s: State)
    requires Inv(s) && s.current != 0 && s.tasks[s.current].used && s.tasks[s.current].state == Running
    ensures Inv(Tick(s)) && Tick(s).current == s.current
    ensures Tick(s).tasks[s.current] == s.tasks[s.current].(quantum := s.tasks[s.current].quantum + 1)
    ensures s.tasks[s.current].quantum + 1 >= QUANTUM_TICKS ==> Tick(s).needResched
  {
    assert SlotInv(s.tasks[s.current], s.current);
    TickKeeps(s);
    var now := (s.ticks + 1) % U32;
    var s1 := s.(ticks := now);
    InvIgnoresCounters(s, s1);
    WakeSleepersEffect(s1, now, 0, s.current);
    WakeSleepersKeeps(s1, now, 0);
  }

  /** A task that keeps running is asked to give way after at most four ticks. */
  lemma QuantumExpires(s: State)
    requires Inv(s) && s.current != 0 && s.tasks[s.current].used && s.tasks[s.current].state == Running
    ensures Tick(Tick(Tick(Tick(s)))).needResched
  {
    TickChargesRunner(s);
    var s1 := Tick(s);
    TickChargesRunner(s1);
    var s2 := Tick(s1);
    TickChargesRunner(s2);
    var s3 := Tick(s2);
    TickChargesRunner(s3);
  }
}
