/**
 Whole runs of the scheduler: any interleaving of calls by whichever task is executing, timer
 ticks, nested pumps (sched_block_until_runnable calling sched_pump_once, to any depth) and the
 outer sched_run loop. A task entry is arbitrary code, so it is any sequence of these events
 between the event that enters it and the EntryReturn that leaves it.
 */
module SchedRuns {
  import opened Sched
  import opened SchedInv
  import opened SchedCalls
  import FdTable

  /** With fewer spawns than this no tid is handed out twice. */
  const MAX_SPAWNS: nat := U32 - 1

  /** Tids from here on read as negative where the code keeps them in a signed word. */
  const SIGNED_LIMIT: nat := 0x8000_0000

  datatype FrameKind = RunFrame | PumpFrame

  /** An entry being executed: who entered it, its slot, and the g_current_idx to restore. */
  datatype Frame = Frame(kind: FrameKind, slot: nat, prev: nat)

  /** The scheduler state, the C call stack of entries, and the history the theorems speak of. */
  datatype Config = Config(
    s: State, stack: seq<Frame>,
    parked: map<nat, int>,        // slot -> pid of its latest blocking waitpid
    exits: map<int, bv32>,        // tid -> code of its latest exit
    reaps: seq<(int, bv32)>,      // (tid, status) handed out by waitpid, in order
    spawns: nat)

  datatype Event =
    | TimerTick
    | CallSpawn(entry: nat)
    | CallYield
    | CallExit(code: bv32)
    | CallSleep(n: nat)
    | CallWaitpid(pid: int, nohang: bool)
    | CallFd(op: FdTable.Op)
    | NewQueue
    | QueueSleep(k: nat, timeout: nat)
    | QueueWakeOne(k: nat)
    | QueueWakeAll(k: nat)
    | PumpEnter
    | RunPick
    | RunEnter
    | EntryReturn

  function Start(): (c: Config)
    ensures Shape(c.s)
  {
    Config(Init(), [], map[], map[], [], 0)
  }

  /** sched_pump_once runs only from the loop of sched_block_until_runnable. */
  predicate Enabled(c: Config, e: Event)
    requires Shape(c.s)
  {
    match e
    case QueueSleep(k, _) => k < |c.s.ext|
    case QueueWakeOne(k) => k < |c.s.ext|
    case QueueWakeAll(k) => k < |c.s.ext|
    case PumpEnter =>
      var self := c.s.tasks[c.s.current];
      self.used && !self.isIdle && Asleep(self)
    case RunPick => c.stack == []
    case RunEnter => c.stack == []
    case EntryReturn => c.stack != [] && (var f := c.stack[|c.stack| - 1]; f.slot < MAX_TASKS && f.prev < MAX_TASKS)
    case _ => true
  }

  predicate CanEnter(slot: Slot) {
    slot.used && slot.entry != 0 && slot.state == Runnable
  }

  /** Mark slot i RUNNING, make it current and push its frame. */
  function Enter(c: Config, kind: FrameKind, i: nat): (r: Config)
    requires Shape(c.s) && i < MAX_TASKS
    ensures Shape(r.s) && |r.s.ext| == |c.s.ext|
  {
    var slot := c.s.tasks[i];
    c.(s := WithSlot(c.s, i, slot.(state := Running, runTicks := slot.runTicks + 1)).(current := i),
       stack := c.stack + [Frame(kind, i, c.s.current)])
  }

  function Return(c: Config): (r: Config)
    requires Shape(c.s) && Enabled(c, EntryReturn)
    ensures Shape(r.s) && |r.s.ext| == |c.s.ext|
  {
    var f := c.stack[|c.stack| - 1];
    var slot := c.s.tasks[f.slot];
    var s1 := if slot.state == Running then WithSlot(c.s, f.slot, slot.(state := Runnable)) else c.s;
    c.(s := if f.kind == PumpFrame then s1.(current := f.prev) else s1, stack := c.stack[..|c.stack| - 1])
  }

  /** sched_pump_once up to the call of the entry. */
  function Pump(c: Config): (r: Config)
    requires Shape(c.s)
    ensures Shape(r.s) && |r.s.ext| == |c.s.ext|
  {
    var i := PickNext(c.s);
    if CanEnter(c.s.tasks[i]) then Enter(c, PumpFrame, i) else c
  }

  /** The head of the sched_run loop. */
  function Pick(c: Config): (r: Config)
    requires Shape(c.s)
    ensures Shape(r.s) && |r.s.ext| == |c.s.ext|
  {
    if c.s.needResched || !IdxRunnable(c.s, c.s.current)
    then c.(s := c.s.(needResched := false, current := PickNext(c.s)))
    else c
  }

  function RunCurrent(c: Config): (r: Config)
    requires Shape(c.s)
    ensures Shape(r.s) && |r.s.ext| == |c.s.ext|
  {
    if CanEnter(c.s.tasks[c.s.current]) then Enter(c, RunFrame, c.s.current)
    else c.(s := c.s.(needResched := true))
  }

  function AfterWaitpid(c: Config, pid: int, nohang: bool): (r: Config)
    requires Shape(c.s)
    ensures Shape(r.s) && |r.s.ext| == |c.s.ext|
  {
    var (s', w) := Waitpid(c.s, pid, nohang);
    if w.status.Some? then c.(s := s', reaps := c.reaps + [(AsUint32(w.rc), w.status.value)])
    else if w.rc == WAITPID_BLOCKED then c.(s := s', parked := c.parked[c.s.current := pid])
    else c.(s := s')
  }

  function AfterExit(c: Config, code: bv32): (r: Config)
    requires Shape(c.s)
    ensures Shape(r.s) && |r.s.ext| == |c.s.ext|
  {
    var self := c.s.tasks[c.s.current];
    if !self.used || self.isIdle then c
    else c.(s := Exit(c.s, code), exits := c.exits[self.tid := code])
  }

  function AfterSpawn(c: Config, entry: nat): (r: Config)
    requires Shape(c.s)
    ensures Shape(r.s) && |r.s.ext| == |c.s.ext|
  {
    var (s', tid) := Spawn(c.s, entry);
    c.(s := s', spawns := if s'.nextTid == c.s.nextTid then c.spawns else c.spawns + 1)
  }

  function AddQueue(s: State): (r: State)
    requires Shape(s)
    ensures Shape(r)
  {
    s.(ext := s.ext + [{}])
  }

  /** The calls that change only the scheduler state. */
  predicate IsPlainCall(e: Event) {
    || e.TimerTick? || e.CallYield? || e.CallSleep? || e.CallFd? || e.NewQueue?
    || e.QueueSleep? || e.QueueWakeOne? || e.QueueWakeAll?
  }

  function PlainCall(s: State, e: Event): (r: State)
    requires Shape(s) && IsPlainCall(e)
    requires e.QueueSleep? || e.QueueWakeOne? || e.QueueWakeAll? ==> e.k < |s.ext|
    ensures Shape(r) && |r.ext| >= |s.ext|
  {
    match e
    case TimerTick => Tick(s)
    case CallYield => Yield(s)
    case CallSleep(n) => SleepTicks(s, n)
    case CallFd(op) => FdCall(s, op).0
    case NewQueue => AddQueue(s)
    case QueueSleep(k, t) => WaitqSleep(s, Ext(k), t)
    case QueueWakeOne(k) => WakeOne(s, Ext(k))
    case QueueWakeAll(k) => WakeAll(s, Ext(k))
  }

  function Next(c: Config, e: Event): (c': Config)
    requires Shape(c.s) && Enabled(c, e)
    ensures Shape(c'.s) && |c'.s.ext| >= |c.s.ext|
  {
    if IsPlainCall(e) then c.(s := PlainCall(c.s, e))
    else
      match e
      case CallSpawn(entry) => AfterSpawn(c, entry)
      case CallExit(code) => AfterExit(c, code)
      case CallWaitpid(pid, nohang) => AfterWaitpid(c, pid, nohang)
      case PumpEnter => Pump(c)
      case RunPick => Pick(c)
      case RunEnter => RunCurrent(c)
      case EntryReturn => Return(c)
  }

  // ---------------------------------------------------------------------------
  // Invariants of a run
  // ---------------------------------------------------------------------------

  /** Only the current slot can be RUNNING, and the call stack of entries agrees with g_current_idx. */
  ghost predicate RunInv(c: Config) {
    && (forall i :: 0 <= i < |c.s.tasks| && c.s.tasks[i].state == Running ==> c.stack != [] && i == c.s.current)
    && (forall k :: 0 <= k < |c.stack| ==> c.stack[k].slot < MAX_TASKS && c.stack[k].prev < MAX_TASKS)
    && (c.stack != [] ==> c.s.current == c.stack[|c.stack| - 1].slot)
    && (forall k :: 1 <= k < |c.stack| ==> c.stack[k].kind == PumpFrame && c.stack[k].prev == c.stack[k - 1].slot)
    && (c.stack != [] && c.stack[0].kind == RunFrame ==> c.stack[0].prev == c.stack[0].slot)
  }

  ghost predicate TidsOk(s: State) {
    && (forall i :: 1 <= i < |s.tasks| && s.tasks[i].used ==> 1 <= s.tasks[i].tid < s.nextTid)
    && (forall i, j :: 1 <= i < j < |s.tasks| && s.tasks[i].used && s.tasks[j].used ==> s.tasks[i].tid != s.tasks[j].tid)
  }

  ghost predicate TidInv(c: Config) {
    c.s.nextTid == c.spawns + 1 && TidsOk(c.s)
  }

  ghost predicate LiveMatch(tasks: seq<Slot>, tid: int, pid: int) {
    exists j :: 1 <= j < |tasks| && IsChildOf(tasks[j], tid, pid) && tasks[j].state != Zombie
  }

  ghost predicate NoZombieMatch(tasks: seq<Slot>, tid: int, pid: int) {
    forall j :: 1 <= j < |tasks| && IsChildOf(tasks[j], tid, pid) ==> tasks[j].state != Zombie
  }

  ghost predicate ParkedOnChild(s: State, i: nat)
    requires i < |s.tasks|
  {
    s.tasks[i].used && s.tasks[i].waitq == Some(Child(i))
  }

  /** Parked in waitpid with a tid that its children can name. */
  ghost predicate Served(s: State, i: nat)
    requires i < |s.tasks|
  {
    ParkedOnChild(s, i) && s.tasks[i].tid < SIGNED_LIMIT
  }

  /** A task waiting in waitpid has a live matching child and no matching zombie. */
  ghost predicate ParkInv(c: Config) {
    forall i {:trigger Served(c.s, i)} :: 1 <= i < |c.s.tasks| && Served(c.s, i) ==>
      && i in c.parked
      && LiveMatch(c.s.tasks, AsInt32(c.s.tasks[i].tid), c.parked[i])
      && NoZombieMatch(c.s.tasks, AsInt32(c.s.tasks[i].tid), c.parked[i])
  }

  ghost predicate NobodyHas(tasks: seq<Slot>, tid: int) {
    forall i :: 1 <= i < |tasks| && tasks[i].used ==> tasks[i].tid != tid
  }

  /** Zombies hold their latest exit code; each reap handed out that code's status, once, for a tid now gone. */
  ghost predicate ReapInv(c: Config) {
    && (forall i :: 1 <= i < |c.s.tasks| && c.s.tasks[i].used && c.s.tasks[i].state == Zombie ==>
          c.s.tasks[i].tid in c.exits && c.exits[c.s.tasks[i].tid] == c.s.tasks[i].exitCode)
    && (forall t :: t in c.exits ==> 1 <= t < c.s.nextTid)
    && (forall k :: 0 <= k < |c.reaps| ==>
          && c.reaps[k].0 in c.exits && c.reaps[k].1 == ExitStatus(c.exits[c.reaps[k].0])
          && NobodyHas(c.s.tasks, c.reaps[k].0))
    && (forall k, l :: 0 <= k < l < |c.reaps| ==> c.reaps[k].0 != c.reaps[l].0)
  }

  /** Holds in every reachable configuration; the tid-based parts while fewer than 2^32 - 1 tasks were spawned. */
  ghost predicate Good(c: Config) {
    && Inv(c.s)
    && RunInv(c)
    && (c.spawns < MAX_SPAWNS ==> TidInv(c) && ParkInv(c) && ReapInv(c))
  }

  // ---------------------------------------------------------------------------
  // Settled changes keep the history invariants
  // ---------------------------------------------------------------------------

  lemma SettledKeepsTids(c: Config, r: Config)
    requires |c.s.tasks| == MAX_TASKS && Settled(c.s, r.s) && r.spawns == c.spawns && TidInv(c)
    ensures TidInv(r)
  {
    assert forall i :: 0 <= i < MAX_TASKS ==> SettledSlot(c.s.tasks[i], r.s.tasks[i], i);
  }

  lemma SettledKeepsParked(c: Config, r: Config)
    requires |c.s.tasks| == MAX_TASKS && Settled(c.s, r.s) && r.parked == c.parked && ParkInv(c)
    ensures ParkInv(r)
  {
    forall i | 1 <= i < MAX_TASKS && Served(r.s, i)
      ensures && i in r.parked
              && LiveMatch(r.s.tasks, AsInt32(r.s.tasks[i].tid), r.parked[i])
              && NoZombieMatch(r.s.tasks, AsInt32(r.s.tasks[i].tid), r.parked[i])
    {
      assert SettledSlot(c.s.tasks[i], r.s.tasks[i], i);
      assert Served(c.s, i);
      SettledIsSameFamily(c.s, r.s);
      FamilyKeepsMatches(c.s, r.s, AsInt32(c.s.tasks[i].tid), c.parked[i]);
    }
  }

  ghost predicate SameFamily(s: State, r: State) {
    && |r.tasks| == |s.tasks|
    && forall k :: 0 <= k < |s.tasks| ==>
         SameIdentity(s.tasks[k], r.tasks[k]) && (r.tasks[k].state == Zombie ==> s.tasks[k].state == Zombie)
  }

  lemma SettledIsSameFamily(s: State, r: State)
    requires Settled(s, r)
    ensures SameFamily(s, r)
  {
    assert forall k :: 0 <= k < |s.tasks| ==> SettledSlot(s.tasks[k], r.tasks[k], k);
  }

  lemma FamilyKeepsMatches(s: State, r: State, tid: int, pid: int)
    requires SameFamily(s, r)
    requires LiveMatch(s.tasks, tid, pid) && NoZombieMatch(s.tasks, tid, pid)
    ensures LiveMatch(r.tasks, tid, pid) && NoZombieMatch(r.tasks, tid, pid)
  {
    var j :| 1 <= j < |s.tasks| && IsChildOf(s.tasks[j], tid, pid) && s.tasks[j].state != Zombie;
    assert IsChildOf(r.tasks[j], tid, pid);
  }

  lemma SettledKeepsReaps(c: Config, r: Config)
    requires |c.s.tasks| == MAX_TASKS && Settled(c.s, r.s) && r.exits == c.exits && r.reaps == c.reaps && ReapInv(c)
    ensures ReapInv(r)
  {
    assert forall i :: 0 <= i < MAX_TASKS ==> SettledSlot(c.s.tasks[i], r.s.tasks[i], i);
    forall k | 0 <= k < |r.reaps|
      ensures NobodyHas(r.s.tasks, r.reaps[k].0)
    {
      assert NobodyHas(c.s.tasks, c.reaps[k].0);
    }
  }

  lemma QuietKeepsRun(c: Config, r: Config)
    requires |c.s.tasks| == MAX_TASKS && Quiet(c.s, r.s) && r.stack == c.stack && RunInv(c)
    ensures RunInv(r)
  {
    assert forall i :: 0 <= i < MAX_TASKS ==> QuietSlot(c.s.tasks[i], r.s.tasks[i], i);
  }

  /** A call that is quiet, and adds nothing to the history, keeps everything. */
  lemma QuietKeepsGood(c: Config, r: Config)
    requires Good(c) && Inv(r.s) && Quiet(c.s, r.s) && r == c.(s := r.s)
    ensures Good(r)
  {
    QuietKeepsRun(c, r);
    QuietIsSettled(c.s, r.s);
    if c.spawns < MAX_SPAWNS {
      SettledKeepsTids(c, r);
      SettledKeepsParked(c, r);
      SettledKeepsReaps(c, r);
    }
  }

  // ---------------------------------------------------------------------------
  // Each event keeps Good
  // ---------------------------------------------------------------------------

  lemma AddQueueKeeps(s: State)
    requires Inv(s)
    ensures Inv(AddQueue(s)) && Quiet(s, AddQueue(s))
  {
    var r := AddQueue(s);
    forall q | ValidQ(r, q)
      ensures Bits(r, q) == Waiters(r.tasks, q)
    {
      if ValidQ(s, q) {
        assert Bits(r, q) == Bits(s, q);
      } else {
        assert forall i :: 0 <= i < MAX_TASKS ==> s.tasks[i].waitq != Some(q);
      }
    }
  }

  lemma PlainCallKeeps(s: State, e: Event)
    requires Inv(s) && IsPlainCall(e)
    requires e.QueueSleep? || e.QueueWakeOne? || e.QueueWakeAll? ==> e.k < |s.ext|
    ensures Inv(PlainCall(s, e)) && Quiet(s, PlainCall(s, e))
  {
    match e
    case TimerTick => TickKeeps(s);
    case CallYield => YieldKeeps(s);
    case CallSleep(n) => SleepKeeps(s, n);
    case CallFd(op) => FdCallKeeps(s, op);
    case NewQueue => AddQueueKeeps(s);
    case QueueSleep(k, t) => ExtSleepKeeps(s, k, t);
    case QueueWakeOne(k) => WakeOneKeeps(s, Ext(k));
    case QueueWakeAll(k) => WakeAllKeeps(s, Ext(k));
  }

  /** Entering slot i is settled: only its state and the current index change. */
  lemma EnterKeepsSettled(c: Config, kind: FrameKind, i: nat)
    requires Inv(c.s) && i < MAX_TASKS && CanEnter(c.s.tasks[i])
    ensures Inv(Enter(c, kind, i).s) && Settled(c.s, Enter(c, kind, i).s)
  {
    assert SlotInv(c.s.tasks[i], i);
    var r := Enter(c, kind, i).s;
    ReplaceKeepsInv(c.s, i, r.tasks[i]);
    InvIgnoresCounters(WithSlot(c.s, i, r.tasks[i]), r);
  }

  lemma SettledKeepsGood(c: Config, r: Config)
    requires Good(c) && Inv(r.s) && RunInv(r) && Settled(c.s, r.s) && r == c.(s := r.s, stack := r.stack)
    ensures Good(r)
  {
    if c.spawns < MAX_SPAWNS {
      SettledKeepsTids(c, r);
      SettledKeepsParked(c, r);
      SettledKeepsReaps(c, r);
    }
  }

  lemma EnterKeepsGood(c: Config, kind: FrameKind, i: nat)
    requires Good(c) && i < MAX_TASKS && CanEnter(c.s.tasks[i])
    requires forall j :: 0 <= j < MAX_TASKS ==> c.s.tasks[j].state != Running
    requires if kind == RunFrame then c.stack == [] && i == c.s.current else true
    ensures Good(Enter(c, kind, i))
  {
    EnterKeepsSettled(c, kind, i);
    SettledKeepsGood(c, Enter(c, kind, i));
  }

  lemma PumpKeepsGood(c: Config)
    requires Good(c) && Enabled(c, PumpEnter)
    ensures Good(Pump(c))
  {
    if CanEnter(c.s.tasks[PickNext(c.s)]) {
      EnterKeepsGood(c, PumpFrame, PickNext(c.s));
    }
  }

  lemma RunKeepsGood(c: Config)
    requires Good(c) && c.stack == []
    ensures Good(Pick(c)) && Good(RunCurrent(c))
  {
    InvIgnoresCounters(c.s, Pick(c).s);
    SettledKeepsGood(c, Pick(c));
    if CanEnter(c.s.tasks[c.s.current]) {
      EnterKeepsGood(c, RunFrame, c.s.current);
    } else {
      InvIgnoresCounters(c.s, RunCurrent(c).s);
      SettledKeepsGood(c, RunCurrent(c));
    }
  }

  lemma ReturnKeepsSettled(c: Config)
    requires Inv(c.s) && RunInv(c) && Enabled(c, EntryReturn)
    ensures Inv(Return(c).s) && Settled(c.s, Return(c).s)
  {
    var i := c.s.current;
    assert SlotInv(c.s.tasks[i], i);
    var r, was := Return(c).s, c.s.tasks[i];
    var slot := if was.state == Running then was.(state := Runnable) else was;
    assert r.tasks == c.s.tasks[i := slot];
    ReplaceKeepsInv(c.s, i, slot);
    InvIgnoresCounters(WithSlot(c.s, i, slot), r);
  }

  lemma ReturnKeepsGood(c: Config)
    requires Good(c) && Enabled(c, EntryReturn)
    ensures Good(Return(c))
  {
    ReturnKeepsSettled(c);
    SettledKeepsGood(c, Return(c));
  }

  lemma SpawnKeepsRun(c: Config, entry: nat)
    requires Good(c)
    ensures RunInv(AfterSpawn(c, entry))
  {
  }

  lemma SpawnKeepsTids(c: Config, entry: nat)
    requires Inv(c.s) && TidInv(c) && c.spawns + 1 < MAX_SPAWNS
    ensures TidInv(AfterSpawn(c, entry))
  {
    assert SlotInv(c.s.tasks[c.s.current], c.s.current);
    assert SlotInv(c.s.tasks[0], 0);
  }

  /** A new child is alive, so it cannot be the zombie a waiting parent missed. */
  lemma SpawnKeepsParked(c: Config, entry: nat)
    requires Inv(c.s) && TidInv(c) && ParkInv(c)
    ensures ParkInv(AfterSpawn(c, entry))
  {
    var r := AfterSpawn(c, entry);
    var n := FreeSlotFrom(c.s.tasks, 1);
    if entry != 0 && n >= 0 {
      forall i | 1 <= i < MAX_TASKS && Served(r.s, i)
        ensures && i in r.parked
                && LiveMatch(r.s.tasks, AsInt32(r.s.tasks[i].tid), r.parked[i])
                && NoZombieMatch(r.s.tasks, AsInt32(r.s.tasks[i].tid), r.parked[i])
      {
        assert Served(c.s, i);
        var tid, pid := AsInt32(c.s.tasks[i].tid), c.parked[i];
        var j :| 1 <= j < MAX_TASKS && IsChildOf(c.s.tasks[j], tid, pid) && c.s.tasks[j].state != Zombie;
        assert r.s.tasks[j] == c.s.tasks[j];
        assert LiveMatch(r.s.tasks, tid, pid);
      }
    }
  }

  lemma SpawnKeepsReaps(c: Config, entry: nat)
    requires Inv(c.s) && TidInv(c) && ReapInv(c) && c.spawns + 1 < MAX_SPAWNS
    ensures ReapInv(AfterSpawn(c, entry))
  {
    var r := AfterSpawn(c, entry);
    forall k | 0 <= k < |r.reaps|
      ensures NobodyHas(r.s.tasks, r.reaps[k].0)
    {
      assert NobodyHas(c.s.tasks, c.reaps[k].0);
    }
  }

  lemma SpawnKeepsGood(c: Config, entry: nat)
    requires Good(c)
    ensures Good(AfterSpawn(c, entry))
  {
    SpawnKeepsInv(c.s, entry);
    SpawnKeepsRun(c, entry);
    var r := AfterSpawn(c, entry);
    if r.spawns < MAX_SPAWNS {
      if r.spawns == c.spawns {
        assert r == c;
      } else {
        SpawnKeepsTids(c, entry);
        SpawnKeepsParked(c, entry);
        SpawnKeepsReaps(c, entry);
      }
    }
  }

  // Exit: first the slot turns into a zombie, then its parent is woken.

  lemma ZombieKeepsTids(c: Config, code: bv32, r: Config)
    requires Inv(c.s) && TidInv(c) && c.s.tasks[c.s.current].used && !c.s.tasks[c.s.current].isIdle
    requires r.s == Zombified(c.s, code) && r.spawns == c.spawns
    ensures TidInv(r)
  {
    ZombifiedKeepsInv(c.s, code);
  }

  lemma ZombieKeepsReaps(c: Config, code: bv32, r: Config)
    requires Inv(c.s) && TidInv(c) && ReapInv(c) && c.s.tasks[c.s.current].used && !c.s.tasks[c.s.current].isIdle
    requires r.s == Zombified(c.s, code) && r.reaps == c.reaps
    requires r.exits == c.exits[c.s.tasks[c.s.current].tid := code]
    ensures ReapInv(r)
  {
    var i := c.s.current;
    assert SlotInv(c.s.tasks[i], i);
    ZombifiedKeepsInv(c.s, code);
    forall k | 0 <= k < |r.reaps|
      ensures NobodyHas(r.s.tasks, r.reaps[k].0) && r.reaps[k].0 != c.s.tasks[i].tid
    {
      assert NobodyHas(c.s.tasks, c.reaps[k].0);
    }
  }

  /** The parent that would miss the exit is found by its tid and released. */
  lemma ExitReleasesParent(c: Config, code: bv32, i: nat)
    requires Good(c) && c.spawns < MAX_SPAWNS && 1 <= i < MAX_TASKS
    requires c.s.tasks[c.s.current].used && !c.s.tasks[c.s.current].isIdle
    requires Served(Exit(c.s, code), i)
    ensures Served(c.s, i) && i != c.s.current
    ensures Exit(c.s, code).tasks[i].tid == c.s.tasks[i].tid
    ensures c.s.tasks[c.s.current].parent != c.s.tasks[i].tid
  {
    var me := c.s.current;
    var z, r := Zombified(c.s, code), Exit(c.s, code);
    assert SlotInv(c.s.tasks[me], me);
    ZombifiedKeepsInv(c.s, code);
    ExitKeeps(c.s, code);
    assert QuietSlot(z.tasks[i], r.tasks[i], i);
    var parent := z.tasks[me].parent;
    if parent == c.s.tasks[i].tid {
      assert FindByTid(z, parent) == i;
      WakeAllReleasesEveryWaiter(z, Child(i));
    }
  }

  lemma ExitKeepsParked(c: Config, code: bv32)
    requires Good(c) && c.spawns < MAX_SPAWNS
    requires c.s.tasks[c.s.current].used && !c.s.tasks[c.s.current].isIdle
    ensures ParkInv(AfterExit(c, code))
  {
    var me, r := c.s.current, AfterExit(c, code);
    var z := Zombified(c.s, code);
    ZombifiedKeepsInv(c.s, code);
    ExitKeeps(c.s, code);
    forall i | 1 <= i < MAX_TASKS && Served(r.s, i)
      ensures && i in r.parked
              && LiveMatch(r.s.tasks, AsInt32(r.s.tasks[i].tid), r.parked[i])
              && NoZombieMatch(r.s.tasks, AsInt32(r.s.tasks[i].tid), r.parked[i])
    {
      ExitReleasesParent(c, code, i);
      ZombieKeepsMatches(c.s, z, c.s.tasks[i].tid, c.parked[i]);
      QuietIsSettled(z, r.s);
      SettledIsSameFamily(z, r.s);
      FamilyKeepsMatches(z, r.s, c.s.tasks[i].tid, c.parked[i]);
    }
  }

  /** Turning somebody else's child into a zombie does not disturb the matches of tid. */
  lemma ZombieKeepsMatches(s: State, z: State, tid: nat, pid: int)
    requires |s.tasks| == MAX_TASKS == |z.tasks| && s.current < MAX_TASKS
    requires LiveMatch(s.tasks, tid, pid) && NoZombieMatch(s.tasks, tid, pid)
    requires s.tasks[s.current].parent != tid && z.tasks[s.current].parent == s.tasks[s.current].parent
    requires forall j :: 0 <= j < MAX_TASKS && j != s.current ==> z.tasks[j] == s.tasks[j]
    ensures LiveMatch(z.tasks, tid, pid) && NoZombieMatch(z.tasks, tid, pid)
  {
    var j :| 1 <= j < |s.tasks| && IsChildOf(s.tasks[j], tid, pid) && s.tasks[j].state != Zombie;
    assert z.tasks[j] == s.tasks[j];
  }

  lemma ExitKeepsRun(c: Config, code: bv32)
    requires Good(c) && c.s.tasks[c.s.current].used && !c.s.tasks[c.s.current].isIdle
    ensures RunInv(AfterExit(c, code))
  {
    var z, r := Zombified(c.s, code), AfterExit(c, code);
    ZombifiedKeepsInv(c.s, code);
    ExitKeeps(c.s, code);
    QuietKeepsRun(c.(s := z), r);
  }

  lemma ExitKeepsGood(c: Config, code: bv32)
    requires Good(c)
    ensures Good(AfterExit(c, code))
  {
    var self := c.s.tasks[c.s.current];
    if self.used && !self.isIdle {
      ExitKeeps(c.s, code);
      ExitKeepsRun(c, code);
      if c.spawns < MAX_SPAWNS {
        var r := AfterExit(c, code);
        var m := r.(s := Zombified(c.s, code));
        ZombifiedKeepsInv(c.s, code);
        ZombieKeepsTids(c, code, m);
        ZombieKeepsReaps(c, code, m);
        QuietIsSettled(m.s, r.s);
        SettledKeepsTids(m, r);
        SettledKeepsReaps(m, r);
        ExitKeepsParked(c, code);
      }
    }
  }

  // Waitpid: it reaps a zombie, or parks the caller, or changes nothing.

  /** The configuration after the caller reaped the zombie in slot z. */
  function Reaped(c: Config, z: nat): Config
    requires Shape(c.s) && z < MAX_TASKS
  {
    c.(s := WithSlot(c.s, z, EMPTY_SLOT), reaps := c.reaps + [(c.s.tasks[z].tid, ExitStatus(c.s.tasks[z].exitCode))])
  }

  lemma ReapKeepsHistory(c: Config, z: nat)
    requires Inv(c.s) && TidInv(c) && c.spawns < MAX_SPAWNS && ReapInv(c) && 1 <= z < MAX_TASKS
    requires c.s.tasks[z].used && c.s.tasks[z].state == Zombie
    ensures TidInv(Reaped(c, z)) && ReapInv(Reaped(c, z))
  {
    var r := Reaped(c, z);
    forall k | 0 <= k < |r.reaps|
      ensures NobodyHas(r.s.tasks, r.reaps[k].0)
      ensures k < |c.reaps| ==> r.reaps[k].0 != c.s.tasks[z].tid
    {
      if k < |c.reaps| {
        assert NobodyHas(c.s.tasks, c.reaps[k].0);
      }
    }
  }

  lemma ReapKeepsParked(c: Config, z: nat)
    requires Inv(c.s) && ParkInv(c) && 1 <= z < MAX_TASKS
    requires c.s.tasks[z].used && c.s.tasks[z].state == Zombie
    ensures ParkInv(Reaped(c, z))
  {
    var r := Reaped(c, z);
    forall i | 1 <= i < MAX_TASKS && Served(r.s, i)
      ensures && i in r.parked
              && LiveMatch(r.s.tasks, AsInt32(r.s.tasks[i].tid), r.parked[i])
              && NoZombieMatch(r.s.tasks, AsInt32(r.s.tasks[i].tid), r.parked[i])
    {
      assert i != z && Served(c.s, i);
      var tid, pid := AsInt32(c.s.tasks[i].tid), c.parked[i];
      var j :| 1 <= j < MAX_TASKS && IsChildOf(c.s.tasks[j], tid, pid) && c.s.tasks[j].state != Zombie;
      assert r.s.tasks[j] == c.s.tasks[j];
    }
  }

  lemma ReapKeepsGood(c: Config, z: nat)
    requires Good(c) && 1 <= z < MAX_TASKS && c.s.tasks[z].used && c.s.tasks[z].state == Zombie
    ensures Good(Reaped(c, z))
  {
    ReapKeepsInv(c.s, z);
    if c.spawns < MAX_SPAWNS {
      ReapKeepsHistory(c, z);
      ReapKeepsParked(c, z);
    }
  }

  /** The configuration after a waitpid that found a live child and no zombie. */
  function Parked(c: Config, pid: int): Config
    requires Shape(c.s)
  {
    c.(s := WaitqSleep(c.s, Child(c.s.current), 0), parked := c.parked[c.s.current := pid])
  }

  ghost predicate MayPark(c: Config, pid: int)
    requires Shape(c.s)
  {
    var self := c.s.tasks[c.s.current];
    && self.used && !self.isIdle
    && LiveMatch(c.s.tasks, AsInt32(self.tid), pid) && NoZombieMatch(c.s.tasks, AsInt32(self.tid), pid)
  }

  lemma ParkIsSameFamily(c: Config, pid: int)
    requires Inv(c.s) && MayPark(c, pid)
    ensures SameFamily(c.s, Parked(c, pid).s)
    ensures Parked(c, pid).s.nextTid == c.s.nextTid && Parked(c, pid).s.current == c.s.current
    ensures forall j :: 0 <= j < MAX_TASKS && j != c.s.current ==> Parked(c, pid).s.tasks[j] == c.s.tasks[j]
    ensures Parked(c, pid).s.tasks[c.s.current].state == Blocked
  {
    AttachKeepsSlots(c.s, Child(c.s.current), 0);
  }

  lemma ParkKeepsParked(c: Config, pid: int)
    requires Inv(c.s) && ParkInv(c) && MayPark(c, pid)
    ensures ParkInv(Parked(c, pid))
  {
    var r := Parked(c, pid);
    ParkIsSameFamily(c, pid);
    forall i | 1 <= i < MAX_TASKS && Served(r.s, i)
      ensures && i in r.parked
              && LiveMatch(r.s.tasks, AsInt32(r.s.tasks[i].tid), r.parked[i])
              && NoZombieMatch(r.s.tasks, AsInt32(r.s.tasks[i].tid), r.parked[i])
    {
      if i != c.s.current {
        assert Served(c.s, i);
      }
      FamilyKeepsMatches(c.s, r.s, AsInt32(c.s.tasks[i].tid), r.parked[i]);
    }
  }

  lemma ParkKeepsHistory(c: Config, pid: int)
    requires Inv(c.s) && TidInv(c) && ReapInv(c) && MayPark(c, pid)
    ensures TidInv(Parked(c, pid)) && ReapInv(Parked(c, pid))
  {
    var r := Parked(c, pid);
    ParkIsSameFamily(c, pid);
    forall k | 0 <= k < |r.reaps|
      ensures NobodyHas(r.s.tasks, r.reaps[k].0)
    {
      assert NobodyHas(c.s.tasks, c.reaps[k].0);
    }
  }

  lemma ParkKeepsGood(c: Config, pid: int)
    requires Good(c) && MayPark(c, pid)
    ensures Good(Parked(c, pid))
  {
    WaitqSleepKeepsInv(c.s, Child(c.s.current), 0);
    ParkIsSameFamily(c, pid);
    if c.spawns < MAX_SPAWNS {
      ParkKeepsHistory(c, pid);
      ParkKeepsParked(c, pid);
    }
  }

  /** The three outcomes of waitpid. */
  lemma WaitpidCases(c: Config, pid: int, nohang: bool)
    requires Inv(c.s)
    ensures var r := AfterWaitpid(c, pid, nohang);
            || r == c
            || (MayPark(c, pid) && r == Parked(c, pid))
            || exists z :: 1 <= z < MAX_TASKS && c.s.tasks[z].used && c.s.tasks[z].state == Zombie && r == Reaped(c, z)
  {
    var self := c.s.tasks[c.s.current];
    if self.used && !self.isIdle {
      var z := FindZombieFrom(c.s.tasks, AsInt32(self.tid), pid, 1);
      if z >= 0 {
        assert SlotInv(c.s.tasks[z], z);
        assert AfterWaitpid(c, pid, nohang) == Reaped(c, z);
      } else if HasChild(c.s.tasks, AsInt32(self.tid), pid) {
        assert MayPark(c, pid);
      }
    }
  }

  lemma WaitpidKeepsGood(c: Config, pid: int, nohang: bool)
    requires Good(c)
    ensures Good(AfterWaitpid(c, pid, nohang))
  {
    WaitpidCases(c, pid, nohang);
    var r := AfterWaitpid(c, pid, nohang);
    if r != c {
      if MayPark(c, pid) && r == Parked(c, pid) {
        ParkKeepsGood(c, pid);
      } else {
        var z :| 1 <= z < MAX_TASKS && c.s.tasks[z].used && c.s.tasks[z].state == Zombie && r == Reaped(c, z);
        ReapKeepsGood(c, z);
      }
    }
  }

  // ---------------------------------------------------------------------------
  // Every run
  // ---------------------------------------------------------------------------

  lemma StartGood()
    ensures Good(Start())
  {
    InitInv();
  }

  lemma NextGood(c: Config, e: Event)
    requires Good(c) && Enabled(c, e)
    ensures Good(Next(c, e))
  {
    if IsPlainCall(e) {
      PlainCallKeeps(c.s, e);
      QuietKeepsGood(c, Next(c, e));
    } else {
      match e
      case CallSpawn(entry) => SpawnKeepsGood(c, entry);
      case CallExit(code) => ExitKeepsGood(c, code);
      case CallWaitpid(pid, nohang) => WaitpidKeepsGood(c, pid, nohang);
      case PumpEnter => PumpKeepsGood(c);
      case RunPick => RunKeepsGood(c);
      case RunEnter => RunKeepsGood(c);
      case EntryReturn => ReturnKeepsGood(c);
    }
  }

  /** Can the events happen in this order from c? */
  ghost predicate Possible(c: Config, es: seq<Event>)
    requires Shape(c.s)
    decreases |es|
  {
    es != [] ==> Enabled(c, es[0]) && Possible(Next(c, es[0]), es[1..])
  }

  ghost function After(c: Config, es: seq<Event>): (r: Config)
    requires Shape(c.s) && Possible(c, es)
    ensures Shape(r.s) && |r.s.ext| >= |c.s.ext|
    decreases |es|
  {
    if es == [] then c else After(Next(c, es[0]), es[1..])
  }

  lemma {:induction false} RunGood(c: Config, es: seq<Event>)
    requires Good(c) && Possible(c, es)
    ensures Good(After(c, es))
    decreases |es|
  {
    if es != [] {
      NextGood(c, es[0]);
      RunGood(Next(c, es[0]), es[1..]);
    }
  }
}
