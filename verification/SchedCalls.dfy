/** Every scheduler call keeps SchedInv.Inv; most of them are also quiet about who is whose child. */
module SchedCalls {
  import opened Sched
  import opened SchedInv
  import FdTable

  ghost predicate SameIdentity(a: Slot, b: Slot) {
    && a.used == b.used && a.isIdle == b.isIdle && a.tid == b.tid
    && a.parent == b.parent && a.exitCode == b.exitCode && a.entry == b.entry
  }

  ghost predicate SettledSlot(a: Slot, b: Slot, i: nat) {
    && SameIdentity(a, b)
    && (b.state == Zombie ==> a.state == Zombie)
    && (b.waitq == Some(Child(i)) ==> a.waitq == Some(Child(i)))
  }

  /** No slot changes identity, becomes a zombie or newly waits for a child. */
  ghost predicate Settled(s: State, r: State) {
    && |r.tasks| == |s.tasks| && r.nextTid == s.nextTid
    && forall i {:trigger SettledSlot(s.tasks[i], r.tasks[i], i)} ::
         0 <= i < |s.tasks| ==> SettledSlot(s.tasks[i], r.tasks[i], i)
  }

  ghost predicate QuietSlot(a: Slot, b: Slot, i: nat) {
    SettledSlot(a, b, i) && (b.state == Running ==> a.state == Running)
  }

  /** Settled, and nobody starts to run. */
  ghost predicate Quiet(s: State, r: State) {
    && |r.tasks| == |s.tasks| && r.nextTid == s.nextTid && r.current == s.current
    && forall i {:trigger QuietSlot(s.tasks[i], r.tasks[i], i)} ::
         0 <= i < |s.tasks| ==> QuietSlot(s.tasks[i], r.tasks[i], i)
  }

  lemma QuietIsSettled(s: State, r: State)
    requires Quiet(s, r)
    ensures Settled(s, r)
  {
    forall i | 0 <= i < |s.tasks|
      ensures SettledSlot(s.tasks[i], r.tasks[i], i)
    {
      assert QuietSlot(s.tasks[i], r.tasks[i], i);
    }
  }

  lemma QuietTrans(a: State, b: State, c: State)
    requires Quiet(a, b) && Quiet(b, c)
    ensures Quiet(a, c)
  {
    forall i | 0 <= i < |a.tasks|
      ensures QuietSlot(a.tasks[i], c.tasks[i], i)
    {
      assert QuietSlot(a.tasks[i], b.tasks[i], i) && QuietSlot(b.tasks[i], c.tasks[i], i);
    }
  }

  lemma WakeNowQuiet(s: State, i: nat)
    requires Inv(s) && i < MAX_TASKS
    ensures Quiet(s, WakeNow(s, i))
  {
    assert SlotInv(s.tasks[i], i);
  }

  lemma WakeSlotQuiet(s: State, i: nat)
    requires Inv(s) && i < MAX_TASKS
    ensures Quiet(s, WakeSlot(s, i))
  {
    WakeNowQuiet(s, i);
  }

  lemma WakeOneKeeps(s: State, q: QueueId)
    requires Inv(s) && ValidQ(s, q)
    ensures Inv(WakeOne(s, q)) && Quiet(s, WakeOne(s, q))
  {
    var i := WakeOneWakesLowest(s, q);
    WakeOneFromQuiet(s, q, 1);
  }

  lemma {:induction false} WakeOneFromQuiet(s: State, q: QueueId, i: nat)
    requires Inv(s) && ValidQ(s, q) && i <= MAX_TASKS
    ensures Quiet(s, WakeOneFrom(s, q, i))
    decreases MAX_TASKS - i
  {
    if i < MAX_TASKS {
      if i in Bits(s, q) {
        WakeSlotQuiet(s, i);
      } else {
        WakeOneFromQuiet(s, q, i + 1);
      }
    }
  }

  lemma WakeAllKeeps(s: State, q: QueueId)
    requires Inv(s) && ValidQ(s, q)
    ensures Inv(WakeAll(s, q)) && Quiet(s, WakeAll(s, q))
  {
    WakeAllReleasesEveryWaiter(s, q);
    var r := WakeAll(s, q);
    forall i | 0 <= i < |s.tasks|
      ensures QuietSlot(s.tasks[i], r.tasks[i], i)
    {
      assert i in Bits(s, q) || r.tasks[i] == s.tasks[i];
    }
  }

  lemma WaitqSleepKeepsInv(s: State, q: QueueId, timeout: nat)
    requires Inv(s) && ValidQ(s, q) && (q.Child? ==> q.slot == s.current)
    ensures Inv(WaitqSleep(s, q, timeout))
  {
    var i := s.current;
    assert SlotInv(s.tasks[i], i);
    if s.tasks[i].used && !s.tasks[i].isIdle {
      AttachKeepsSlots(s, q, timeout);
      AttachKeepsQueues(s, q, timeout);
    }
  }

  lemma AttachKeepsQueues(s: State, q: QueueId, timeout: nat)
    requires Inv(s) && ValidQ(s, q) && (q.Child? ==> q.slot == s.current)
    requires s.tasks[s.current].used && !s.tasks[s.current].isIdle
    ensures QueuesAgree(WaitqSleep(s, q, timeout))
  {
    var i := s.current;
    var r := WaitqSleep(s, q, timeout);
    AttachKeepsSlots(s, q, timeout);
    forall q' | ValidQ(r, q')
      ensures Bits(r, q') == Waiters(r.tasks, q')
    {
      assert ValidQ(s, q');
      AttachBits(s, q, timeout, q');
      forall k: nat
        ensures k in Bits(r, q') <==> k in Waiters(r.tasks, q')
      {
        assert k in Bits(s, q') <==> k in Waiters(s.tasks, q');
      }
    }
  }

  lemma AttachBits(s: State, q: QueueId, timeout: nat, q': QueueId)
    requires Inv(s) && ValidQ(s, q) && ValidQ(s, q')
    requires s.tasks[s.current].used && !s.tasks[s.current].isIdle
    ensures ValidQ(WaitqSleep(s, q, timeout), q')
    ensures Bits(WaitqSleep(s, q, timeout), q') == Bits(s, q') - {s.current} + (if q' == q then {s.current} else {})
  {
    DetachBits(s, s.current, q');
  }

  lemma DetachBits(s: State, i: nat, q: QueueId)
    requires Inv(s) && ValidQ(s, q) && i < MAX_TASKS && s.tasks[i].used
    ensures ValidQ(Detach(s, i), q) && Bits(Detach(s, i), q) == Bits(s, q) - {i}
  {
    assert i in Bits(s, q) <==> i in Waiters(s.tasks, q);
  }

  lemma AttachSelf(s: State, q: QueueId, timeout: nat)
    requires Inv(s) && ValidQ(s, q) && (q.Child? ==> q.slot == s.current)
    requires s.tasks[s.current].used && !s.tasks[s.current].isIdle
    ensures var r := WaitqSleep(s, q, timeout).tasks[s.current];
            && SlotInv(r, s.current) && SameIdentity(s.tasks[s.current], r)
            && r.waitq == Some(q) && r.state == Blocked
  {
    assert SlotInv(s.tasks[s.current], s.current);
  }

  lemma AttachOther(s: State, q: QueueId, timeout: nat, j: nat)
    requires Inv(s) && ValidQ(s, q) && (q.Child? ==> q.slot == s.current)
    requires s.tasks[s.current].used && !s.tasks[s.current].isIdle && j < MAX_TASKS && j != s.current
    ensures WaitqSleep(s, q, timeout).tasks[j] == s.tasks[j]
  {
    assert SlotInv(s.tasks[s.current], s.current);
  }

  lemma AttachKeepsSlots(s: State, q: QueueId, timeout: nat)
    requires Inv(s) && ValidQ(s, q) && (q.Child? ==> q.slot == s.current)
    requires s.tasks[s.current].used && !s.tasks[s.current].isIdle
    ensures var r := WaitqSleep(s, q, timeout);
            && SlotsOk(r.tasks)
            && r.tasks[s.current].waitq == Some(q) && r.tasks[s.current].state == Blocked
            && SameIdentity(s.tasks[s.current], r.tasks[s.current])
            && forall j :: 0 <= j < MAX_TASKS && j != s.current ==> r.tasks[j] == s.tasks[j]
  {
    var r := WaitqSleep(s, q, timeout);
    AttachSelf(s, q, timeout);
    forall j | 0 <= j < MAX_TASKS
      ensures SlotInv(r.tasks[j], j) && (j != s.current ==> r.tasks[j] == s.tasks[j])
    {
      assert SlotInv(s.tasks[j], j);
      if j != s.current {
        AttachOther(s, q, timeout, j);
      }
    }
  }

  /** A queue of other kernel code: sleeping on it is quiet. */
  lemma ExtSleepKeeps(s: State, k: nat, timeout: nat)
    requires Inv(s) && k < |s.ext|
    ensures Inv(WaitqSleep(s, Ext(k), timeout)) && Quiet(s, WaitqSleep(s, Ext(k), timeout))
  {
    WaitqSleepKeepsInv(s, Ext(k), timeout);
    assert SlotInv(s.tasks[s.current], s.current);
    if s.tasks[s.current].used && !s.tasks[s.current].isIdle {
      AttachKeepsSlots(s, Ext(k), timeout);
    }
  }

  /** Changing one slot's scheduling fields only. */
  lemma RetimeKeeps(s: State, i: nat, slot: Slot, r: State)
    requires Inv(s) && i < MAX_TASKS && SlotInv(slot, i) && SameIdentity(s.tasks[i], slot)
    requires slot.waitq == s.tasks[i].waitq && slot.childQ == s.tasks[i].childQ && FdTable.Sized(slot.fds)
    requires slot.state == Zombie ==> s.tasks[i].state == Zombie
    requires slot.state == Running ==> s.tasks[i].state == Running
    requires r.tasks == s.tasks[i := slot] && r.ext == s.ext && r.current == s.current && r.nextTid == s.nextTid
    requires r.ticks < U32
    ensures Inv(r) && Quiet(s, r)
  {
    ReplaceKeepsInv(s, i, slot);
    InvIgnoresCounters(WithSlot(s, i, slot), r);
  }

  lemma SleepKeeps(s: State, n: nat)
    requires Inv(s)
    ensures Inv(SleepTicks(s, n)) && Quiet(s, SleepTicks(s, n))
  {
    var i := s.current;
    assert SlotInv(s.tasks[i], i);
    var r := SleepTicks(s, n);
    if s.tasks[i].used && !s.tasks[i].isIdle {
      RetimeKeeps(s, i, r.tasks[i], r);
    }
  }

  lemma YieldKeeps(s: State)
    requires Inv(s)
    ensures Inv(Yield(s)) && Quiet(s, Yield(s))
  {
    var i := s.current;
    assert SlotInv(s.tasks[i], i);
    var r := Yield(s);
    if s.tasks[i].used {
      RetimeKeeps(s, i, r.tasks[i], r);
    }
  }

  lemma FdCallKeeps(s: State, op: FdTable.Op)
    requires Inv(s)
    ensures Inv(FdCall(s, op).0) && Quiet(s, FdCall(s, op).0)
  {
    var i := s.current;
    assert SlotInv(s.tasks[i], i);
    var r := FdCall(s, op).0;
    if s.tasks[i].used {
      FdTable.ApplyInv(s.tasks[i].fds, op);
      RetimeKeeps(s, i, r.tasks[i], r);
    }
  }

  lemma {:induction false} WakeSleepersKeeps(s: State, now: nat, i: nat)
    requires Inv(s) && i <= MAX_TASKS
    ensures Inv(WakeSleepersFrom(s, now, i)) && Quiet(s, WakeSleepersFrom(s, now, i))
    ensures WakeSleepersFrom(s, now, i).current == s.current && WakeSleepersFrom(s, now, i).ticks == s.ticks
    decreases MAX_TASKS - i
  {
    if i < MAX_TASKS {
      assert SlotInv(s.tasks[i], i);
      if Due(s.tasks[i], now) {
        WakeNowKeepsInv(s, i);
        WakeNowQuiet(s, i);
        WakeSleepersKeeps(WakeNow(s, i), now, i + 1);
        QuietTrans(s, WakeNow(s, i), WakeSleepersFrom(s, now, i));
      } else {
        WakeSleepersKeeps(s, now, i + 1);
      }
    }
  }

  lemma ChargeKeeps(s: State)
    requires Inv(s)
    ensures Inv(ChargeQuantum(s)) && Quiet(s, ChargeQuantum(s)) && ChargeQuantum(s).current == s.current
  {
    var slot := s.tasks[s.current];
    assert SlotInv(slot, s.current);
    if slot.used && !slot.isIdle && slot.state == Running {
      RetimeKeeps(s, s.current, slot.(quantum := slot.quantum + 1), ChargeQuantum(s));
    }
  }

  lemma WakeAndChargeKeeps(s: State, now: nat)
    requires Inv(s)
    ensures var r := ChargeQuantum(WakeSleepersFrom(s, now, 0)); Inv(r) && Quiet(s, r) && r.current == s.current
  {
    WakeSleepersKeeps(s, now, 0);
    var s2 := WakeSleepersFrom(s, now, 0);
    ChargeKeeps(s2);
    QuietTrans(s, s2, ChargeQuantum(s2));
  }

  lemma TickToKeeps(s: State, now: nat)
    requires Inv(s) && now < U32
    ensures Inv(TickTo(s, now)) && Quiet(s, TickTo(s, now)) && TickTo(s, now).current == s.current
  {
    var s1 := s.(ticks := now);
    InvIgnoresCounters(s, s1);
    WakeAndChargeKeeps(s1, now);
    QuietTrans(s, s1, TickTo(s, now));
  }

  lemma TickKeeps(s: State)
    requires Inv(s)
    ensures Inv(Tick(s)) && Quiet(s, Tick(s)) && Tick(s).current == s.current
  {
    var now := (s.ticks + 1) % U32;
    var r := TickTo(s, now);
    assert Tick(s) == r;
    TickToKeeps(s, now);
  }

  /** What a tick does to each slot: due sleepers wake, the rest keep sleeping; nobody starts to sleep. */
  lemma {:induction false} WakeSleepersEffect(s: State, now: nat, i: nat, j: nat)
    requires Inv(s) && i <= MAX_TASKS && j < MAX_TASKS
    ensures var r := WakeSleepersFrom(s, now, i);
            if i <= j && Due(s.tasks[j], now) then r.tasks[j].state == Runnable && r.tasks[j].waitq == None
            else r.tasks[j] == s.tasks[j]
    decreases MAX_TASKS - i
  {
    if i < MAX_TASKS {
      assert SlotInv(s.tasks[i], i);
      if Due(s.tasks[i], now) {
        WakeNowKeepsInv(s, i);
        WakeSleepersEffect(WakeNow(s, i), now, i + 1, j);
      } else {
        WakeSleepersEffect(s, now, i + 1, j);
      }
    }
  }

  lemma SpawnKeepsInv(s: State, entry: nat)
    requires Inv(s)
    ensures Inv(Spawn(s, entry).0)
  {
    var i := FreeSlotFrom(s.tasks, 1);
    if entry != 0 && i >= 0 {
      assert SlotInv(s.tasks[i], i);
      FdTable.StdioInv();
      var slot := NewSlot(s, entry);
      assert SlotInv(slot, i);
      ReplaceKeepsInv(s, i, slot);
      InvIgnoresCounters(WithSlot(s, i, slot), Spawn(s, entry).0);
    }
  }

  /** Exit, before the parent is woken. */
  function Zombified(s: State, code: bv32): (r: State)
    requires Shape(s)
    ensures Shape(r)
  {
    var s1 := Detach(s, s.current);
    WithSlot(s1, s.current, Exited(s1.tasks[s.current], code))
  }

  lemma ZombifiedKeepsInv(s: State, code: bv32)
    requires Inv(s) && s.tasks[s.current].used && !s.tasks[s.current].isIdle
    ensures Inv(Zombified(s, code))
    ensures forall j :: 0 <= j < MAX_TASKS && j != s.current ==> Zombified(s, code).tasks[j] == s.tasks[j]
    ensures var z := Zombified(s, code).tasks[s.current];
            && z.state == Zombie && z.exitCode == code && z.waitq == None && z.fds == FdTable.Cleared()
            && SameIdentity(s.tasks[s.current].(exitCode := code), z)
  {
    var i := s.current;
    assert SlotInv(s.tasks[i], i);
    var s1 := Detach(s, i);
    FdTable.CloseAllClears(s1.tasks[i].fds);
    FdTable.ClearedInv();
    DetachReplaceKeepsInv(s, i, Exited(s1.tasks[i], code));
  }

  lemma WakeParentKeeps(s: State, parent: int)
    requires Inv(s)
    ensures Inv(WakeParent(s, parent)) && Quiet(s, WakeParent(s, parent))
  {
    if parent >= 0 && FindByTid(s, parent) >= 0 {
      WakeAllKeeps(s, Child(FindByTid(s, parent)));
    }
  }

  /** Exit leaves an empty descriptor table, the recorded code and a detached ZOMBIE; all else is a wake-up. */
  lemma ExitKeeps(s: State, code: bv32)
    requires Inv(s) && s.tasks[s.current].used && !s.tasks[s.current].isIdle
    ensures Inv(Exit(s, code)) && Quiet(Zombified(s, code), Exit(s, code))
    ensures var z := Exit(s, code).tasks[s.current];
            z.state == Zombie && z.exitCode == code && z.fds == FdTable.Cleared() && z.waitq == None
  {
    var i := s.current;
    ZombifiedKeepsInv(s, code);
    var s2 := Zombified(s, code);
    WakeParentKeeps(s2, s2.tasks[i].parent);
    var s3 := WakeParent(s2, s2.tasks[i].parent);
    InvIgnoresCounters(s3, Exit(s, code));
    if s2.tasks[i].parent >= 0 && FindByTid(s2, s2.tasks[i].parent) >= 0 {
      var q := Child(FindByTid(s2, s2.tasks[i].parent));
      WakeAllReleasesEveryWaiter(s2, q);
      if i in Bits(s2, q) {
        WaiterFacts(s2, q, i);
      }
    }
    assert QuietSlot(s2.tasks[i], s3.tasks[i], i);
  }

  /** Reaping leaves no stale bit behind. */
  lemma ReapKeepsInv(s: State, z: nat)
    requires Inv(s) && 0 < z < MAX_TASKS && s.tasks[z].used && s.tasks[z].state == Zombie
    ensures Inv(WithSlot(s, z, EMPTY_SLOT))
    ensures forall q :: ValidQ(s, q) ==> z !in Bits(s, q)
  {
    assert SlotInv(s.tasks[z], z);
    assert ValidQ(s, Child(z));
    assert Bits(s, Child(z)) == Waiters(s.tasks, Child(z));
    forall k | k in Bits(s, Child(z))
      ensures false
    {
      WaiterFacts(s, Child(z), k);
    }
    forall q | ValidQ(s, q)
      ensures z !in Bits(s, q)
    {
      assert z !in Waiters(s.tasks, q);
    }
    assert FdTable.Sized(FdTable.Zeroed());
    ReplaceKeepsInv(s, z, EMPTY_SLOT);
  }

  lemma WaitpidKeepsInv(s: State, pid: int, nohang: bool)
    requires Inv(s)
    ensures Inv(Waitpid(s, pid, nohang).0)
  {
    var slot := s.tasks[s.current];
    if slot.used && !slot.isIdle {
      var z := FindZombieFrom(s.tasks, AsInt32(slot.tid), pid, 1);
      if z >= 0 {
        ReapKeepsInv(s, z);
      } else {
        WaitqSleepKeepsInv(s, Child(s.current), 0);
      }
    }
  }
}
