/**
 What every scheduler call keeps: wait-queue bits and slots agree, blocked tasks are attached,
 the idle slot never blocks, descriptor tables stay exact.
 */
module SchedInv {
  import opened Sched
  import FdTable

  /** Slots whose back-pointer names q. */
  function Waiters(tasks: seq<Slot>, q: QueueId): set<nat> {
    set i: nat | i < |tasks| && tasks[i].used && tasks[i].waitq == Some(q)
  }

  /** What holds of one slot on its own. */
  ghost predicate SlotInv(slot: Slot, i: nat) {
    && (slot.isIdle <==> i == 0)
    && (i == 0 ==> slot.used && slot.tid == 0 && slot.entry != 0 && (slot.state == Runnable || slot.state == Running))
    && (slot.waitq.Some? ==> slot.used && Asleep(slot))
    && (slot.waitq.Some? && slot.waitq.value.Child? ==> slot.waitq.value.slot == i)
    && (slot.used && slot.state == Blocked ==> slot.waitq.Some?)
    && (!slot.used ==> slot.state == Unused && slot.childQ == {})
    && (i != 0 && slot.used ==> 0 < slot.tid < U32)
    && slot.wakeTick < U32
    && (slot.used ==> slot.state != Unused && slot.entry != 0 && FdTable.Inv(slot.fds))
  }

  ghost predicate SlotsOk(tasks: seq<Slot>) {
    forall i {:trigger SlotInv(tasks[i], i)} :: 0 <= i < |tasks| ==> SlotInv(tasks[i], i)
  }

  /** Queue bits and back-pointers agree, queue by queue and slot by slot. */
  ghost predicate QueuesAgree(s: State) {
    forall q :: ValidQ(s, q) ==> Bits(s, q) == Waiters(s.tasks, q)
  }

  ghost predicate Inv(s: State) {
    Shape(s) && SlotsOk(s.tasks) && QueuesAgree(s) && 0 < s.nextTid < U32 && s.ticks < U32
  }

  lemma InitInv()
    ensures Inv(Init())
  {
    var s := Init();
    FdTable.StdioInv();
    assert FdTable.Sized(FdTable.Zeroed());
    assert forall i :: 0 <= i < MAX_TASKS ==> s.tasks[i] == IDLE_SLOT || s.tasks[i] == EMPTY_SLOT;
    forall q | ValidQ(s, q)
      ensures Bits(s, q) == Waiters(s.tasks, q)
    {
    }
  }

  /**
   The shape of every change a call makes to one slot: slot i is replaced, it stays on the queue it
   was on, and nothing else moves.
   */
  lemma ReplaceKeepsInv(s: State, i: nat, slot: Slot)
    requires Inv(s) && i < MAX_TASKS
    requires SlotInv(slot, i) && FdTable.Sized(slot.fds)
    requires slot.waitq == s.tasks[i].waitq && slot.childQ == s.tasks[i].childQ
    requires slot.waitq.Some? ==> slot.used
    ensures Inv(WithSlot(s, i, slot))
  {
    var s' := WithSlot(s, i, slot);
    assert SlotInv(s.tasks[i], i);
    forall q | ValidQ(s', q)
      ensures Bits(s', q) == Waiters(s'.tasks, q)
    {
      assert ValidQ(s, q);
      assert Waiters(s'.tasks, q) == Waiters(s.tasks, q);
    }
  }

  /** Detaching slot i and giving it any unattached contents that fit. */
  lemma DetachReplaceKeepsInv(s: State, i: nat, slot: Slot)
    requires Inv(s) && i < MAX_TASKS
    requires SlotInv(slot, i) && FdTable.Sized(slot.fds)
    requires slot.waitq == None && slot.childQ == Detach(s, i).tasks[i].childQ
    ensures Inv(WithSlot(Detach(s, i), i, slot))
    ensures s.tasks[i].waitq.None? ==> Detach(s, i) == s
    ensures forall j :: 0 <= j < MAX_TASKS && j != i ==> Detach(s, i).tasks[j] == s.tasks[j]
  {
    assert SlotInv(s.tasks[i], i);
    if s.tasks[i].waitq.None? {
      ReplaceKeepsInv(s, i, slot);
    } else {
      var q0 := s.tasks[i].waitq.value;
      var s' := WithSlot(Detach(s, i), i, slot);
      forall q | ValidQ(s', q)
        ensures Bits(s', q) == Waiters(s'.tasks, q)
      {
        assert ValidQ(s, q);
        assert Waiters(s'.tasks, q) == Waiters(s.tasks, q) - {i};
        assert q != q0 ==> i !in Waiters(s.tasks, q);
      }
    }
  }

  lemma WakeNowKeepsInv(s: State, i: nat)
    requires Inv(s) && 0 < i < MAX_TASKS && s.tasks[i].used
    ensures Inv(WakeNow(s, i))
  {
    assert SlotInv(s.tasks[i], i);
    var s1 := Detach(s, i);
    DetachReplaceKeepsInv(s, i, Woken(s1.tasks[i]));
    InvIgnoresCounters(WithSlot(s1, i, Woken(s1.tasks[i])), WakeNow(s, i));
  }

  /** The invariant speaks of the table and the queues only. */
  lemma InvIgnoresCounters(s: State, r: State)
    requires Inv(s) && r.tasks == s.tasks && r.ext == s.ext && r.current < MAX_TASKS && 0 < r.nextTid < U32 && r.ticks < U32
    ensures Inv(r)
  {
    forall q | ValidQ(r, q)
      ensures Bits(r, q) == Waiters(r.tasks, q)
    {
      assert ValidQ(s, q);
    }
  }

  lemma WakeSlotKeepsInv(s: State, i: nat)
    requires Inv(s) && i < MAX_TASKS
    ensures Inv(WakeSlot(s, i))
  {
    assert SlotInv(s.tasks[i], i);
    if s.tasks[i].used && !s.tasks[i].isIdle && Asleep(s.tasks[i]) {
      WakeNowKeepsInv(s, i);
    }
  }

  // ---------------------------------------------------------------------------
  // Waking
  // ---------------------------------------------------------------------------

  /** r differs from s at most in slot i (and, through it, in the queue i was on). */
  ghost predicate OnlySlot(s: State, r: State, i: nat) {
    && |r.tasks| == |s.tasks| && r.current == s.current && r.ticks == s.ticks && r.nextTid == s.nextTid
    && |r.ext| == |s.ext|
    && forall j :: 0 <= j < |s.tasks| && j != i ==> r.tasks[j] == s.tasks[j]
  }

  /** wake_one releases exactly the lowest waiting slot. */
  ghost predicate WokeLowest(s: State, q: QueueId, r: State, i: nat)
    requires Shape(s) && Shape(r) && ValidQ(s, q)
  {
    && i in Bits(s, q) && 0 < i < MAX_TASKS
    && (forall k :: k in Bits(s, q) ==> i <= k)
    && OnlySlot(s, r, i)
    && r.tasks[i].state == Runnable && r.tasks[i].waitq == None && r.tasks[i].wakeTick == 0
    && ValidQ(r, q) && Bits(r, q) == Bits(s, q) - {i}
  }

  lemma WaiterFacts(s: State, q: QueueId, i: nat)
    requires Inv(s) && ValidQ(s, q) && i in Bits(s, q)
    ensures 0 < i < MAX_TASKS && s.tasks[i].used && !s.tasks[i].isIdle && Asleep(s.tasks[i])
    ensures s.tasks[i].waitq == Some(q)
    ensures q.Child? ==> q.slot == i
  {
    assert i in Waiters(s.tasks, q);
    assert SlotInv(s.tasks[i], i);
  }

  lemma WakeWaiter(s: State, q: QueueId, i: nat)
    requires Inv(s) && ValidQ(s, q) && i in Bits(s, q)
    ensures i < MAX_TASKS
    ensures OnlySlot(s, WakeSlot(s, i), i)
    ensures var r := WakeSlot(s, i);
            && r.tasks[i].state == Runnable && r.tasks[i].waitq == None && r.tasks[i].wakeTick == 0
            && ValidQ(r, q) && Bits(r, q) == Bits(s, q) - {i}
            && forall q' :: ValidQ(s, q') && q' != q ==> ValidQ(r, q') && Bits(r, q') == Bits(s, q')
  {
    WaiterFacts(s, q, i);
  }

  lemma {:induction false} WakeOneFromLowest(s: State, q: QueueId, from: nat) returns (i: nat)
    requires Inv(s) && ValidQ(s, q) && from <= MAX_TASKS
    requires forall k :: k in Bits(s, q) ==> from <= k
    ensures Bits(s, q) == {} ==> WakeOneFrom(s, q, from) == s
    ensures Bits(s, q) != {} ==> WokeLowest(s, q, WakeOneFrom(s, q, from), i)
    decreases MAX_TASKS - from
  {
    i := from;
    if from == MAX_TASKS {
      if k :| k in Bits(s, q) {
        WaiterFacts(s, q, k);
      }
    } else if from in Bits(s, q) {
      WaiterFacts(s, q, from);
      WakeWaiter(s, q, from);
    } else {
      i := WakeOneFromLowest(s, q, from + 1);
    }
  }

  /** wake_one on a non-empty queue makes exactly the lowest waiting slot runnable; on an empty one it does nothing. */
  lemma WakeOneWakesLowest(s: State, q: QueueId) returns (i: nat)
    requires Inv(s) && ValidQ(s, q)
    ensures Bits(s, q) == {} ==> WakeOne(s, q) == s
    ensures Bits(s, q) != {} ==> WokeLowest(s, q, WakeOne(s, q), i)
    ensures Inv(WakeOne(s, q))
  {
    forall k | k in Bits(s, q)
      ensures 1 <= k
    {
      WaiterFacts(s, q, k);
    }
    i := WakeOneFromLowest(s, q, 1);
    WakeOneFromKeepsInv(s, q, 1);
  }

  lemma {:induction false} WakeOneFromKeepsInv(s: State, q: QueueId, i: nat)
    requires Inv(s) && ValidQ(s, q) && i <= MAX_TASKS
    ensures Inv(WakeOneFrom(s, q, i))
    decreases MAX_TASKS - i
  {
    if i < MAX_TASKS {
      if i in Bits(s, q) {
        WakeSlotKeepsInv(s, i);
      } else {
        WakeOneFromKeepsInv(s, q, i + 1);
      }
    }
  }

  lemma {:induction false} WakeAllFromKeepsInv(s: State, q: QueueId, from: nat)
    requires Inv(s) && ValidQ(s, q) && from <= MAX_TASKS
    ensures Inv(WakeAllFrom(s, q, from)) && ValidQ(WakeAllFrom(s, q, from), q)
    decreases MAX_TASKS - from
  {
    if from < MAX_TASKS {
      WakeSlotKeepsInv(s, from);
      WakeAllFromKeepsInv(if from in Bits(s, q) then WakeSlot(s, from) else s, q, from + 1);
    }
  }

  /** Slot j after wake_all on q has passed it. */
  function Released(slot: Slot, j: nat, q: QueueId): Slot {
    Woken(slot).(waitq := None, childQ := slot.childQ - (if q.Child? then {j} else {}))
  }

  lemma WakeReleases(s: State, q: QueueId, i: nat)
    requires Inv(s) && ValidQ(s, q) && i in Bits(s, q) && i < MAX_TASKS
    ensures WakeSlot(s, i).tasks[i] == Released(s.tasks[i], i, q)
  {
    WaiterFacts(s, q, i);
    assert s.tasks[i].childQ - {} == s.tasks[i].childQ;
  }

  lemma {:induction false} WakeAllFromSlot(s: State, q: QueueId, from: nat, j: nat)
    requires Inv(s) && ValidQ(s, q) && from <= MAX_TASKS && j < MAX_TASKS
    ensures WakeAllFrom(s, q, from).tasks[j] ==
            if from <= j && j in Bits(s, q) then Released(s.tasks[j], j, q) else s.tasks[j]
    decreases MAX_TASKS - from
  {
    if from < MAX_TASKS {
      if from in Bits(s, q) {
        WakeReleases(s, q, from);
        WakeWaiter(s, q, from);
        WakeSlotKeepsInv(s, from);
        WakeAllFromSlot(WakeSlot(s, from), q, from + 1, j);
      } else {
        WakeAllFromSlot(s, q, from + 1, j);
      }
    }
  }

  lemma {:induction false} WakeAllFromCounters(s: State, q: QueueId, from: nat)
    requires Inv(s) && ValidQ(s, q) && from <= MAX_TASKS
    ensures var r := WakeAllFrom(s, q, from);
            r.current == s.current && r.ticks == s.ticks && r.nextTid == s.nextTid && |r.ext| == |s.ext|
    decreases MAX_TASKS - from
  {
    if from < MAX_TASKS {
      if from in Bits(s, q) {
        WakeWaiter(s, q, from);
        WakeSlotKeepsInv(s, from);
        WakeAllFromCounters(WakeSlot(s, from), q, from + 1);
      } else {
        WakeAllFromCounters(s, q, from + 1);
      }
    }
  }

  lemma WakeAllSlot(s: State, q: QueueId, j: nat)
    requires Inv(s) && ValidQ(s, q) && j < MAX_TASKS
    ensures WakeAll(s, q).tasks[j] == if j in Bits(s, q) then Released(s.tasks[j], j, q) else s.tasks[j]
  {
    WakeAllFromSlot(s, q, 1, j);
    if j in Bits(s, q) {
      WaiterFacts(s, q, j);
    }
  }

  lemma WakeAllEmpties(s: State, q: QueueId)
    requires Inv(s) && ValidQ(s, q)
    ensures Inv(WakeAll(s, q)) && ValidQ(WakeAll(s, q), q) && Bits(WakeAll(s, q), q) == {}
  {
    var r := WakeAll(s, q);
    WakeAllFromKeepsInv(s, q, 1);
    if k :| k in Bits(r, q) {
      assert k in Bits(s, q) <==> k in Waiters(s.tasks, q);
      WaiterFacts(r, q, k);
      WakeAllSlot(s, q, k);
    }
  }

  /** wake_all empties the queue, makes each waiter runnable and touches no other slot. */
  lemma WakeAllReleasesEveryWaiter(s: State, q: QueueId)
    requires Inv(s) && ValidQ(s, q)
    ensures Inv(WakeAll(s, q)) && ValidQ(WakeAll(s, q), q) && Bits(WakeAll(s, q), q) == {}
    ensures WakeAll(s, q).current == s.current && WakeAll(s, q).ticks == s.ticks && WakeAll(s, q).nextTid == s.nextTid
    ensures forall j :: 0 <= j < MAX_TASKS ==>
              WakeAll(s, q).tasks[j] == if j in Bits(s, q) then Released(s.tasks[j], j, q) else s.tasks[j]
  {
    WakeAllEmpties(s, q);
    WakeAllFromCounters(s, q, 1);
    forall j | 0 <= j < MAX_TASKS
      ensures WakeAll(s, q).tasks[j] == if j in Bits(s, q) then Released(s.tasks[j], j, q) else s.tasks[j]
    {
      WakeAllSlot(s, q, j);
    }
  }
}
