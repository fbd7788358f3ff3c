/**
 The terminal and the tasks that wait for it: console_rx_feed wakes one task of g_rx_waitq per byte it
 queues, console_read and console_wait_readable park the caller there, and a change of mode wakes nobody.
 Everything else the kernel does to its tasks happens in between.
 */
module TtyWait {
  import opened Bytes
  import opened Sched
  import opened SchedInv
  import opened SchedCalls
  import opened SchedRuns
  import opened SchedTheorems
  import LD = LineDiscipline

  /** g_rx_waitq is queue 0 of the kernel's queues. */
  const RX: nat := 0

  datatype World = World(c: Config, tty: LD.Tty)

  datatype Action =
    | Input(b: byte)                                // console_rx_feed
    | ReadCall(len: nat, nonblock: bool)            // console_read by the current task
    | WaitReadable(timeout: nat, nonblock: bool)    // console_wait_readable by the current task
    | SetMode(mode: LD.Mode)                        // console_tty_set_lflag
    | Other(e: Event)                               // anything that does not name the queue

  predicate NamesQueue(e: Event, k: nat) {
    (e.QueueSleep? || e.QueueWakeOne? || e.QueueWakeAll?) && e.k == k
  }

  ghost predicate Ok(w: World) {
    Good(w.c) && RX < |w.c.s.ext| && |w.tty.queue| <= LD.CAPACITY
  }

  predicate Can(w: World, a: Action)
    requires Shape(w.c.s)
  {
    a.Other? ==> Enabled(w.c, a.e) && !NamesQueue(a.e, RX)
  }

  function Park(c: Config, timeout: nat): Config
    requires Shape(c.s) && RX < |c.s.ext|
  {
    SchedRuns.Next(c, QueueSleep(RX, timeout))
  }

  function Step(w: World, a: Action): World
    requires Shape(w.c.s) && RX < |w.c.s.ext| && Can(w, a)
  {
    match a
    case Input(b) =>
      var f := LD.Feed(w.tty, b);
      World(if f.woke then SchedRuns.Next(w.c, QueueWakeOne(RX)) else w.c, f.tty)
    case ReadCall(len, nonblock) =>
      var r := LD.Read(w.tty, len, nonblock);
      World(if r.rc == LD.IO_BLOCKED then Park(w.c, 0) else w.c, r.tty)
    case WaitReadable(timeout, nonblock) =>
      if LD.CanRead(w.tty) || nonblock then w else w.(c := Park(w.c, timeout))
    case SetMode(m) => w.(tty := w.tty.(mode := m))
    case Other(e) => w.(c := SchedRuns.Next(w.c, e))
  }

  function Readers(w: World): set<nat>
    requires Shape(w.c.s) && RX < |w.c.s.ext|
  {
    Bits(w.c.s, Ext(RX))
  }

  /** No task waits for input that is there. */
  ghost predicate NobodyStranded(w: World)
    requires Shape(w.c.s) && RX < |w.c.s.ext|
  {
    Readers(w) != {} ==> !LD.CanRead(w.tty)
  }

  // ---------------------------------------------------------------------------
  // What the rest of the kernel can do to the readers: release them, never add one
  // ---------------------------------------------------------------------------

  /** A task is on queue k after an event that does not name k only if it was before. */
  ghost predicate StillOn(c: Config, e: Event, k: nat, i: nat)
    requires Shape(c.s) && Enabled(c, e) && i < MAX_TASKS
  {
    SchedRuns.Next(c, e).s.tasks[i].waitq == Some(Ext(k)) ==> c.s.tasks[i].waitq == Some(Ext(k))
  }

  lemma TickStillOn(c: Config, k: nat, i: nat)
    requires Inv(c.s) && i < MAX_TASKS
    ensures StillOn(c, TimerTick, k, i)
  {
    var now := Ticked(c.s.ticks);
    var s1 := c.s.(ticks := now);
    InvIgnoresCounters(c.s, s1);
    WakeSleepersEffect(s1, now, 0, i);
  }

  lemma PlainStillOn(c: Config, e: Event, k: nat, i: nat)
    requires Good(c) && Enabled(c, e) && IsPlainCall(e) && !NamesQueue(e, k) && i < MAX_TASKS
    ensures StillOn(c, e, k, i)
  {
    match e
    case TimerTick => TickStillOn(c, k, i);
    case QueueWakeOne(m) => WakeOneOn(c.s, Ext(m), i);
    case QueueWakeAll(m) => WakeAllOn(c.s, Ext(m), i);
    case QueueSleep(m, t) =>
      if c.s.tasks[c.s.current].used && !c.s.tasks[c.s.current].isIdle {
        AttachKeepsSlots(c.s, Ext(m), t);
      }
    case _ =>
  }

  lemma ExitStillOn(c: Config, code: bv32, k: nat, i: nat)
    requires Inv(c.s) && i < MAX_TASKS
    ensures StillOn(c, CallExit(code), k, i)
  {
    if c.s.tasks[c.s.current].used && !c.s.tasks[c.s.current].isIdle {
      if i == c.s.current {
        ExitKeeps(c.s, code);
      } else {
        ExitOn(c.s, code, i);
      }
    }
  }

  lemma WaitpidStillOn(c: Config, pid: int, nohang: bool, k: nat, i: nat)
    requires Inv(c.s) && i < MAX_TASKS
    ensures StillOn(c, CallWaitpid(pid, nohang), k, i)
  {
    AfterWaitpidStillOn(c, pid, nohang, k, i);
    assert SchedRuns.Next(c, CallWaitpid(pid, nohang)) == AfterWaitpid(c, pid, nohang);
  }

  lemma AfterWaitpidStillOn(c: Config, pid: int, nohang: bool, k: nat, i: nat)
    requires Inv(c.s) && i < MAX_TASKS
    ensures AfterWaitpid(c, pid, nohang).s.tasks[i].waitq == Some(Ext(k)) ==> c.s.tasks[i].waitq == Some(Ext(k))
  {
    var r := AfterWaitpid(c, pid, nohang);
    WaitpidCases(c, pid, nohang);
    if r != c {
      if MayPark(c, pid) && r == Parked(c, pid) {
        ParkedStillOn(c, pid, k, i);
      } else {
        var z :| 1 <= z < MAX_TASKS && c.s.tasks[z].used && c.s.tasks[z].state == Zombie && r == Reaped(c, z);
        assert r.s.tasks == c.s.tasks[z := EMPTY_SLOT];
      }
    }
  }

  lemma ParkedStillOn(c: Config, pid: int, k: nat, i: nat)
    requires Inv(c.s) && MayPark(c, pid) && i < MAX_TASKS
    ensures Parked(c, pid).s.tasks[i].waitq == Some(Ext(k)) ==> c.s.tasks[i].waitq == Some(Ext(k))
  {
    if i == c.s.current {
      AttachSelf(c.s, Child(c.s.current), 0);
    } else {
      AttachOther(c.s, Child(c.s.current), 0, i);
    }
  }

  lemma SwitchStillOn(c: Config, e: Event, k: nat, i: nat)
    requires Shape(c.s) && Enabled(c, e) && i < MAX_TASKS
    requires e.PumpEnter? || e.RunPick? || e.RunEnter? || e.EntryReturn? || e.CallSpawn?
    ensures StillOn(c, e, k, i)
  {
  }

  lemma EventStillOn(c: Config, e: Event, k: nat, i: nat)
    requires Good(c) && Enabled(c, e) && !NamesQueue(e, k) && i < MAX_TASKS
    ensures StillOn(c, e, k, i)
  {
    if IsPlainCall(e) {
      PlainStillOn(c, e, k, i);
    } else {
      match e
      case CallExit(code) => ExitStillOn(c, code, k, i);
      case CallWaitpid(pid, nohang) => WaitpidStillOn(c, pid, nohang, k, i);
      case _ => SwitchStillOn(c, e, k, i);
    }
  }

  lemma ReadersOnlyLeave(c: Config, e: Event, k: nat)
    requires Good(c) && Enabled(c, e) && !NamesQueue(e, k) && k < |c.s.ext|
    ensures Bits(SchedRuns.Next(c, e).s, Ext(k)) <= Bits(c.s, Ext(k))
  {
    var r := SchedRuns.Next(c, e).s;
    NextGood(c, e);
    forall i | i in Bits(r, Ext(k))
      ensures i in Bits(c.s, Ext(k))
    {
      WaiterFacts(r, Ext(k), i);
      EventStillOn(c, e, k, i);
      assert SlotInv(c.s.tasks[i], i);
      assert i in Waiters(c.s.tasks, Ext(k));
    }
  }

  // ---------------------------------------------------------------------------
  // When an action strands a reader
  // ---------------------------------------------------------------------------

  /** The bytes that make an unready terminal ready. */
  predicate MakesReadable(t: LD.Tty, b: byte) {
    if t.mode.icanon then
      || ((b == LD.NL || b == LD.CR || b == LD.VEOF) && |t.queue| < LD.CAPACITY)
      || (b == LD.VINTR && t.mode.isig)
    else b != 0
  }

  /** An unready canonical terminal has no terminator queued. */
  lemma UnreadyHasNothingCommitted(t: LD.Tty)
    requires t.mode.icanon && !LD.CanRead(t)
    ensures LD.CommittedLen(t.queue) == 0
  {
    LD.CommittedFacts(t.queue);
    LD.CountZero(t.queue, LD.NL);
    LD.CountZero(t.queue, LD.VEOF);
  }

  /** Killing and erasing do not make an unready terminal ready. */
  lemma EditingStaysUnready(t: LD.Tty)
    requires t.mode.icanon && !LD.CanRead(t)
    ensures !LD.CanRead(LD.Kill(t).tty) && !LD.CanRead(LD.Erase(t).tty)
  {
    forall n | 0 <= n <= |t.queue|
      ensures LD.Count(t.queue[..n], LD.NL) == 0 && LD.Count(t.queue[..n], LD.VEOF) == 0
    {
      assert t.queue == t.queue[..n] + t.queue[n..];
      LD.CountConcat(t.queue[..n], t.queue[n..], LD.NL);
      LD.CountConcat(t.queue[..n], t.queue[n..], LD.VEOF);
    }
  }

  lemma QueuedByteCounts(t: LD.Tty, b: byte)
    ensures LD.Count(t.queue + [b], LD.NL) == LD.Count(t.queue, LD.NL) + (if b == LD.NL then 1 else 0)
    ensures LD.Count(t.queue + [b], LD.VEOF) == LD.Count(t.queue, LD.VEOF) + (if b == LD.VEOF then 1 else 0)
  {
    LD.CountConcat(t.queue, [b], LD.NL);
    LD.CountConcat(t.queue, [b], LD.VEOF);
  }

  /** Input makes an unready terminal ready exactly so, and then it wakes a reader. */
  lemma ReadyExactlyWhen(t: LD.Tty, b: byte)
    requires !LD.CanRead(t) && |t.queue| <= LD.CAPACITY
    ensures LD.CanRead(LD.Feed(t, b).tty) <==> MakesReadable(t, b)
    ensures MakesReadable(t, b) ==> LD.Feed(t, b).woke
  {
    if t.mode.icanon {
      UnreadyHasNothingCommitted(t);
      EditingStaysUnready(t);
      QueuedByteCounts(t, if b == LD.CR then LD.NL else b);
      if b == LD.VINTR && t.mode.isig {
        LD.InterruptEndsLine(t);
      }
    }
  }

  /** The actions after which somebody waits for input that is there, when nobody did before. */
  predicate Strands(w: World, a: Action)
    requires Shape(w.c.s) && RX < |w.c.s.ext|
  {
    match a
    case Input(b) => |Readers(w)| >= 2 && MakesReadable(w.tty, b)
    case ReadCall(len, nonblock) =>
      var self := w.c.s.tasks[w.c.s.current];
      && len > 0 && !nonblock && self.used && !self.isIdle
      && w.tty.mode.icanon && w.tty.queue == [] && w.tty.rawEofs != 0
    case WaitReadable(_, _) => false
    case SetMode(m) => Readers(w) != {} && LD.CanRead(w.tty.(mode := m))
    case Other(_) => false
  }

  /** One byte wakes the lowest reader, so nobody is left exactly if there was at most one. */
  lemma OneWakeLeaves(w: World)
    requires Ok(w)
    ensures var r := SchedRuns.Next(w.c, QueueWakeOne(RX)).s;
            Bits(r, Ext(RX)) == {} <==> |Readers(w)| <= 1
  {
    var q := Readers(w);
    var i := WakeOneWakesLowest(w.c.s, Ext(RX));
    var r := SchedRuns.Next(w.c, QueueWakeOne(RX)).s;
    if q == {} {
      assert Bits(r, Ext(RX)) == {};
    } else {
      assert Bits(r, Ext(RX)) == q - {i};
      assert |q - {i}| == |q| - 1;
    }
  }

  lemma InputStrandsExactlyWhen(w: World, b: byte)
    requires Ok(w) && NobodyStranded(w)
    ensures NobodyStranded(Step(w, Input(b))) <==> !Strands(w, Input(b))
  {
    if Readers(w) == {} {
      if LD.Feed(w.tty, b).woke {
        OneWakeLeaves(w);
      }
    } else {
      ReadyExactlyWhen(w.tty, b);
      OneWakeLeaves(w);
    }
  }

  lemma ParkedReaders(c: Config, timeout: nat)
    requires Good(c) && RX < |c.s.ext|
    ensures var self := c.s.tasks[c.s.current];
            Bits(Park(c, timeout).s, Ext(RX)) ==
              if self.used && !self.isIdle then Bits(c.s, Ext(RX)) + {c.s.current} else Bits(c.s, Ext(RX))
  {
    if c.s.tasks[c.s.current].used && !c.s.tasks[c.s.current].isIdle {
      AttachBits(c.s, Ext(RX), timeout, Ext(RX));
    }
  }

  /** A read of an unready terminal changes nothing in it. */
  lemma UnreadyReadTakesNothing(t: LD.Tty, len: nat, nonblock: bool)
    requires !LD.CanRead(t)
    ensures LD.Read(t, len, nonblock).tty == t
  {
    if !t.mode.icanon {
      assert t.queue[0..] == t.queue;
    }
  }

  lemma ReadStrandsExactlyWhen(w: World, len: nat, nonblock: bool)
    requires Ok(w) && NobodyStranded(w)
    ensures NobodyStranded(Step(w, ReadCall(len, nonblock))) <==> !Strands(w, ReadCall(len, nonblock))
  {
    ParkedReaders(w.c, 0);
    if Readers(w) != {} {
      UnreadyReadTakesNothing(w.tty, len, nonblock);
    }
    if len > 0 {
      LD.ReadinessLiesExactlyWhen(w.tty, len);
      LD.BlocksExactlyWhen(w.tty, len);
    }
    BlockedReadTakesNothing(w.tty, len, nonblock);
  }

  lemma BlockedReadTakesNothing(t: LD.Tty, len: nat, nonblock: bool)
    ensures LD.Read(t, len, nonblock).rc == LD.IO_BLOCKED ==> !nonblock && len > 0 && LD.Read(t, len, nonblock).tty == t
  {
    if len > 0 && !nonblock {
      LD.BlocksExactlyWhen(t, len);
      if LD.CanRead(t) && t.queue == [] {
        assert t.queue[0..] == t.queue;
      } else if !LD.CanRead(t) {
        UnreadyReadTakesNothing(t, len, nonblock);
      }
    }
  }

  /**
   No task waits for input that is there, until one of exactly three things happens: a byte makes the
   terminal readable while two or more tasks wait, since one byte wakes one task; a change of mode makes
   queued input readable while a task waits, since it wakes nobody; or a task blocks on a terminal whose
   readiness lies.
   */
  lemma StrandedExactlyWhen(w: World, a: Action)
    requires Ok(w) && Can(w, a) && NobodyStranded(w)
    ensures NobodyStranded(Step(w, a)) <==> !Strands(w, a)
  {
    match a
    case Input(b) => InputStrandsExactlyWhen(w, b);
    case ReadCall(len, nonblock) => ReadStrandsExactlyWhen(w, len, nonblock);
    case WaitReadable(_, _) =>
    case SetMode(_) =>
    case Other(e) => ReadersOnlyLeave(w.c, e, RX);
  }

  // ---------------------------------------------------------------------------
  // Runs
  // ---------------------------------------------------------------------------

  lemma StepOk(w: World, a: Action)
    requires Ok(w) && Can(w, a)
    ensures Ok(Step(w, a))
  {
    match a
    case Input(b) =>
      FedFits(w.tty, b);
      NextGood(w.c, QueueWakeOne(RX));
    case ReadCall(len, nonblock) =>
      ReadFits(w.tty, len, nonblock);
      NextGood(w.c, QueueSleep(RX, 0));
    case WaitReadable(timeout, _) => NextGood(w.c, QueueSleep(RX, timeout));
    case SetMode(_) =>
    case Other(e) => NextGood(w.c, e);
  }

  lemma FedFits(t: LD.Tty, b: byte)
    requires |t.queue| <= LD.CAPACITY
    ensures |LD.Feed(t, b).tty.queue| <= LD.CAPACITY
  {
    LD.FeedKeepsCommitted(t, b);
  }

  lemma ReadFits(t: LD.Tty, len: nat, nonblock: bool)
    ensures |LD.Read(t, len, nonblock).tty.queue| <= |t.queue|
  {
    LD.ReadTakesPrefix(t, len, nonblock);
  }

  ghost function Run(w: World, run: seq<Action>): (r: World)
    requires Ok(w) && CanRun(w, run)
    ensures Ok(r)
    decreases |run|
  {
    if run == [] then w else StepOk(w, run[0]); Run(Step(w, run[0]), run[1..])
  }

  ghost predicate CanRun(w: World, run: seq<Action>)
    requires Ok(w)
    decreases |run|
  {
    run != [] ==> Can(w, run[0]) && (StepOk(w, run[0]); CanRun(Step(w, run[0]), run[1..]))
  }

  /** None of the three things happens. */
  ghost predicate NeverStrands(w: World, run: seq<Action>)
    requires Ok(w) && CanRun(w, run)
    decreases |run|
  {
    run != [] ==> !Strands(w, run[0]) && (StepOk(w, run[0]); NeverStrands(Step(w, run[0]), run[1..]))
  }

  /** Through any run without them, nobody waits for input that is there. */
  lemma {:induction false} RunStrandsNobody(w: World, run: seq<Action>)
    requires Ok(w) && CanRun(w, run) && NobodyStranded(w) && NeverStrands(w, run)
    ensures NobodyStranded(Run(w, run))
    decreases |run|
  {
    if run != [] {
      StrandedExactlyWhen(w, run[0]);
      StepOk(w, run[0]);
      RunStrandsNobody(Step(w, run[0]), run[1..]);
    }
  }

  const RAW: LD.Mode := LD.Mode(true, false, true)

  /** The current task can be parked, and some input that is no line yet is queued in canonical mode. */
  ghost predicate HalfTyped(w: World) {
    && Ok(w) && w.c.s.current != 0 && w.c.s.tasks[w.c.s.current].used
    && w.tty.mode.icanon && w.tty.queue != [] && !LD.CanRead(w.tty)
  }

  /** A blocking read parks the task there; a change to raw mode then makes the input readable, and the task waits on. */
  lemma ModeChangeStrands(w: World, len: nat)
    requires HalfTyped(w) && len > 0
    ensures var w2 := Step(w, ReadCall(len, false));
            Ok(w2) && NobodyStranded(w2) && !NobodyStranded(Step(w2, SetMode(RAW)))
  {
    StepOk(w, ReadCall(len, false));
    StrandedExactlyWhen(w, ReadCall(len, false));
    assert SlotInv(w.c.s.tasks[w.c.s.current], w.c.s.current);
    LD.BlocksExactlyWhen(w.tty, len);
    BlockedReadTakesNothing(w.tty, len, false);
    ParkedReaders(w.c, 0);
    assert w.c.s.current in Readers(Step(w, ReadCall(len, false)));
  }

  /** One letter typed at a new terminal, with nobody waiting, is enough. */
  lemma LetterIsHalfTyped(c: Config)
    requires Good(c) && RX < |c.s.ext| && c.s.current != 0 && c.s.tasks[c.s.current].used && Bits(c.s, Ext(RX)) == {}
    ensures HalfTyped(Step(World(c, LD.INIT), Input(LD.LETTER)))
  {
    var w := World(c, LD.INIT);
    StepOk(w, Input(LD.LETTER));
    var i := WakeOneWakesLowest(c.s, Ext(RX));
    var t := Step(w, Input(LD.LETTER)).tty;
    assert t.queue == [LD.LETTER];
    LD.CountZero(t.queue, LD.NL);
    LD.CountZero(t.queue, LD.VEOF);
  }

  /** console_wait_readable on an unready terminal parks the caller with its timeout; on a ready one, or without blocking, it does nothing. */
  lemma PollParksWithTimeout(w: World, timeout: nat, nonblock: bool)
    requires Ok(w) && w.c.s.current != 0 && w.c.s.tasks[w.c.s.current].used
    ensures var r := Step(w, WaitReadable(timeout, nonblock));
            && r.tty == w.tty
            && (LD.CanRead(w.tty) || nonblock ==> r == w)
            && (!LD.CanRead(w.tty) && !nonblock ==>
                  && SleepsUntil(r.c.s, w.c.s.current, if timeout == 0 then 0 else (w.c.s.ticks + timeout) % U32)
                  && r.c.s.tasks[w.c.s.current].waitq == Some(Ext(0)))
  {
    assert SlotInv(w.c.s.tasks[w.c.s.current], w.c.s.current);
    AttachSelf(w.c.s, Ext(RX), timeout);
  }

  /** A read that blocks parks its caller on the same queue, without a timeout; any other read parks nobody. */
  lemma BlockedReadParks(w: World, len: nat, nonblock: bool)
    requires Ok(w) && w.c.s.current != 0 && w.c.s.tasks[w.c.s.current].used
    ensures var r := Step(w, ReadCall(len, nonblock));
            if LD.Read(w.tty, len, nonblock).rc == -1
            then SleepsUntil(r.c.s, w.c.s.current, 0) && r.c.s.tasks[w.c.s.current].waitq == Some(Ext(0))
            else r.c == w.c
  {
    assert SlotInv(w.c.s.tasks[w.c.s.current], w.c.s.current);
    AttachSelf(w.c.s, Ext(RX), 0);
  }
}
