/**
 The conversion of a nanosleep request to scheduler ticks (kernel/src/syscall.c), in 32-bit
 arithmetic with saturation, and what it means for the sleeping task.
 */
module Nanosleep {
  import opened Sched
  import opened SchedInv
  import opened SchedRuns
  import opened SchedTheorems

  const U32_MAX: nat := 0xFFFF_FFFF
  const NS_PER_SEC: nat := 1_000_000_000
  const US_PER_SEC: nat := 1_000_000
  const NS_PER_US: nat := 1000
  const TICK_US: nat := 50_000
  const NS_PER_TICK: nat := 50_000_000

  /** div_ceil_u32 */
  function DivCeil(n: nat, d: nat): nat {
    if d == 0 then U32_MAX else n / d + (if n % d != 0 then 1 else 0)
  }

  datatype Outcome = Invalid | NoSleep | SleepFor(ticks: nat)

  function TotalUs(sec: nat, nsec: nat): (us: nat)
    ensures us <= U32_MAX
  {
    if sec > U32_MAX / US_PER_SEC then U32_MAX
    else
      var whole := sec * US_PER_SEC;
      var frac := DivCeil(nsec, NS_PER_US);
      if frac > U32_MAX || whole > U32_MAX - frac then U32_MAX else whole + frac
  }

  /** The arithmetic of SYS_NANOSLEEP on a request it could read. */
  function Request(sec: int, nsec: int): Outcome {
    if sec < 0 || nsec < 0 || nsec >= NS_PER_SEC then Invalid
    else if sec == 0 && nsec == 0 then NoSleep
    else
      var ticks := DivCeil(TotalUs(sec, nsec), TICK_US);
      SleepFor(if ticks == 0 then 1 else ticks)
  }

  /** The smallest number of ticks that is at least as long as ns nanoseconds. */
  ghost predicate IsCeil(ticks: nat, ns: nat) {
    ticks * NS_PER_TICK >= ns && (ticks > 0 ==> (ticks - 1) * NS_PER_TICK < ns)
  }

  lemma DivCeilBounds(n: nat, d: nat)
    requires d > 0
    ensures DivCeil(n, d) * d >= n
    ensures DivCeil(n, d) > 0 ==> (DivCeil(n, d) - 1) * d < n
  {
    var q, r := n / d, n % d;
    assert n == q * d + r;
    assert (q + 1) * d == q * d + d;
    assert (q - 1) * d == q * d - d;
  }

  /** Without saturation the two nested ceilings are one ceiling over the whole request. */
  lemma NestedCeilingsCollapse(sec: nat, nsec: nat)
    requires nsec < NS_PER_SEC && sec * US_PER_SEC + DivCeil(nsec, NS_PER_US) <= U32_MAX
    ensures TotalUs(sec, nsec) == sec * US_PER_SEC + DivCeil(nsec, NS_PER_US)
    ensures IsCeil(DivCeil(TotalUs(sec, nsec), TICK_US), sec * NS_PER_SEC + nsec)
  {
    DivCeilBounds(nsec, NS_PER_US);
    DivCeilBounds(TotalUs(sec, nsec), TICK_US);
  }

  /** The longest sleep the 32-bit path can express: 85900 ticks. */
  const MAX_TICKS: nat := 85_900

  lemma SaturatedTicks(sec: nat, nsec: nat)
    requires nsec < NS_PER_SEC && sec * US_PER_SEC + DivCeil(nsec, NS_PER_US) > U32_MAX
    ensures DivCeil(TotalUs(sec, nsec), TICK_US) == MAX_TICKS
    ensures sec * NS_PER_SEC + nsec > (MAX_TICKS - 1) * NS_PER_TICK
  {
    DivCeilBounds(nsec, NS_PER_US);
    assert TotalUs(sec, nsec) == U32_MAX;
  }

  /**
   A valid non-zero request sleeps exactly the ceiling of its length in 50 ms ticks if and only if it
   is no longer than 85900 ticks; beyond that the code cuts it to 85900.
   */
  lemma SleepIsExactUpToSaturation(sec: nat, nsec: nat)
    requires nsec < NS_PER_SEC && (sec != 0 || nsec != 0)
    ensures var ns := sec * NS_PER_SEC + nsec;
            && Request(sec, nsec).SleepFor?
            && (IsCeil(Request(sec, nsec).ticks, ns) <==> ns <= MAX_TICKS * NS_PER_TICK)
            && (ns > MAX_TICKS * NS_PER_TICK ==> Request(sec, nsec).ticks == MAX_TICKS)
  {
    var ns := sec * NS_PER_SEC + nsec;
    if sec * US_PER_SEC + DivCeil(nsec, NS_PER_US) <= U32_MAX {
      NestedCeilingsCollapse(sec, nsec);
      DivCeilBounds(nsec, NS_PER_US);
      assert ns <= (sec * US_PER_SEC + DivCeil(nsec, NS_PER_US)) * NS_PER_US;
    } else {
      SaturatedTicks(sec, nsec);
    }
  }

  /** Which requests are refused, which return at once, and which sleep. */
  lemma RequestKinds(sec: int, nsec: int)
    ensures Request(sec, nsec).Invalid? <==> sec < 0 || nsec < 0 || nsec > 999_999_999
    ensures Request(sec, nsec).NoSleep? <==> sec == 0 && nsec == 0
  {
  }

  /** For instance 4296 seconds: 85920 ticks are due, the task sleeps 85900. */
  lemma LongSleepIsCut()
    ensures Request(4296, 0) == SleepFor(MAX_TICKS) && IsCeil(85_920, 4296 * NS_PER_SEC)
  {
    SleepIsExactUpToSaturation(4296, 0);
  }

  /** What a sleep of n ticks, begun at tick t, has come to after so many ticks. */
  predicate SleptEnough(t: nat, n: nat, ticks: nat) {
    TimeUp(t, (t + n) % U32, ticks)
  }

  /** Away from the end of the tick counter's range it is the plain comparison. */
  lemma SleptEnoughMeans(t: nat, n: nat, ticks: nat)
    requires 0 < n && t + n < U32
    ensures SleptEnough(t, n, ticks) <==> ticks >= n
  {
    SleepLength(t, n);
  }

  /** What a task that has called nanosleep for n ticks is doing after the events es. */
  ghost predicate SleepsAsAsked(c: Config, n: nat, es: seq<Event>)
    requires Shape(c.s) && Possible(Next(c, CallSleep(n)), es)
  {
    var c1, i := Next(c, CallSleep(n)), c.s.current;
    && (Asleep(After(c1, es).s.tasks[i]) <==> !WasReleased(c1, es, i) && !SleptEnough(c.s.ticks, n, TickCount(es)))
    && (Awake(After(c1, es).s, i) <==> WasReleased(c1, es, i) || SleptEnough(c.s.ticks, n, TickCount(es)))
  }

  lemma SleepCallWorks(c: Config, n: nat, es: seq<Event>)
    requires Good(c) && c.s.current != 0 && c.s.tasks[c.s.current].used && n > 0
    requires Possible(Next(c, CallSleep(n)), es) && NeverDisturbed(Next(c, CallSleep(n)), es, c.s.current)
    ensures SleepsAsAsked(c, n, es)
  {
    SleepCallOutcome(c, n, es);
  }

  /**
   The whole path: a live task, on a wait queue or on none, calls nanosleep for n ticks. Through any run
   in which it makes no call of its own that changes its state, it is asleep if and only if no wake of its
   queue has reached it and its time is not up, and awake otherwise; n is the exact ceiling of the request
   up to 85900 ticks.
   */
  lemma NanosleepWakesOnTime(c: Config, sec: nat, nsec: nat, n: nat, es: seq<Event>)
    requires Good(c) && c.s.current != 0 && c.s.tasks[c.s.current].used
    requires nsec < NS_PER_SEC && Request(sec, nsec) == SleepFor(n)
    requires Possible(Next(c, CallSleep(n)), es) && NeverDisturbed(Next(c, CallSleep(n)), es, c.s.current)
    ensures IsCeil(n, sec * NS_PER_SEC + nsec) <==> sec * NS_PER_SEC + nsec <= MAX_TICKS * NS_PER_TICK
    ensures SleepsAsAsked(c, n, es)
  {
    assert n > 0;
    SleepCallWorks(c, n, es);
    SleepIsExactUpToSaturation(sec, nsec);
  }

  /** The task that slept for n ticks is awake exactly if they have passed. */
  ghost predicate SleepsExactly(c: Config, n: nat, es: seq<Event>)
    requires Shape(c.s) && Possible(Next(c, CallSleep(n)), es)
  {
    var r, i := After(Next(c, CallSleep(n)), es).s, c.s.current;
    (Awake(r, i) <==> TickCount(es) >= n) && (Asleep(r.tasks[i]) <==> TickCount(es) < n)
  }

  lemma UndisturbedSleep(c: Config, n: nat, es: seq<Event>)
    requires Good(c) && c.s.current != 0 && c.s.tasks[c.s.current].used && c.s.tasks[c.s.current].waitq == None
    requires 0 < n && c.s.ticks + n < U32
    requires Possible(Next(c, CallSleep(n)), es) && NeverDisturbed(Next(c, CallSleep(n)), es, c.s.current)
    ensures SleepsExactly(c, n, es)
  {
    SleepCallOutcome(c, n, es);
    SleptEnoughMeans(c.s.ticks, n, TickCount(es));
  }

  /** A task on no queue, the counter not near its end: asleep before n ticks have passed, awake from then on. */
  lemma UndisturbedNanosleep(c: Config, sec: nat, nsec: nat, n: nat, es: seq<Event>)
    requires Good(c) && c.s.current != 0 && c.s.tasks[c.s.current].used && c.s.tasks[c.s.current].waitq == None
    requires nsec < NS_PER_SEC && Request(sec, nsec) == SleepFor(n) && c.s.ticks + n < U32
    requires Possible(Next(c, CallSleep(n)), es) && NeverDisturbed(Next(c, CallSleep(n)), es, c.s.current)
    ensures SleepsExactly(c, n, es)
  {
    assert n > 0;
    UndisturbedSleep(c, n, es);
  }
}
