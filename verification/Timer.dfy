/**
 The programmable timer thread of io_devices/time/timer.c: one loop turn samples the host clock,
 fires when the deadline has passed and catches up along the grid of deadlines.
 */
module Timer {
  const MIN_PERIOD_US: nat := 1000
  const NS_PER_US: nat := 1000

  /** What handle_programmable_tick and the timer thread share; deadline 0 means "not started". */
  datatype Timer = Timer(enabled: bool, period: nat, deadline: nat)

  const OFF: Timer := Timer(false, 0, 0)

  /** The k-th of the three stores of handle_programmable_tick, for a value written by the guest. */
  function Store(t: Timer, value: nat, k: nat): Timer {
    if value == 0 then
      if k == 0 then t.(enabled := false) else if k == 1 then t.(period := 0) else t.(deadline := 0)
    else
      if k == 0 then t.(period := if value < MIN_PERIOD_US then MIN_PERIOD_US else value)
      else if k == 1 then t.(deadline := 0)
      else t.(enabled := true)
  }

  /** Result of one turn: the timer, and the deadline that fired, if one did. */
  datatype Turn = Turn(timer: Timer, fired: bool, point: nat)

  function StepOf(t: Timer): nat {
    t.period * NS_PER_US
  }

  /** The deadline after a firing at d, when the clock reads now. */
  function CatchUp(d: nat, step: nat, now: nat): nat
    requires step > 0
  {
    var next := d + step;
    if next < now then next + step * ((now - next) / step + 1) else next
  }

  /** One turn of the loop; now1 and now2 are its two clock samples. */
  function Iterate(t: Timer, now1: nat, now2: nat): Turn {
    if !t.enabled then Turn(t.(deadline := 0), false, 0)
    else if t.period == 0 then Turn(t.(enabled := false, deadline := 0), false, 0)
    else
      var d := if t.deadline == 0 then now1 + StepOf(t) else t.deadline;
      if now1 < d then Turn(t.(deadline := d), false, 0)
      else Turn(t.(deadline := CatchUp(d, StepOf(t), now2)), true, d)
  }

  // ---------------------------------------------------------------------------
  // Programming the timer while its thread runs
  // ---------------------------------------------------------------------------

  /** Where the thread is in a turn, seen through its accesses to the shared fields. */
  datatype Pc =
    | Top                     // about to load timer_enabled
    | SawEnabled              // about to load timer_period_us
    | SawZero                 // about to store enabled = false
    | Cleared                 // about to store deadline = 0
    | Busy(period: nat)       // has its copy of the period; stores a deadline, or finds it is not yet due

  /** The timer, the value being programmed, how many of its three stores are done (3: none in progress), the thread. */
  datatype Shared = Shared(timer: Timer, value: nat, stores: nat, pc: Pc)

  const POWER_ON: Shared := Shared(OFF, 0, 3, Top)

  datatype Step =
    | Begin(value: nat) | NextStore                                                         // a guest core
    | LoadEnabled | LoadPeriod | Disable | ClearDeadline | StoreDeadline(d: nat) | NotYet   // the thread

  predicate Enabled(s: Shared, e: Step) {
    match e
    case Begin(_) => s.stores == 3
    case NextStore => s.stores < 3
    case LoadEnabled => s.pc.Top?
    case LoadPeriod => s.pc.SawEnabled?
    case Disable => s.pc.SawZero?
    case ClearDeadline => s.pc.Cleared?
    case StoreDeadline(_) => s.pc.Busy?
    case NotYet => s.pc.Busy?
  }

  function Next(s: Shared, e: Step): Shared {
    match e
    case Begin(v) => s.(value := v, stores := 0)
    case NextStore => s.(timer := Store(s.timer, s.value, s.stores), stores := s.stores + 1)
    case LoadEnabled => s.(pc := if s.timer.enabled then SawEnabled else Cleared)
    case LoadPeriod => s.(pc := if s.timer.period == 0 then SawZero else Busy(s.timer.period))
    case Disable => s.(timer := s.timer.(enabled := false), pc := Cleared)
    case ClearDeadline => s.(timer := s.timer.(deadline := 0), pc := Top)
    case StoreDeadline(d) => s.(timer := s.timer.(deadline := d), pc := Top)
    case NotYet => s.(pc := Top)
  }

  /** An enabled timer has a period of at least a millisecond. */
  ghost predicate Sane(t: Timer) {
    t.enabled ==> t.period >= MIN_PERIOD_US
  }

  ghost predicate SharedInv(s: Shared) {
    && s.stores <= 3 && Sane(s.timer)
    && (s.pc.Busy? ==> s.pc.period >= MIN_PERIOD_US)
    && (s.timer.period == 0 || s.timer.period >= MIN_PERIOD_US)
    && (1 <= s.stores && s.value != 0 ==> s.timer.period >= MIN_PERIOD_US)
    && (1 <= s.stores && s.value == 0 ==> !s.timer.enabled)
  }

  ghost predicate Possible(s: Shared, run: seq<Step>)
    decreases |run|
  {
    run != [] ==> Enabled(s, run[0]) && Possible(Next(s, run[0]), run[1..])
  }

  function After(s: Shared, run: seq<Step>): Shared
    decreases |run|
  {
    if run == [] then s else After(Next(s, run[0]), run[1..])
  }

  lemma {:induction false} RunKeepsShared(s: Shared, run: seq<Step>)
    requires SharedInv(s) && Possible(s, run)
    ensures SharedInv(After(s, run))
    decreases |run|
  {
    if run != [] {
      RunKeepsShared(Next(s, run[0]), run[1..]);
    }
  }

  /**
   However the guest programs the device, and wherever its stores fall between the thread's accesses: an
   enabled timer has a period of at least a millisecond, and so has the copy the thread divides by.
   */
  lemma AlwaysSane(run: seq<Step>)
    requires Possible(POWER_ON, run)
    ensures var s := After(POWER_ON, run);
            Sane(s.timer) && (s.pc.Busy? ==> s.pc.period >= MIN_PERIOD_US)
  {
    RunKeepsShared(POWER_ON, run);
  }

  ghost predicate NoBegin(run: seq<Step>) {
    forall i :: 0 <= i < |run| ==> !run[i].Begin?
  }

  /** The timer stays on as long as the guest leaves it alone. */
  ghost predicate StaysOn(s: Shared) {
    forall run :: Possible(s, run) && NoBegin(run) ==> After(s, run).timer.enabled
  }

  lemma {:induction false} EnabledLasts(s: Shared, run: seq<Step>)
    requires s.timer.enabled && s.timer.period > 0 && s.stores == 3 && !s.pc.SawZero?
    requires Possible(s, run) && NoBegin(run)
    ensures After(s, run).timer.enabled
    decreases |run|
  {
    if run != [] {
      assert !run[0].Begin?;
      EnabledLasts(Next(s, run[0]), run[1..]);
    }
  }

  /**
   A timer just programmed with a non-zero value stays on if and only if the thread is not about to switch
   it off: a zero period seen before the new one was stored still makes the thread store enabled = false.
   */
  lemma ProgrammingLastsExactlyWhen(s: Shared)
    requires SharedInv(s) && s.stores == 3 && s.value != 0 && s.timer.enabled
    ensures StaysOn(s) <==> !s.pc.SawZero?
  {
    if s.pc.SawZero? {
      var run := [Disable];
      assert run[1..] == [];
      assert Possible(s, run) && NoBegin(run) && !After(s, run).timer.enabled;
    } else {
      forall run | Possible(s, run) && NoBegin(run)
        ensures After(s, run).timer.enabled
      {
        EnabledLasts(s, run);
      }
    }
  }

  /** And that can happen: on, off and on again while the thread is between two loads, and the timer is dead. */
  lemma ProgrammingCanBeLost()
    ensures var on := [Begin(5000), NextStore, NextStore, NextStore];
            var run := on + [LoadEnabled] + [Begin(0), NextStore, NextStore, NextStore] + [LoadPeriod] + on + [Disable];
            Possible(POWER_ON, run) && var s := After(POWER_ON, run); s.value == 5000 && s.stores == 3 && !s.timer.enabled
  {
    var on := [Begin(5000), NextStore, NextStore, NextStore];
    var run := on + [LoadEnabled] + [Begin(0), NextStore, NextStore, NextStore] + [LoadPeriod] + on + [Disable];
    var s1 := Shared(Timer(true, 5000, 0), 5000, 3, Top);
    FourSteps(POWER_ON, 5000, run);
    var r1 := run[4..];
    assert r1[0] == LoadEnabled && r1[1..] == run[5..];
    FourSteps(s1.(pc := SawEnabled), 0, run[5..]);
    var r2 := run[5..][4..];
    assert r2[0] == LoadPeriod && r2[1..] == run[10..];
    FourSteps(Shared(OFF, 0, 3, SawZero), 5000, run[10..]);
    assert run[10..][4..] == [Disable];
    var last := [Disable];
    assert last[1..] == [];
  }

  /** A whole programming, in front of any run. */
  lemma FourSteps(s: Shared, v: nat, run: seq<Step>)
    requires s.stores == 3 && |run| >= 4 && run[..4] == [Begin(v), NextStore, NextStore, NextStore]
    ensures var r := s.(timer := Store(Store(Store(s.timer, v, 0), v, 1), v, 2), value := v);
            (Possible(s, run) <==> Possible(r, run[4..])) && After(s, run) == After(r, run[4..])
  {
    assert run[0] == run[..4][0] && run[1] == run[..4][1] && run[2] == run[..4][2] && run[3] == run[..4][3];
    assert run[1..][0] == run[1] && run[1..][1..] == run[2..];
    assert run[2..][0] == run[2] && run[2..][1..] == run[3..];
    assert run[3..][0] == run[3] && run[3..][1..] == run[4..];
    var s1 := Next(s, run[0]);
    var s2 := Next(s1, run[1]);
    var s3 := Next(s2, run[2]);
    var s4 := Next(s3, run[3]);
    assert Possible(s2, run[2..]) <==> Possible(s3, run[3..]);
    assert After(s2, run[2..]) == After(s4, run[4..]);
  }

  function GridPoint(first: nat, step: nat, k: nat): nat {
    first + k * step
  }

  /** d lies on the grid that starts at first. */
  ghost predicate OnGrid(first: nat, step: nat, d: nat) {
    exists k: nat :: d == GridPoint(first, step, k)
  }

  lemma GridAdd(first: nat, step: nat, d: nat, n: nat)
    requires OnGrid(first, step, d)
    ensures OnGrid(first, step, d + step * n)
  {
    var k: nat :| d == GridPoint(first, step, k);
    assert d + step * n == GridPoint(first, step, k + n);
  }

  /** After a firing the new deadline is on the grid, strictly later, and within one step of the clock. */
  lemma CatchUpLands(first: nat, d: nat, step: nat, now1: nat, now2: nat)
    requires step > 0 && d <= now1 <= now2 && OnGrid(first, step, d)
    ensures var d' := CatchUp(d, step, now2);
            OnGrid(first, step, d') && d' >= d + step && now2 <= d' <= now2 + step
  {
    var next := d + step;
    GridAdd(first, step, d, 1);
    if next < now2 {
      var behind := now2 - next;
      var skip := behind / step + 1;
      assert behind == (behind / step) * step + behind % step;
      assert step * skip == (behind / step) * step + step;
      GridAdd(first, step, next, skip);
    }
  }

  lemma MulMono(a: nat, b: nat, step: nat)
    requires a <= b
    ensures a * step <= b * step
  {
    assert b * step == a * step + (b - a) * step;
  }

  /** Only grid points that the clock has already reached are skipped. */
  lemma OnlyPastPointsSkipped(d: nat, step: nat, now2: nat, k: nat)
    requires step > 0 && d < d + k * step < CatchUp(d, step, now2)
    ensures d + k * step <= now2
  {
    var next := d + step;
    var q := if next < now2 then (now2 - next) / step else 0;
    var m := if next < now2 then q + 2 else 1;
    assert CatchUp(d, step, now2) == d + m * step;
    if k >= m {
      MulMono(m, k, step);
    } else if next < now2 {
      MulMono(k, q + 1, step);
      assert (q + 1) * step == q * step + step;
      assert now2 - next == q * step + (now2 - next) % step;
    }
  }

  // ---------------------------------------------------------------------------
  // A run with a fixed period
  // ---------------------------------------------------------------------------

  /** Clock samples of successive turns never go backwards. */
  ghost predicate Monotone(clock: seq<(nat, nat)>) {
    && (forall i :: 0 <= i < |clock| ==> clock[i].0 <= clock[i].1)
    && (forall i :: 0 <= i < |clock| - 1 ==> clock[i].1 <= clock[i + 1].0)
  }

  /** A deadline that fired, what the clock read when it did, and what it read when the thread caught up. */
  datatype Firing = Firing(point: nat, now: nat, again: nat)

  /** Firings so far: on the grid, never early, in strictly increasing order, before the next deadline. */
  ghost predicate FiredOk(fired: seq<Firing>, first: nat, step: nat, deadline: nat) {
    && (forall i :: 0 <= i < |fired| ==> OnGrid(first, step, fired[i].point) && fired[i].point <= fired[i].now)
    && (forall i :: 0 <= i < |fired| - 1 ==> fired[i].point + step <= fired[i + 1].point)
    && (fired != [] ==> fired[|fired| - 1].point + step <= deadline)
    && (fired != [] ==> fired[0].point >= first)
  }

  /** The grid point g has fired, or was passed over in catching up, when the clock had already reached it. */
  ghost predicate Accounted(fired: seq<Firing>, g: nat) {
    exists j :: 0 <= j < |fired| && (fired[j].point == g || fired[j].point < g <= fired[j].again)
  }

  /** Every grid point before the next deadline is accounted for: nothing is lost. */
  ghost predicate Complete(fired: seq<Firing>, first: nat, step: nat, deadline: nat) {
    forall g: nat :: OnGrid(first, step, g) && g < deadline ==> Accounted(fired, g)
  }

  lemma GridDistance(first: nat, step: nat, d: nat, g: nat) returns (k: nat)
    requires step > 0 && OnGrid(first, step, d) && OnGrid(first, step, g) && d < g
    ensures g == d + k * step
  {
    var a: nat :| d == GridPoint(first, step, a);
    var b: nat :| g == GridPoint(first, step, b);
    if b <= a {
      MulMono(b, a, step);
    }
    k := b - a;
    assert b * step == a * step + k * step;
  }

  lemma FiringCompletes(fired: seq<Firing>, first: nat, step: nat, d: nat, now1: nat, now2: nat)
    requires step > 0 && d <= now1 <= now2 && OnGrid(first, step, d) && Complete(fired, first, step, d)
    ensures Complete(fired + [Firing(d, now1, now2)], first, step, CatchUp(d, step, now2))
  {
    var more := fired + [Firing(d, now1, now2)];
    forall g: nat | OnGrid(first, step, g) && g < CatchUp(d, step, now2)
      ensures Accounted(more, g)
    {
      if g < d {
        var j :| 0 <= j < |fired| && (fired[j].point == g || fired[j].point < g <= fired[j].again);
        assert more[j] == fired[j];
      } else {
        assert more[|fired|] == Firing(d, now1, now2);
        if g > d {
          var k := GridDistance(first, step, d, g);
          OnlyPastPointsSkipped(d, step, now2, k);
        }
      }
    }
  }

  /** One turn: nothing fires while off; a timer just switched on aims one step ahead; a deadline fires exactly when it is due. */
  lemma TurnFiresExactlyWhenDue(t: Timer, now1: nat, now2: nat)
    ensures var turn := Iterate(t, now1, now2);
            && (!t.enabled || t.period == 0 ==> !turn.fired && turn.timer.deadline == 0 && !turn.timer.enabled)
            && (t.enabled && t.period > 0 && t.deadline == 0 ==> !turn.fired && turn.timer == t.(deadline := now1 + t.period * 1000))
            && (t.enabled && t.period > 0 && t.deadline != 0 ==>
                  && (turn.fired <==> t.deadline <= now1)
                  && (turn.fired ==> turn.point == t.deadline && turn.timer.deadline > t.deadline)
                  && (!turn.fired ==> turn.timer == t))
            && turn.timer.period == t.period && (t.period > 0 ==> turn.timer.enabled == t.enabled)
  {
    if t.enabled && t.period > 0 && t.deadline != 0 && t.deadline <= now1 {
      var next := t.deadline + StepOf(t);
      if next < now2 {
        MulMono(0, (now2 - next) / StepOf(t) + 1, StepOf(t));
      }
    }
  }

  /** What the three stores of a programming leave behind. */
  lemma ProgramMeans(t: Timer, v: nat)
    ensures var r := Store(Store(Store(t, v, 0), v, 1), v, 2);
            r.enabled == (v != 0) && r.deadline == 0 && r.period == (if v == 0 then 0 else if v < 1000 then 1000 else v)
  {
  }

  /** Every deadline that fires over the given clock samples, in order. */
  function Fires(t: Timer, clock: seq<(nat, nat)>): seq<Firing>
    decreases |clock|
  {
    if clock == [] then []
    else
      var turn := Iterate(t, clock[0].0, clock[0].1);
      (if turn.fired then [Firing(turn.point, clock[0].0, clock[0].1)] else []) + Fires(turn.timer, clock[1..])
  }

  /** The body of the thread's loop. */
  method TakeTurn(t: Timer, now1: nat, now2: nat) returns (turn: Turn)
    ensures turn == Iterate(t, now1, now2)
  {
    if !t.enabled {
      return Turn(t.(deadline := 0), false, 0);
    }
    var period := t.period;
    if period == 0 {
      return Turn(t.(enabled := false, deadline := 0), false, 0);
    }
    var step := period * NS_PER_US;
    var now, deadline := now1, t.deadline;
    if deadline == 0 {
      deadline := now + step;
    }
    if now < deadline {
      return Turn(t.(deadline := deadline), false, 0);
    }
    var point := deadline;
    deadline := deadline + step;
    now := now2;
    if deadline < now {
      var behind := now - deadline;
      var skip := behind / step + 1;
      deadline := deadline + step * skip;
    }
    turn := Turn(t.(deadline := deadline), true, point);
  }

  /** The first deadline of a run: one step after its first clock sample. */
  function First(period: nat, clock: seq<(nat, nat)>): nat
    requires clock != []
  {
    clock[0].0 + period * NS_PER_US
  }

  /** Where the timer aims after the first n turns. */
  ghost predicate Aimed(t: Timer, period: nat, clock: seq<(nat, nat)>, n: nat)
    requires 0 < n <= |clock|
  {
    && t.enabled && t.period == period && t.deadline > 0
    && OnGrid(First(period, clock), period * NS_PER_US, t.deadline)
    && clock[n - 1].0 <= t.deadline <= clock[n - 1].1 + period * NS_PER_US
  }

  /** What has fired by then. */
  ghost predicate History(fired: seq<Firing>, period: nat, clock: seq<(nat, nat)>, n: nat, deadline: nat)
    requires 0 < n <= |clock|
  {
    && FiredOk(fired, First(period, clock), period * NS_PER_US, deadline)
    && |fired| * (period * NS_PER_US) <= deadline - First(period, clock)
    && (forall i :: 0 <= i < |fired| ==> fired[i].now <= clock[n - 1].0)
    && (if fired == [] then clock[n - 1].0 < deadline == First(period, clock) else fired[0].point == First(period, clock))
  }

  /** What holds after the first n turns. */
  ghost predicate Going(t: Timer, fired: seq<Firing>, period: nat, clock: seq<(nat, nat)>, n: nat)
    requires 0 < n <= |clock|
  {
    && Aimed(t, period, clock, n)
    && History(fired, period, clock, n, t.deadline)
    && Complete(fired, First(period, clock), period * NS_PER_US, t.deadline)
  }

  lemma FiredOkGrows(fired: seq<Firing>, first: nat, step: nat, d: nat, now1: nat, now2: nat, d': nat)
    requires FiredOk(fired, first, step, d) && OnGrid(first, step, d) && first <= d <= now1 && d + step <= d'
    ensures FiredOk(fired + [Firing(d, now1, now2)], first, step, d')
  {
  }

  lemma CountGrows(n: nat, step: nat, first: nat, d: nat, d': nat)
    requires n * step <= d - first && d + step <= d'
    ensures (n + 1) * step <= d' - first
  {
    assert (n + 1) * step == n * step + step;
  }

  lemma FiringKeepsAimed(t: Timer, period: nat, clock: seq<(nat, nat)>, n: nat)
    requires period > 0 && 0 < n < |clock| && Monotone(clock) && Aimed(t, period, clock, n) && t.deadline <= clock[n].0
    ensures var d' := CatchUp(t.deadline, period * NS_PER_US, clock[n].1);
            Aimed(t.(deadline := d'), period, clock, n + 1) && t.deadline + period * NS_PER_US <= d'
  {
    CatchUpLands(First(period, clock), t.deadline, period * NS_PER_US, clock[n].0, clock[n].1);
  }

  lemma FiringKeepsHistory(fired: seq<Firing>, period: nat, clock: seq<(nat, nat)>, n: nat, d: nat, d': nat)
    requires period > 0 && 0 < n < |clock| && Monotone(clock) && History(fired, period, clock, n, d)
    requires OnGrid(First(period, clock), period * NS_PER_US, d) && d <= clock[n].0 && d + period * NS_PER_US <= d'
    ensures History(fired + [Firing(d, clock[n].0, clock[n].1)], period, clock, n + 1, d')
  {
    var first, step := First(period, clock), period * NS_PER_US;
    assert clock[n - 1].0 <= clock[n - 1].1 <= clock[n].0;
    CountGrows(|fired|, step, first, d, d');
    MulMono(0, |fired|, step);
    FiredOkGrows(fired, first, step, d, clock[n].0, clock[n].1, d');
  }

  /** A turn that finds the deadline due. */
  lemma FiringKeepsGoing(t: Timer, fired: seq<Firing>, period: nat, clock: seq<(nat, nat)>, n: nat)
    requires period > 0 && 0 < n < |clock| && Monotone(clock) && Going(t, fired, period, clock, n) && t.deadline <= clock[n].0
    ensures Going(t.(deadline := CatchUp(t.deadline, period * NS_PER_US, clock[n].1)),
                  fired + [Firing(t.deadline, clock[n].0, clock[n].1)], period, clock, n + 1)
  {
    var step := period * NS_PER_US;
    FiringKeepsAimed(t, period, clock, n);
    FiringKeepsHistory(fired, period, clock, n, t.deadline, CatchUp(t.deadline, step, clock[n].1));
    FiringCompletes(fired, First(period, clock), step, t.deadline, clock[n].0, clock[n].1);
  }

  lemma TurnKeepsGoing(t: Timer, fired: seq<Firing>, period: nat, clock: seq<(nat, nat)>, n: nat)
    requires period > 0 && 0 < n < |clock| && Monotone(clock) && Going(t, fired, period, clock, n)
    ensures var turn := Iterate(t, clock[n].0, clock[n].1);
            Going(turn.timer, if turn.fired then fired + [Firing(turn.point, clock[n].0, clock[n].1)] else fired, period, clock, n + 1)
  {
    assert clock[n - 1].0 <= clock[n - 1].1 <= clock[n].0 <= clock[n].1;
    if t.deadline <= clock[n].0 {
      FiringKeepsGoing(t, fired, period, clock, n);
    }
  }

  lemma FirstTurn(period: nat, clock: seq<(nat, nat)>)
    requires period > 0 && clock != [] && Monotone(clock)
    ensures var turn := Iterate(Timer(true, period, 0), clock[0].0, clock[0].1);
            !turn.fired && Going(turn.timer, [], period, clock, 1)
  {
    var first, step := First(period, clock), period * NS_PER_US;
    assert first == GridPoint(first, step, 0);
    forall g: nat | OnGrid(first, step, g)
      ensures g >= first
    {
      var k: nat :| g == GridPoint(first, step, k);
      MulMono(0, k, step);
    }
  }

  lemma FiresStep(t: Timer, clock: seq<(nat, nat)>, i: nat, fired: seq<Firing>)
    requires i < |clock|
    ensures var turn := Iterate(t, clock[i].0, clock[i].1);
            fired + Fires(t, clock[i..]) ==
            (if turn.fired then fired + [Firing(turn.point, clock[i].0, clock[i].1)] else fired) + Fires(turn.timer, clock[i + 1..])
  {
    assert clock[i..][1..] == clock[i + 1..];
  }

  /** The thread has taken n turns, and the rest of the run is still to come. */
  ghost predicate Underway(t: Timer, fired: seq<Firing>, period: nat, clock: seq<(nat, nat)>, n: nat) {
    && n <= |clock|
    && (if n == 0 then t == Timer(true, period, 0) && fired == [] else Going(t, fired, period, clock, n))
    && fired + Fires(t, clock[n..]) == Fires(Timer(true, period, 0), clock)
  }

  lemma TurnTaken(t: Timer, fired: seq<Firing>, period: nat, clock: seq<(nat, nat)>, n: nat)
    requires period > 0 && n < |clock| && Monotone(clock) && Underway(t, fired, period, clock, n)
    ensures var turn := Iterate(t, clock[n].0, clock[n].1);
            Underway(turn.timer, if turn.fired then fired + [Firing(turn.point, clock[n].0, clock[n].1)] else fired, period, clock, n + 1)
  {
    FiresStep(t, clock, n, fired);
    if n == 0 {
      FirstTurn(period, clock);
    } else {
      TurnKeepsGoing(t, fired, period, clock, n);
    }
  }

  lemma RunOver(t: Timer, fired: seq<Firing>, period: nat, clock: seq<(nat, nat)>)
    requires clock != [] && Underway(t, fired, period, clock, |clock|)
    ensures fired == Fires(Timer(true, period, 0), clock) && Going(t, fired, period, clock, |clock|)
  {
    assert clock[|clock|..] == [] && fired + [] == fired;
  }

  /**
   The timer thread over any monotone clock: it fires grid points in order, each at most once and never
   early, the first of them first; its last deadline is on the grid, not before the last turn's first
   sample and at most one step ahead of its second; and every grid point before that deadline has fired or
   was passed over when the clock had already reached it.
   */
  method RunThread(period: nat, clock: seq<(nat, nat)>) returns (fired: seq<Firing>, t: Timer)
    requires period >= MIN_PERIOD_US && clock != [] && Monotone(clock)
    ensures fired == Fires(Timer(true, period, 0), clock)
    ensures Going(t, fired, period, clock, |clock|)
  {
    t, fired := Timer(true, period, 0), [];
    assert clock[0..] == clock;
    var i := 0;
    while i < |clock|
      invariant 0 <= i <= |clock| && Underway(t, fired, period, clock, i)
    {
      var turn := TakeTurn(t, clock[i].0, clock[i].1);
      TurnTaken(t, fired, period, clock, i);
      t, fired, i := turn.timer, if turn.fired then fired + [Firing(turn.point, clock[i].0, clock[i].1)] else fired, i + 1;
    }
    RunOver(t, fired, period, clock);
  }

  /** So a run whose last turn begins at or after the first deadline has fired it. */
  lemma FirstDeadlineFires(t: Timer, fired: seq<Firing>, period: nat, clock: seq<(nat, nat)>)
    requires period > 0 && clock != [] && Going(t, fired, period, clock, |clock|)
    requires clock[|clock| - 1].0 >= First(period, clock)
    ensures fired != [] && fired[0].point == First(period, clock) <= fired[0].now
  {
  }
}
