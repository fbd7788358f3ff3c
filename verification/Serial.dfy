/**
 The serial receive path: host threads enqueue bytes (io.c), guest code reads the status and
 KEYBOARD ports (vm.c), and the kernel's handler drains the device (kernel/src/irq.c). The shared
 lock makes each port access a critical section, but the interrupt bit is changed by atomic
 operations that other threads may interleave with, so the raises and the acknowledge inside a
 critical section are steps of their own.
 */
module Serial {
  import opened Bytes

  const CAPACITY: nat := 255

  /** What the holder of the shared lock still has to do. */
  datatype Section =
    | Free
    | EnqueueMustRaise      // vm_serial_rx_enqueue stored into an empty FIFO with interrupts on
    | ReadMustAck           // a KEYBOARD read has popped
    | ReadMustRaise         // it acknowledged, and bytes remain with interrupts on

  /** The INT_SERIAL handler on core 0: not running, about to test the status, or about to read. */
  datatype Handler = Idle | Check | Read

  datatype State = State(
    fifo: seq<byte>, ready: bool, ctrl: nat, pending: bool, section: Section, handler: Handler,
    accepted: seq<byte>, delivered: seq<byte>,   // history: bytes in, bytes out
    armed: bool,                                 // history: on since the FIFO was last empty
    taken: bool,                                 // history: the latest raise has been taken
    ignored: bool)                               // history: some take did not enter the drain handler

  const INIT: State := State([], false, 0, false, Free, Idle, [], [], false, false, false)

  predicate IntEnabled(ctrl: nat) {
    ctrl % 2 == 1
  }

  datatype Action =
    | Enqueue(c: byte)        // any host thread
    | FinishEnqueue
    | StrayRead               // IN from KEYBOARD outside the handler
    | AckRead
    | FinishRead
    | WriteCtrl(value: nat)   // OUT to SCREEN_ATTRIBUTE
    | ForeignRaise            // INT_SERIAL raised by someone else, e.g. an IPI
    | TakeInterrupt(drains: bool)   // core 0 takes it; drains: the vector is registered to the kernel's handler
    | HandlerCheck            // the handler tests RX_READY
    | HandlerRead

  predicate Enabled(s: State, a: Action) {
    match a
    case Enqueue(_) => s.section.Free?
    case FinishEnqueue => s.section.EnqueueMustRaise?
    case StrayRead => s.section.Free?
    case AckRead => s.section.ReadMustAck?
    case FinishRead => s.section.ReadMustRaise?
    case WriteCtrl(_) => s.section.Free?
    case ForeignRaise => true
    case TakeInterrupt(_) => s.pending && s.handler.Idle?
    case HandlerCheck => s.section.Free? && s.handler.Check?
    case HandlerRead => s.section.Free? && s.handler.Read?
  }

  function Accept(s: State, c: byte): State {
    if |s.fifo| >= CAPACITY then s
    else
      var s1 := s.(fifo := s.fifo + [c], accepted := s.accepted + [c]);
      if s.fifo == [] then
        s1.(ready := true, section := if IntEnabled(s.ctrl) then EnqueueMustRaise else Free)
      else s1
  }

  /** The value a KEYBOARD read returns: the oldest byte, or 0. */
  function ReadValue(s: State): byte {
    if s.fifo == [] then 0 else s.fifo[0]
  }

  function Pop(s: State): State {
    var rest := if s.fifo == [] then [] else s.fifo[1..];
    s.(fifo := rest, delivered := s.delivered + s.fifo[..|s.fifo| - |rest|], ready := rest != [],
       section := ReadMustAck, armed := s.armed || (rest == [] && IntEnabled(s.ctrl)))
  }

  function Acknowledge(s: State): State {
    s.(pending := false, section := if s.fifo != [] && IntEnabled(s.ctrl) then ReadMustRaise else Free)
  }

  /** INT_SERIAL of core 0 is set. */
  function Raised(s: State): State {
    s.(pending := true, taken := false)
  }

  function Next(s: State, a: Action): State {
    match a
    case Enqueue(c) => Accept(s, c)
    case FinishEnqueue => Raised(s).(section := Free)
    case StrayRead => Pop(s)
    case AckRead => Acknowledge(s)
    case FinishRead => Raised(s).(section := Free)
    case WriteCtrl(v) =>
      s.(ctrl := v % 256, armed := IntEnabled(v % 256) && (s.armed || s.fifo == []))
    case ForeignRaise => Raised(s)
    case TakeInterrupt(drains) =>
      s.(pending := false, taken := true, ignored := s.ignored || !drains, handler := if drains then Check else Idle)
    case HandlerCheck => s.(handler := if s.ready then Read else Idle)
    case HandlerRead => Pop(s).(handler := Check)
  }

  // ---------------------------------------------------------------------------
  // Invariants
  // ---------------------------------------------------------------------------

  /** Accepted bytes are the delivered ones followed by those still queued, and the status bit is true to the queue. */
  ghost predicate Lossless(s: State) {
    s.accepted == s.delivered + s.fifo && |s.fifo| <= CAPACITY && (s.ready <==> s.fifo != [])
  }

  /** The lock holder is about to raise, or about to acknowledge and then decide whether to raise. */
  ghost predicate RaiseDue(s: State) {
    s.section.EnqueueMustRaise? || s.section.ReadMustRaise? || s.section.ReadMustAck?
  }

  /** Queued input that interrupts were promised for has an interrupt, a running handler or a raise that is due. */
  ghost predicate Noticed(s: State) {
    s.pending || !s.handler.Idle? || RaiseDue(s)
  }

  ghost predicate Inv(s: State) {
    && Lossless(s)
    && (s.armed ==> IntEnabled(s.ctrl))
    && (IntEnabled(s.ctrl) && s.fifo == [] ==> s.armed)
    && (s.section.EnqueueMustRaise? || s.section.ReadMustRaise? ==> IntEnabled(s.ctrl))
    && (s.armed && s.fifo != [] ==> s.pending || s.taken || RaiseDue(s))
    && (s.armed && s.fifo != [] && !s.ignored ==> Noticed(s))
  }

  lemma NextInv(s: State, a: Action)
    requires Inv(s) && Enabled(s, a)
    ensures Inv(Next(s, a))
  {
    match a
    case StrayRead => PopLossless(s);
    case HandlerRead => PopLossless(s);
    case Enqueue(c) =>
      assert s.delivered + (s.fifo + [c]) == (s.delivered + s.fifo) + [c];
    case _ =>
  }

  lemma PopLossless(s: State)
    requires Lossless(s)
    ensures Lossless(Pop(s))
  {
    var r := Pop(s);
    if s.fifo != [] {
      assert s.fifo == s.fifo[..1] + s.fifo[1..];
      assert s.delivered + s.fifo == (s.delivered + s.fifo[..1]) + s.fifo[1..];
    }
  }

  ghost predicate Possible(s: State, run: seq<Action>)
    decreases |run|
  {
    run != [] ==> Enabled(s, run[0]) && Possible(Next(s, run[0]), run[1..])
  }

  function After(s: State, run: seq<Action>): State
    decreases |run|
  {
    if run == [] then s else After(Next(s, run[0]), run[1..])
  }

  lemma {:induction false} RunInv(s: State, run: seq<Action>)
    requires Inv(s) && Possible(s, run)
    ensures Inv(After(s, run))
    decreases |run|
  {
    if run != [] {
      NextInv(s, run[0]);
      RunInv(Next(s, run[0]), run[1..]);
    }
  }

  // ---------------------------------------------------------------------------
  // Theorems
  // ---------------------------------------------------------------------------

  /** Every accepted byte reaches a KEYBOARD read, in order; RX_READY holds exactly while bytes are queued. */
  lemma ReceiveIsLossless(run: seq<Action>)
    requires Possible(INIT, run)
    ensures var s := After(INIT, run);
            s.accepted == s.delivered + s.fifo && (s.ready <==> s.fifo != [])
  {
    RunInv(INIT, run);
  }

  /**
   No wakeup is lost: if RX interrupts were turned on while the FIFO was empty and stayed on, then
   whenever the lock is free and bytes are queued, INT_SERIAL is pending or was taken since it was last
   raised, whatever code the guest has registered for it.
   */
  lemma NoLostWakeup(run: seq<Action>)
    requires Possible(INIT, run)
    ensures var s := After(INIT, run);
            s.armed && s.section.Free? && s.fifo != [] ==> s.pending || s.taken
  {
    RunInv(INIT, run);
  }

  /** A KEYBOARD read delivers the byte it returns, the oldest one, or returns 0 and delivers nothing. */
  lemma ReadReturnsOldest(s: State)
    requires Lossless(s)
    ensures if s.fifo == [] then ReadValue(s) == 0 && Pop(s).delivered == s.delivered && Pop(s).fifo == []
            else Pop(s).delivered == s.delivered + [ReadValue(s)] && [ReadValue(s)] + Pop(s).fifo == s.fifo
  {
  }

  /** A read acknowledges: it leaves INT_SERIAL pending if and only if bytes remain and interrupts are on, for then it raises it again. */
  lemma ReadAcknowledges(s: State)
    requires Inv(s) && s.section.ReadMustAck?
    ensures var s1 := Next(s, AckRead);
            && !s1.pending && s1.fifo == s.fifo
            && (Enabled(s1, FinishRead) <==> s.fifo != [] && IntEnabled(s.ctrl))
            && (Enabled(s1, FinishRead) ==> Next(s1, FinishRead).pending && Next(s1, FinishRead).section.Free?)
            && (!Enabled(s1, FinishRead) ==> s1.section.Free?)
  {
  }

  /** A byte is accepted exactly while fewer than 255 are queued, at the end. */
  lemma AcceptsExactlyWhen(s: State, c: byte)
    ensures |s.fifo| < 255 ==> Accept(s, c).fifo == s.fifo + [c] && Accept(s, c).accepted == s.accepted + [c]
    ensures |s.fifo| >= 255 ==> Accept(s, c) == s
  {
  }

  /** Bit 0 of the byte last written to the control port decides whether interrupts are on. */
  lemma ControlBit(s: State, v: nat)
    ensures IntEnabled(Next(s, WriteCtrl(v)).ctrl) <==> v % 2 == 1
    ensures Next(s, WriteCtrl(v)).fifo == s.fifo && Next(s, WriteCtrl(v)).pending == s.pending && Next(s, WriteCtrl(v)).ready == s.ready
  {
  }

  /** Every interrupt taken in the run entered the kernel's drain handler. */
  ghost predicate AllDrain(run: seq<Action>) {
    forall i :: 0 <= i < |run| && run[i].TakeInterrupt? ==> run[i].drains
  }

  lemma {:induction false} NothingIgnored(s: State, run: seq<Action>)
    requires !s.ignored && AllDrain(run)
    ensures !After(s, run).ignored
    decreases |run|
  {
    if run != [] {
      assert run[0].TakeInterrupt? ==> run[0].drains;
      NothingIgnored(Next(s, run[0]), run[1..]);
    }
  }

  /** With the kernel's handler registered, such input has an interrupt pending or its handler running. */
  lemma KernelIsWoken(run: seq<Action>)
    requires Possible(INIT, run) && AllDrain(run)
    ensures var s := After(INIT, run);
            s.armed && s.section.Free? && s.fifo != [] ==> s.pending || !s.handler.Idle?
  {
    RunInv(INIT, run);
    NothingIgnored(INIT, run);
  }

  /** The handler leaves its loop only on an empty FIFO. */
  lemma DrainEndsOnEmpty(run: seq<Action>)
    requires Possible(INIT, run) && Enabled(After(INIT, run), HandlerCheck)
    ensures var s := After(INIT, run); Next(s, HandlerCheck).handler.Idle? <==> s.fifo == []
  {
    RunInv(INIT, run);
  }

  /** Actions that neither read the KEYBOARD port nor raise INT_SERIAL from outside. */
  predicate HandsOff(a: Action) {
    !a.StrayRead? && !a.ForeignRaise?
  }

  ghost predicate Stalled(s: State) {
    s.section.Free? && s.handler.Idle? && !s.pending && s.fifo != []
  }

  /** Input queued without an interrupt stays unnoticed however much more arrives and whatever is written to the control port. */
  lemma {:induction false} StallLasts(s: State, run: seq<Action>)
    requires Stalled(s) && Possible(s, run) && AllHandsOff(run)
    ensures Stalled(After(s, run))
    decreases |run|
  {
    if run != [] {
      assert HandsOff(run[0]);
      StallLasts(Next(s, run[0]), run[1..]);
    }
  }

  /** Interrupts stay enabled, and every one that is taken is drained. */
  predicate StaysOn(a: Action) {
    (a.WriteCtrl? ==> IntEnabled(a.value % 256)) && (a.TakeInterrupt? ==> a.drains)
  }

  ghost predicate AllStayOn(run: seq<Action>) {
    forall i :: 0 <= i < |run| ==> StaysOn(run[i])
  }

  ghost predicate AllHandsOff(run: seq<Action>) {
    forall i :: 0 <= i < |run| ==> HandsOff(run[i])
  }

  /** Queued bytes have an interrupt pending or the handler running, whenever the lock is free. */
  ghost predicate Covered(s: State) {
    s.section.Free? && s.fifo != [] ==> s.pending || !s.handler.Idle?
  }

  /** Interrupts are on, and whatever is queued has been noticed, however that came about. */
  ghost predicate Attended(s: State) {
    Lossless(s) && IntEnabled(s.ctrl) && (s.fifo != [] ==> Noticed(s))
  }

  lemma {:induction false} AttendedStays(s: State, run: seq<Action>)
    requires Attended(s) && Possible(s, run) && AllStayOn(run)
    ensures Attended(After(s, run))
    decreases |run|
  {
    if run != [] {
      assert StaysOn(run[0]);
      AttendedStep(s, run[0]);
      AttendedStays(Next(s, run[0]), run[1..]);
    }
  }

  lemma AttendedStep(s: State, a: Action)
    requires Attended(s) && Enabled(s, a) && StaysOn(a)
    ensures Attended(Next(s, a))
  {
    match a
    case StrayRead => PopLossless(s);
    case HandlerRead => PopLossless(s);
    case Enqueue(c) =>
      assert s.delivered + (s.fifo + [c]) == (s.delivered + s.fifo) + [c];
    case _ =>
  }

  ghost predicate AlwaysCovered(s: State) {
    forall run :: Possible(s, run) && AllStayOn(run) ==> Covered(After(s, run))
  }

  ghost predicate AlwaysStalled(s: State) {
    forall run :: Possible(s, run) && AllHandsOff(run) ==> Stalled(After(s, run))
  }

  lemma AttendedIsAlwaysCovered(s: State)
    requires Attended(s)
    ensures AlwaysCovered(s)
  {
    forall run | Possible(s, run) && AllStayOn(run)
      ensures Covered(After(s, run))
    {
      AttendedStays(s, run);
    }
  }

  lemma StalledIsAlwaysStalled(s: State)
    requires Stalled(s)
    ensures AlwaysStalled(s) && !AlwaysCovered(s)
  {
    forall run | Possible(s, run) && AllHandsOff(run)
      ensures Stalled(After(s, run))
    {
      StallLasts(s, run);
    }
    assert Possible(s, []) && AllStayOn([]) && !Covered(After(s, []));
  }

  /**
   Turning interrupts on covers the input for good, through every run in which they stay on, if and only
   if nothing was queued, an interrupt was pending or the handler was running. Otherwise the input stays
   unnoticed through every run without stray reads and foreign raises.
   */
  lemma EnablingCoversExactlyWhen(s: State, v: nat)
    requires Inv(s) && s.section.Free? && IntEnabled(v % 256)
    ensures AlwaysCovered(Next(s, WriteCtrl(v))) <==> s.fifo == [] || s.pending || !s.handler.Idle?
    ensures AlwaysCovered(Next(s, WriteCtrl(v))) || AlwaysStalled(Next(s, WriteCtrl(v)))
  {
    if s.fifo == [] || s.pending || !s.handler.Idle? {
      AttendedIsAlwaysCovered(Next(s, WriteCtrl(v)));
    } else {
      StalledIsAlwaysStalled(Next(s, WriteCtrl(v)));
    }
  }

  /** And that does happen: one byte before irq_input_init, and the terminal is deaf. */
  lemma EarlyByteStallsInput(c: byte)
    ensures var run := [Enqueue(c), WriteCtrl(1)];
            Possible(INIT, run) && IntEnabled(After(INIT, run).ctrl) && Stalled(After(INIT, run))
  {
    var run := [Enqueue(c), WriteCtrl(1)];
    assert run[1..] == [WriteCtrl(1)] && run[1..][1..] == [];
    var s1 := Next(INIT, Enqueue(c));
    assert s1.fifo == [c];
    assert Possible(s1, run[1..]);
    assert After(s1, run[1..]) == Next(s1, WriteCtrl(1));
  }
}
