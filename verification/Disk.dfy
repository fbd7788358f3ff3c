/**
 The command / worker / tick handshake of io_devices/disk/disk.c. Each critical section under the
 disk mutex is one step, and so are the transfer itself and the tick's unlocked test of the status;
 any interleaving of guest, worker and tick is a run. A worker asleep on the condition variable moves
 only when it is signalled (or woken spuriously). The guest is assumed to leave the parameter
 ports alone while a command is in flight; a transfer is one entry of the processed history.
 */
module Disk {
  const CMD_NONE: int := 0

  datatype Request = Request(cmd: int, lba: nat, mem: nat, count: nat)

  datatype Worker =
    | AtHead                // about to look at the command, mutex held
    | Asleep                // in pthread_cond_wait
    | Holding(req: Request) // command and parameters copied, mutex released
    | Transferred           // transfer over, about to report
    | Exited

  datatype Tick = Away | SawBusy

  datatype State = State(
    busy: bool, current: int, opComplete: bool, running: bool, lba: nat, mem: nat, count: nat,
    worker: Worker, tick: Tick,
    accepted: seq<Request>, processed: seq<Request>, completions: nat)   // history

  const INIT: State := State(false, CMD_NONE, false, true, 0, 0, 0, AtHead, Away, [], [], 0)

  datatype Action =
    | Command(value: int)
    | WritePorts(lba: nat, mem: nat, count: nat)
    | Wait | Spurious | Fetch | Transfer | Report | Leave   // the worker
    | TickTest | TickFinish                                 // disk_tick on core 0
    | Close

  predicate Enabled(s: State, a: Action) {
    match a
    case Command(_) => true
    case WritePorts(_, _, _) => !s.busy
    case Wait => s.worker.AtHead? && s.running && s.current == CMD_NONE
    case Spurious => s.worker.Asleep?
    case Fetch => s.worker.AtHead? && s.running && s.current != CMD_NONE
    case Transfer => s.worker.Holding?
    case Report => s.worker.Transferred?
    case Leave => s.worker.AtHead? && !s.running
    case TickTest => s.tick.Away?
    case TickFinish => s.tick.SawBusy?
    case Close => true
  }

  /** pthread_cond_signal: a sleeping worker goes back to the head of its loop; nobody else notices. */
  function Signalled(w: Worker): Worker {
    if w.Asleep? then AtHead else w
  }

  function Issue(s: State, value: int): State {
    if s.busy then s
    else
      s.(current := value, busy := true, opComplete := false, worker := Signalled(s.worker),
         accepted := s.accepted + [Request(value, s.lba, s.mem, s.count)])
  }

  function FinishTick(s: State): State {
    if s.opComplete then s.(tick := Away, busy := false, opComplete := false, completions := s.completions + 1)
    else s.(tick := Away)
  }

  function Next(s: State, a: Action): State
    requires Enabled(s, a)
  {
    match a
    case Command(v) => Issue(s, v)
    case WritePorts(l, m, n) => s.(lba := l, mem := m, count := n)
    case Wait => s.(worker := Asleep)
    case Spurious => s.(worker := AtHead)
    case Fetch => s.(worker := Holding(Request(s.current, s.lba, s.mem, s.count)))
    case Transfer => s.(worker := Transferred, processed := s.processed + [s.worker.req])
    case Report => s.(worker := AtHead, current := CMD_NONE, opComplete := true)
    case Leave => s.(worker := Exited)
    case TickTest => s.(tick := if s.busy then SawBusy else Away)
    case TickFinish => FinishTick(s)
    case Close => s.(running := false, worker := Signalled(s.worker))
  }

  // ---------------------------------------------------------------------------
  // The invariant
  // ---------------------------------------------------------------------------

  function InFlight(s: State): Request
    requires s.accepted != []
  {
    s.accepted[|s.accepted| - 1]
  }

  /** No command is being worked on: everything accepted has been processed. */
  ghost predicate AllProcessed(s: State) {
    s.processed == s.accepted && s.current == CMD_NONE && !s.worker.Holding? && !s.worker.Transferred?
  }

  /** A command is in flight and not yet reported. */
  ghost predicate Working(s: State) {
    && s.accepted != [] && s.current == InFlight(s).cmd
    && InFlight(s) == Request(s.current, s.lba, s.mem, s.count)
    && match s.worker
       case Transferred => s.processed == s.accepted && s.current != CMD_NONE
       case Holding(r) => r == InFlight(s) && r.cmd != CMD_NONE && s.processed == s.accepted[..|s.accepted| - 1]
       case _ => s.processed == s.accepted[..|s.accepted| - 1]
  }

  ghost predicate Inv(s: State) {
    && |s.accepted| == s.completions + (if s.busy then 1 else 0)
    && (s.worker.Exited? ==> !s.running)
    && (s.worker.Asleep? ==> s.current == CMD_NONE && s.running)
    && (s.opComplete ==> s.busy)
    && (if s.busy && !s.opComplete then Working(s) else AllProcessed(s))
  }

  lemma IssueKeepsInv(s: State, v: int)
    requires Inv(s)
    ensures Inv(Issue(s, v))
  {
    if !s.busy {
      var r := Issue(s, v);
      assert r.accepted[..|r.accepted| - 1] == s.accepted;
    }
  }

  lemma TransferKeepsInv(s: State)
    requires Inv(s) && Enabled(s, Transfer)
    ensures Inv(Next(s, Transfer))
  {
    assert s.accepted == s.accepted[..|s.accepted| - 1] + [InFlight(s)];
  }

  lemma NextInv(s: State, a: Action)
    requires Inv(s) && Enabled(s, a)
    ensures Inv(Next(s, a))
  {
    match a
    case Command(v) => IssueKeepsInv(s, v);
    case Transfer => TransferKeepsInv(s);
    case _ =>
  }

  ghost predicate Possible(s: State, run: seq<Action>)
    decreases |run|
  {
    run != [] ==> Enabled(s, run[0]) && Possible(Next(s, run[0]), run[1..])
  }

  ghost function After(s: State, run: seq<Action>): State
    requires Possible(s, run)
    decreases |run|
  {
    if run == [] then s else After(Next(s, run[0]), run[1..])
  }

  lemma {:induction false} RunInv(s: State, run: seq<Action>)
    requires Inv(s) && Possible(s, run)
    ensures Inv(After(s, run))
    decreases |run|
  {
    if run != [] {
      NextInv(s, run[0]);
      RunInv(Next(s, run[0]), run[1..]);
    }
  }

  // ---------------------------------------------------------------------------
  // Theorems
  // ---------------------------------------------------------------------------

  /** Accepted commands are the completion interrupts raised so far, plus one exactly while BUSY. */
  lemma CommandsAreConserved(run: seq<Action>)
    requires Possible(INIT, run)
    ensures var s := After(INIT, run);
            |s.accepted| == s.completions + (if s.busy then 1 else 0)
  {
    RunInv(INIT, run);
  }

  /** Transfers are performed once each, in order, with the parameters the command was issued with. */
  lemma TransfersFollowCommands(run: seq<Action>)
    requires Possible(INIT, run)
    ensures var s := After(INIT, run);
            s.processed <= s.accepted && |s.accepted| <= |s.processed| + 1
  {
    RunInv(INIT, run);
  }

  /** A completion interrupt is raised only when BUSY, with no command pending and every accepted command processed. */
  lemma InterruptNeverPrecedesTransfer(run: seq<Action>, a: Action)
    requires Possible(INIT, run) && Enabled(After(INIT, run), a)
    requires Next(After(INIT, run), a).completions != After(INIT, run).completions
    ensures var s := After(INIT, run);
            && s.busy && s.opComplete && s.current == CMD_NONE
            && s.processed == s.accepted
            && Next(s, a).completions == s.completions + 1 && !Next(s, a).busy
  {
    RunInv(INIT, run);
  }

  /** No signal is lost: a worker asleep on the condition variable has nothing to do, in every run. */
  lemma NoLostSignal(run: seq<Action>)
    requires Possible(INIT, run)
    ensures var s := After(INIT, run);
            s.worker.Asleep? ==> s.current == CMD_NONE && s.running
  {
    RunInv(INIT, run);
  }

  /**
   The signal is what makes this work: a worker left asleep on a command, as it would be without the
   signal of disk_cmd, never completes it unless it wakes spuriously or the drive is closed.
   */
  lemma {:induction false} WithoutSignalNothingCompletes(s: State, run: seq<Action>)
    requires s.busy && !s.opComplete && s.worker.Asleep? && Possible(s, run)
    requires forall i :: 0 <= i < |run| ==> !run[i].Spurious? && !run[i].Close?
    ensures After(s, run).busy && After(s, run).completions == s.completions
    decreases |run|
  {
    if run != [] {
      WithoutSignalNothingCompletes(Next(s, run[0]), run[1..]);
    }
  }

  /** What the guest wrote to the ports is what the command carries, and what the worker transfers. */
  lemma PortsReachTheTransfer(s: State, lba: nat, mem: nat, count: nat, v: int)
    requires Inv(s) && !s.busy && s.running && s.worker.AtHead? && v != CMD_NONE
    ensures var s1 := Next(Next(s, WritePorts(lba, mem, count)), Command(v));
            && s1.accepted == s.accepted + [Request(v, lba, mem, count)]
            && s1.busy && Enabled(s1, Fetch) && Enabled(Next(s1, Fetch), Transfer)
            && (var done := Next(Next(s1, Fetch), Transfer).processed;
                done == s.processed + [Request(v, lba, mem, count)])
    ensures var r := Request(v, lba, mem, count); r.cmd == v && r.lba == lba && r.mem == mem && r.count == count
  {
  }

  /** A command issued while BUSY changes nothing. */
  lemma BusyIgnoresCommands(s: State, v: int)
    ensures s.busy <==> Next(s, Command(v)) == s
  {
    if !s.busy {
      assert Next(s, Command(v)).busy;
    }
  }

  /** Worker and tick steps still needed before the drive is free again. */
  function Remaining(s: State): nat {
    if !s.busy then 0
    else
      var work :=
        if s.opComplete then 0
        else if s.worker.Transferred? then 1
        else if s.worker.Holding? then 2
        else 3;
      work + (if s.tick.SawBusy? then 1 else 2)
  }

  /** A step that brings completion closer. */
  function Helpful(s: State): Action {
    if s.opComplete then (if s.tick.SawBusy? then TickFinish else TickTest)
    else if s.worker.Transferred? then Report
    else if s.worker.Holding? then Transfer
    else Fetch
  }

  /** While a non-zero command is in flight and the worker runs, some worker or tick step is enabled and makes progress. */
  lemma AlwaysProgress(s: State)
    requires Inv(s) && s.busy && s.running && (s.opComplete || s.current != CMD_NONE)
    ensures Enabled(s, Helpful(s))
    ensures Remaining(Next(s, Helpful(s))) < Remaining(s)
  {
  }

  /** So at most five worker and tick steps later the interrupt has been raised. */
  lemma {:induction false} CompletionReachable(s: State) returns (run: seq<Action>)
    requires Inv(s) && s.busy && s.running && (s.opComplete || s.current != CMD_NONE)
    ensures |run| <= Remaining(s) <= 5 && Possible(s, run)
    ensures !After(s, run).busy && After(s, run).completions == s.completions + 1
    ensures forall i :: 0 <= i < |run| ==> !run[i].Command? && !run[i].WritePorts? && !run[i].Close?
    decreases Remaining(s)
  {
    var a := Helpful(s);
    AlwaysProgress(s);
    NextInv(s, a);
    var s1 := Next(s, a);
    if s1.busy {
      var rest := CompletionReachable(s1);
      run := [a] + rest;
      assert run[1..] == rest;
    } else {
      run := [a];
      assert run[1..] == [];
    }
  }

  predicate IsWorkerStep(a: Action) {
    a.Wait? || a.Spurious? || a.Fetch? || a.Transfer? || a.Report? || a.Leave?
  }

  predicate IsTickStep(a: Action) {
    a.TickTest? || a.TickFinish?
  }

  function WorkerSteps(run: seq<Action>): nat {
    if run == [] then 0 else (if IsWorkerStep(run[0]) then 1 else 0) + WorkerSteps(run[1..])
  }

  function TickSteps(run: seq<Action>): nat {
    if run == [] then 0 else (if IsTickStep(run[0]) then 1 else 0) + TickSteps(run[1..])
  }

  /** Worker steps still needed for the command in flight. */
  function WorkLeft(s: State): nat {
    if !s.busy || s.opComplete then 0
    else if s.worker.Transferred? then 1
    else if s.worker.Holding? then 2
    else 3
  }

  /** A command that is not 0 is in flight, or already processed, and the worker has not been told to stop. */
  ghost predicate Proceeding(s: State) {
    Inv(s) && s.busy && s.running && (s.opComplete || s.current != CMD_NONE)
  }

  /** Any step but a close: the drive completes, or goes on with no more work left; each worker step before completion is real work. */
  lemma StepProceeds(s: State, a: Action)
    requires Proceeding(s) && Enabled(s, a) && !a.Close?
    ensures var r := Next(s, a);
            || r.completions == s.completions + 1
            || (Proceeding(r) && r.completions == s.completions && WorkLeft(r) <= WorkLeft(s)
                && (s.opComplete ==> r.opComplete)
                && (IsWorkerStep(a) && !s.opComplete ==> WorkLeft(r) < WorkLeft(s)))
  {
    NextInv(s, a);
  }

  lemma {:induction false} CompletionsGrow(s: State, run: seq<Action>)
    requires Possible(s, run)
    ensures After(s, run).completions >= s.completions
    decreases |run|
  {
    if run != [] {
      CompletionsGrow(Next(s, run[0]), run[1..]);
    }
  }

  /** Enough worker steps, whatever else happens in between, finish the work. */
  lemma {:induction false} WorkersFinish(s: State, run: seq<Action>)
    requires Proceeding(s) && Possible(s, run) && WorkerSteps(run) >= WorkLeft(s)
    requires forall i :: 0 <= i < |run| ==> !run[i].Close?
    ensures var r := After(s, run);
            r.completions > s.completions || (Proceeding(r) && r.opComplete && r.completions == s.completions)
    decreases |run|
  {
    if run != [] {
      var s1 := Next(s, run[0]);
      StepProceeds(s, run[0]);
      if s1.completions == s.completions {
        WorkersFinish(s1, run[1..]);
      } else {
        CompletionsGrow(s1, run[1..]);
      }
    }
  }

  /** Then two tick steps, or one that had already seen BUSY, raise the interrupt. */
  lemma {:induction false} TicksFinish(s: State, run: seq<Action>)
    requires Proceeding(s) && s.opComplete && Possible(s, run)
    requires TickSteps(run) >= (if s.tick.SawBusy? then 1 else 2)
    requires forall i :: 0 <= i < |run| ==> !run[i].Close?
    ensures After(s, run).completions > s.completions
    decreases |run|
  {
    var s1 := Next(s, run[0]);
    StepProceeds(s, run[0]);
    if s1.completions == s.completions {
      TicksFinish(s1, run[1..]);
    } else {
      CompletionsGrow(s1, run[1..]);
    }
  }

  lemma {:induction false} RunSplits(s: State, a: seq<Action>, b: seq<Action>)
    requires Possible(s, a + b)
    ensures Possible(s, a) && Possible(After(s, a), b) && After(s, a + b) == After(After(s, a), b)
    decreases |a|
  {
    if a == [] {
      assert a + b == b;
    } else {
      assert (a + b)[1..] == a[1..] + b;
      RunSplits(Next(s, a[0]), a[1..], b);
    }
  }

  /**
   In every run, not just along some path: with a non-zero command in flight and no close, three worker
   steps and then two tick steps, in whatever company, have raised the completion interrupt.
   */
  lemma EveryBusyRunCompletes(s: State, a: seq<Action>, b: seq<Action>)
    requires Proceeding(s) && Possible(s, a + b)
    requires forall i :: 0 <= i < |a + b| ==> !(a + b)[i].Close?
    requires WorkerSteps(a) >= 3 && TickSteps(b) >= 2
    ensures After(s, a + b).completions > s.completions
  {
    RunSplits(s, a, b);
    forall i | 0 <= i < |a|
      ensures !a[i].Close?
    {
      assert (a + b)[i] == a[i];
    }
    forall i | 0 <= i < |b|
      ensures !b[i].Close?
    {
      assert (a + b)[|a| + i] == b[i];
    }
    WorkersFinish(s, a);
    if After(s, a).completions > s.completions {
      CompletionsGrow(After(s, a), b);
    } else {
      TicksFinish(After(s, a), b);
    }
  }

  /** Command 0 is accepted, and then nothing ever completes it: the drive stays BUSY through every run. */
  lemma {:induction false} CommandZeroHangs(s: State, run: seq<Action>)
    requires Inv(s) && s.busy && !s.opComplete && s.current == CMD_NONE && Possible(s, run)
    ensures After(s, run).busy && After(s, run).completions == s.completions
    decreases |run|
  {
    if run != [] {
      NextInv(s, run[0]);
      CommandZeroHangs(Next(s, run[0]), run[1..]);
    }
  }

  /** A command issued to an idle drive whose worker runs can complete if and only if it is not 0. */
  lemma CompletesExactlyWhenNonZero(s: State, v: int)
    requires Inv(s) && !s.busy && s.running
    ensures (exists run :: Possible(Next(s, Command(v)), run) && !After(Next(s, Command(v)), run).busy) <==> v != CMD_NONE
  {
    var s1 := Next(s, Command(v));
    NextInv(s, Command(v));
    if v != CMD_NONE {
      var run := CompletionReachable(s1);
    } else {
      forall run | Possible(s1, run)
        ensures After(s1, run).busy
      {
        CommandZeroHangs(s1, run);
      }
    }
  }

  // ---------------------------------------------------------------------------
  // The device as code
  // ---------------------------------------------------------------------------

  class Device {
    var busy: bool
    var current: int
    var opComplete: bool
    var running: bool
    var lba: nat
    var mem: nat
    var count: nat
    ghost var worker: Worker
    ghost var tick: Tick
    ghost var accepted: seq<Request>
    ghost var processed: seq<Request>
    ghost var completions: nat

    ghost function View(): State
      reads this
    {
      State(busy, current, opComplete, running, lba, mem, count, worker, tick, accepted, processed, completions)
    }

    constructor ()
      ensures View() == INIT
    {
      busy, current, opComplete, running := false, CMD_NONE, false, true;
      lba, mem, count := 0, 0, 0;
      worker, tick, accepted, processed, completions := AtHead, Away, [], [], 0;
    }

    /** pthread_cond_signal on cond_var: what it does to the worker thread. */
    ghost method Signal()
      modifies this`worker
      ensures worker == Signalled(old(worker))
    {
      worker := Signalled(worker);
    }

    /** disk_cmd */
    method IssueCommand(value: int)
      modifies this
      ensures View() == Next(old(View()), Command(value))
    {
      if busy { return; }
      current := value;
      busy := true;
      opComplete := false;
      accepted := accepted + [Request(value, lba, mem, count)];
      Signal();
    }

    /** The first critical section of disk_close. */
    method StopWorker()
      modifies this
      ensures View() == Next(old(View()), Close)
    {
      running := false;
      Signal();
    }

    /** The second critical section of disk_tick; returns whether INT_DISK_COMPLETE is raised. */
    method TickLocked() returns (raised: bool)
      requires tick.SawBusy?
      modifies this
      ensures View() == Next(old(View()), TickFinish)
      ensures raised <==> old(opComplete)
    {
      raised := false;
      if opComplete {
        busy := false;
        opComplete := false;
        raised := true;
        completions := completions + 1;
      }
      tick := Away;
    }

    /**
     The head of the worker's loop, reached from above or woken out of pthread_cond_wait: sleep (again),
     exit, or copy the command out.
     */
    method WorkerHead() returns (next: Action, req: Request)
      requires worker.AtHead?
      modifies this`worker
      ensures Enabled(old(View()), next) && View() == Next(old(View()), next)
      ensures next == Wait || next == Leave || (next == Fetch && worker == Holding(req))
    {
      req := Request(current, lba, mem, count);
      if current == CMD_NONE && running {
        worker := Asleep;
        return Wait, req;
      }
      if !running {
        worker := Exited;
        return Leave, req;
      }
      worker := Holding(req);
      next := Fetch;
    }

    /** The worker's second critical section. */
    method WorkerReport()
      requires worker.Transferred?
      modifies this
      ensures View() == Next(old(View()), Report)
    {
      current := CMD_NONE;
      opComplete := true;
      worker := AtHead;
    }
  }
}
