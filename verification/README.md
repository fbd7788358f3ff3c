# LampVM, modelled and proved

LampVM is an SMP virtual machine with a small kernel that runs on it. This project models the parts
whose correctness is hardest to see from the code, and proves what they promise:

- **The kernel scheduler** (`Sched`, `SchedInv`, `SchedCalls`, `SchedRuns`, `SchedTheorems`, `SchedLaws`): task slots, bitmap
  wait queues, sleeping, spawn / exit / waitpid, nested pumping and the outer scheduling loop. A run is any
  interleaving of scheduler calls by arbitrary task code with timer ticks; the theorems hold in every reachable
  configuration. `SchedObject` is the same scheduler as a class over an array of slots and 32-bit queue words, method
  by method. `Bitmap` relates machine words to the sets of their one bits, `Search` is the scan for a first match.
- **Descriptor tables** (`FdTable`, `FdPosix`, `FdTableObject`): reference-counted open files, proved to refine the
  open-file-description model of section 2.14 of POSIX.1-2017 System Interfaces.
- **The terminal** (`LineDiscipline`, `TtyLaws`, `Ring`, `ConsoleObject`): canonical and raw input on an abstract queue (section
  11.1.6 of the POSIX.1-2017 Base Definitions) and the ring buffer with its counters that implements it.
- **Waiting for the terminal** (`TtyWait`): terminal and scheduler together, and when a reader is left waiting.
- **The text screen** (`TextScreen`, `ScreenObject`): an 80 by 60 grid and the 640 by 480 framebuffer that always
  shows exactly that grid.
- **Interrupts** (`Irq`, `IrqObject`), **serial input** (`Serial`, `SerialObject`), **the disk** (`Disk`) and
  **the timer** (`Timer`): small-step protocols between host threads and virtual cores, over all interleavings.
- **Context save and restore** (`Context`, `ContextObject`, `Mmio`): the ISR stack in VM memory, behind a device
  lookup with a one-entry cache.
- **Arithmetic** (`Divmod`, `Nanosleep`): shift-subtract division and the conversion from nanoseconds to ticks.

State machines are datatypes with a `Next` function; `Possible` says which sequences of steps can happen and `After`
is where they lead. Code that updates memory in place is a class whose `View()` gives the abstract value, and each
method is proved to perform exactly the abstract step. `dafny verify dfyconfig.toml` checks everything.

Places where the code does not do what one would expect are kept as they are, each with its exact condition:

- `SchedTheorems.SleeperWakesExactlyOnTime`: a task left on a queue by a blocked read can be woken from a later sleep,
  with the next key press (`SchedTheorems.QueueWakeEndsSleepEarly`).
- `FdPosix.RefinesExactlyWhen`: dup2 onto a number outside 0..31 answers EINVAL where POSIX has EBADF.
- `LineDiscipline.KeyMakesReadableExactlyWhen`: Enter and ^D are dropped on a full line, which is then stuck.
- `LineDiscipline.TypeThenErase`: erasing on a full line takes a byte that was kept.
- `LineDiscipline.ReadinessLiesExactlyWhen` and `LineDiscipline.FragmentLeaksExactlyWhen`: after a raw-mode read
  of 0x04 a canonical terminal claims to be readable and hands out unterminated fragments.
- `Serial.EnablingCoversExactlyWhen`: bytes that arrive before interrupts are enabled go unnoticed.
- `Disk.CompletesExactlyWhenNonZero`: command 0 leaves the drive busy for good.
- `Nanosleep.SleepIsExactUpToSaturation`: long sleeps are cut to 85900 ticks.
- `Mmio.CacheIsTransparentExactlyWhen`: partly overlapping devices would be confused.
- `SchedTheorems.ExitReachesParentExactlyWhen`: from tid 2^31 on, a parent is not told of its child's exit.
- `SchedTheorems.SleepLength`: near the end of the tick counter's range a sleep ends at once, or never.
- `TtyWait.StrandedExactlyWhen`: a reader can be left waiting for input that is there.
- `Timer.ProgrammingLastsExactlyWhen`: switching the timer off and on again can leave it off.

## Model

| member | source | states |
|---|---|---|
| `SchedTheorems.QueuesAndSlotsAgree` | kernel/src/sched.c:84-113 | In every reachable configuration bit i of a queue is set iff slot i is used and points at that queue; BLOCKED implies attached; attached implies BLOCKED or SLEEPING |
| `SchedTheorems.OneTaskRuns` | kernel/src/sched.c:839-892 | At most one slot is RUNNING and it is g_current_idx, at any pump depth; the idle slot is only ever RUNNABLE or RUNNING |
| `SchedTheorems.NoLostChildExit` | kernel/src/sched.c:593-611 | A task with a tid below 2^31 that is parked by waitpid for pid p always has a live matching child and never a matching zombie, while no tid has been handed out twice (fewer than 2^32 - 1 spawns) |
| `SchedTheorems.ExitReachesParentExactlyWhen` | kernel/src/sched.c:481-499 | The exit of a child wakes its parent parked in waitpid if and only if the parent's tid is below 2^31; otherwise it changes no other slot |
| `SchedTheorems.ChildExitIsLost` | kernel/src/sched.c:481-499 | A concrete table: task 2^31 stays parked although the child it waits for is a zombie |
| `SchedTheorems.ParentOfHighTidOk` | kernel/src/sched.c:372-407 | That table satisfies the scheduler's invariant |
| `SchedTheorems.EachExitReapedOnce` | kernel/src/sched.c:326-350 | Every reap hands out (code & 0xFF) << 8 of that task's exit, no tid is reaped twice, and a reaped tid occupies no slot (fewer than 2^32 - 1 spawns) |
| `SchedTheorems.DescriptorTablesStayExact` | kernel/src/sched.c:481-499 | In every reachable configuration each live task's reference counts equal the number of descriptors naming the file, and used iff positive |
| `SchedTheorems.PumpRestoresCurrent` | kernel/src/sched.c:839-869 | Whatever the pumped task does, including pumping in turn to any depth, g_current_idx and the call stack are restored when its entry returns |
| `SchedTheorems.SleeperWakesExactlyOnTime` | kernel/src/sched.c:352-370 | For any sleeper and any wake tick, on a wait queue or on none, through any run in which it makes no state-changing call of its own: it is asleep if and only if no wake of its queue (wake_one, wake_all or a child's exit) has reached it and its time is not up, and awake otherwise; wrap-around of the tick counter included |
| `SchedTheorems.DueTickWakes` | kernel/src/sched.c:442-455 | The due tick makes a task that is still asleep RUNNABLE, attached or not |
| `SchedTheorems.TicksLeftStep` | kernel/src/sched.c:352-370 | The count of ticks still to come falls by one with every tick of the 32-bit counter, and is one exactly when the next tick wakes the sleeper |
| `SchedTheorems.SleepLength` | kernel/src/sched.c:505-520 | A sleep of m ticks lasts m ticks if and only if its deadline does not wrap or the very next tick does; a deadline of exactly 2^32 never comes; any other wrapped one comes with the next tick |
| `SchedTheorems.SleepForever` | kernel/src/sched.c:352-370 | A sleeper whose wake tick is 0, on no queue, never wakes |
| `SchedTheorems.SleepCallOutcome` | kernel/src/sched.c:505-520 | What a sleep of n ticks by a live task has come to after any run |
| `SchedTheorems.EventOnSleeper` | kernel/src/sched.c:554-591 | Event by event: the due tick or a wake that reaches its queue makes a sleeper RUNNABLE; nothing else changes that it sleeps |
| `SchedTheorems.UnattachedIsNeverReleased` | kernel/src/sched.c:352-370 | A sleeper on no queue is never woken early |
| `SchedTheorems.QueueWakeEndsSleepEarly` | kernel/src/sched.c:505-520 | A task left on a queue by a blocked read that then sleeps is made RUNNABLE by the next wake of that queue, before any tick, whatever the queue and the length of the sleep |
| `SchedTheorems.EarlyWakeIsReachable` | kernel/src/sched.c:531-552 | An explicit run of seven events from the start of the kernel in which it happens |
| `SchedTheorems.SleepTicksSetsDeadline` | kernel/src/sched.c:505-520 | A sleep of n ticks sets the wake tick now + max(n, 1) modulo 2^32, and leaves the caller on whatever queue it was on |
| `SchedTheorems.RoundRobinBound` | kernel/src/sched.c:871-877 | A task runnable at each of 16 picks of sched_run is one of those picked, however pumps and calls interleave |
| `SchedTheorems.PickApproaches` | kernel/src/sched.c:146-154 | Each pick is runnable and is t or strictly closer to t in cyclic distance, for every runnable t |
| `SchedTheorems.IdleOnlyWhenNothingElse` | kernel/src/sched.c:131-154 | The idle slot is picked if and only if no other task is runnable |
| `SchedTheorems.SpawnExitWaitRoundTrip` | kernel/src/sched.c:372-407 | Spawn a child, let it exit with a code, wait for its pid: waitpid returns that pid and (code & 0xFF) << 8, and the slot is free again (also for tids that read as negative; 0xFFFFFFFF reads as "any child") |
| `SchedTheorems.QuantumExpires` | kernel/src/sched.c:442-455 | A task that keeps running is asked to give way after at most four ticks |
| `SchedLaws.TimedWait` | kernel/src/sched.c:531-552 | sched_waitq_sleep by a live task, through any run: awake if and only if a wake of the queue has reached it or its timeout has passed, and until then asleep on that queue |
| `SchedLaws.TimedWaitLasts` | kernel/src/sched.c:531-552 | With a timeout of n ticks and nobody waking it, the task is awake exactly from the n-th tick on |
| `SchedLaws.UntimedWaitLasts` | kernel/src/sched.c:531-552 | Without a timeout it waits through every run that does not wake the queue |
| `SchedLaws.WaitpidParkLasts` | kernel/src/sched.c:593-611 | A task parked by waitpid stays asleep on its child queue until a wake reaches it there, however long that takes |
| `SchedLaws.WaitpidAnswers` | kernel/src/sched.c:326-350 | waitpid reaps the lowest matching zombie with its pid and status, else answers -1 without a matching child, 0 with WNOHANG, and -2 after parking |
| `SchedLaws.SpawnFailsExactlyWhen` | kernel/src/sched.c:372-388 | Spawn fails, changing nothing, if and only if there is no entry or no free slot |
| `SchedLaws.SpawnedTask` | kernel/src/sched.c:380-407 | The new task, in the lowest free slot: its entry, parent, tid, state, fresh counters and standard descriptors; nothing else changes |
| `SchedLaws.YieldGivesWay` | kernel/src/sched.c:469-479 | A task that yields is runnable with a fresh quantum, and the next pick goes to another task whenever one is runnable |
| `SchedLaws.ReturnKeepsTurn` | kernel/src/sched.c:888-892 | A task that returns without giving anything up stays current until a reschedule is asked for |
| `SchedLaws.TurnEntersPicked` | kernel/src/sched.c:871-887 | A turn of sched_run enters the picked task as RUNNING, counts it, clears the request and touches nobody else |
| `SchedLaws.BarredTurn` | kernel/src/sched.c:879-883 | A turn whose current task cannot be entered only asks for a new pick |
| `SchedLaws.IdleTurn` | kernel/src/sched.c:871-887 | With nothing to run the idle task is entered |
| `SchedLaws.PumpEntersPicked` | kernel/src/sched.c:839-853 | A pump enters the picked task as RUNNING and remembers where to return |
| `SchedLaws.ReschedulesAndRefills` | kernel/src/sched.c:481-552 | Sleeping, waiting and exiting ask for a reschedule and reset the quantum |
| `SchedLaws.WakeReschedules` | kernel/src/sched.c:554-566 | So does every wake-up, of the woken task |
| `SchedLaws.QuantumIsFourTicks` | kernel/src/sched.c:442-455 | With nobody waiting for the clock, a running task is asked to give way exactly when it has used four ticks |
| `SchedLaws.FdCallsAreTheTasksOwn` | kernel/src/sched.c:613-707 | A task's descriptor calls act on its own table only, as a history of that table |
| `SchedLaws.NoTaskNoDescriptors` | kernel/src/sched.c:643-646 | Without a task every descriptor call is a bad descriptor |
| `SchedLaws.TidLookup` | kernel/src/sched.c:297-311 | A tid leads to the slot that holds it, tid 0 to the idle slot, any other to none |
| `SchedLaws.KernelStart` | kernel/src/sched.c:409-436 | The kernel starts with the idle task alone, at tick 0 |
| `SchedRuns.NextGood` | kernel/src/sched.c:326-407 | Every event (call, tick, pump, pick, entry, return) keeps queue agreement, the running discipline, tid uniqueness, the parking invariant and the reap history |
| `SchedRuns.RunGood` | kernel/src/sched.c:839-892 | So every run of events does |
| `SchedInv.InitInv` | kernel/src/sched.c:409-436 | The table that sched_init builds satisfies the invariant |
| `SchedInv.WakeOneWakesLowest` | kernel/src/sched.c:568-579 | wake_one on a non-empty queue makes exactly the lowest waiting slot RUNNABLE and detached; on an empty queue it does nothing |
| `SchedInv.WakeAllReleasesEveryWaiter` | kernel/src/sched.c:581-591 | wake_all empties the queue, releases each waiter and changes no other slot |
| `SchedCalls.WaitqSleepKeepsInv` | kernel/src/sched.c:531-552 | Sleeping on a queue moves the caller to it and keeps queues and slots in agreement, also when it was on another queue |
| `SchedLaws.WaitqSleepSetsDeadline` | kernel/src/sched.c:531-552 | The wake tick is now + timeout modulo 2^32, or none for a timeout of 0; the caller is on the queue and a reschedule is asked for |
| `SchedCalls.WakeSleepersEffect` | kernel/src/sched.c:352-370 | A tick wakes exactly the due sleepers and leaves every other slot as it was |
| `SchedCalls.ExitKeeps` | kernel/src/sched.c:481-499 | Exit leaves a detached ZOMBIE with its code and an empty descriptor table; everything else it does is a wake-up |
| `SchedCalls.ReapKeepsInv` | kernel/src/sched.c:326-350 | Reaping a zombie leaves no stale bit in any queue |
| `SchedCalls.WaitpidKeepsInv` | kernel/src/sched.c:593-611 | waitpid keeps the invariant in all of its outcomes |
| `SchedObject.Scheduler.constructor` | kernel/src/sched.c:409-436 | The initial table, as the abstract initial state |
| `SchedObject.Scheduler.DetachWaitq` | kernel/src/sched.c:103-113 | Clears the bit in the queue's 32-bit word and the back-pointer, nothing else |
| `SchedObject.Scheduler.InitQueue` | kernel/src/sched.c:522-529 | A zero word is an empty queue |
| `SchedObject.Scheduler.SetBit` | kernel/src/sched.c:84-86 | The OR on the queue's word adds one slot to the set of waiters |
| `SchedObject.Scheduler.ClearBit` | kernel/src/sched.c:88-90 | The AND on the queue's word removes one slot from it |
| `SchedObject.Scheduler.TestBit` | kernel/src/sched.c:92-94 | Shift and mask of the queue's word decide membership in the set of waiters |
| `SchedObject.Scheduler.AllocSlot` | kernel/src/sched.c:121-129 | The lowest free slot from 1 on, or -1 |
| `SchedObject.Scheduler.PickNextIdx` | kernel/src/sched.c:146-154 | The scan loop finds the pick that the round-robin theorems speak of |
| `SchedObject.Scheduler.FindTid` | kernel/src/sched.c:297-311 | The scan loop finds the slot of a tid |
| `SchedObject.Scheduler.TryReapChild` | kernel/src/sched.c:326-350 | The one-pass loop reaps the first matching zombie, else says whether a matching child exists |
| `SchedObject.Scheduler.TryWakeSleepers` | kernel/src/sched.c:352-370 | The in-place loop wakes all due sleepers |
| `SchedObject.Scheduler.SpawnTask` | kernel/src/sched.c:372-407 | In-place spawn performs the abstract step, with the parent's and the returned tid cast to signed words and tid 0 skipped when the counter wraps |
| `SchedObject.Scheduler.ScheduleTick` | kernel/src/sched.c:442-455 | Tick: counter, sleepers, quantum |
| `SchedObject.Scheduler.YieldTask` | kernel/src/sched.c:469-479 | In-place yield performs the abstract step |
| `SchedObject.Scheduler.ExitTask` | kernel/src/sched.c:481-499 | In-place exit performs the abstract step: parent wake-up by a signed tid included |
| `SchedObject.Scheduler.Zombify` | kernel/src/sched.c:486-491 | The part of exit that concerns the exiting slot alone |
| `SchedObject.Scheduler.SleepFor` | kernel/src/sched.c:505-520 | In-place sleep performs the abstract step |
| `SchedObject.Scheduler.SleepOn` | kernel/src/sched.c:531-552 | In-place wait-queue sleep performs the abstract step on the words of both queues |
| `SchedObject.Scheduler.WakeIfAsleep` | kernel/src/sched.c:554-566 | Wakes a BLOCKED or SLEEPING non-idle slot, otherwise nothing |
| `SchedObject.Scheduler.WaitqWakeOne` | kernel/src/sched.c:568-579 | The scan loop performs the abstract wake_one |
| `SchedObject.Scheduler.WaitqWakeAll` | kernel/src/sched.c:581-591 | The scan loop, re-reading the bitmap it is changing, performs the abstract wake_all |
| `SchedObject.Scheduler.WaitFor` | kernel/src/sched.c:593-611 | waitpid's return code, stored status and new table |
| `SchedObject.Scheduler.PumpBegin` | kernel/src/sched.c:839-853 | sched_pump_once up to the entry call, as the PumpEnter event |
| `SchedObject.Scheduler.PumpEnd` | kernel/src/sched.c:854-858 | sched_pump_once after the entry call, as the EntryReturn event |
| `SchedObject.Scheduler.PickForRun` | kernel/src/sched.c:871-877 | The head of sched_run's loop, as the RunPick event |
| `SchedObject.Scheduler.RunBegin` | kernel/src/sched.c:879-887 | sched_run up to the entry call, as the RunEnter event |
| `SchedObject.Scheduler.RunEnd` | kernel/src/sched.c:888-892 | sched_run after the entry call, as the EntryReturn event |
| `FdTable.ApplyInv` | kernel/src/sched.c:613-707 | Every descriptor operation keeps refs equal to the number of naming descriptors, used iff refs > 0, free entries blank |
| `FdTable.HistoryInv` | kernel/src/sched.c:613-707 | So does every history of operations |
| `FdTable.StdioInv` | kernel/src/sched.c:184-210 | A new task's table satisfies the invariant |
| `FdTable.OpenAgreesWithLookup` | kernel/src/sched.c:752-758 | sched_fd_is_open agrees with the open-file lookup |
| `FdTable.CloseKeepsOthers` | kernel/src/sched.c:261-283 | Closing one descriptor leaves every other resolving to the same file |
| `FdTable.Dup2IsCloseThenAlias` | kernel/src/sched.c:640-665 | dup2 never loses the file it duplicates when it closes the target first |
| `FdTable.FreeFdImpliesFreeOFile` | kernel/src/sched.c:805-812 | By pigeonhole a free descriptor implies a free open file, so the second EMFILE branch of open is dead |
| `FdTable.OpenFailsOnlyWhenFull` | kernel/src/sched.c:779-824 | open reports EMFILE if and only if all 32 descriptors are in use (and the type is known) |
| `FdTable.CloseAllClears` | kernel/src/sched.c:285-295 | Closing all descriptors frees every open file |
| `FdTable.FreeFdFrom` | kernel/src/sched.c:235-246 | The lowest free descriptor, or -1 only if there is none |
| `FdPosix.RefinesExactlyWhen` | kernel/src/sched.c:613-824 | Each operation is one step of the POSIX description model with the same result, errors included, if and only if it is not a dup2 onto a number outside 0..31 |
| `FdPosix.Dup2OntoNumber32` | kernel/src/sched.c:647-649 | dup2(0, 32) in a new task answers EINVAL where POSIX has EBADF; the table is unchanged, as it should be |
| `FdPosix.HistoryRefinesExactlyWhen` | kernel/src/sched.c:613-824 | A whole history has the results and final state of some POSIX history if and only if no dup2 in it has a target outside 0..31 |
| `FdPosix.SetFlSeenByExactlyTheAliases` | kernel/src/sched.c:700-707 | F_SETFL is seen through exactly the aliases of fd and never changes an access mode |
| `FdPosix.DuplicateSharesFileNotFlags` | kernel/src/sched.c:617-638 | dup returns the lowest free number, shares the file, clears FD_CLOEXEC on the duplicate and keeps the original's |
| `FdPosix.Dup2Means` | kernel/src/sched.c:640-665 | dup2 answers the new number, which shares the old one's file with clear flags; all other descriptors stay |
| `FdPosix.StdioMeans` | kernel/src/sched.c:184-210 | A new task has standard input read-only on 0, standard output and error write-only on 1 and 2, and nothing else |
| `FdPosix.OpenedFile` | kernel/src/sched.c:779-824 | open gives the lowest free number a file of its own, of the kind asked for, with access mode and O_NONBLOCK as asked |
| `FdPosix.UnknownSpecial` | kernel/src/sched.c:788-803 | Any other kind is refused with -3 |
| `FdPosix.SetFdMeans` | kernel/src/sched.c:691-698 | F_SETFD sets FD_CLOEXEC of one descriptor and nothing else |
| `FdPosix.ErrorCodes` | kernel/src/sched.c:613-707 | A bad descriptor is -1 for every call, a full table -2 |
| `FdTableObject.DescriptorTable.Clear` | kernel/src/sched.c:168-182 | The in-place loop leaves the blank table |
| `FdTableObject.DescriptorTable.InitStdio` | kernel/src/sched.c:184-210 | In-place construction of the standard table, invariant included |
| `FdTableObject.DescriptorTable.Lookup` | kernel/src/sched.c:212-233 | The open file behind fd, or -1, through all five checks |
| `FdTableObject.DescriptorTable.FindFreeFd` | kernel/src/sched.c:235-246 | The loop finds the lowest free descriptor |
| `FdTableObject.DescriptorTable.FindFreeOFile` | kernel/src/sched.c:248-259 | The loop finds the lowest free open file |
| `FdTableObject.DescriptorTable.CloseFd` | kernel/src/sched.c:261-283 | In-place close performs the abstract step |
| `FdTableObject.DescriptorTable.CloseAllFds` | kernel/src/sched.c:285-295 | The in-place loop leaves the blank table whenever the counts were exact |
| `FdTableObject.DescriptorTable.DupFd` | kernel/src/sched.c:617-638 | In-place dup performs the abstract step |
| `FdTableObject.DescriptorTable.Dup2Fd` | kernel/src/sched.c:640-665 | In-place dup2 performs the abstract step |
| `FdTableObject.DescriptorTable.OpenSpecialFd` | kernel/src/sched.c:779-824 | In-place open performs the abstract step |
| `FdTableObject.DescriptorTable.SetFdFlags` | kernel/src/sched.c:691-698 | In-place F_SETFD performs the abstract step |
| `FdTableObject.DescriptorTable.SetStatus` | kernel/src/sched.c:700-707 | In-place F_SETFL performs the abstract step |
| `LineDiscipline.SettledTextOnlyGrows` | kernel/src/console.c:54-228 | Under any mix of input, reads and mode changes the queue stays within 255 bytes, and the text already read or terminated only grows at its end: read in order, never rewritten |
| `LineDiscipline.FeedKeepsCommitted` | kernel/src/console.c:100-135 | No byte fed, in any mode, alters anything at or before the last unread newline or EOF marker |
| `LineDiscipline.CommittedFacts` | kernel/src/console.c:54-67 | The protected prefix ends at a terminator and none follows it |
| `LineDiscipline.ReadTakesPrefix` | kernel/src/console.c:172-228 | A read removes a prefix of the queue and hands over all of it, or all but one final EOF marker |
| `LineDiscipline.CopyTakes` | kernel/src/console.c:189-214 | The byte-by-byte copy loop takes exactly the prefix described in closed form |
| `LineDiscipline.CanonicalReadStopsAtTerminator` | kernel/src/console.c:189-214 | A canonical read never goes beyond the first unread terminator, never returns 0x04, and a newline only as its last byte |
| `LineDiscipline.BlocksExactlyWhen` | kernel/src/console.c:172-228 | A blocking non-empty read blocks if and only if the terminal is not ready or holds nothing |
| `LineDiscipline.ReadinessIsHonest` | kernel/src/console.c:145-150 | If no raw-mode read consumed 0x04: ready iff a blocking read does not block, and unready means a nonblocking read returns 0 and changes nothing |
| `LineDiscipline.ReadinessLiesExactlyWhen` | kernel/src/console.c:145-150 | Readiness is wrong exactly in canonical mode with nothing queued after a raw-mode read took a 0x04 |
| `LineDiscipline.ReadinessCanLie` | kernel/src/console.c:145-161 | A concrete history that gets there |
| `LineDiscipline.FragmentLeaksExactlyWhen` | kernel/src/console.c:181-187 | A canonical read hands out an unterminated fragment if and only if a raw-mode read once took a 0x04 |
| `LineDiscipline.FragmentLeakIsReachable` | kernel/src/console.c:181-187 | A concrete history from a new terminal in which a read returns a bare letter |
| `LineDiscipline.LineRoundTrip` | kernel/src/console.c:100-135 | A line typed at an empty queue in canonical mode comes back whole with its newline, and nothing stays behind, if and only if it is at most 254 bytes long |
| `LineDiscipline.TypedBehind` | kernel/src/console.c:69-88 | Text and its terminator go behind whatever is queued if and only if there is room for all of it |
| `LineDiscipline.LineBehindTypeAhead` | kernel/src/console.c:172-228 | With anything already queued: once reads have consumed the lines before it, the fragment and the text typed behind it come back as one whole line |
| `LineDiscipline.EofBehindTypeAhead` | kernel/src/console.c:172-228 | The same for text ended by ^D |
| `LineDiscipline.BoundaryIsReached` | kernel/src/console.c:189-214 | Reading line by line reaches every line boundary of the queue |
| `LineDiscipline.OrdinaryTextIsQueued` | kernel/src/console.c:69-88 | Typed text is queued in order up to byte 255; the rest is dropped and counted |
| `LineDiscipline.KeyMakesReadableExactlyWhen` | kernel/src/console.c:69-88 | Enter or ^D makes a canonical terminal readable if and only if there is room for it or it already was readable |
| `LineDiscipline.FullLineIsStuck` | kernel/src/console.c:100-135 | A full queue without terminator stays unreadable through any typing that does not edit it |
| `LineDiscipline.FullLineIsReachable` | kernel/src/console.c:72-75 | 255 letters at a new terminal get there, and Enter is dropped |
| `LineDiscipline.EofFlushesFragment` | kernel/src/console.c:189-221 | At an empty queue, ^D makes pending text readable without a newline if and only if the text leaves room for it; alone it reads as end of file |
| `LineDiscipline.InterruptEndsLine` | kernel/src/console.c:100-135 | ^C drops the fragment being typed; its newline is queued, and a reader woken, if and only if the terminated text leaves room; a canonical terminal is readable afterwards in any case |
| `TtyLaws.KillKey` | kernel/src/console.c:113-118 | ^U drops the line being typed, echoing one backspace per byte; nothing else changes and nobody is woken |
| `TtyLaws.KillUndoesTyping` | kernel/src/console.c:113-118 | Text typed behind anything and then killed leaves exactly the terminated text |
| `TtyLaws.EraseKey` | kernel/src/console.c:119-125 | Backspace and delete drop the last byte of the line being typed, or do nothing |
| `TtyLaws.InterruptKey` | kernel/src/console.c:105-112 | ^C drops the line being typed, echoes ^C, and ends the line |
| `TtyLaws.EofKey` | kernel/src/console.c:126-129 | ^D is queued as a marker and not echoed |
| `TtyLaws.NulKey` | kernel/src/console.c:130-132 | A zero byte is ignored in every mode |
| `TtyLaws.DataKey` | kernel/src/console.c:26-36 | Any other byte is queued, carriage return as line feed, echoed if it can be shown, and wakes one reader; on a full queue it is dropped |
| `TtyLaws.NewTerminal` | kernel/src/console.c:90-98 | A new terminal is empty, canonical, echoes, and turns ^C into a signal |
| `TtyLaws.ZeroRead` | kernel/src/console.c:176-178 | A read of no bytes does nothing |
| `TtyLaws.RawReadTakesAll` | kernel/src/console.c:189-224 | A raw read returns all that is queued, as far as it fits |
| `TtyLaws.CanonicalReadTakesAll` | kernel/src/console.c:189-224 | A canonical read of a ready terminal stops at a full buffer, a terminator or an empty queue, not before; its code is the number of bytes, 0 at end of file |
| `TtyLaws.RawRoundTrip` | kernel/src/console.c:100-228 | In raw mode without signals what is typed is what is read, editing keys and ^D included |
| `TtyLaws.TypingIsSeen` | kernel/src/console.c:26-36 | What is typed appears on the screen from the cursor on |
| `TtyLaws.KillIsSeen` | kernel/src/console.c:38-43 | Text typed and then killed is wiped from the screen: the cursor is back, the cells are blank, all else is untouched |
| `LineDiscipline.TypeThenErase` | kernel/src/console.c:54-88 | Typing then erasing a byte is a no-op if and only if there was room for it or nothing editable was left |
| `LineDiscipline.EraseTakesTheWrongByte` | kernel/src/console.c:54-88 | From a new terminal, 255 letters, one more and a backspace: a letter that was kept is gone |
| `ConsoleObject.Console.constructor` | kernel/src/console.c:90-98 | An empty ring with exact counters |
| `ConsoleObject.Console.PopLastEditable` | kernel/src/console.c:54-67 | Removes the newest byte iff it is not a terminator; counters stay exact |
| `ConsoleObject.Console.EnqueueChar` | kernel/src/console.c:69-88 | Appends or counts a drop; line counter equals unread newlines, EOF counter equals unread 0x04 plus those read in raw mode |
| `ConsoleObject.Console.KillLine` | kernel/src/console.c:113-119 | The pop loop drops exactly the editable tail, echoing one backspace per byte |
| `ConsoleObject.Console.RxFeed` | kernel/src/console.c:100-135 | Feeding the ring is feeding the abstract queue: same contents, echo, counters and wake-up |
| `ConsoleObject.Console.CanReadNow` | kernel/src/console.c:145-150 | The counters decide readiness as the abstract queue does |
| `ConsoleObject.Console.SetMode` | kernel/src/console.c:167-170 | A mode change touches nothing else |
| `ConsoleObject.Console.CopyOut` | kernel/src/console.c:189-214 | The copy loop on the ring stores in the caller's buffer what the copy loop on the queue yields, and leaves the rest of the buffer alone |
| `ConsoleObject.Console.ReadBytes` | kernel/src/console.c:172-228 | console_read: same bytes at the front of the caller's buffer, return code and remaining queue as the abstract read; a null buffer reads nothing |
| `TtyWait.StrandedExactlyWhen` | kernel/src/console.c:69-228 | No task waits on the terminal's queue for input that is there, until exactly one of three things: a byte makes the terminal readable while two or more tasks wait, a mode change makes queued input readable while one waits, or a task blocks although the terminal claims to be readable |
| `TtyWait.RunStrandsNobody` | kernel/src/console.c:69-228 | Through every run of the whole kernel without those three, nobody does |
| `TtyWait.ReadyExactlyWhen` | kernel/src/console.c:100-135 | The bytes that make an unready terminal ready, and that each of them wakes a task |
| `TtyWait.ReadersOnlyLeave` | kernel/src/sched.c:326-591 | No scheduler event that does not name the queue puts a task on it |
| `TtyWait.ModeChangeStrands` | kernel/src/console.c:167-170 | With input that is no line yet, a blocking read and then a change to raw mode leave the task waiting for readable input |
| `TtyWait.PollParksWithTimeout` | kernel/src/console.c:152-161 | console_wait_readable on an unready terminal parks the caller with its timeout; otherwise it does nothing |
| `TtyWait.BlockedReadParks` | kernel/src/console.c:172-228 | A read parks its caller, without a timeout, if and only if it blocks |
| `TtyWait.LetterIsHalfTyped` | kernel/src/console.c:100-135 | One letter at a new terminal is such input |
| `TextScreen.PutcOk` | kernel/src/console_fb.c:127-175 | Every character keeps the cursor inside a well-formed 80 by 60 grid |
| `TextScreen.BackspaceUndoesShow` | kernel/src/console_fb.c:127-175 | A drawn character followed by a backspace blanks its cell and returns the cursor; on the last cell the screen has scrolled once |
| `TextScreen.TextLandsInOrder` | kernel/src/console_fb.c:127-175 | Printable text that fits on the line lands in consecutive cells and touches no others |
| `TextScreen.NewlinesScroll` | kernel/src/console_fb.c:95-102 | n newlines on the bottom row move the grid up n rows and leave n blank rows |
| `TextScreen.LineFeed` | kernel/src/console_fb.c:95-102 | 10 and 11 go to column 0 of the next row with the grid unchanged; on the bottom row they scroll by one |
| `TextScreen.ReturnBellFormFeed` | kernel/src/console_fb.c:127-175 | 13 goes to column 0 of the same row, 7 does nothing, 12 leaves the blank grid at (0, 0) |
| `TextScreen.BackspaceKey` | kernel/src/console_fb.c:127-175 | 8 blanks the cell before the cursor and goes there, across the line break too; in the corner it does nothing |
| `TextScreen.BackspaceUndoesPrinted` | kernel/src/console_fb.c:127-175 | 8 undoes a printed character |
| `TextScreen.TabPrintsFourSpaces` | kernel/src/console_fb.c:127-175 | 9 prints exactly four spaces |
| `TextScreen.DrawnCharacter` | kernel/src/console_fb.c:55-75 | Any other character changes the cell under the cursor and no other, and steps right |
| `TextScreen.DrawnInLastColumn` | kernel/src/console_fb.c:127-175 | In the last column it is drawn there and the line breaks |
| `TextScreen.ClearAndColours` | kernel/src/console_fb.c:112-125 | Clearing is a form feed; new colours hold for what comes |
| `TextScreen.TwoLinesLand` | kernel/src/console_fb.c:127-175 | Two texts with a line feed between them land one below the other, the second from column 0 |
| `TextScreen.ShownPixel` | kernel/src/console_fb.c:31-75 | Where each cell is in the framebuffer and what each of its 64 pixels shows |
| `TextScreen.PictureIsUnique` | kernel/src/console_fb.c:31-93 | A grid determines every one of the 307200 pixels |
| `ScreenObject.ScrolledGrid` | kernel/src/console_fb.c:77-93 | Moving pixels up by 8 rows and filling the bottom is moving the grid up one row |
| `ScreenObject.PaintedCell` | kernel/src/console_fb.c:31-75 | Painting one cell's 64 pixels updates exactly that cell of the grid |
| `ScreenObject.Framebuffer.constructor` | kernel/src/console_fb.c:104-110 | Default colours and a framebuffer that shows the blank grid |
| `ScreenObject.Framebuffer.SetColors` | kernel/src/console_fb.c:112-115 | Changes colours only; the picture stays |
| `ScreenObject.Framebuffer.ClearScreen` | kernel/src/console_fb.c:117-125 | The framebuffer shows the blank grid |
| `ScreenObject.Framebuffer.ScrollOneLine` | kernel/src/console_fb.c:77-93 | The in-place pixel copy leaves the picture of the scrolled grid |
| `ScreenObject.Framebuffer.NewLine` | kernel/src/console_fb.c:95-102 | Cursor movement, scrolling on the last row |
| `ScreenObject.Framebuffer.ClearCell` | kernel/src/console_fb.c:31-39 | The 64 pixels become the blank cell's, all others stay |
| `ScreenObject.Framebuffer.DrawBox` | kernel/src/console_fb.c:41-53 | The 64 pixels become the box's, all others stay |
| `ScreenObject.Framebuffer.DrawGlyph` | kernel/src/console_fb.c:55-75 | The 64 pixels become the glyph's, all others stay, all writes in bounds |
| `ScreenObject.Framebuffer.PutChar` | kernel/src/console_fb.c:127-175 | After any character the framebuffer shows exactly the next grid |
| `Irq.PendingUntilTaken` | interrupt.c:76-113 | Over all interleavings a raised bit stays pending until its core takes it or, for vectors 0 and 3 of core 0 only, a KEYBOARD read acknowledges it |
| `Irq.EveryTakeFollowsARaise` | interrupt.c:141-152 | Every vector taken was raised after its previous take or acknowledge |
| `Irq.TakenVectorEnters` | interrupt.c:27-56 | A core that has taken a vector stays about to enter it through any run of all other threads, and its next own step enters the handler unless the table entry is unregistered at that moment |
| `Irq.SwapTakesPending` | interrupt.c:97-108 | A successful compare-and-swap takes a vector that was pending and clears it |
| `Irq.TakeClearsOne` | interrupt.c:97-108 | It clears the bit of exactly one vector of one core |
| `Irq.OtherCoresUntouched` | interrupt.c:76-113 | A core's own steps change no other core's bits or state |
| `Irq.NextInv` | interrupt.c:76-152 | Every atomic step keeps: a bit is pending iff its latest event is a raise |
| `Irq.RunInv` | vm.c:765-796 | So every interleaving does |
| `Irq.AckKeepsLog` | vm.c:322-332 | The acknowledge clears exactly the two bits of core 0 |
| `Irq.UndisturbedTakesLowest` | interrupt.c:76-113 | A scan nobody interferes with takes the lowest pending vector of its core |
| `Irq.TriggerRaises` | interrupt.c:141-152 | A trigger in range makes exactly that vector of that core pending; out of range it does nothing |
| `Irq.AckClears` | vm.c:322-332 | The acknowledge clears vectors 0 and 3 of core 0 and no other |
| `Irq.BeginsAtFirstWord` | interrupt.c:76-89 | A core scans only outside handlers and unmasked, from its first word |
| `Irq.FailedSwapStillTakes` | interrupt.c:97-111 | A swap that fails loses nothing: left alone the core still takes its bit |
| `Irq.LostBitMovesOn` | interrupt.c:97-111 | If its bit is gone meanwhile, the core goes on with the next word |
| `Irq.WriteIvtRegisters` | interrupt.c:129-135 | A write to the vector table registers that vector and no other |
| `Irq.CoreActions` | vm.c:371-379 | IRET, the mask and INT change the core as they should and no bit |
| `IrqObject.Controller.constructor` | interrupt.c:115-127 | Nothing pending, every vector unregistered |
| `IrqObject.Controller.TriggerTarget` | interrupt.c:141-152 | The OR on a 64-bit word raises exactly one vector, or nothing when the core or vector is out of range |
| `IrqObject.Controller.AckKeyboard` | vm.c:322-332 | The AND with the complement of two masks clears exactly INT_KEYBOARD and INT_SERIAL of core 0 |
| `IrqObject.Controller.CompareExchange` | interrupt.c:103-104 | A weak compare-and-swap on a word: replaces it only if it is the expected one, and may fail for no reason |
| `IrqObject.Controller.LoadStep` | interrupt.c:89-95 | The load of a 64-bit word and the choice of its lowest bit perform the atomic step of the protocol |
| `IrqObject.Controller.SwapStep` | interrupt.c:97-107 | The mask test and compare-and-swap on words perform the step of the protocol, which compares sets, under any interference |
| `IrqObject.Controller.ReloadStep` | interrupt.c:108-110 | The load after a failed swap performs its step |
| `IrqObject.Controller.EnterStep` | interrupt.c:104-106 | The call of vm_enter_interrupt performs its step |
| `IrqObject.Controller.TakeFromWord` | interrupt.c:90-112 | The load, count-trailing-zeros and swap loop take the lowest bit of a word, however often the swap fails spuriously |
| `IrqObject.Controller.EnterInterrupt` | interrupt.c:27-56 | Enters unless out of range, already in a handler, or unregistered |
| `IrqObject.Controller.HandleInterrupts` | interrupt.c:76-113 | Takes exactly the lowest pending vector, unless in a handler or masked, through the four words and their swap loops |
| `Bitmap.Ctz64` | interrupt.c:94-95 | Count-trailing-zeros of a non-zero 64-bit word is the least element of its set of one bits |
| `Bitmap.Set64` | interrupt.c:141-152 | An OR with 1 << i adds i to the set of one bits |
| `Bitmap.Clear64` | interrupt.c:95-102 | An AND with the complement of 1 << i removes i from it |
| `Bitmap.Masked64` | interrupt.c:99-101 | word & mask is non-zero if and only if the bit is in the set |
| `Bitmap.ZeroIsEmpty64` | interrupt.c:91-92 | A word is zero if and only if its set is empty |
| `Bitmap.OnesIsInjective64` | interrupt.c:103-104 | A word is determined by its set, so comparing words is comparing sets |
| `Bitmap.Set32` | kernel/src/sched.c:84-86 | An OR with 1 << i adds i to the set |
| `Bitmap.Clear32` | kernel/src/sched.c:88-90 | An AND with the complement of 1 << i removes i from it |
| `Bitmap.Test32` | kernel/src/sched.c:92-94 | (word >> i) & 1 is membership in the set |
| `Serial.ReceiveIsLossless` | io.c:9-38 | Accepted bytes are the delivered ones followed by those queued, in order; RX_READY iff the FIFO is non-empty |
| `Serial.NoLostWakeup` | vm.c:303-338 | If RX interrupts were enabled on an empty FIFO and stayed on, queued bytes imply INT_SERIAL pending or taken since it was last raised, whatever the guest has registered for it |
| `Serial.KernelIsWoken` | kernel/src/irq.c:32-37 | With the kernel's handler registered, they imply INT_SERIAL pending or the handler running |
| `Serial.DrainEndsOnEmpty` | kernel/src/irq.c:32-37 | The drain loop ends only on an empty FIFO |
| `Serial.ReadReturnsOldest` | vm.c:303-310 | A KEYBOARD read delivers the oldest byte, the one it returns, or returns 0 |
| `Serial.ReadAcknowledges` | vm.c:322-337 | It leaves INT_SERIAL pending if and only if bytes remain and interrupts are on |
| `Serial.AcceptsExactlyWhen` | io.c:16-26 | A byte is accepted at the end exactly while fewer than 255 are queued |
| `Serial.ControlBit` | io.c:53-56 | Bit 0 of the byte last written decides whether interrupts are on; nothing else changes |
| `Serial.EnablingCoversExactlyWhen` | io.c:53-56 | After enabling interrupts, queued input is noticed through every run in which they stay on, if and only if nothing was queued, an interrupt was pending or the handler was running; otherwise it stays unnoticed through every run without stray reads and foreign raises |
| `Serial.StallLasts` | io.c:9-38 | Such input stays unnoticed however much more arrives and whatever is written to the control port |
| `Serial.EarlyByteStallsInput` | io.c:9-38 | A concrete history that gets there: one byte before interrupts are enabled |
| `SerialObject.Port.RxEnqueue` | io.c:9-38 | The ring performs the abstract enqueue; false iff full |
| `SerialObject.Port.ReadKeyboard` | vm.c:303-338 | The ring performs the abstract read, acknowledge and re-raise; the value is the oldest byte or 0 |
| `SerialObject.Port.WriteControl` | io.c:53-56 | Replaces the control byte and nothing else |
| `SerialObject.Port.DrainInto` | kernel/src/irq.c:32-37 | Left alone, the drain loop feeds the terminal every queued byte in order |
| `Mmio.CacheIsTransparentExactlyWhen` | mmio.h:9-28 | The cached lookup equals the linear scan after every history of lookups if and only if each device's range keeps clear of the ranges registered before it or is wholly covered by them |
| `Mmio.PartialOverlapFails` | mmio.h:9-28 | Ranges 0..7 and 4..11: after a lookup of 8, the lookup of 5 answers the wrong device |
| `Mmio.DisjointIsLayered` | mmio.h:9-28 | Disjoint devices meet that condition |
| `Mmio.LookupFillsCache` | mmio.h:9-28 | A lookup that finds a device makes its whole range a hit; one that finds none makes every address a miss |
| `Mmio.Bus.Find` | mmio.h:9-28 | The lookup with its cache update; on disjoint devices it answers as the scan |
| `Context.WriteThenRead` | memory.c:209-225 | A 64-bit word written is the word read back as two 32-bit halves |
| `Context.StacksAreDisjoint` | vm.c:1057-1132 | Every core's ISR stack is in RAM, outside all devices and apart from every other core's stacks |
| `Context.IretRestoresContext` | interrupt.c:58-74 | Entry, then anything that leaves this ISR stack alone, then IRET: all 32 registers, flags and isp are restored, and ip modulo 2^32 |
| `Context.StackPointerStays` | stack.h:59-82 | Entry and return keep isp at 256 - 34 * in_interrupt, so neither stack panic can happen |
| `Context.EntryJumpsToHandler` | interrupt.c:51-55 | Entry jumps to the table entry modulo 2^32 with the vector in r31; other registers, flags and cores are as they were |
| `Context.EntrySavesContext` | interrupt.c:40-46 | ip is saved in the top slot, flags below it, then r0 to r31 |
| `Context.EntryWritesItsFrameOnly` | interrupt.c:40-46 | Entry writes the 34 topmost words of its own ISR stack and nothing else |
| `Context.StartApSetsEntry` | vm.c:726-737 | The boot core sets another core's ip and nothing else |
| `Context.BootState` | vm.c:1115-1132 | At power-on every core is at the start of the program with an empty ISR stack |
| `Context.StackLayout` | vm.c:1057-1081 | One core keeps its stacks at 0x800, several side by side at the very top of RAM |
| `Context.StackNeverOverflows` | stack.h:59-82 | From power-on, in every run of the machine and on every core isp is 256 - 34 * in_interrupt |
| `Context.Boot` | vm.c:1115-1132 | The machine that vm_create builds satisfies the machine invariant |
| `Context.OtherCoresEntryIsHarmless` | interrupt.c:27-56 | Another core's interrupt entry leaves this core's saved context alone |
| `Context.HandlerIsTransparent` | interrupt.c:27-74 | On any number of cores: entry, any run that keeps off the core's ISR stack, starting of other cores included, IRET; registers, flags and isp are back, and ip modulo 2^32 |
| `ContextObject.Core.constructor` | vm.c:1057-1132 | A core laid out as vm_create does has its ISR stack in plain RAM |
| `ContextObject.Core.WriteWord` | memory.c:209-225 | Eight byte stores in RAM, or a panic that changes nothing |
| `ContextObject.Core.ReadHalf` | memory.c:69-97 | Outside devices: the little-endian value, or a panic beyond RAM |
| `ContextObject.Core.ReadWord` | memory.c:99-106 | Two 32-bit reads make the 64-bit word |
| `ContextObject.Core.IsrPush` | stack.h:59-69 | Stores below isp, or panics at 0 |
| `ContextObject.Core.IsrPop` | stack.h:71-82 | Loads at isp, or panics at 256 |
| `ContextObject.Core.EnterInterrupt` | interrupt.c:27-56 | Reads the table entry, pushes the 34-word context and jumps there with the vector in r31, never panicking |
| `ContextObject.Core.ReturnFromInterrupt` | interrupt.c:58-74 | Pops the context in reverse order, never panicking |
| `Disk.CommandsAreConserved` | io_devices/disk/disk.c:187-215 | Over all interleavings accepted commands equal completion interrupts plus one iff BUSY |
| `Disk.TransfersFollowCommands` | io_devices/disk/disk.c:40-99 | Each command is processed once, in order, with the parameters it was issued with |
| `Disk.InterruptNeverPrecedesTransfer` | io_devices/disk/disk.c:202-215 | A completion is raised only when BUSY with the command processed and cleared |
| `Disk.BusyIgnoresCommands` | io_devices/disk/disk.c:187-201 | A command changes nothing if and only if the drive is BUSY |
| `Disk.PortsReachTheTransfer` | io_devices/disk/disk.c:40-59 | What the guest wrote to the three ports is what the command carries and what the worker transfers |
| `Disk.NoLostSignal` | io_devices/disk/disk.c:45-47 | In every run a worker asleep on the condition variable has no command to work on and has not been told to stop |
| `Disk.WithoutSignalNothingCompletes` | io_devices/disk/disk.c:199-200 | A worker left asleep on a command, as it would be without the signal, completes nothing unless it wakes spuriously or the drive is closed |
| `Disk.AlwaysProgress` | io_devices/disk/disk.c:40-99 | With a non-zero command in flight and the worker running, some worker or tick step is enabled and brings completion closer; a sleeping worker never stands in the way |
| `Disk.CompletionReachable` | io_devices/disk/disk.c:202-215 | At most five worker and tick steps lead to the interrupt |
| `Disk.EveryBusyRunCompletes` | io_devices/disk/disk.c:40-99 | In every run without a close, three worker steps and then two tick steps, in whatever company, have raised the completion interrupt |
| `Disk.StepProceeds` | io_devices/disk/disk.c:40-99 | No step adds to the work left, and every worker step before completion lowers it |
| `Disk.CommandZeroHangs` | io_devices/disk/disk.c:40-99 | Command 0 is accepted and then no run ever completes it |
| `Disk.CompletesExactlyWhenNonZero` | io_devices/disk/disk.c:187-201 | A command to an idle drive can complete if and only if it is not 0 |
| `Disk.Device.IssueCommand` | io_devices/disk/disk.c:187-201 | disk_cmd performs the abstract step, condition signal included |
| `Disk.Device.StopWorker` | io_devices/disk/disk.c:138-142 | The first critical section of disk_close, condition signal included |
| `Disk.Device.TickLocked` | io_devices/disk/disk.c:202-215 | disk_tick's locked part performs the abstract step and says whether it raised |
| `Disk.Device.WorkerHead` | io_devices/disk/disk.c:43-59 | The head of the worker's loop: sleeps on the condition variable, exits, or copies the command out |
| `Disk.Device.WorkerReport` | io_devices/disk/disk.c:93-96 | The worker's second critical section |
| `Timer.RunThread` | io_devices/time/timer.c:51-102 | Over any monotone clock: grid points fire in order, each at most once and never early, first + 0 * step first; every grid point before the final deadline has fired or was passed over when the clock had already reached it; that deadline is on the grid, not before the last turn's first sample and at most one step ahead |
| `Timer.TakeTurn` | io_devices/time/timer.c:58-99 | One turn of the loop is the abstract turn |
| `Timer.TurnFiresExactlyWhenDue` | io_devices/time/timer.c:58-99 | A turn fires if and only if its deadline is set and due, and then exactly that deadline; a timer just switched on aims one step ahead |
| `Timer.FirstDeadlineFires` | io_devices/time/timer.c:75-90 | A run whose last turn begins at or after the first deadline has fired it |
| `Timer.FiringCompletes` | io_devices/time/timer.c:92-98 | A firing and its catch-up leave no grid point before the new deadline unaccounted for |
| `Timer.ProgramMeans` | io_devices/time/timer.c:104-119 | What a programming leaves behind: on if and only if not 0, with a period of at least 1000 |
| `Timer.CatchUpLands` | io_devices/time/timer.c:92-98 | After a firing the new deadline is on the grid, at least one step later, and within [now, now + step] |
| `Timer.OnlyPastPointsSkipped` | io_devices/time/timer.c:94-98 | Catching up skips only grid points the clock has already reached |
| `Timer.TurnKeepsGoing` | io_devices/time/timer.c:71-99 | Each turn keeps the grid invariant and the count of firings bounded by elapsed steps |
| `Timer.AlwaysSane` | io_devices/time/timer.c:104-119 | However the guest programs the device, and wherever its stores fall between the thread's loads and stores, an enabled timer has a period of at least 1000 microseconds, and so has the copy the thread divides by |
| `Timer.ProgrammingLastsExactlyWhen` | io_devices/time/timer.c:64-69 | A timer just programmed stays on if and only if the thread is not about to store enabled = false for a zero period it saw earlier |
| `Timer.ProgrammingCanBeLost` | io_devices/time/timer.c:58-69 | A concrete interleaving from power-on that leaves a programmed timer dead |
| `Divmod.UDivMod` | kernel/src/compiler_rt_divmod.c:12-48 | Exact quotient and remainder for all 64-bit operands, 0 for a zero divisor |
| `Divmod.Align` | kernel/src/compiler_rt_divmod.c:25-30 | The alignment loop terminates at the largest doubling of B not above A, without overflow |
| `Divmod.Subtract` | kernel/src/compiler_rt_divmod.c:32-43 | The subtract loop ends with the exact quotient and a remainder below B, without overflow |
| `Divmod.UAbs` | kernel/src/compiler_rt_divmod.c:7-10 | The magnitude is exact, INT64_MIN included |
| `Divmod.TruncDivMeaning` | kernel/src/compiler_rt_divmod.c:58-79 | Truncated division satisfies a == q * b + r with the remainder below the divisor and of the dividend's sign |
| `Divmod.QuotientRange` | kernel/src/compiler_rt_divmod.c:58-68 | The quotient leaves the 64-bit range for INT64_MIN / -1 only |
| `Divmod.SDiv` | kernel/src/compiler_rt_divmod.c:58-68 | Truncation toward zero, modulo 2^64 for INT64_MIN / -1 |
| `Divmod.SMod` | kernel/src/compiler_rt_divmod.c:70-79 | The truncated remainder for all operands |
| `Nanosleep.NestedCeilingsCollapse` | kernel/src/syscall.c:192-197 | Without saturation the two nested ceilings are one ceiling over the whole request |
| `Nanosleep.SleepIsExactUpToSaturation` | kernel/src/syscall.c:534-595 | A valid non-zero request sleeps exactly ceil(total_ns / 50,000,000) ticks if and only if it is at most 85900 ticks long |
| `Nanosleep.LongSleepIsCut` | kernel/src/syscall.c:576-590 | A request of 4296 seconds sleeps 85900 ticks instead of 85920 |
| `Nanosleep.RequestKinds` | kernel/src/syscall.c:548-564 | Which requests are refused, which return at once and which sleep |
| `Nanosleep.NanosleepWakesOnTime` | kernel/src/syscall.c:534-595 | End to end, for a caller on a wait queue or on none: asleep if and only if no wake of its queue has reached it and its time is not up, awake otherwise; the number of ticks is the exact ceiling up to 85900 |
| `Nanosleep.UndisturbedNanosleep` | kernel/src/syscall.c:534-595 | A caller on no queue, with a deadline that does not wrap, is asleep until exactly that many ticks have passed and awake from then on |

## Left out

- Floating point, ordinary instructions, branches, the debugger, BIOS and ELF loading, logging: each is settled by one branch of the interpreter or belongs to the host.
- SDL display, host file I/O, thread creation and clocks: clock samples are inputs of the timer model, a disk transfer is one entry of the processed history.
- Scheduler calls are atomic with respect to each other; ticks come between calls. Task entries are arbitrary sequences of calls, and queues of other kernel code are initialised once, before use.
- SchedTheorems.NoLostChildExit: holds while fewer than 2^32 - 1 tasks have been spawned, because after that tids repeat.
- SchedTheorems.EachExitReapedOnce: same bound, and it speaks of the latest exit of a task, because nothing stops a task from calling exit twice in one step.
- The blocking loop of SYS_WAITPID in kernel/src/syscall.c retries without pumping; sched_waitpid itself is modelled. docs/posix.md describes it as parking and resuming the caller.
- Fairness of sched_pump_once and re-entrance of pumped tasks: the code guarantees neither.
- The descriptor operations F_GETFL, F_GETFD, and the socket, read and write calls on descriptors: they only look at the table or go to other devices.
- IrqObject.Controller.EnterInterrupt: models the guards of vm_enter_interrupt only, because the saving of the context is ContextObject.Core.EnterInterrupt.
- Counters that the code keeps in 32 bits and only reports (dropped bytes, run ticks, quantum use) are unbounded.
- The byte that io[KEYBOARD] shadows: reads of the port take the FIFO's oldest byte instead.
- ContextObject.Core.ReadHalf: the value a device returns is not modelled, because no stack or vector-table address reaches one.
- Context.HandlerIsTransparent: ip comes back modulo 2^32, because IRET cuts it; entry is one step with respect to other cores, whose stacks are disjoint.
- Disk.TransfersFollowCommands: the guest leaves the parameter ports alone while a command is in flight, because the worker reads them without regard to the command; the sectors moved by a transfer are not modelled.
- Timer.RunThread: a fixed period and no 64-bit overflow of deadlines, because a deadline reaches 2^64 ns only after centuries.
- Timer.AlwaysSane: one core programs the timer at a time, because the code does not serialise two.
- The EFAULT exits of SYS_NANOSLEEP (unreadable request, unwritable remainder): user memory checks are not part of this model, and the tick period is the kernel's 50 ms.
- kernel/src/spinlock.c, sysinfo registers, poll and select, io_devices/frame/frame.c: thin, constant or not called.
