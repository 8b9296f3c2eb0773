# Sinos kernel: a Dafny model of its scheduler and of four smaller cores

Sinos is a small x86-64 kernel. This project models its preemptive multi-level scheduler with
everything the scheduler stands on, and proves what it keeps over whole runs. The second part
covers the boot-time page tables, the spin mutex, the text console and the integer printer and
parser.

The scheduler appears twice. `KernelState` and `Machine` describe it as a state machine on one
CPU: a state `Kernel` and the operations timer tick, task creation, task deletion, #NM trap and
FPU instruction, each atomic because the kernel runs it inside an interrupt or with interrupts
off (an FPU instruction is one instruction). Task listing runs with interrupts on, so it is one
operation for each slot that `getTaskInfo` looks at, and anything may come in between. `CircularList`, `RunQueues`, `TaskPool`, `Scheduler` and `Shell` are the objects
of the source, with their arrays and fields changed in place; every method is proved to do
exactly what the state machine's step does. What the source promises is proved about the state
machine and so holds of both.

| file | what it is |
|---|---|
| Seqs.dfy | facts about lists without repetitions, the pigeonhole |
| Odometer.dfy, Wheel.dfy | `nextLev` as a mixed-radix odometer; how many slices each level and each task gets |
| KernelState.dfy, Tree.dfy, Queues.dfy, Machine.dfy | the state, its invariant, the steps, and that every step keeps the invariant |
| Effects.dfy, Conservation.dfy | what a step does to each TCB; no task is lost; retired ids |
| Outcomes.dfy | what each operation leaves in every field, in numbers; a task that is not flagged lives on; the first frame of a new task |
| Share.dfy, Fairness.dfy, Reaping.dfy | proportional share; freedom from starvation in every run; flagged tasks are freed in the end |
| VirtualCpu.dfy | lazy FPU switching and context switching refine one CPU per task |
| FpuLoss.dfy, FpuLossRun.dfy | exactly when a task loses its FPU state by being flagged, and a run in which one does |
| Limits.dfy | creations alone fill the pool and a thread list |
| KillAll.dfy, Cleanup.dfy | the loop of `kill -a` among other activity, and what is left after it |
| Shell.dfy | `kill -a` and `kill <number>` over the scheduler object |
| PackedId.dfy | the 64-bit id word as a record of four fields |
| CircularList.dfy, RunQueues.dfy, TaskPool.dfy, Scheduler.dfy | the objects of the source |
| PageTables.dfy | building the four-level tables, and the processor's walk over them |
| MutexProtocol.dfy | the re-entrant spin mutex, one read or write at a time |
| Console.dfy | the scrolling console as a window on an endless terminal |
| Numerals.dfy | `utoa`, `itoa`, `atoi`, reversal in place |

`dafny verify dfyconfig.toml` checks the whole project.

## What the code needs from its surroundings

* Memory is zero before the kernel builds its objects. Constructors of global objects are not run
  (TODO.org:48), so zeroed memory stands in for them.
* Task priorities are 1 to 5 (64kernel/task.h:62).
* Nobody deletes the shell, slot 0. That it stays allocated is what makes `getTaskInfo` end and
  `nextLev` find a task. `kill -a` skips it as a system task (64kernel/shell.cc:453), but
  `kill <number>` can reach it; see below.
* The FPU starts with TS set (32kernel/32kernel_entrypoint.s:13), so the first FPU instruction traps.

## Where the code falls short of what it is meant to do

Each of these is stated with the exact condition under which the code is right.

* `newTask` writes through the TCB pointer before it compares it with NULL. It does so if and only
  if the pool is full (`Machine.NullPointerIffPoolFull`), and 1023 creations after boot it is
  (`Limits.FullPoolIsReachable`).
* A 33rd thread of one process is created but never linked to it, because a full list drops the
  push silently. The tree invariant survives a creation if and only if the owner's list has room
  (`Machine.NewTaskKeepsIffRoom`), and 32 creations by the shell use up the room
  (`Limits.FullThreadListIsReachable`).
* `kill` refuses the number 0 and then passes an int on as a `u16_t`, so 65536 names slot 0, the
  running shell. The command hits the shell if and only if its number is not 0 and divisible by
  65536 (`Shell.KillHitsShellIff`), and deleting slot 0 is the one deletion that breaks the
  invariant (`Machine.DeleteKeepsIff`).
* Flagging a task for deletion changes its id and the ids of its threads, and `exFxUserId` is not
  told. A task that is flagged while it is not running gets the FPU state it left, at its next
  trap, if and only if it did not own the FPU registers or they had not changed since they were
  saved (`FpuLoss.FlaggedKeepsFpuIff`). A task that is flagged while it runs keeps its registers
  until it is preempted (`FpuLoss.RunnerLosesNothing`), and then the same holds
  (`FpuLoss.PreemptedKeepsFpuIff`; this covers more than the code can do, since a task that is
  flagged while it runs and outlives its tick is a process that has deleted itself, and that only
  spins at 64kernel/scheduler.cc:127 and does not use the FPU again). A task loses its state once at most: after the
  trap it sees what it left (`FpuLoss.AfterTrapNothingIsLost`). `FpuLossRun.AThreadLosesItsFpu` is
  a run from boot, eleven operations long, in which a thread loses its state.
* The mutex takes its byte into a register for the compare-and-exchange (64kernel/mutex.cc:15-18;
  64kernel/mutex.o has a load, `cmpxchg %dl,%bl` and a store), so the exchange is not one step on
  memory. A step keeps the mutex right if and only if it does not store what it made of a byte
  that has changed since, does not read a stale owner id, and is not the 256th nested lock
  (`MutexProtocol.StepKeepsIff`). `MutexProtocol.BothTasksWin` is a run with two tasks inside, and
  `MutexProtocol.TaskOneOrphans` one that leaves the mutex locked by nobody. As long as the last
  owner does not come to find its own id in it again, no task comes in
  (`MutexProtocol.OrphanedWhileOwnerIsAway`, and step by step `MutexProtocol.StaysOrphanedIff`);
  one more `unLock` by the last owner, or a lock and unLock at the right moment, ends that
  (`MutexProtocol.LastOwnerRescues`, `MutexProtocol.BalancedUseRescues`).
* The exchange carries a `lock` prefix and names a register (64kernel/mutex.o: `f0 0f b0 d3`), a
  form that a processor refuses with an invalid-opcode exception. All runs above are of the code
  where the prefix is ignored; where it is not, the first `lock()` does not get past it.
* A holder that is flagged for deletion gets another id than the one in the mutex. Unless it
  is at that moment in the last steps of a call, or an exchange has loaded 0, it can then never
  unlock, and no task can ever lock (`MutexProtocol.FlaggedHolderNeverUnlocks`). If an exchange
  has loaded 0, its task comes in as well (`MutexProtocol.FlaggedHolderLetsTwoIn`).
* With an atomic exchange, the intended design, the window between the exchange and the write of
  the owner's id remains: `MutexProtocol.TwoTasksInside` is such a run,
  `MutexProtocol.AtomicStepKeepsIff` the exact condition, and every step that violates it can be
  followed by a second task inside (`MutexProtocol.HazardLetsTwoIn`,
  `MutexProtocol.OverflowLetsTwoIn`).
* A page table entry is made from a 32-bit pointer by a cast to a 64-bit integer
  (32kernel/page.cc:83), which g++ sign-extends (its manual, section "Arrays and Pointers
  Implementation"; 32kernel/page.o has the `sar $0x1f`). From 2 GBytes on that sets address bits
  which are reserved on every processor with fewer than 52 of them, and the walk faults. The page
  tables map memory to itself if and only if its size is at most 2 GBytes and, at both lower
  levels, either fits in one table or fills whole tables, and the tables lie below 2 GBytes
  (`PageTables.IdentityIffGood`). The comment at 32kernel/page.cc:32-34
  promises 4 GBytes and says nothing of whole tables. The size and place that are used, "1G" at
  0x1200000, are good; "3M" and "3G" are accepted and are not (`PageTables.BadSizeWitnesses`).
* 32kernel/page.cc:38 says that "2K" gives 2048; the code gives 2, as the function's name says.
* `itoa` negates its argument, which overflows for the smallest int; every other int survives
  printing and parsing (`Numerals.PrintParse`).
* The tests `num_ == 0` at 64kernel/list.h:169 and 64kernel/list.h:188 come after `num_` has been
  incremented and never hold. The code is right because an empty list always has
  `head_ == tail_`, which is part of the list's invariant here.

## Model

| member | source | states |
|---|---|---|
| Odometer.CarryAddsOne | 64kernel/scheduler.cc:59-70 | read as digits of base size + 1, the clipped counts go up by exactly one in the step from one `++` to the next, as long as some count is below its size |
| Odometer.TurnRestartsAtOne | 64kernel/scheduler.cc:63-69 | after the fall-through all counts are zero and the number starts again at 1 |
| Odometer.ValueNamesLevel | 64kernel/scheduler.cc:61-66 | the level picked is the lowest non-zero digit of the number |
| Odometer.CountTurn | 64kernel/scheduler.cc:59-70 | among the numbers 1 to W - 1, level i is the lowest non-zero digit of size_i times the product of the higher bases |
| Odometer.CountWindow | 64kernel/scheduler.cc:59-70 | the same for every window of W - 1 consecutive numbers, wherever it starts |
| Wheel.TurnNamesLevel | 64kernel/scheduler.cc:59-70 | the number is always within 1 to W - 1 and names the current level, even with stale counts |
| Wheel.PickAdvancesTurn | 64kernel/scheduler.cc:59-70 | nextLev moves the number one place on, cyclically, and picks a level that has a task |
| Wheel.PickFindsTaskIff | 64kernel/scheduler.cc:61-69 | nextLev picks a non-empty level if and only if level 0 has a task or some count is below its size |
| Wheel.LevelShare | 64kernel/scheduler.cc:32-70 | in a window of W - 1 ticks level i gets exactly size_i times the product of the bases above it |
| Wheel.SlicesFollowRotation | 64kernel/scheduler.cc:37-48 | within a level the tasks take turns: of m tasks, the one at position p runs in slices p, p + m, p + 2m, ... of the level |
| Wheel.TaskShare | 64kernel/scheduler.cc:32-70 | each task of level i runs exactly as often as the product of the bases above level i |
| Share.SettledTick | 64kernel/scheduler.cc:32-70 | while no flagged task is without threads, a tick of the whole kernel is one turn of the wheel |
| Share.TurnInNumbers | 64kernel/scheduler.cc:59-70 | W is the product of all five sizes plus one, and the share of a level the product over the levels below it in priority |
| Share.TickSpins | 64kernel/scheduler.cc:32-70 | a tick whose running task is not flagged, or has threads, is one turn of the wheel, in any state of the invariant |
| Share.ProportionalShare | 64kernel/scheduler.cc:32-70 | exact proportional share in every settled state that satisfies the invariant, for every task and every run of W - 1 ticks, with any traps, FPU instructions and probes among them |
| Share.NoStarvation | 64kernel/scheduler.cc:32-70 | every task runs in every such run of W - 1 ticks |
| Machine.BootOk | 64kernel/scheduler.cc:9-30 | the state after init satisfies the invariant |
| Machine.TickKeeps | 64kernel/scheduler.cc:32-57 | a tick keeps the invariant; in particular the level it chooses has a task to run |
| Machine.ReapKeeps | 64kernel/scheduler.cc:39-42 | freeing a task and taking it off its queue keeps tree, queues and counts |
| Machine.NullPointerIffPoolFull | 64kernel/scheduler.cc:79-85 | newTask uses a null TCB if and only if all 1024 slots are allocated |
| Machine.NewTaskFields | 64kernel/scheduler.cc:72-103 | the first free slot gets the next key, its flags and priority, and a frame with the entry point in RIP, 0x200 in RFLAGS, the selectors 24 and 32, RSP and RBP on top of the 8 KBytes of its slot, and the general registers as they were; no other slot changes but for its thread list |
| Machine.NewTaskKeepsIffRoom | 64kernel/scheduler.cc:92-98 | creation keeps the invariant if and only if a new thread's owner has fewer than 32 threads |
| Limits.FullPoolIsReachable | 64kernel/scheduler.cc:79-85 | 1023 creations after boot the pool is full and the next creation meets the null pointer |
| Limits.FullThreadListIsReachable | 64kernel/list.h:176-177 | after 32 creations of threads by the shell there is no room, and the next one breaks the tree |
| Machine.OwnerAfterAllocation | 64kernel/scheduler.cc:93-94 | the search for the owner of a new thread finds the current task's process, not the slot allocated just before |
| Machine.DeleteKeepsIff | 64kernel/scheduler.cc:116-152 | a deletion keeps the invariant if and only if its target is not the shell, in all four branches |
| Machine.ShellIsHit | 64kernel/scheduler.cc:121-128 | deleting the running shell flags it and leaves it its threads, so without threads its tick frees it |
| Machine.DeleteKeepsCurrent | 64kernel/scheduler.cc:116-152 | deletion never changes which task is running |
| Machine.DeleteTargetFacts | 64kernel/scheduler.cc:131-136 | deleteTask finds a target if and only if the slot is allocated |
| Machine.StepKeepsIff | 64kernel/scheduler.cc:32-152 | of all operations that can happen, exactly those keep the whole invariant whose caller leaves the shell alone and starts threads only where there is room |
| Tree.SearchIsLookup | 64kernel/task.cc:139-145 | searching an id is looking into the slot numbered in the id and comparing |
| Tree.IdsAreUnique | 64kernel/task.cc:94-103 | two slots never have the same id |
| Tree.ParentIsFound | 64kernel/scheduler.cc:92-95 | the id in PPID_ finds a live process that is not a thread and that lists the thread |
| Tree.OnlyProcessesHaveThreads | 64kernel/task.h:104-113 | a slot with threads is allocated and not a thread |
| Tree.MarkDeletedFields | 64kernel/task.h:107-119 | flagging changes the id of the task and of its threads, and tells the threads the task's new id; nothing else changes |
| Tree.MarkDeletedKeepsTree | 64kernel/task.h:71-78 | parents and thread lists still agree after the ids have changed |
| Tree.FreeFields | 64kernel/task.cc:130-137 | freeing a task without threads zeroes its key and takes it off every thread list |
| Tree.FreeKeepsTree | 64kernel/task.cc:130-137 | and keeps the tree |
| Tree.NewProcessKeepsTree | 64kernel/scheduler.cc:79-90 | a new process starts without threads and keeps the tree |
| Tree.NewThreadKeepsTree | 64kernel/scheduler.cc:92-95 | a new thread in a list with room keeps the tree |
| Queues.FreeSlotExists | 64kernel/task.cc:107-116 | the scan for a free slot succeeds if and only if fewer than 1024 slots are allocated |
| Queues.QueueHasRoom | 64kernel/scheduler.h:23-31 | a queue that lacks some slot has room for it, so no push is dropped |
| Queues.RequeueKeeps | 64kernel/scheduler.cc:37-45 | taking a task out and queueing it again keeps all sizes and that each task is in one queue, once |
| Queues.ReleaseKeeps | 64kernel/scheduler.cc:143-146 | removing a freed task keeps that, with one task less |
| Queues.EnterKeeps | 64kernel/scheduler.cc:97-98 | pushing a new task keeps that, with one task more and nothing dropped |
| Effects.TickFields | 64kernel/scheduler.cc:50-56 | after a tick TS is clear if and only if the next task is the FPU owner, the interrupted frame is in the outgoing TCB, and the frame returned to is the next task's |
| Effects.DeleteFields | 64kernel/scheduler.cc:116-152 | deletion only frees or flags ids and shortens thread lists; frames and FPU state stay |
| Effects.StepSlots | 64kernel/scheduler.cc:32-152 | every step but creation moves every slot by nothing, a free, or a flag |
| Outcomes.TickFreesIff | 64kernel/scheduler.cc:34-45 | a tick frees a task if and only if it is the running one, flagged for deletion, without threads and not alone; a task that is alone goes on with the frame it was interrupted with |
| Outcomes.TickSlots | 64kernel/scheduler.cc:37-56 | the running task gets the interrupted frame saved and, if it is freed, a zero key and no place in a thread list; nothing else changes in any slot |
| Outcomes.TickPlaces | 64kernel/scheduler.cc:37-45 | the running task goes from the front of its queue to the back, or for good with both counts one less; the other queues and fields stay |
| Outcomes.TickLevel | 64kernel/scheduler.cc:59-70 | the level picked is the first whose count is below its size, the counts before it are zero and those from it on stay, the one that ended counted; and if there is none all are zero and level 0 is picked |
| Outcomes.UnflaggedTaskLives | 64kernel/scheduler.cc:32-152 | a task that is not flagged keeps its slot and its id in every run in which neither it nor its process is deleted |
| Outcomes.FreedSlots | 64kernel/scheduler.cc:143-146 | deleting a task that is not running and has no threads zeroes its key and strikes it off the thread lists; no other id changes |
| Outcomes.FlaggedSlots | 64kernel/scheduler.cc:121-142 | deleting the running task or one with threads flags exactly it and its threads, which are told its new id; no other id changes |
| Outcomes.DeletePlaces | 64kernel/scheduler.cc:121-146 | a target that is not running leaves its place in its queue, for the back if it has threads, else for good with both counts one less; the running one stays; a number that is not allocated changes nothing |
| Outcomes.DeleteFrees | 64kernel/scheduler.cc:143-146 | a target that is not running and has no threads is free at once, in no queue, and off both counts |
| Outcomes.DeleteFlags | 64kernel/scheduler.cc:138-142 | a target that is not running and has threads stays allocated and counted, flagged with all its threads, last in its queue |
| Outcomes.DeleteSpares | 64kernel/scheduler.cc:116-152 | a deletion changes the id, parent id and frame of no task but its target and the threads of it |
| Outcomes.NewPlaces | 64kernel/scheduler.cc:79-98 | newTask fails if and only if 1024 tasks are counted; else the first free slot goes to the back of the queue of its priority, both counts and the key go up by one, the key from 2^32 - 1 to 1, and nothing else changes |
| Outcomes.NewSlots | 64kernel/scheduler.cc:79-95 | a process is its own parent; a thread belongs to the process of the running task, which lists it last while it lists fewer than 32; no other slot changes |
| Outcomes.WaitingTaskKeepsFrame | 64kernel/scheduler.cc:55-56 | a task keeps its saved frame in every run in which it does not run and neither it nor its process is deleted |
| Outcomes.FirstRun | 64kernel/task.cc:14-28 | the first tick that picks a new task, after any such run, returns to its entry point with RFLAGS 0x200, the selectors 24 and 32, RSP and RBP 8 bytes below the end of the 8 KBytes of its own slot, and the general registers that the slot held |
| Outcomes.TrapOutcome | 64kernel/isr.cc:104-122 | #NM clears TS, saves the registers to the live task whose id is the owner's, loads what the running task saved or the initial state, and makes it the owner; nothing else changes |
| Outcomes.ListingIsNext | 64kernel/scheduler.cc:105-114 | getTaskInfo answers with the first allocated slot from the cursor on, round from 1023 to 0, and leaves the cursor behind it |
| Outcomes.BootFields | 64kernel/scheduler.cc:9-30 | after init the shell is alone: slot 0, key 1, system process, priority 1, running on level 0; all other slots are free and numbered |
| Conservation.NoTaskLostOrDoubled | 64kernel/scheduler.cc:32-152 | each allocated task is in the queues exactly once, a free slot never; the task counts agree; a queue has room whenever the pool has |
| Conservation.EveryRunConserves | 64kernel/scheduler.cc:9-152 | after every run from boot: the same, the tree intact, a task to run on the current level, and the listing cursor within the pool |
| Conservation.IssuedKeyReturns | 64kernel/task.cc:123-125 | a key just issued is up for issue again after exactly 2^32 - 2 further creations and not before |
| Conservation.RetiredIdIsNeverFound | 64kernel/task.cc:118-145 | a retired id is found by no search until then, in any run |
| VirtualCpu.StepAgrees | 64kernel/isr.cc:104-122 | every step keeps agreement with a machine that has one CPU per task, and shows the running task the same frame and FPU registers; alone it resumes with the frame it was interrupted with |
| VirtualCpu.TsClearMeansOwner | 64kernel/scheduler.cc:50-53 | TS clear means that the running task, unless flagged, owns the FPU registers |
| VirtualCpu.LazyRefinesEager | 64kernel/isr.cc:104-122 | over every run with fresh keys, each task resumes with the frame of its last preemption (or its first frame, or, alone, the frame just interrupted) and sees the FPU state it left |
| VirtualCpu.KeysStayFresh | 64kernel/task.cc:123-125 | keys are fresh in every run until the key counter wraps |
| VirtualCpu.EveryTaskHasItsOwnCpu | 64kernel/isr.cc:104-122 | both together, from boot, for every run of fewer than 2^32 - 2 creations |
| FpuLoss.FlaggedKeepsFpuIff | 64kernel/task.h:107-119 | a target or thread flagged while it cannot use the FPU gets at its next trap, in any run, what it left if and only if it was not the owner or its saved copy was up to date |
| FpuLoss.RunnerLosesNothing | 64kernel/scheduler.cc:121-128 | a task flagged while it runs with the registers has its own registers until the next tick, whatever it does |
| FpuLoss.PreemptedKeepsFpuIff | 64kernel/isr.cc:108-119 | once preempted, it gets what it left if and only if the registers were as last saved |
| FpuLoss.AfterTrapNothingIsLost | 64kernel/isr.cc:104-122 | from the first trap of a flagged task on, it sees in every run what it left, starting from what that trap gave it |
| FpuLossRun.AThreadLosesItsFpu | 64kernel/isr.cc:104-122 | a run of eleven operations from boot that ends with a trap giving a thread other registers than it left |
| KillAll.ScanEnds | 64kernel/scheduler.cc:107-113 | whatever happens between its probes, creations included, getTaskInfo misses fewer than 1024 times in a row; only a second listing, which would move the shared cursor, is excluded |
| KillAll.ProbeCovers | 64kernel/scheduler.cc:109-111 | a probe moves the cursor by one slot, and a miss leaves nothing to do behind it |
| KillAll.ScanCovers | 64kernel/scheduler.cc:105-114 | a whole scan with other activity between its probes passes only slots that are done, up to the one it returns |
| KillAll.RoundCovers | 64kernel/shell.cc:451-455 | each iteration leaves one more slot behind the cursor done for, whatever ticks and deletions come in between, also inside the scan |
| KillAll.KillAllReachesEveryTask | 64kernel/shell.cc:450-456 | after the loop every task that is not a system task is freed, or flagged together with all its threads, system threads included, wherever the cursor was |
| Cleanup.OnlySystemTasksRemain | 64kernel/shell.cc:450-456 | after kill -a and two rounds of patience of ticks without creations only system tasks are left |
| Shell.IdleScan | 64kernel/scheduler.cc:105-114 | with nothing in between, the probes up to the first allocated slot are a scan |
| Shell.UndisturbedRoundIs | 64kernel/shell.cc:452-454 | with nothing in between, an iteration is one listing and one deletion, and never meets the running shell |
| Shell.RoundKeepsSystem | 64kernel/shell.cc:452-454 | an iteration changes the id of no system task that is a process or a thread of a system process |
| Shell.KillAllTasks | 64kernel/shell.cc:450-456 | the loop over the scheduler object does exactly the 1025 iterations and leaves every allocated task but system tasks flagged, with all its threads, and every system task of a system process under its old id |
| Shell.KillNumberNames | 64kernel/shell.cc:463-469 | the slot deleted is the one from 0 to 65535 that differs from the number by a multiple of 65536 |
| Shell.KillHitsShellIff | 64kernel/shell.cc:463-469 | kill with a number breaks the invariant if and only if the number is not 0 and divisible by 65536 |
| Shell.KillOf65536 | 64kernel/shell.cc:463-469 | the text of 65536 parses to it, and right after boot it makes the running shell due to be freed |
| Shell.KillCommand | 64kernel/shell.cc:463-470 | a number from 1 to 65535 deletes that task and answers that it was not found if and only if its slot is not allocated; other numbers delete the slot their low 16 bits name; 0 is refused and overflow reported, with nothing changed; for every text |
| Reaping.SpinShortensWait | 64kernel/scheduler.cc:37-70 | a tick that frees nobody brings a waiting task nearer to its turn |
| Reaping.StepLowersPotential | 64kernel/scheduler.cc:37-70 | for every task, a measure of task count, queue position and odometer distance falls with every tick of another task and rises with no step but creation and its own deletion |
| Reaping.EveryTaskRuns | 64kernel/scheduler.cc:32-70 | in every run without creations, however many tasks are flagged and freed in it, every task that is not deleted itself runs within (tasks + 1) * 1024 * W ticks |
| Fairness.PickComesCloser | 64kernel/scheduler.cc:59-70 | whatever the queue sizes, every nextLev that does not pick a non-empty level brings it closer, by the counts read in base 1025 |
| Fairness.StepLowersRank | 64kernel/scheduler.cc:32-152 | no step of other tasks, creation and deletion included, sets a waiting task back, and every tick brings it closer |
| Fairness.NoTaskStarves | 64kernel/scheduler.cc:32-152 | in every run whatsoever with more than 2048 * 1025^4 ticks every task runs that is not itself deleted |
| Fairness.FlaggedThreadIsFreed | 64kernel/scheduler.cc:37-42 | in every run with as many ticks every flagged thread is freed |
| Reaping.PatienceIs | 64kernel/scheduler.cc:37-70 | the bound on the wait is (tasks + 1) * 1024 * W ticks |
| Reaping.DueTaskIsFreed | 64kernel/scheduler.cc:39-42 | a flagged task without threads is freed in every run with that many ticks and no creation |
| Reaping.TickingFrees | 64kernel/scheduler.cc:32-57 | ticks alone can always go on for that long, and then have freed it |
| Reaping.DeleteDooms | 64kernel/scheduler.cc:116-152 | deleteTask frees its target at once or leaves it flagged with all its threads flagged |
| Reaping.ThreadsAreFreed | 64kernel/scheduler.cc:123-146 | a flagged process whose threads are all flagged loses them all |
| Reaping.DoomedProcessIsFreed | 64kernel/scheduler.cc:116-146 | and is then freed itself |
| PackedId.PackUnpack | 64kernel/task.h:52-61 | the id word and the record of its four fields determine each other |
| PackedId.WordLayout | 64kernel/task.h:33-61 | key in the upper half, then flags with system 0x80, thread 0x40 and delete 0x01, then priority, then slot number, shown on four words |
| PackedId.EqualByFields | 64kernel/task.h:86-90 | two words are equal if and only if their four getters agree |
| PackedId.DeleteFlagOnly | 64kernel/task.h:119 | setDeleteFlag sets one bit, is idempotent, and changes the id if and only if the task was not flagged |
| PackedId.ViewIsInjective | 64kernel/task.cc:139-145 | comparing id words is comparing the records the model uses |
| PackedId.SetKeyIsUpdate | 64kernel/task.h:95 | setKey replaces the key of the record and nothing else |
| PackedId.SetNoIsFresh | 64kernel/task.h:94 | setNo leaves a free slot of that number without flags and priority |
| PackedId.SetFlagsIsUpdate | 64kernel/task.h:101 | setFlags replaces the flags of the record and nothing else |
| PackedId.SetPriorityIsUpdate | 64kernel/task.h:96-100 | setPriority replaces the priority and nothing else, and ignores priorities above 5 |
| PackedId.SetDeleteFlagIsUpdate | 64kernel/task.h:119 | setDeleteFlag is the record's change of the delete flag |
| CircularList.SomeSlotIsFree | 64kernel/list.h:157-164 | a list that is not full has a free slot, so the scans for one end |
| CircularList.LinkOut | 64kernel/list.h:84-91 | linking the predecessor past an element leaves one cycle through all the others |
| CircularList.Removal | 64kernel/list.h:84-95 | the writes of remove keep the list's shape without that element, and leave the iterator on the next one with its true predecessor |
| CircularList.List.constructor | 64kernel/list.h:43-48 | a new list is empty and well formed |
| CircularList.List.InsertNode | 64kernel/list.h:144-152 | the exact new links, data and table |
| CircularList.List.PushBack | 64kernel/list.h:174-190 | appends, or does nothing when full |
| CircularList.List.PushFront | 64kernel/list.h:155-171 | prepends, or does nothing when full |
| CircularList.List.PopFront | 64kernel/list.h:114-124 | drops the first element, if any |
| CircularList.List.BeforeTail | 64kernel/list.h:135-137 | the walk around the cycle ends, in front of the tail |
| CircularList.List.PopBack | 64kernel/list.h:127-141 | drops the last element, if any |
| CircularList.List.Front | 64kernel/list.h:60-64 | the first element |
| CircularList.List.Begin | 64kernel/list.h:72 | the iterator stands on the first element, with the last one as its predecessor |
| CircularList.List.Advance | 64kernel/list.h:106-111 | the iterator goes to the next element, from the last to the first |
| CircularList.List.Get | 64kernel/list.h:99-103 | the element under the iterator |
| CircularList.List.Remove | 64kernel/list.h:79-96 | exactly the element under the iterator leaves; the iterator stands on its successor |
| RunQueues.RemoveFrom | 64kernel/scheduler.cc:157-165 | the search loop removes the first occurrence and nothing else, and says whether there was one |
| RunQueues.RunQueues.Push | 64kernel/scheduler.h:31 | appends to one queue, the other four unchanged |
| RunQueues.RunQueues.Pop | 64kernel/scheduler.h:30 | drops the front of one queue, if it has one, the other four unchanged |
| RunQueues.RunQueues.RemoveTask | 64kernel/scheduler.cc:154-169 | removes the task from the first queue that has it, all else keeping order and level |
| TaskPool.TaskPool.constructor | 64kernel/task.cc:94-103 | numbered slots with zero keys |
| TaskPool.TaskPool.SearchTcb | 64kernel/task.cc:139-145 | the first allocated slot with the id, or none |
| TaskPool.TaskPool.FindFree | 64kernel/task.cc:110-116 | the first free slot |
| TaskPool.TaskPool.AllocateTcb | 64kernel/task.cc:105-128 | nothing on a full pool; else the first free slot with the next key, counts and key counter advanced past zero |
| TaskPool.TaskPool.CommitPpids | 64kernel/task.h:71-78 | exactly the listed threads are told the new id |
| TaskPool.TaskPool.SetDeleteFlag | 64kernel/task.h:119 | flags the task and tells its threads |
| TaskPool.TaskPool.CleanThread | 64kernel/task.h:107-114 | flags exactly the listed threads |
| TaskPool.TaskPool.FlagTask | 64kernel/scheduler.cc:139-140 | both together are the marking whose effect on the tree is proved |
| TaskPool.TaskPool.RmThread | 64kernel/task.cc:82-92 | comparing ids, the loop takes exactly that thread off the list |
| TaskPool.TaskPool.RmThreadFrom | 64kernel/task.cc:82-92 | the same on a list object, with its iterator |
| TaskPool.TaskPool.FreeTcb | 64kernel/task.cc:130-137 | unlinks a thread from the parent it finds, then frees the slot |
| TaskPool.TaskPool.InitTask | 64kernel/task.cc:11-28 | the first frame, word by word: entry point, RFLAGS 0x200, selectors, stack top, the general registers as they were; the FPU as not used |
| TaskPool.TaskPool.AddThread | 64kernel/task.h:102-104 | parent id and bounded push on the parent's list |
| Scheduler.Scheduler.constructor | 64kernel/scheduler.cc:9-30 | the object after init is the boot state of the machine |
| Scheduler.Scheduler.CurrentTask | 64kernel/scheduler.h:49 | the front of the current level's queue |
| Scheduler.Scheduler.NextLev | 64kernel/scheduler.cc:59-70 | the loop computes the odometer step that the share theorems are about |
| Scheduler.Scheduler.RequeueCurrent | 64kernel/scheduler.cc:37-45 | pops the running task and frees it or pushes it back |
| Scheduler.Scheduler.Reschedule | 64kernel/scheduler.cc:37-48 | requeue and nextLev together are the machine's switch |
| Scheduler.Scheduler.SwapFrames | 64kernel/scheduler.cc:50-56 | TS follows the owner test, the interrupted frame is saved and the next task's frame put in its place, in that order |
| Scheduler.Scheduler.SwitchTaskIntrpt | 64kernel/scheduler.cc:32-57 | the object's tick is the machine's tick |
| Scheduler.Scheduler.MakeTcb | 64kernel/scheduler.cc:79-95 | pool, counts and keys after creation are the machine's; on a full pool nothing is touched |
| Scheduler.Scheduler.LinkThread | 64kernel/scheduler.cc:92-95 | the owner is found by id and lists the new thread, if it has room |
| Scheduler.Scheduler.NewTask | 64kernel/scheduler.cc:72-103 | the object's creation is the machine's, None on a full pool, and keeps the invariant when there is room for a thread |
| Scheduler.Scheduler.FlagOrFree | 64kernel/scheduler.cc:138-146 | a target that has left its queue is flagged and queued again, or freed |
| Scheduler.Scheduler.DeleteTask | 64kernel/scheduler.cc:116-152 | the object's deletion and its result are the machine's, for every slot number; the object stays valid if and only if the number is not 0 |
| Scheduler.Scheduler.GetTaskInfo | 64kernel/scheduler.cc:105-114 | with nothing between its probes, the endless loop ends, at the next allocated slot from the cursor |
| Scheduler.Scheduler.DeviceNotAvailable | 64kernel/isr.cc:104-122 | the #NM handler is the machine's hand-over of the FPU |
| PageTables.SetPmlMem | 32kernel/page.cc:76-89 | exactly the entries, the or of the sign-extended pointer and the flags given, and the n mod 512 zero words behind them are written |
| PageTables.TableWords | 32kernel/page.cc:64-83 | word i of each level is the address of table i of the level below, or of page i, plus the flags of its own level |
| PageTables.TablesAreWhole | 32kernel/page.cc:8-12 | as many tables as are filled, or one |
| PageTables.LaterFillKeeps | 32kernel/page.cc:68-71 | a fill leaves the levels that lie before it as they were built |
| PageTables.LayoutFacts | 32kernel/page.cc:59-66 | when the tables fit below 4 GBytes no table address wraps and each level starts where the one above ends |
| PageTables.InitPageTables | 32kernel/page.cc:46-74 | -1 and no write for no pages; else all four levels stand in memory with their own entries, whatever the zero-fills spilled over before |
| PageTables.MemSizeKb | 32kernel/page.cc:91-122 | the size is that of a string of digits and one unit letter, modulo 2^64, and 0 for every other string |
| PageTables.SizeReads | 32kernel/page.cc:91-122 | digits and K, M, G or T are their decimal value times 1, 1024, 1024^2 or 1024^3, modulo 2^64 |
| PageTables.SizeRefuses | 32kernel/page.cc:91-122 | a size that is not 0 comes from digits and one of these letters |
| PageTables.OrIsSum | 32kernel/page.cc:83 | the bitwise or of an aligned address and flags below 4096 is their sum |
| PageTables.OrBits | 32kernel/page.cc:83 | a bit of the or is set if and only if it is set in one of the two |
| PageTables.EntryFacts | 32kernel/page.cc:83 | an entry made from a pointer below 2 GBytes holds that address with the flags; from there on it has a reserved bit set |
| PageTables.WalkReaches | 32kernel/page.cc:59-83 | what the walk makes of any page that every table on the way has room for, with the wrap of 32-bit pointers and the fault on sign-extended ones |
| PageTables.WalkIsIdentity | 32kernel/page.cc:59-89 | for a good size and low tables the walk of every address below the memory size gives the address itself, with its level's flags |
| PageTables.GigabyteIsLost | 32kernel/page.cc:82-85 | from 2 GBytes on the first address of every GByte is not mapped to itself |
| PageTables.HighTableIsLost | 32kernel/page.cc:64-66 | with tables at or above 2 GBytes some address is unmapped even if the size is good |
| PageTables.BadSizeFails | 32kernel/page.cc:8-20 | for a size or a place that is not good some address below the memory size is not mapped to itself |
| PageTables.IdentityIffGood | 32kernel/page.cc:46-89 | the whole memory is mapped to itself if and only if its size is good and the tables lie below 2 GBytes |
| PageTables.GoodSizes | 32kernel/page.cc:46-66 | a good size is at most 2 MBytes, or a whole number of 2 MBytes up to 1 GByte, or 2 GBytes; where the tables for it end |
| PageTables.BadSizeWitnesses | 32kernel/page.cc:46-89 | of 3 MBytes the last one is not mapped, and of 3 GBytes the last one not to itself |
| PageTables.BootSizeIsGood | 32kernel/main.cc:31 | "1G" at 0x1200000 is a good size in a good place, and the default flags are good |
| MutexProtocol.InitOk | 64kernel/mutex.h:19-21 | a fresh mutex satisfies the invariant |
| MutexProtocol.MutualExclusion | 64kernel/mutex.cc:22-34 | in a state of the invariant at most one task is inside; the count is its nesting depth and the owner word is its id |
| MutexProtocol.LockFree | 64kernel/mutex.cc:22-34 | four undisturbed steps of lock on a free mutex put the caller inside, with count 1 and its id |
| MutexProtocol.LockAgain | 64kernel/mutex.cc:24-28 | seven steps of lock by the task whose id is in the mutex put it one deeper inside, with the count one more |
| MutexProtocol.LockSpins | 64kernel/mutex.cc:24-31 | any other caller of lock on a held mutex spins after five steps and goes on spinning, and changes nothing |
| MutexProtocol.UnlockCall | 64kernel/mutex.cc:36-42 | five steps of unLock by the task whose id is in the mutex bring it one level out, with the count one less, and free the mutex at 0 |
| MutexProtocol.OthersDoNotUnlock | 64kernel/mutex.cc:36-41 | a task that does not hold the mutex never comes to the decrement |
| MutexProtocol.UnlockByOthersIsNeutral | 64kernel/mutex.cc:36-42 | in every safe run, unLock by a task that does not hold the mutex is over after two steps and changes neither word |
| MutexProtocol.StepKeepsIff | 64kernel/mutex.cc:4-42 | a step of the code keeps the invariant if and only if it is not a stale exchange, not a stale owner reading its own id, and not the 256th nested lock |
| MutexProtocol.SafeRunsKeep | 64kernel/mutex.cc:4-42 | every run without such steps is exclusive throughout |
| MutexProtocol.StaleWinLetsTwoIn | 64kernel/mutex.cc:11-33 | every stale exchange that wins puts two tasks inside within three moves |
| MutexProtocol.StaleStoreOrphansIff | 64kernel/mutex.cc:15-18 | a stale exchange into a free mutex leaves it locked by nobody if and only if no exchange, this one or another, has loaded 0 |
| MutexProtocol.StaleLossLetsTwoIn | 64kernel/mutex.cc:11-41 | a stale exchange that stores less than the depth of a holder between two calls can be followed by a second task inside |
| MutexProtocol.StaleLossOrphans | 64kernel/mutex.cc:11-41 | one that stores more leaves the mutex locked by nobody after exactly as many unLock calls of the holder, five steps each, as it is deep inside, if no exchange has loaded 0 |
| MutexProtocol.StaysOrphanedIff | 64kernel/mutex.cc:4-42 | a step leaves a mutex locked by nobody so if and only if it is not the last owner's read of its own id |
| MutexProtocol.OrphanedWhileOwnerIsAway | 64kernel/mutex.cc:22-42 | as long as the last owner does not read its own id, no task comes in, in any run |
| MutexProtocol.BothTasksWin | 64kernel/mutex.cc:22-34 | a run of the code from the start that ends with two tasks inside though each winner writes its id at once |
| MutexProtocol.TaskOneOrphans | 64kernel/mutex.cc:22-42 | a run of the code from the start that leaves the mutex locked by nobody |
| MutexProtocol.LastOwnerRescues | 64kernel/mutex.cc:22-42 | from there, one unLock by the last owner lets the other task in |
| MutexProtocol.BalancedUseRescues | 64kernel/mutex.cc:22-42 | two steps later task 1 spins, and from there a lock and an unLock by the last owner do |
| MutexProtocol.FlaggedHolderNeverUnlocks | 64kernel/mutex.cc:4-42 | after a holder has lost the id in the mutex the count stays above 0 and no depth ever changes, in any run, if no exchange has loaded 0 |
| MutexProtocol.FlaggedHolderLetsTwoIn | 64kernel/mutex.cc:4-42 | if one has, its task comes in while the holder is still inside |
| MutexProtocol.HazardNeedsWindow | 64kernel/mutex.cc:24-33 | a stale owner reads its id only while a winner has not yet written its own |
| MutexProtocol.AtomicStepKeepsIff | 64kernel/mutex.cc:4-42 | with an atomic exchange a step keeps the invariant if and only if it is neither a stale owner reading its own id nor the 256th nested lock |
| MutexProtocol.AtomicRunIsRun | 64kernel/mutex.cc:4-42 | every run with an atomic exchange is a run of the code |
| MutexProtocol.PromptRunsAreSafe | 64kernel/mutex.cc:4-42 | with an atomic exchange every interleaving is safe when the winner writes its id before any other task moves |
| MutexProtocol.HazardLetsTwoIn | 64kernel/mutex.cc:4-42 | every stale owner's read of its own id can be followed by two tasks inside within eight moves |
| MutexProtocol.OverflowLetsTwoIn | 64kernel/mutex.cc:25-27 | every 256th nested lock can be followed by two tasks inside within five moves |
| MutexProtocol.TwoTasksInside | 64kernel/mutex.cc:24-33 | a run with an atomic exchange that ends with two tasks inside |
| Console.Memcpy | 64kernel/string.cc:12-18 | where each byte of a forward copy comes from, for every overlap |
| Console.CopySourceIs | 64kernel/string.cc:12-18 | a byte is the source byte at the same place, or, where the copy has overwritten the source, the byte that the copy put dest - src places before |
| Console.FeedConcat | 64kernel/console.cc:57-78 | printing two strings is printing their concatenation |
| Console.PutOn | 64kernel/console.cc:60-71 | after character 10 the cursor is at the next multiple of 80, after 9 at the next multiple of 8; any other character stands where the cursor was, which is one on |
| Console.FoundShows | 64kernel/console.h:27-32 | whatever is on the screen at first is the window of some terminal |
| Console.MovedIs | 64kernel/console.cc:60-73 | the same of the cursor on the screen, which never comes beyond cell 2000 |
| Console.CursorPlace | 64kernel/console.cc:60-74 | the cursor leaves the screen only exactly at its end, for every character |
| Console.Console.ScrollUpLine | 64kernel/console.cc:42-55 | all lines move up one with their attributes, the last has no characters, the cursor is at its start |
| Console.Console.WriteOrMove | 64kernel/console.cc:60-71 | one byte of video memory is written, or none and the cursor moves; the terminal has the character and the window shows it |
| Console.Console.PutChar | 64kernel/console.cc:60-74 | after one character the video memory shows the terminal with that character, and byte by byte it is what it was but for the character and, at the end of the screen, the scroll |
| Console.Console.Puts | 64kernel/console.cc:57-78 | for every string the video memory shows the last 25 lines of the terminal, and the cursor sent out is its cursor |
| Numerals.DigitsDenote | 64kernel/stdlib.cc:49-67 | the canonical numeral of a number in any base from 2 to 36 denotes the number |
| Numerals.Ntoa | 64kernel/stdlib.cc:27-30 | digit d is the character at place d of 0 to 9 and A to Z |
| Numerals.DigitValue | 64kernel/stdlib.cc:16-19 | the value of a digit is its ASCII code less 48 |
| Numerals.DigitsArePositional | 64kernel/stdlib.cc:57-64 | the character i places from the right of the numeral stands for v / b^i mod b, and there are as many as v needs |
| Numerals.DigitsAreCanonical | 64kernel/stdlib.cc:51-62 | no leading zero except in "0" |
| Numerals.BackwardsReversed | 64kernel/stdlib.cc:57-64 | the digits as the loop produces them, reversed, are the canonical numeral |
| Numerals.StrLen | 64kernel/string.cc:44-51 | the place of the first NUL |
| Numerals.StrNRev | 64kernel/string.cc:78-87 | swapping in place reverses that part of the buffer and nothing else |
| Numerals.WriteBackwards | 64kernel/stdlib.cc:57-62 | the digits least significant first, and a NUL |
| Numerals.Utoa | 64kernel/stdlib.cc:49-67 | the canonical numeral, character by character that of v / b^i mod b, a NUL behind it, its length, and nothing in front changed |
| Numerals.TextInCharacters | 64kernel/stdlib.cc:32-47 | the text of an int is a minus sign if it is negative and the characters of the digits of its magnitude; only the smallest int has none |
| Numerals.Itoa | 64kernel/stdlib.cc:32-47 | the same with a sign, for every int whose negation does not overflow |
| Numerals.AtoiDigits | 64kernel/stdlib.cc:16-20 | the value of the leading digits by their ASCII codes, or overflow above 2^31 - 1 |
| Numerals.Atoi | 64kernel/stdlib.cc:5-23 | blanks, sign and digits, to the first other character |
| Numerals.ParseReads | 64kernel/stdlib.cc:5-23 | blanks or tabs, a minus sign or none, digits and whatever follows parse to the value of the digits by their ASCII codes, with the sign |
| Numerals.PrintParse | 64kernel/stdlib.cc:5-67 | atoi of itoa is the identity for every int if and only if it is not the smallest |

## Left out

- Scheduler.Scheduler.DeleteTask: returns where the source, having flagged the running task, waits for the tick that ends it; the value returned there is never seen by the source's caller.
- Scheduler.Scheduler.NewTask: on a full pool the source writes through a null pointer, into low memory that is mapped, and then answers false; what it overwrites is not modelled, and the answer here is None.
- TaskPool.TaskPool.RmThread: thread lists are sequences inside the TCB, with the operations that `CircularList.List` is proved to have; the run queues are list objects, and `TaskPool.TaskPool.RmThreadFrom` is rmThread on one. The slots and links of the thread lists inside the pool are not repeated.
- TaskPool.TaskPool.InitTask: the stack and memory fields and the return address put on the stack are not modelled.
- VirtualCpu.LazyRefinesEager: speaks of the FPU state of tasks that are not flagged for deletion, as flagging can lose it (module FpuLoss says exactly when), and of runs whose new keys differ from the FPU owner's.
- VirtualCpu.StepAgrees: FPU contents are one value with save, restore, initialise and use; the 512-byte layout is not modelled.
- Share.ProportionalShare: while no task is created, deleted or due to be freed, since the queue sizes change otherwise; `Fairness.NoTaskStarves` is what holds without that.
- Reaping.DueTaskIsFreed: while no task is created, since a flagged process that runs may create a thread and then has to outlive it; flagged threads are freed in every run (`Fairness.FlaggedThreadIsFreed`).
- KillAll.KillAllReachesEveryTask: no creation and no second listing during the loop; both would move the ground under the cursor.
- MutexProtocol.PromptRunsAreSafe: assumes that a holder's id does not change (flagging the holder would change it) and that nobody nests 256 deep.
- MutexProtocol.StepKeepsIff: the lock prefix on the exchange is taken for nothing. The mutex is a protocol of single steps, not a class, because what matters is what happens between them.
- MutexProtocol.StaleLossLetsTwoIn: a holder in the middle of a call, whose own pending store can put the count right again, is not followed further; the same goes for MutexProtocol.StaleLossOrphans.
- PageTables.WalkIsIdentity: says nothing about addresses at or above the memory size, since the zero-fill does not clear whole tables, and takes flags below 4096, so not the execute-disable bit.
- PageTables.EntryFacts: bit 51 stands for all reserved address bits, which are set together or not at all here; a processor with all 52 address bits would look for memory there instead of faulting. Tables lie below 4 GBytes, as 32-bit pointers do.
- Numerals.Itoa: signed overflow, undefined in C++, is `None`.
- Numerals.Atoi: signed overflow is `None` as soon as it happens; the string is its content without the NUL.
- Console.Console.Puts: says nothing of attribute bytes, which `PutChar` follows one character at a time; of the CRT controller only the position sent to it is kept. `gotoxy`, `clearScreen`, `printf` and `getch` are not modelled.
- CircularList.List.Front: needs a non-empty list, as does reading at the iterator; the source returns nothing in that case.
- saveContext, loadContext and switchContext, which nothing calls; the interrupt entry and exit code, whose frame is a 24-word value here.
- That the memory really is zero when the kernel builds its objects: the memory check at 32kernel/main.cc:18 leaves a pattern word in every MByte.
- Port I/O, interrupt controller, timer, clock, CPU identification, boot code, linker scripts and the image maker: hardware and file plumbing.
- Keyboard decoding and its queue, shell line editing and the other commands, descriptor tables: tables and single-function code that would add only easy members.
- dtoa and vsprintf: floating point and variable arguments.
