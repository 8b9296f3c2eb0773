/** A run from boot in which a thread loses its FPU state: the shell starts a process, the
    process starts a thread, the thread loads the FPU, and the process deletes itself. */
module FpuLossRun {
  import opened Seqs
  import opened KernelState
  import opened Machine
  import opened VirtualCpu
  import opened FpuLoss
  import Tree
  import Queues
  import Share
  import Wheel

  const THREAD_FLAGS := Flags(false, true, false, 0)
  const PROCESS := Id(2, NO_FLAGS, 1, 1)
  const THREAD := Id(3, THREAD_FLAGS, 1, 2)
  const FRAME: Frame := seq(FRAME_WORDS, _ => 0)
  const LOADED: Fpu := 7

  const NEW_PROCESS := OpNew(0, NO_FLAGS, 1)
  const NEW_THREAD := OpNew(0, THREAD_FLAGS, 1)
  const TICK := OpTick(FRAME)
  const LOAD := OpExec(_ => LOADED)

  // ------------------------------------------------------------------ all tasks on level 0

  ghost predicate Scene(k: Kernel, q: seq<nat>) {
    Inv(k) && k.queues == [q, [], [], [], []] && k.curLev == 0
  }

  lemma SceneFacts(k: Kernel, q: seq<nat>)
    requires Scene(k, q)
    ensures q != [] && Current(k) == q[0] && k.totalTasks == k.numTasks == |q|
    ensures forall x :: Alloc(k.tcbs, x) <==> x in q
    ensures k.tcbs[0].id.key != 0 && !k.tcbs[0].id.flags.delete && !k.tcbs[0].id.flags.thread
  {
    Share.TotalOfFive(k.queues);
    hide PoolOk, TreeOk;
    forall x | Alloc(k.tcbs, x)
      ensures x in q
    {
      assert x in k.queues[k.tcbs[x].id.priority - 1];
    }
    assert forall x :: x in q ==> x in k.queues[0];
  }

  lemma LoneLevelPick(w: Wheel.Wheel, q: seq<nat>)
    requires w.queues == [q, [], [], [], []] && |w.executed| == 5 && w.curLev == 0
    ensures Wheel.Pick(w).queues == w.queues && Wheel.Pick(w).curLev == 0
  {}

  lemma SceneSwitch(k: Kernel, q: seq<nat>)
    requires Scene(k, q)
    requires !(k.tcbs[Current(k)].id.flags.delete && k.tcbs[Current(k)].threads == [])
    ensures Scene(Switch(k), q[1..] + [q[0]])
    ensures var k1 := Switch(k);
      k1.tcbs == k.tcbs && k1.hw == k.hw && k1.exFxUser == k.exFxUser && k1.nextKey == k.nextKey
  {
    hide PoolOk, TreeOk, CountsOk, ShellOk, Push, Wheel.Pick;
    InvFacts(k);
    SceneFacts(k, q);
    Queues.FrontIsRemoved(q);
    Queues.RequeueKeeps(k.tcbs, k.queues, q[0]);
    var k1 := Requeue(k);
    assert k1.queues == [q[1..] + [q[0]], [], [], [], []];
    LoneLevelPick(WheelOf(k1), q[1..] + [q[0]]);
    SwitchKeeps(k);
  }

  lemma SceneTick(k: Kernel, q: seq<nat>, frame: Frame)
    requires Scene(k, q) && |q| >= 2
    requires !(k.tcbs[Current(k)].id.flags.delete && k.tcbs[Current(k)].threads == [])
    ensures var k' := Tick(k, frame);
      && Scene(k', q[1..] + [q[0]]) && q[1] < MAX_TASKS
      && k'.ts == (k.exFxUser != k'.tcbs[q[1]].id) && k'.hw == k.hw && k'.exFxUser == k.exFxUser
      && k'.nextKey == k.nextKey
      && forall i :: 0 <= i < MAX_TASKS ==> k'.tcbs[i] == k.tcbs[i].(context := k'.tcbs[i].context)
  {
    hide Inv, Switch;
    SceneFacts(k, q);
    SceneSwitch(k, q);
    SceneFacts(Switch(k), q[1..] + [q[0]]);
    TickKeeps(k, frame);
    InvFacts(k);
    InvFacts(Switch(k));
  }

  lemma FirstFreeIs(tcbs: seq<Tcb>, n: nat)
    requires n < |tcbs| && !Alloc(tcbs, n) && forall i :: 0 <= i < n ==> Alloc(tcbs, i)
    ensures FirstFree(tcbs, 0) == n
  {
    var f := FirstFree(tcbs, 0);
    assert f < n ==> Alloc(tcbs, f);
  }

  lemma SceneNew(k: Kernel, q: seq<nat>, op: Op, n: nat)
    requires Scene(k, q) && op.OpNew? && op.priority == 1 && n < MAX_TASKS
    requires Enabled(k, op) && n !in q && forall i :: 0 <= i < n ==> i in q
    ensures var k' := Step(k, op);
      && Scene(k', q + [n]) && k'.nextKey == NextKey(k.nextKey)
      && k'.tcbs[n].id == Id(k.nextKey, op.flags, 1, n) && !k'.tcbs[n].usingFx && k'.tcbs[n].threads == []
      && k'.tcbs[n].fx == k.tcbs[n].fx && k'.exFxUser == k.exFxUser
      && forall i :: 0 <= i < MAX_TASKS && i != n ==> k'.tcbs[i] == k.tcbs[i].(threads := k'.tcbs[i].threads)
    ensures var p := OwnerOf(k, Current(k));
      op.flags.thread ==> Step(k, op).tcbs[p].threads == PushBack(k.tcbs[p].threads, n, MAX_THREADS)
    ensures !op.flags.thread ==> forall i :: 0 <= i < MAX_TASKS ==> Step(k, op).tcbs[i].threads == k.tcbs[i].threads
  {
    hide NewTask, Inv, ThreadHasRoom, InitialFrame, OwnerOf, FirstFree;
    SceneFacts(k, q);
    StepKeeps(k, op);
    InvFacts(k);
    FreeSlotsAreBare(k);
    FirstFreeIs(k.tcbs, n);
    NewTaskFields(k, op.entry, op.flags, op.priority);
    NewTaskKeepsQueues(k, op.entry, op.flags, op.priority);
    NewTaskCounters(k, op.entry, op.flags, op.priority);
    if op.flags.thread { NewThreadJoins(k, op.entry, op.flags, op.priority); }
    NewTaskThreads(k, op);
  }

  lemma NewTaskThreads(k: Kernel, op: Op)
    requires Inv(k) && op.OpNew? && Enabled(k, op)
    ensures FirstFree(k.tcbs, 0) < MAX_TASKS
    ensures Step(k, op).tcbs[FirstFree(k.tcbs, 0)].threads == []
    ensures !op.flags.thread ==> forall i :: 0 <= i < MAX_TASKS ==> Step(k, op).tcbs[i].threads == k.tcbs[i].threads
  {
    FreeSlotsAreBare(k);
    hide Inv, ThreadHasRoom;
  }

  // ------------------------------------------------------------------ the run

  /** The operations can be done one after the other, and in the end the running task traps
      and gets other registers than it left. */
  predicate Lost(k: Kernel, v: seq<Cpu>, ops: seq<Op>)
    requires Inv(k) && |v| == MAX_TASKS
    decreases |ops|
  {
    if ops == [] then k.ts && TrapFpu(k).hw != v[Current(k)].fpu
    else Enabled(k, ops[0]) && (StepKeeps(k, ops[0]); Lost(Step(k, ops[0]), EagerStep(k, v, ops[0]), ops[1..]))
  }

  lemma LostStep(k: Kernel, v: seq<Cpu>, op: Op, rest: seq<Op>)
    requires Inv(k) && |v| == MAX_TASKS && Enabled(k, op)
    requires (StepKeeps(k, op); Lost(Step(k, op), EagerStep(k, v, op), rest))
    ensures Lost(k, v, [op] + rest)
  {
    hide Inv, Enabled, Step, EagerStep;
    assert ([op] + rest)[1..] == rest;
  }

  lemma {:induction false} LostMeans(k: Kernel, v: seq<Cpu>, ops: seq<Op>)
    requires Inv(k) && |v| == MAX_TASKS && Lost(k, v, ops)
    ensures Runnable(k, ops)
    ensures var r := Run(k, ops); r.ts && TrapFpu(r).hw != EagerRun(k, v, ops)[Current(r)].fpu
    decreases |ops|
  {
    hide Inv, Possible, ThreadHasRoom, Step, EagerStep, TrapFpu;
    if ops != [] {
      StepKeeps(k, ops[0]);
      LostMeans(Step(k, ops[0]), EagerStep(k, v, ops[0]), ops[1..]);
    }
  }

  /** The process has been started, and owns neither a thread nor the FPU. */
  ghost predicate Young(k: Kernel, q: seq<nat>) {
    && Scene(k, q) && |k.tcbs| == MAX_TASKS
    && k.tcbs[1].id == PROCESS && k.tcbs[1].threads == [] && k.nextKey == 3
    && k.tcbs[2].fx == 0 && k.exFxUser.key == 0
  }

  /** The thread has been started; it has used the FPU or not. */
  ghost predicate Family(k: Kernel, q: seq<nat>, used: bool) {
    && Scene(k, q) && |k.tcbs| == MAX_TASKS
    && k.tcbs[1].id == PROCESS && k.tcbs[1].threads == [2] && k.tcbs[2].id == THREAD
    && k.tcbs[2].fx == 0 && k.tcbs[2].usingFx == used
    && (if used then k.exFxUser == THREAD else k.exFxUser.key == 0)
  }

  /** The process and its thread have been flagged. */
  ghost predicate Flagged(k: Kernel, q: seq<nat>, v: seq<Cpu>) {
    && Scene(k, q) && |k.tcbs| == |v| == MAX_TASKS
    && k.tcbs[1].threads == [2] && Waiting(k, 2)
    && Stored(k.tcbs[2]) == 0 && v[2].fpu == LOADED
  }

  lemma FlaggedEnd(k: Kernel, v: seq<Cpu>)
    requires Flagged(k, [2, 1, 0], v)
    ensures Lost(k, v, [])
  {
    hide Inv, Waiting, TrapFpu, Stored;
    SceneFacts(k, [2, 1, 0]);
    TrapGivesStored(k, 2);
  }

  lemma FlaggedTick(k: Kernel, q: seq<nat>, v: seq<Cpu>)
    requires Flagged(k, q, v) && (q == [1, 0, 2] || q == [0, 2, 1])
    ensures Flagged(Tick(k, FRAME), q[1..] + [q[0]], EagerStep(k, v, TICK))
  {
    hide Inv, Tick;
    SceneFacts(k, q);
    SceneTick(k, q, FRAME);
    var k' := Tick(k, FRAME);
    InvFacts(k');
    assert forall i | i in {1, 2} :: k'.tcbs[i] == k.tcbs[i].(context := k'.tcbs[i].context);
    WaitThroughTick(k, FRAME, 2);
  }

  /** From the deletion on. */
  lemma FlaggedRun(k: Kernel, v: seq<Cpu>)
    requires Flagged(k, [1, 0, 2], v)
    ensures Lost(k, v, [TICK] + ([TICK] + []))
  {
    hide Inv, Lost, Waiting, Stored, EagerStep, Tick;
    FlaggedTick(k, [1, 0, 2], v);
    var k1, v1 := Tick(k, FRAME), EagerStep(k, v, TICK);
    assert [1, 0, 2][1..] + [1] == [0, 2, 1];
    FlaggedTick(k1, [0, 2, 1], v1);
    assert [0, 2, 1][1..] + [0] == [2, 1, 0];
    FlaggedEnd(Tick(k1, FRAME), EagerStep(k1, v1, TICK));
    LostStep(k1, v1, TICK, []);
    LostStep(k, v, TICK, [TICK] + []);
  }

  /** The deletion of the process by itself flags the thread. */
  lemma FamilyDelete(k: Kernel, v: seq<Cpu>)
    requires Family(k, [1, 0, 2], true) && |v| == MAX_TASKS && v[2].fpu == LOADED
    ensures Flagged(DeleteTask(k, 1), [1, 0, 2], v)
  {
    hide PoolOk, TreeOk, QueuesOk, CountsOk, ShellOk, MarkDeleted;
    SceneFacts(k, [1, 0, 2]);
    InvFacts(k);
    DeleteKeeps(k, 1);
    Tree.MarkDeletedFields(k.tcbs, 1);
  }

  lemma FamilyTick(k: Kernel, q: seq<nat>, used: bool)
    requires Family(k, q, used) && q in {[1, 0, 2], [0, 2, 1], [2, 1, 0]}
    requires !(k.tcbs[Current(k)].id.flags.delete && k.tcbs[Current(k)].threads == [])
    ensures Family(Tick(k, FRAME), q[1..] + [q[0]], used)
    ensures !used ==> Tick(k, FRAME).ts
  {
    hide Inv, Tick;
    SceneFacts(k, q);
    SceneTick(k, q, FRAME);
    var k' := Tick(k, FRAME);
    InvFacts(k');
    assert forall i | i in {1, 2} :: k'.tcbs[i] == k.tcbs[i].(context := k'.tcbs[i].context);
    SceneFacts(k', q[1..] + [q[0]]);
    assert Alloc(k'.tcbs, q[1]);
  }

  lemma FamilyTrap(k: Kernel)
    requires Family(k, [2, 1, 0], false)
    ensures Family(TrapFpu(k), [2, 1, 0], true)
  {
    hide PoolOk, TreeOk, QueuesOk, CountsOk, ShellOk, LevelsOk;
    TrapKeeps(k);
    SceneFacts(k, [2, 1, 0]);
    Tree.SearchIsLookup(k.tcbs, k.exFxUser) by { InvFacts(k); }
  }

  lemma YoungTick(k: Kernel)
    requires Young(k, [0, 1])
    ensures Young(Tick(k, FRAME), [1, 0])
  {
    hide Inv, Tick;
    SceneFacts(k, [0, 1]);
    SceneTick(k, [0, 1], FRAME);
    var k' := Tick(k, FRAME);
    InvFacts(k');
    assert [0, 1][1..] + [0] == [1, 0];
    assert forall i | i in {1, 2} :: k'.tcbs[i] == k.tcbs[i].(context := k'.tcbs[i].context);
  }

  lemma YoungNew(k: Kernel)
    requires Young(k, [1, 0])
    ensures Enabled(k, NEW_THREAD) && Family(Step(k, NEW_THREAD), [1, 0, 2], false)
  {
    hide Inv, NewTask;
    SceneFacts(k, [1, 0]);
    InvFacts(k);
    assert Alloc(k.tcbs, 1);
    assert OwnerOf(k, 1) == 1 by { assert k.tcbs[OwnerOf(k, 1)].id.no == OwnerOf(k, 1); }
    SceneNew(k, [1, 0], NEW_THREAD, 2);
    assert [1, 0] + [2] == [1, 0, 2];
    var k' := Step(k, NEW_THREAD);
    InvFacts(k');
    assert k'.tcbs[1] == k.tcbs[1].(threads := k'.tcbs[1].threads);
  }

  lemma BootNew(stackPool: nat, hw: Fpu)
    ensures (BootOk(stackPool, hw); Enabled(Boot(stackPool, hw), NEW_PROCESS))
    ensures Young(Step(Boot(stackPool, hw), NEW_PROCESS), [0, 1])
  {
    BootOk(stackPool, hw);
    var k := Boot(stackPool, hw);
    hide Inv, NewTask;
    SceneNew(k, [0], NEW_PROCESS, 1);
    assert [0] + [1] == [0, 1];
    var k' := Step(k, NEW_PROCESS);
    InvFacts(k');
    assert k'.tcbs[2] == k.tcbs[2].(threads := k'.tcbs[2].threads);
  }

  const LAST: seq<Op> := [OpTrap] + ([LOAD] + ([TICK] + ([OpDelete(1)] + ([TICK] + ([TICK] + [])))))
  const RUN: seq<Op> := [NEW_PROCESS] + ([TICK] + ([NEW_THREAD] + ([TICK] + ([TICK] + LAST))))

  lemma UseFpu(k: Kernel, v: seq<Cpu>)
    requires Family(k, [2, 1, 0], false) && k.ts && |v| == MAX_TASKS
    ensures Lost(k, v, LAST)
  {
    hide Inv, Lost, Tick, DeleteTask, TrapFpu, Waiting, Stored;
    SceneFacts(k, [2, 1, 0]);
    FamilyTrap(k);
    var k1 := TrapFpu(k);
    SceneFacts(k1, [2, 1, 0]);
    assert !k1.ts by { TrapClearsTs(k); }
    var k2, v2 := ExecFpu(k1, _ => LOADED), EagerStep(k1, v, LOAD);
    LoadKeepsFamily(k1);
    SceneFacts(k2, [2, 1, 0]);
    assert !k2.tcbs[2].id.flags.delete;
    FamilyTick(k2, [2, 1, 0], true);
    assert [2, 1, 0][1..] + [2] == [1, 0, 2];
    var k3, v3 := Tick(k2, FRAME), EagerStep(k2, v2, TICK);
    FamilyDelete(k3, v3);
    var k4 := DeleteTask(k3, 1);
    FlaggedRun(k4, v3);
    LostStep(k3, v3, OpDelete(1), [TICK] + ([TICK] + []));
    LostStep(k2, v2, TICK, [OpDelete(1)] + ([TICK] + ([TICK] + [])));
    LostStep(k1, v, LOAD, [TICK] + ([OpDelete(1)] + ([TICK] + ([TICK] + []))));
    LostStep(k, v, OpTrap, [LOAD] + ([TICK] + ([OpDelete(1)] + ([TICK] + ([TICK] + [])))));
  }

  lemma TrapClearsTs(k: Kernel)
    requires Inv(k)
    ensures !TrapFpu(k).ts
  {}

  lemma LoadKeepsFamily(k: Kernel)
    requires Family(k, [2, 1, 0], true) && !k.ts
    ensures Family(ExecFpu(k, _ => LOADED), [2, 1, 0], true)
  {
    StepKeeps(k, LOAD);
    hide Inv;
  }

  /** The thread comes to run, and the rest follows. */
  lemma FamilyRun(k: Kernel, v: seq<Cpu>)
    requires Family(k, [1, 0, 2], false) && |v| == MAX_TASKS
    ensures Lost(k, v, [TICK] + ([TICK] + LAST))
  {
    hide Inv, Lost, Tick;
    SceneFacts(k, [1, 0, 2]);
    FamilyTick(k, [1, 0, 2], false);
    assert [1, 0, 2][1..] + [1] == [0, 2, 1];
    var k1, v1 := Tick(k, FRAME), EagerStep(k, v, TICK);
    SceneFacts(k1, [0, 2, 1]);
    FamilyTick(k1, [0, 2, 1], false);
    assert [0, 2, 1][1..] + [0] == [2, 1, 0];
    UseFpu(Tick(k1, FRAME), EagerStep(k1, v1, TICK));
    LostStep(k1, v1, TICK, LAST);
    LostStep(k, v, TICK, [TICK] + LAST);
  }

  lemma BootRun(stackPool: nat, hw: Fpu)
    ensures (BootOk(stackPool, hw); Lost(Boot(stackPool, hw), BootCpus(Boot(stackPool, hw)), RUN))
  {
    hide Inv, Lost, Tick, Boot, NewTask;
    BootOk(stackPool, hw);
    BootNew(stackPool, hw);
    var k, v := Boot(stackPool, hw), BootCpus(Boot(stackPool, hw));
    var k1, v1 := Step(k, NEW_PROCESS), EagerStep(k, v, NEW_PROCESS);
    YoungTick(k1);
    var k2, v2 := Tick(k1, FRAME), EagerStep(k1, v1, TICK);
    YoungNew(k2);
    FamilyRun(Step(k2, NEW_THREAD), EagerStep(k2, v2, NEW_THREAD));
    LostStep(k2, v2, NEW_THREAD, [TICK] + ([TICK] + LAST));
    LostStep(k1, v1, TICK, [NEW_THREAD] + ([TICK] + ([TICK] + LAST)));
    LostStep(k, v, NEW_PROCESS, [TICK] + ([NEW_THREAD] + ([TICK] + ([TICK] + LAST))));
  }

  /** From boot, eleven operations lead to a task that traps and gets other FPU registers than
      it left: the kernel and the reference machine differ. */
  lemma AThreadLosesItsFpu(stackPool: nat, hw: Fpu)
    ensures (BootOk(stackPool, hw); Runnable(Boot(stackPool, hw), RUN))
    ensures var r := Run(Boot(stackPool, hw), RUN);
      r.ts && TrapFpu(r).hw != EagerRun(Boot(stackPool, hw), BootCpus(Boot(stackPool, hw)), RUN)[Current(r)].fpu
  {
    hide Inv, Lost, Boot, Run, EagerRun, Runnable, TrapFpu;
    BootOk(stackPool, hw);
    BootRun(stackPool, hw);
    LostMeans(Boot(stackPool, hw), BootCpus(Boot(stackPool, hw)), RUN);
  }
}
