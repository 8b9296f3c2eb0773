/** What flagging a task for deletion does to its FPU state. The flag changes the id of the
    task and of its threads, while exFxUserId keeps the old one. A running task does not
    notice as long as it runs; a task that has to trap for its registers gets its saved copy,
    which is out of date exactly when it owned the registers and had changed them since. */
module FpuLoss {
  import opened KernelState
  import opened Machine
  import opened Effects
  import opened VirtualCpu
  import Tree

  /** What a task that does not own the FPU registers gets when it traps. */
  function Stored(c: Tcb): Fpu { if c.usingFx then c.fx else FINIT }

  /** The reference machine over a run. */
  function EagerRun(k: Kernel, v: seq<Cpu>, ops: seq<Op>): (r: seq<Cpu>)
    requires Inv(k) && Runnable(k, ops) && |v| == MAX_TASKS
    ensures |r| == MAX_TASKS
    decreases |ops|
  {
    if ops == [] then v
    else
      StepKeeps(k, ops[0]);
      EagerRun(Step(k, ops[0]), EagerStep(k, v, ops[0]), ops[1..])
  }

  /** deleteTask of no flags slot i: i is the target, if that is not freed at once, or one of
      its threads. */
  predicate FlaggedBy(k: Kernel, no: nat, i: nat)
    requires Inv(k)
  {
    && Alloc(k.tcbs, no) && (no == Current(k) || k.tcbs[no].threads != [])
    && (i == no || i in k.tcbs[no].threads)
    && Alloc(k.tcbs, i) && !k.tcbs[i].id.flags.delete
  }

  // ------------------------------------------------------------------ until the next trap

  /** A flagged task that does not own the FPU registers and cannot use them without a trap. */
  predicate Waiting(k: Kernel, i: nat)
    requires Inv(k)
  {
    && Alloc(k.tcbs, i) && k.tcbs[i].id.flags.delete && k.exFxUser != k.tcbs[i].id
    && (Current(k) == i ==> k.ts)
  }

  /** Slot i stays allocated over the run and does not trap in it. */
  predicate NoTrapOf(k: Kernel, ops: seq<Op>, i: nat)
    requires Inv(k) && Runnable(k, ops)
    decreases |ops|
  {
    ops == [] ||
    (!(ops[0].OpTrap? && Current(k) == i)
     && Alloc(Step(k, ops[0]).tcbs, i)
     && (StepKeeps(k, ops[0]); NoTrapOf(Step(k, ops[0]), ops[1..], i)))
  }

  lemma WaitThroughTrap(k: Kernel, i: nat)
    requires Inv(k) && Waiting(k, i) && Current(k) != i
    ensures Inv(TrapFpu(k)) && Waiting(TrapFpu(k), i) && TrapFpu(k).tcbs[i] == k.tcbs[i]
  {
    hide QueuesOk, CountsOk, TreeOk;
    TrapKeeps(k);
    Tree.SearchIsLookup(k.tcbs, k.exFxUser);
    Tree.IdsAreUnique(k.tcbs, Current(k), i);
    assert Current(TrapFpu(k)) == Current(k);
  }

  lemma WaitThroughNew(k: Kernel, op: Op, i: nat)
    requires Inv(k) && Waiting(k, i) && op.OpNew? && Enabled(k, op)
    ensures Inv(Step(k, op)) && Waiting(Step(k, op), i)
    ensures Stored(Step(k, op).tcbs[i]) == Stored(k.tcbs[i]) && FirstFree(k.tcbs, 0) != i
  {
    hide Inv, NewTask, ThreadHasRoom, FirstFree, InitialFrame;
    StepKeeps(k, op);
    InvFacts(k);
    NewTaskFields(k, op.entry, op.flags, op.priority);
    NewTaskCounters(k, op.entry, op.flags, op.priority);
    CreationKeepsCurrent(k, op.entry, op.flags, op.priority);
  }

  lemma WaitThroughTick(k: Kernel, frame: Frame, i: nat)
    requires Inv(k) && Waiting(k, i) && Alloc(Tick(k, frame).tcbs, i)
    ensures Inv(Tick(k, frame)) && Waiting(Tick(k, frame), i)
    ensures Stored(Tick(k, frame).tcbs[i]) == Stored(k.tcbs[i])
  {
    hide Inv, Switch;
    TickKeeps(k, frame);
    InvFacts(k);
    if k.totalTasks > 1 {
      TickFields(k, frame);
      assert SlotStep(k.tcbs[i], Tick(k, frame).tcbs[i]);
    } else {
      InvFacts(Tick(k, frame));
    }
  }

  lemma WaitThroughDelete(k: Kernel, no: nat, i: nat)
    requires Inv(k) && no != 0 && Waiting(k, i) && Alloc(DeleteTask(k, no).tcbs, i)
    ensures Inv(DeleteTask(k, no)) && Waiting(DeleteTask(k, no), i)
    ensures Stored(DeleteTask(k, no).tcbs[i]) == Stored(k.tcbs[i])
  {
    hide Inv, DeleteTask;
    InvFacts(k);
    DeleteKeeps(k, no);
    InvFacts(DeleteTask(k, no));
    DeleteKeepsCurrent(k, no);
    DeleteFields(k, no);
    assert SlotStep(k.tcbs[i], DeleteTask(k, no).tcbs[i]);
  }

  /** Steps of other tasks leave both what is stored for i and its reference CPU's registers. */
  lemma WaitStep(k: Kernel, v: seq<Cpu>, op: Op, i: nat)
    requires Inv(k) && Enabled(k, op) && |v| == MAX_TASKS && Waiting(k, i)
    requires !(op.OpTrap? && Current(k) == i) && Alloc(Step(k, op).tcbs, i)
    ensures Inv(Step(k, op)) && Waiting(Step(k, op), i)
    ensures Stored(Step(k, op).tcbs[i]) == Stored(k.tcbs[i]) && EagerStep(k, v, op)[i].fpu == v[i].fpu
  {
    hide Inv, Tick, NewTask, DeleteTask, TrapFpu, FirstFree, InitialFrame;
    InvFacts(k);
    if op.OpNew? { NewTaskFields(k, op.entry, op.flags, op.priority); }
    StepKeeps(k, op);
    match op
    case OpTick(frame) => WaitThroughTick(k, frame, i);
    case OpNew(_, _, _) => WaitThroughNew(k, op, i);
    case OpDelete(no) => WaitThroughDelete(k, no, i);
    case OpTrap => WaitThroughTrap(k, i);
    case _ => WaitThroughRest(k, op, i);
  }

  lemma WaitThroughRest(k: Kernel, op: Op, i: nat)
    requires Inv(k) && Enabled(k, op) && Waiting(k, i) && (op.OpProbe? || op.OpExec?)
    ensures Inv(Step(k, op)) && Waiting(Step(k, op), i) && Step(k, op).tcbs == k.tcbs
    ensures op.OpExec? ==> Current(k) != i
  {
    StepKeeps(k, op);
    InvFacts(k);
    InvFacts(Step(k, op));
    hide Inv;
  }

  lemma {:induction false} WaitRun(k: Kernel, v: seq<Cpu>, ops: seq<Op>, i: nat)
    requires Inv(k) && Runnable(k, ops) && |v| == MAX_TASKS && Waiting(k, i) && NoTrapOf(k, ops, i)
    ensures Waiting(Run(k, ops), i)
    ensures Stored(Run(k, ops).tcbs[i]) == Stored(k.tcbs[i]) && EagerRun(k, v, ops)[i].fpu == v[i].fpu
    decreases |ops|
  {
    hide Inv, Waiting, Step, EagerStep, Possible, ThreadHasRoom, Stored;
    if ops != [] {
      WaitStep(k, v, ops[0], i);
      WaitRun(Step(k, ops[0]), EagerStep(k, v, ops[0]), ops[1..], i);
    }
  }

  /** Its next trap gives a waiting task what is stored for it. */
  lemma TrapGivesStored(k: Kernel, i: nat)
    requires Inv(k) && Waiting(k, i) && Current(k) == i
    ensures k.ts && TrapFpu(k).hw == Stored(k.tcbs[i])
  {
    hide QueuesOk, CountsOk, TreeOk;
    Tree.SearchIsLookup(k.tcbs, k.exFxUser);
  }

  // ------------------------------------------------------------------ flagged while not running

  lemma FlagFields(k: Kernel, no: nat, i: nat)
    requires Inv(k) && no != 0 && FlaggedBy(k, no, i)
    ensures var k' := DeleteTask(k, no);
      && Inv(k') && Current(k') == Current(k) && k'.ts == k.ts && k'.hw == k.hw && k'.exFxUser == k.exFxUser
      && Alloc(k'.tcbs, i) && k'.tcbs[i].id == Deleted(k.tcbs[i].id)
      && k'.tcbs[i].usingFx == k.tcbs[i].usingFx && k'.tcbs[i].fx == k.tcbs[i].fx
  {
    hide QueuesOk, CountsOk, MarkDeleted, TreeOk;
    InvFacts(k);
    DeleteKeeps(k, no);
    DeleteKeepsCurrent(k, no);
    InvFacts(DeleteTask(k, no));
    DeleteTargetFacts(k, no);
    Tree.MarkDeletedFields(k.tcbs, no);
  }

  lemma FlaggedWaits(k: Kernel, v: seq<Cpu>, no: nat, i: nat)
    requires Inv(k) && Agree(k, v) && no != 0 && FlaggedBy(k, no, i)
    requires Current(k) == i ==> k.ts
    ensures Inv(DeleteTask(k, no)) && Waiting(DeleteTask(k, no), i)
    ensures var s := Stored(DeleteTask(k, no).tcbs[i]);
      s == v[i].fpu <==> (k.exFxUser == k.tcbs[i].id ==> k.tcbs[i].fx == k.hw)
  {
    hide Inv, DeleteTask;
    InvFacts(k);
    FlagFields(k, no, i);
    assert OwnerKnown(k, i);
  }

  /** A task that is flagged while it is not running, or running without the registers: when it
      runs again and traps, it gets what it left there if and only if it was not the owner of
      the registers or its saved copy was up to date. Target and threads alike. */
  lemma FlaggedKeepsFpuIff(k: Kernel, v: seq<Cpu>, no: nat, i: nat, ops: seq<Op>)
    requires Inv(k) && Agree(k, v) && no != 0 && FlaggedBy(k, no, i)
    requires Current(k) == i ==> k.ts
    requires (DeleteKeeps(k, no); Runnable(DeleteTask(k, no), ops) && NoTrapOf(DeleteTask(k, no), ops, i))
    requires Current(Run(DeleteTask(k, no), ops)) == i
    ensures var k1 := DeleteTask(k, no);
      var k2 := Run(k1, ops);
      && k2.ts
      && (TrapFpu(k2).hw == EagerRun(k1, v, ops)[i].fpu
          <==> (k.exFxUser == k.tcbs[i].id ==> k.tcbs[i].fx == k.hw))
  {
    hide Inv, DeleteTask, Waiting, Stored, FlaggedBy, AgreeAt, TrapFpu;
    FlaggedWaits(k, v, no, i);
    var k1 := DeleteTask(k, no);
    WaitRun(k1, v, ops, i);
    TrapGivesStored(Run(k1, ops), i);
  }

  // ------------------------------------------------------------------ flagged while running

  /** Task i is flagged and runs, and the FPU registers are its own although it no longer has
      the owner's id. */
  predicate RunsFlagged(k: Kernel, v: seq<Cpu>, i: nat)
    requires Inv(k) && |v| == MAX_TASKS
  {
    && i == Current(k) && !k.ts && k.hw == v[i].fpu
    && k.tcbs[i].id.flags.delete && k.exFxUser != k.tcbs[i].id
  }

  predicate NoTicks(ops: seq<Op>) { forall j :: 0 <= j < |ops| ==> !ops[j].OpTick? }

  lemma RunStepKeepsFpu(k: Kernel, v: seq<Cpu>, op: Op, i: nat)
    requires Inv(k) && Enabled(k, op) && |v| == MAX_TASKS && RunsFlagged(k, v, i) && !op.OpTick?
    ensures Inv(Step(k, op)) && RunsFlagged(Step(k, op), EagerStep(k, v, op), i)
  {
    hide Inv, NewTask, DeleteTask, FirstFree, ThreadHasRoom;
    StepKeeps(k, op);
    InvFacts(k);
    InvFacts(Step(k, op));
    if !op.OpNew? {
      StepSlots(k, op);
      assert SlotStep(k.tcbs[i], Step(k, op).tcbs[i]);
    }
    match op
    case OpNew(entry, flags, priority) =>
      NewTaskFields(k, entry, flags, priority);
      NewTaskCounters(k, entry, flags, priority);
      CreationKeepsCurrent(k, entry, flags, priority);
    case OpDelete(no) =>
      DeleteKeepsCurrent(k, no);
      DeleteFields(k, no);
    case _ =>
  }

  lemma {:induction false} RunKeepsFpu(k: Kernel, v: seq<Cpu>, ops: seq<Op>, i: nat)
    requires Inv(k) && Runnable(k, ops) && |v| == MAX_TASKS && RunsFlagged(k, v, i) && NoTicks(ops)
    ensures RunsFlagged(Run(k, ops), EagerRun(k, v, ops), i)
    decreases |ops|
  {
    hide Inv, RunsFlagged, Step, EagerStep, Possible, ThreadHasRoom;
    if ops != [] {
      RunStepKeepsFpu(k, v, ops[0], i);
      RunKeepsFpu(Step(k, ops[0]), EagerStep(k, v, ops[0]), ops[1..], i);
    }
  }

  /** A task that is flagged while it runs with the registers, by itself or as a thread of a
      deleted process, loses nothing until the next tick, whatever it does. */
  lemma RunnerLosesNothing(k: Kernel, v: seq<Cpu>, no: nat, ops: seq<Op>)
    requires Inv(k) && Agree(k, v) && no != 0 && FlaggedBy(k, no, Current(k)) && !k.ts
    requires (DeleteKeeps(k, no); Runnable(DeleteTask(k, no), ops)) && NoTicks(ops)
    ensures RunsFlagged(Run(DeleteTask(k, no), ops), EagerRun(DeleteTask(k, no), v, ops), Current(k))
  {
    hide Inv, DeleteTask;
    FlagFields(k, no, Current(k));
    assert OwnerKnown(k, Current(k)) by { InvFacts(k); }
    RunKeepsFpu(DeleteTask(k, no), v, ops, Current(k));
  }

  /** After the tick that takes the CPU from it, a flagged task that lives on gets what it left
      if and only if the registers had not changed since they were last saved. */
  lemma PreemptedKeepsFpuIff(k: Kernel, v: seq<Cpu>, i: nat, frame: Frame, ops: seq<Op>)
    requires Inv(k) && |v| == MAX_TASKS && RunsFlagged(k, v, i) && k.totalTasks > 1
    requires (TickKeeps(k, frame); Runnable(Tick(k, frame), ops))
    requires Alloc(Tick(k, frame).tcbs, i) && NoTrapOf(Tick(k, frame), ops, i)
    requires Current(Run(Tick(k, frame), ops)) == i
    ensures var k2 := Run(Tick(k, frame), ops);
      k2.ts && (TrapFpu(k2).hw == EagerRun(Tick(k, frame), v, ops)[i].fpu <==> Stored(k.tcbs[i]) == k.hw)
  {
    hide Inv, Tick, TrapFpu;
    InvFacts(k);
    TickFields(k, frame);
    var k1 := Tick(k, frame);
    InvFacts(k1);
    assert SlotStep(k.tcbs[i], k1.tcbs[i]);
    WaitRun(k1, v, ops, i);
    TrapGivesStored(Run(k1, ops), i);
  }

  // ------------------------------------------------------------------ after the trap

  /** A flagged task whose FPU state is where the kernel will look for it, under its new id. */
  ghost predicate Sees(k: Kernel, v: seq<Cpu>, i: nat)
    requires Inv(k) && |v| == MAX_TASKS
  {
    && Alloc(k.tcbs, i) && k.tcbs[i].id.flags.delete
    && FpuOf(k, i) == v[i].fpu
    && (k.exFxUser == k.tcbs[i].id ==> k.tcbs[i].usingFx)
    && (!k.ts ==> k.exFxUser.no == Current(k))
    && (Current(k) == i && !k.ts ==> k.exFxUser == k.tcbs[i].id)
  }

  /** The trap gives the task registers, of its own or not, and makes it their owner. */
  lemma TrapRestoresSight(k: Kernel, v: seq<Cpu>, i: nat)
    requires Inv(k) && |v| == MAX_TASKS && Waiting(k, i) && Current(k) == i
    ensures Inv(TrapFpu(k)) && Sees(TrapFpu(k), v[i := v[i].(fpu := TrapFpu(k).hw)], i)
  {
    hide QueuesOk, CountsOk, TreeOk;
    TrapKeeps(k);
    Tree.SearchIsLookup(k.tcbs, k.exFxUser);
    assert Current(TrapFpu(k)) == i;
  }

  /** A slot whose task stays what it is while the FPU is left alone. */
  lemma SameFpuSight(k: Kernel, v: seq<Cpu>, k': Kernel, v': seq<Cpu>, i: nat)
    requires Inv(k) && Inv(k') && |v| == |v'| == MAX_TASKS && Sees(k, v, i)
    requires Alloc(k'.tcbs, i) && k'.tcbs[i].id == k.tcbs[i].id
    requires k'.tcbs[i].usingFx == k.tcbs[i].usingFx && k'.tcbs[i].fx == k.tcbs[i].fx
    requires k'.exFxUser == k.exFxUser && k'.hw == k.hw && v'[i].fpu == v[i].fpu
    requires !k'.ts ==> k.exFxUser.no == Current(k')
    requires !k'.ts && Current(k') == i ==> k.exFxUser == k.tcbs[i].id
    ensures Sees(k', v', i)
  {}

  lemma TickKeepsSight(k: Kernel, v: seq<Cpu>, frame: Frame, i: nat)
    requires Inv(k) && |v| == MAX_TASKS && Sees(k, v, i) && Alloc(Tick(k, frame).tcbs, i)
    ensures var op := OpTick(frame); Inv(Step(k, op)) && Sees(Step(k, op), EagerStep(k, v, op), i)
  {
    hide Inv, Switch, Sees;
    TickKeeps(k, frame);
    var k', v' := Tick(k, frame), EagerStep(k, v, OpTick(frame));
    InvFacts(k);
    InvFacts(k');
    FlaggedInSight(k, v, i);
    if k.totalTasks > 1 {
      TickFields(k, frame);
      hide Tick;
      assert SlotStep(k.tcbs[i], k'.tcbs[i]);
    }
    SameFpuSight(k, v, k', v', i);
  }

  lemma FlaggedInSight(k: Kernel, v: seq<Cpu>, i: nat)
    requires Inv(k) && |v| == MAX_TASKS && Sees(k, v, i)
    ensures Alloc(k.tcbs, i) && k.tcbs[i].id.flags.delete
    ensures !k.ts ==> k.exFxUser.no == Current(k)
    ensures !k.ts && Current(k) == i ==> k.exFxUser == k.tcbs[i].id && k.hw == v[i].fpu
  {}

  lemma NewKeepsSight(k: Kernel, v: seq<Cpu>, op: Op, i: nat)
    requires Inv(k) && |v| == MAX_TASKS && Sees(k, v, i) && op.OpNew? && Enabled(k, op)
    ensures Inv(Step(k, op)) && Sees(Step(k, op), EagerStep(k, v, op), i)
  {
    hide Inv, NewTask, ThreadHasRoom, FirstFree, InitialFrame, Sees;
    StepKeeps(k, op);
    InvFacts(k);
    FlaggedInSight(k, v, i);
    NewTaskFields(k, op.entry, op.flags, op.priority);
    NewTaskCounters(k, op.entry, op.flags, op.priority);
    CreationKeepsCurrent(k, op.entry, op.flags, op.priority);
    SameFpuSight(k, v, Step(k, op), EagerStep(k, v, op), i);
  }

  lemma DeleteKeepsSight(k: Kernel, v: seq<Cpu>, no: nat, i: nat)
    requires Inv(k) && |v| == MAX_TASKS && Sees(k, v, i) && no != 0 && Alloc(DeleteTask(k, no).tcbs, i)
    ensures Inv(DeleteTask(k, no)) && Sees(DeleteTask(k, no), v, i)
  {
    hide Inv, DeleteTask, Sees;
    InvFacts(k);
    FlaggedInSight(k, v, i);
    DeleteKeeps(k, no);
    InvFacts(DeleteTask(k, no));
    DeleteKeepsCurrent(k, no);
    DeleteFields(k, no);
    assert SlotStep(k.tcbs[i], DeleteTask(k, no).tcbs[i]);
    SameFpuSight(k, v, DeleteTask(k, no), v, i);
  }

  lemma TrapKeepsSight(k: Kernel, v: seq<Cpu>, i: nat)
    requires Inv(k) && |v| == MAX_TASKS && Sees(k, v, i)
    ensures Inv(TrapFpu(k)) && Sees(TrapFpu(k), v, i)
  {
    hide QueuesOk, CountsOk, TreeOk;
    TrapKeeps(k);
    Tree.SearchIsLookup(k.tcbs, k.exFxUser);
    if Current(k) != i { Tree.IdsAreUnique(k.tcbs, Current(k), i); }
    assert Current(TrapFpu(k)) == Current(k);
  }

  lemma RestKeepsSight(k: Kernel, v: seq<Cpu>, op: Op, i: nat)
    requires Inv(k) && |v| == MAX_TASKS && Sees(k, v, i) && Enabled(k, op) && (op.OpProbe? || op.OpExec?)
    ensures Inv(Step(k, op)) && Sees(Step(k, op), EagerStep(k, v, op), i)
  {
    StepKeeps(k, op);
    InvFacts(k);
    InvFacts(Step(k, op));
    assert k.tcbs[i].id.no == i;
    hide Inv;
  }

  lemma StepKeepsSight(k: Kernel, v: seq<Cpu>, op: Op, i: nat)
    requires Inv(k) && |v| == MAX_TASKS && Sees(k, v, i) && Enabled(k, op) && Alloc(Step(k, op).tcbs, i)
    ensures Inv(Step(k, op)) && Sees(Step(k, op), EagerStep(k, v, op), i)
  {
    hide Inv, Sees, Tick, NewTask, DeleteTask, TrapFpu, ThreadHasRoom;
    match op
    case OpTick(frame) => TickKeepsSight(k, v, frame, i);
    case OpNew(_, _, _) => NewKeepsSight(k, v, op, i);
    case OpDelete(no) => DeleteKeepsSight(k, v, no, i);
    case OpTrap => TrapKeepsSight(k, v, i);
    case _ => RestKeepsSight(k, v, op, i);
  }

  /** Slot i stays allocated over the run. */
  predicate Lives(k: Kernel, ops: seq<Op>, i: nat)
    requires Inv(k) && Runnable(k, ops)
    decreases |ops|
  {
    ops == [] ||
    (Alloc(Step(k, ops[0]).tcbs, i) && (StepKeeps(k, ops[0]); Lives(Step(k, ops[0]), ops[1..], i)))
  }

  lemma {:induction false} SightIsKept(k: Kernel, v: seq<Cpu>, ops: seq<Op>, i: nat)
    requires Inv(k) && |v| == MAX_TASKS && Sees(k, v, i) && Runnable(k, ops) && Lives(k, ops, i)
    ensures Sees(Run(k, ops), EagerRun(k, v, ops), i)
    decreases |ops|
  {
    hide Inv, Sees, Step, EagerStep, Possible, ThreadHasRoom;
    if ops != [] {
      StepKeepsSight(k, v, ops[0], i);
      SightIsKept(Step(k, ops[0]), EagerStep(k, v, ops[0]), ops[1..], i);
    }
  }

  /** So a flagged task loses its FPU state once at most: from its first trap on, whatever it got
      there, it sees in every run what it left. */
  lemma AfterTrapNothingIsLost(k: Kernel, v: seq<Cpu>, i: nat, ops: seq<Op>)
    requires Inv(k) && |v| == MAX_TASKS && Waiting(k, i) && Current(k) == i
    requires (TrapKeeps(k); Runnable(TrapFpu(k), ops) && Lives(TrapFpu(k), ops, i))
    requires var r := Run(TrapFpu(k), ops); Current(r) == i && !r.ts
    ensures Run(TrapFpu(k), ops).hw
         == EagerRun(TrapFpu(k), v[i := v[i].(fpu := TrapFpu(k).hw)], ops)[i].fpu
  {
    hide Inv, Sees, Waiting, TrapFpu, Run, EagerRun, Runnable;
    TrapRestoresSight(k, v, i);
    var v' := v[i := v[i].(fpu := TrapFpu(k).hw)];
    SightIsKept(TrapFpu(k), v', ops, i);
    FlaggedInSight(Run(TrapFpu(k), ops), EagerRun(TrapFpu(k), v', ops), i);
  }
}
