/** One CPU shown to each task as its own. The kernel keeps one register frame and one set
    of FPU registers and moves them between tasks, the FPU only when a task touches it
    (TS flag, exFxUserId and the #NM handler). The reference machine here gives every task
    a frame and FPU registers of its own; over every run the two cannot be told apart by a
    task that is not flagged for deletion. */
module VirtualCpu {
  import opened KernelState
  import opened Machine
  import opened Effects
  import Tree
  import Queues

  datatype Cpu = Cpu(frame: Frame, fpu: Fpu)

  /** The reference machine: one Cpu per slot, saved and restored eagerly by nobody. */
  function EagerStep(k: Kernel, v: seq<Cpu>, op: Op): (r: seq<Cpu>)
    requires Inv(k) && Enabled(k, op) && |v| == MAX_TASKS
    ensures |r| == MAX_TASKS
  {
    match op
    case OpTick(frame) => if k.totalTasks <= 1 then v else v[Current(k) := v[Current(k)].(frame := frame)]
    case OpNew(entry, flags, priority) =>
      Queues.FreeSlotExists(k.tcbs);
      var n := FirstFree(k.tcbs, 0);
      v[n := Cpu(InitialFrame(k.tcbs[n].context, k.stackPool + STACK_SIZE * n, entry), FINIT)]
    case OpExec(f) => v[Current(k) := v[Current(k)].(fpu := f(v[Current(k)].fpu))]
    case _ => v
  }

  /** Where the FPU state of slot i is: in the registers, in its TCB, or not yet anywhere. */
  function FpuOf(k: Kernel, i: nat): Fpu
    requires i < |k.tcbs|
  {
    if k.exFxUser == k.tcbs[i].id then k.hw
    else if k.tcbs[i].usingFx then k.tcbs[i].fx
    else FINIT
  }

  /** An owner id with the key of a live task is that task's id, or its id before it was flagged. */
  ghost predicate OwnerKnown(k: Kernel, i: nat)
    requires i < |k.tcbs|
  {
    k.exFxUser.no == i && k.exFxUser.key == k.tcbs[i].id.key ==>
      && k.tcbs[i].usingFx
      && (k.exFxUser == k.tcbs[i].id || (k.tcbs[i].id.flags.delete && Deleted(k.exFxUser) == k.tcbs[i].id))
  }

  /** The kernel with running task cur and the reference machine show each task the same CPU. */
  ghost predicate AgreeAt(k: Kernel, cur: nat, v: seq<Cpu>)
    requires cur < |k.tcbs| == |v|
  {
    && (forall i :: 0 <= i < |v| && k.tcbs[i].Allocated() ==>
          && (i != cur ==> k.tcbs[i].context == v[i].frame)
          && (!k.tcbs[i].id.flags.delete ==> FpuOf(k, i) == v[i].fpu)
          && OwnerKnown(k, i))
    && (!k.ts ==> k.exFxUser.no == cur && k.exFxUser.key == k.tcbs[cur].id.key)
  }

  ghost predicate Agree(k: Kernel, v: seq<Cpu>)
    requires Inv(k)
  {
    |v| == MAX_TASKS && AgreeAt(k, Current(k), v)
  }

  /** The key about to be issued is not the one the FPU owner was issued. */
  predicate FreshKey(k: Kernel, op: Op) {
    op.OpNew? ==> k.exFxUser.key != k.nextKey
  }

  /** What a task sees of the CPU in one step: the frame the tick resumes it with, which for a
      task alone is the frame it was interrupted with, and the FPU registers its instruction reads. */
  ghost predicate Observed(k: Kernel, v: seq<Cpu>, op: Op)
    requires Inv(k) && Enabled(k, op) && |v| == MAX_TASKS
  {
    StepKeeps(k, op);
    && (op.OpTick? && k.totalTasks > 1 ==>
          Step(k, op).ist == EagerStep(k, v, op)[Current(Step(k, op))].frame)
    && (op.OpTick? && k.totalTasks <= 1 ==> Step(k, op).ist == op.frame)
    && (op.OpExec? && !k.tcbs[Current(k)].id.flags.delete ==> k.hw == v[Current(k)].fpu)
  }

  /** TS clear means the running task owns the FPU registers, unless it is flagged. */
  lemma TsClearMeansOwner(k: Kernel, v: seq<Cpu>)
    requires Inv(k) && Agree(k, v)
    requires !k.ts && !k.tcbs[Current(k)].id.flags.delete
    ensures k.exFxUser == k.tcbs[Current(k)].id
  {
    assert OwnerKnown(k, Current(k));
  }

  // ------------------------------------------------------------------ one step

  /** Steps that leave the FPU alone: ticks and deletions. */
  lemma IdStepsAgree(k: Kernel, cur: nat, v: seq<Cpu>, k': Kernel, cur': nat, v': seq<Cpu>)
    requires cur < |k.tcbs| == |v| && cur' < |k'.tcbs| == |v'| && |v'| == |v|
    requires Tree.SlotsNumbered(k.tcbs) && AgreeAt(k, cur, v)
    requires SlotsStep(k, k')
    requires forall i :: 0 <= i < |v| ==> v'[i].fpu == v[i].fpu
    requires forall i :: 0 <= i < |v| && k.tcbs[i].Allocated() && i != cur' ==> k'.tcbs[i].context == v'[i].frame
    requires !k'.ts ==> k.exFxUser.no == cur' && k.exFxUser.key == k'.tcbs[cur'].id.key
    ensures AgreeAt(k', cur', v')
  {
    forall i | 0 <= i < |v| && k'.tcbs[i].Allocated()
      ensures i != cur' ==> k'.tcbs[i].context == v'[i].frame
      ensures (!k'.tcbs[i].id.flags.delete ==> FpuOf(k', i) == v'[i].fpu) && OwnerKnown(k', i)
    {
      assert SlotStep(k.tcbs[i], k'.tcbs[i]);
      assert k.tcbs[i].Allocated() && OwnerKnown(k, i);
    }
  }

  lemma TickAgrees(k: Kernel, v: seq<Cpu>, frame: Frame)
    requires Inv(k) && Agree(k, v)
    ensures var op := OpTick(frame);
      && Inv(Step(k, op)) && Agree(Step(k, op), EagerStep(k, v, op)) && Observed(k, v, op)
  {
    hide Inv, Switch;
    InvFacts(k);
    if k.totalTasks > 1 {
      hide Tick;
      TickFields(k, frame);
      InvFacts(Tick(k, frame));
      var k', v' := Tick(k, frame), v[Current(k) := v[Current(k)].(frame := frame)];
      IdStepsAgree(k, Current(k), v, k', Current(k'), v');
    } else {
      TickKeeps(k, frame);
      InvFacts(Tick(k, frame));
    }
  }

  lemma DeleteAgrees(k: Kernel, v: seq<Cpu>, no: nat)
    requires Inv(k) && no != 0 && Agree(k, v)
    ensures Inv(DeleteTask(k, no)) && Agree(DeleteTask(k, no), v)
  {
    hide Inv, DeleteTask, SlotsStep;
    InvFacts(k);
    DeleteKeeps(k, no);
    InvFacts(DeleteTask(k, no));
    DeleteKeepsCurrent(k, no);
    DeleteFields(k, no);
    IdStepsAgree(k, Current(k), v, DeleteTask(k, no), Current(k), v);
  }

  /** A fresh slot n with a key of its own. */
  lemma FreshSlotAgrees(k: Kernel, cur: nat, v: seq<Cpu>, k': Kernel, n: nat, c: Cpu)
    requires cur < |k.tcbs| == |v| && |k'.tcbs| == |v| && n < |v|
    requires AgreeAt(k, cur, v)
    requires k'.exFxUser == k.exFxUser && k'.hw == k.hw && k'.ts == k.ts
    requires n != cur && k.exFxUser.key != k'.tcbs[n].id.key
    requires k'.tcbs[n].context == c.frame && !k'.tcbs[n].usingFx && c.fpu == FINIT
    requires forall i :: 0 <= i < |v| && i != n ==> k'.tcbs[i] == k.tcbs[i].(threads := k'.tcbs[i].threads)
    ensures AgreeAt(k', cur, v[n := c])
  {
    forall i | 0 <= i < |v| && k'.tcbs[i].Allocated() && i != n
      ensures (!k'.tcbs[i].id.flags.delete ==> FpuOf(k', i) == v[i].fpu) && OwnerKnown(k', i)
    {
      assert k.tcbs[i].Allocated() && OwnerKnown(k, i);
    }
  }

  lemma NewTaskAgrees(k: Kernel, v: seq<Cpu>, op: Op)
    requires Inv(k) && op.OpNew? && Enabled(k, op) && Agree(k, v) && FreshKey(k, op)
    ensures Inv(Step(k, op)) && Agree(Step(k, op), EagerStep(k, v, op))
  {
    hide Inv, QueuesOk, CountsOk, FirstFree, InitialFrame;
    InvFacts(k);
    StepKeeps(k, op);
    NewTaskFields(k, op.entry, op.flags, op.priority);
    NewTaskKeepsQueues(k, op.entry, op.flags, op.priority);
    var k', n := Step(k, op), FirstFree(k.tcbs, 0);
    InvFacts(k');
    assert Current(k') == Current(k);
    FreshSlotAgrees(k, Current(k), v, k', n, EagerStep(k, v, op)[n]);
  }

  lemma TrapAgrees(k: Kernel, v: seq<Cpu>)
    requires Inv(k) && Agree(k, v)
    ensures Inv(TrapFpu(k)) && Agree(TrapFpu(k), v)
  {
    TrapKeeps(k);
    Tree.SearchIsLookup(k.tcbs, k.exFxUser);
    assert Current(TrapFpu(k)) == Current(k);
  }

  lemma ExecAgrees(k: Kernel, v: seq<Cpu>, f: Fpu -> Fpu)
    requires Inv(k) && Agree(k, v) && !k.ts
    ensures var op := OpExec(f);
      && Inv(Step(k, op)) && Agree(Step(k, op), EagerStep(k, v, op)) && Observed(k, v, op)
  {
    var k', cur := ExecFpu(k, f), Current(k);
    assert Current(k') == cur;
    assert OwnerKnown(k, cur);
  }

  lemma ProbeAgrees(k: Kernel, v: seq<Cpu>)
    requires Inv(k) && Agree(k, v)
    ensures Inv(Probe(k)) && Agree(Probe(k), v)
  {
    ProbeKeeps(k);
    InvFacts(Probe(k));
    hide Inv;
  }

  /** Every step keeps the two machines in agreement, and shows the same to the task. */
  lemma StepAgrees(k: Kernel, v: seq<Cpu>, op: Op)
    requires Inv(k) && Enabled(k, op) && Agree(k, v) && FreshKey(k, op)
    ensures Inv(Step(k, op)) && Agree(Step(k, op), EagerStep(k, v, op)) && Observed(k, v, op)
  {
    hide Inv, AgreeAt;
    match op
    case OpTick(frame) => TickAgrees(k, v, frame);
    case OpNew(_, _, _) => NewTaskAgrees(k, v, op);
    case OpDelete(no) => DeleteAgrees(k, v, no);
    case OpProbe => ProbeAgrees(k, v);
    case OpTrap => TrapAgrees(k, v);
    case OpExec(f) => ExecAgrees(k, v, f);
  }

  // ------------------------------------------------------------------ runs

  predicate KeysFresh(k: Kernel, ops: seq<Op>)
    requires Inv(k) && Runnable(k, ops)
    decreases |ops|
  {
    ops == [] || (FreshKey(k, ops[0]) && (StepKeeps(k, ops[0]); KeysFresh(Step(k, ops[0]), ops[1..])))
  }

  ghost predicate AllObserved(k: Kernel, v: seq<Cpu>, ops: seq<Op>)
    requires Inv(k) && Runnable(k, ops) && |v| == MAX_TASKS
    decreases |ops|
  {
    ops == [] || (Observed(k, v, ops[0])
      && (StepKeeps(k, ops[0]); AllObserved(Step(k, ops[0]), EagerStep(k, v, ops[0]), ops[1..])))
  }

  /** Lazy switching refines eager switching over every run. */
  lemma {:induction false} LazyRefinesEager(k: Kernel, v: seq<Cpu>, ops: seq<Op>)
    requires Inv(k) && Agree(k, v) && Runnable(k, ops) && KeysFresh(k, ops)
    ensures AllObserved(k, v, ops)
    decreases |ops|
  {
    if ops != [] {
      StepAgrees(k, v, ops[0]);
      LazyRefinesEager(Step(k, ops[0]), EagerStep(k, v, ops[0]), ops[1..]);
    }
  }

  function BootCpus(k: Kernel): (v: seq<Cpu>)
    ensures |v| == MAX_TASKS
  {
    seq(MAX_TASKS, i => Cpu(seq(FRAME_WORDS, _ => 0), FINIT))
  }

  lemma BootAgrees(stackPool: nat, hw: Fpu)
    ensures Inv(Boot(stackPool, hw)) && Agree(Boot(stackPool, hw), BootCpus(Boot(stackPool, hw)))
  {
    BootOk(stackPool, hw);
    var k := Boot(stackPool, hw);
    assert forall i :: Alloc(k.tcbs, i) <==> i == 0;
  }

  // ------------------------------------------------------------------ keys

  /** All keys in use were issued before the next one, as long as the counter has not wrapped. */
  ghost predicate KeysIssued(k: Kernel) {
    && k.exFxUser.key < k.nextKey
    && (forall i :: 0 <= i < |k.tcbs| ==> k.tcbs[i].id.key < k.nextKey)
  }

  lemma StepKeepsKeys(k: Kernel, op: Op)
    requires Inv(k) && Enabled(k, op) && KeysIssued(k)
    requires op.OpNew? ==> k.nextKey + 1 < KEYS
    ensures KeysIssued(Step(k, op))
    ensures Step(k, op).nextKey == k.nextKey + if op.OpNew? then 1 else 0
  {
    hide Inv, NewTask, Tick, DeleteTask, TrapFpu, FirstFree, InitialFrame;
    StepKeeps(k, op);
    InvFacts(k);
    InvFacts(Step(k, op));
    if op.OpNew? {
      NewTaskFields(k, op.entry, op.flags, op.priority);
      NewTaskCounters(k, op.entry, op.flags, op.priority);
    } else {
      StepSlots(k, op);
    }
  }

  /** The key counter keeps every run with fewer than 2^32 - 2 creations fresh. */
  lemma {:induction false} KeysStayFresh(k: Kernel, ops: seq<Op>)
    requires Inv(k) && Runnable(k, ops) && KeysIssued(k)
    requires k.nextKey + News(ops) < KEYS
    ensures KeysFresh(k, ops)
    decreases |ops|
  {
    if ops != [] {
      StepKeeps(k, ops[0]);
      StepKeepsKeys(k, ops[0]);
      KeysStayFresh(Step(k, ops[0]), ops[1..]);
    }
  }

  /** From boot, every run of fewer than 2^32 - 2 creations shows each task a CPU of its own. */
  lemma EveryTaskHasItsOwnCpu(stackPool: nat, hw: Fpu, ops: seq<Op>)
    requires (BootOk(stackPool, hw); Runnable(Boot(stackPool, hw), ops))
    requires News(ops) < KEYS - 2
    ensures (BootOk(stackPool, hw); AllObserved(Boot(stackPool, hw), BootCpus(Boot(stackPool, hw)), ops))
  {
    BootAgrees(stackPool, hw);
    KeysStayFresh(Boot(stackPool, hw), ops);
    LazyRefinesEager(Boot(stackPool, hw), BootCpus(Boot(stackPool, hw)), ops);
  }
}
