/** The limits of the pool and of a thread list are reached by creations alone, so the two
    failures that newTask has there do happen. */
module Limits {
  import opened Seqs
  import opened KernelState
  import opened Machine

  function Creations(n: nat, op: Op): seq<Op> { seq(n, _ => op) }

  lemma CreationsStep(n: nat, op: Op)
    requires n > 0
    ensures Creations(n, op)[0] == op && Creations(n, op)[1..] == Creations(n - 1, op)
  {}

  // ------------------------------------------------------------------ the pool

  lemma {:induction false} CreationsFill(k: Kernel, n: nat, op: Op)
    requires Inv(k) && op.OpNew? && 1 <= op.priority <= LEVELS && !op.flags.thread
    requires k.numTasks + n <= MAX_TASKS
    ensures Runnable(k, Creations(n, op))
    ensures Run(k, Creations(n, op)).numTasks == k.numTasks + n
    decreases n
  {
    hide Inv, NewTask;
    if n > 0 {
      CreationsStep(n, op);
      StepKeeps(k, op);
      NewTaskCounters(k, op.entry, op.flags, op.priority);
      CreationsFill(Step(k, op), n - 1, op);
    }
  }

  /** 1023 creations after boot the pool is full, and the next creation meets the null pointer. */
  lemma FullPoolIsReachable(stackPool: nat, hw: Fpu, op: Op, entry: int, flags: Flags, priority: nat)
    requires op.OpNew? && 1 <= op.priority <= LEVELS && !op.flags.thread
    requires 1 <= priority <= LEVELS
    ensures (BootOk(stackPool, hw); Runnable(Boot(stackPool, hw), Creations(MAX_TASKS - 1, op)))
    ensures NewTask(Run(Boot(stackPool, hw), Creations(MAX_TASKS - 1, op)), entry, flags, priority) == None
  {
    BootOk(stackPool, hw);
    CreationsFill(Boot(stackPool, hw), MAX_TASKS - 1, op);
  }

  // ------------------------------------------------------------------ a thread list

  /** A thread that the running shell creates joins the shell's list. */
  lemma ShellCreatesThread(k: Kernel, op: Op)
    requires Inv(k) && Current(k) == 0 && op.OpNew? && 1 <= op.priority <= LEVELS && op.flags.thread
    requires k.numTasks < MAX_TASKS && |k.tcbs[0].threads| < MAX_THREADS
    ensures Enabled(k, op) && Inv(Step(k, op)) && Current(Step(k, op)) == 0
    ensures |Step(k, op).tcbs[0].threads| == |k.tcbs[0].threads| + 1
    ensures Step(k, op).numTasks == k.numTasks + 1
  {
    hide QueuesOk, CountsOk, TreeOk, PoolOk, NewTask, FirstFree, OwnerOf;
    ShellOwnsItself(k);
    StepKeeps(k, op);
    CreationKeepsCurrent(k, op.entry, op.flags, op.priority);
    NewTaskCounters(k, op.entry, op.flags, op.priority);
    NewThreadJoins(k, op.entry, op.flags, op.priority);
  }

  lemma ShellOwnsItself(k: Kernel)
    requires Inv(k)
    ensures Alloc(k.tcbs, 0) && OwnerOf(k, 0) == 0
  {
    assert k.tcbs[OwnerOf(k, 0)].id.no == OwnerOf(k, 0);
  }

  lemma {:induction false} ThreadsFill(k: Kernel, n: nat, op: Op)
    requires Inv(k) && Current(k) == 0 && op.OpNew? && 1 <= op.priority <= LEVELS && op.flags.thread
    requires k.numTasks + n <= MAX_TASKS && |k.tcbs[0].threads| + n <= MAX_THREADS
    ensures Runnable(k, Creations(n, op))
    ensures var r := Run(k, Creations(n, op));
      && Current(r) == 0 && r.numTasks == k.numTasks + n && |r.tcbs[0].threads| == |k.tcbs[0].threads| + n
    decreases n
  {
    hide Inv, Step, Enabled;
    if n > 0 {
      CreationsStep(n, op);
      ShellCreatesThread(k, op);
      ThreadsFill(Step(k, op), n - 1, op);
    }
  }

  /** After 32 threads of the shell there is no room, and the 33rd creation breaks the tree. */
  lemma FullThreadListIsReachable(stackPool: nat, hw: Fpu, op: Op)
    requires op.OpNew? && 1 <= op.priority <= LEVELS && op.flags.thread
    ensures (BootOk(stackPool, hw); Runnable(Boot(stackPool, hw), Creations(MAX_THREADS, op)))
    ensures var k := Run(Boot(stackPool, hw), Creations(MAX_THREADS, op));
      Possible(k, op) && !ThreadHasRoom(k, op.flags) && !Inv(Step(k, op))
  {
    BootOk(stackPool, hw);
    var k0 := Boot(stackPool, hw);
    assert Current(k0) == 0 && k0.tcbs[0].threads == [];
    ThreadsFill(k0, MAX_THREADS, op);
    var k := Run(k0, Creations(MAX_THREADS, op));
    ShellOwnsItself(k);
    StepKeepsIff(k, op);
  }
}
