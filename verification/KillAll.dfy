/** The shell's "kill -a": a loop that asks getTaskInfo for the next task and deletes it
    unless it is a system task. Ticks, deletions by other tasks and FPU traffic may happen
    between any two slots that getTaskInfo looks at and before the deletion; only task creation
    and a second listing are excluded. */
module KillAll {
  import opened KernelState
  import opened Machine
  import opened Effects
  import Reaping

  /** What the rest of the system does in one iteration: before each probe of getTaskInfo, and
      between the last probe and the deletion. */
  datatype Round = Round(waits: seq<seq<Op>>, between: seq<Op>)

  /** No second listing moves the cursor. */
  predicate NoProbes(ops: seq<Op>) { forall i :: 0 <= i < |ops| ==> !ops[i].OpProbe? }

  predicate Quiet(ops: seq<Op>) {
    forall i :: 0 <= i < |ops| ==> !ops[i].OpNew? && !ops[i].OpProbe?
  }

  /** A slot kill -a has dealt with: free, a system task, or flagged for deletion together with
      all its threads. */
  ghost predicate Done(k: Kernel, i: nat)
    requires i < |k.tcbs|
  {
    k.tcbs[i].Allocated() ==> k.tcbs[i].id.flags.system || Reaping.Doomed(k, i)
  }

  // ------------------------------------------------------------------ nothing is undone

  /** Without task creation a slot that is done stays done. */
  lemma StepKeepsDone(k: Kernel, op: Op, i: nat)
    requires Inv(k) && Enabled(k, op) && !op.OpNew?
    requires i < MAX_TASKS && Done(k, i)
    ensures Inv(Step(k, op)) && Done(Step(k, op), i)
    ensures !k.tcbs[i].Allocated() ==> !Step(k, op).tcbs[i].Allocated()
  {
    hide Inv, Step, Possible, ThreadHasRoom, Reaping.Doomed;
    InvFacts(k);
    StepSlots(k, op);
    InvFacts(Step(k, op));
    if k.tcbs[i].Allocated() && !k.tcbs[i].id.flags.system { Reaping.DoomedStays(k, op, i); }
    assert SlotStep(k.tcbs[i], Step(k, op).tcbs[i]);
  }

  lemma {:induction false} RunKeepsDone(k: Kernel, ops: seq<Op>, i: nat)
    requires Inv(k) && Runnable(k, ops) && Quiet(ops)
    requires i < MAX_TASKS && Done(k, i)
    ensures Done(Run(k, ops), i)
    decreases |ops|
  {
    if ops != [] {
      StepKeepsDone(k, ops[0], i);
      RunKeepsDone(Step(k, ops[0]), ops[1..], i);
    }
  }

  /** deleteTask leaves its target free or doomed, whatever became of it meanwhile. */
  lemma DeleteMakesDone(k: Kernel, no: nat)
    requires Inv(k) && 0 < no < MAX_TASKS
    ensures Inv(DeleteTask(k, no)) && Done(DeleteTask(k, no), no)
  {
    hide Inv, DeleteTask, Reaping.Doomed;
    Reaping.DeleteDooms(k, no);
    InvFacts(DeleteTask(k, no));
  }

  // ------------------------------------------------------------------ the scan

  ghost predicate WaitOk(k: Kernel, wait: seq<Op>)
    requires Inv(k)
  {
    Quiet(wait) && Runnable(k, wait)
  }

  /** A run of getTaskInfo up to now: time passes, and the probe misses, again and again. */
  ghost predicate Misses(k: Kernel, waits: seq<seq<Op>>)
    requires Inv(k)
    decreases |waits|
  {
    waits == [] ||
    (NoProbes(waits[0]) && Runnable(k, waits[0])
     && (var k1 := Run(k, waits[0]);
         !Alloc(k1.tcbs, Probed(k1)) && (ProbeKeeps(k1); Misses(Probe(k1), waits[1..]))))
  }

  /** A whole run of getTaskInfo: all probes miss but the last, which finds a task. */
  ghost predicate ScanOk(k: Kernel, waits: seq<seq<Op>>)
    requires Inv(k)
    decreases |waits|
  {
    && waits != [] && WaitOk(k, waits[0])
    && (var k1 := Run(k, waits[0]);
        ProbeKeeps(k1);
        if |waits| == 1 then Alloc(k1.tcbs, Probed(k1))
        else !Alloc(k1.tcbs, Probed(k1)) && ScanOk(Probe(k1), waits[1..]))
  }

  ghost function Scan(k: Kernel, waits: seq<seq<Op>>): (r: Kernel)
    requires Inv(k) && ScanOk(k, waits)
    ensures Inv(r) && 1 <= r.cursor <= MAX_TASKS
    decreases |waits|
  {
    var k1 := Run(k, waits[0]);
    ProbeKeeps(k1);
    if |waits| == 1 then Probe(k1) else Scan(Probe(k1), waits[1..])
  }

  lemma {:induction false} RunKeepsCursor(k: Kernel, ops: seq<Op>)
    requires Inv(k) && Runnable(k, ops) && NoProbes(ops)
    ensures Run(k, ops).cursor == k.cursor
    decreases |ops|
  {
    hide Inv, Step, Possible, ThreadHasRoom;
    if ops != [] {
      StepKeepsCursor(k, ops[0]);
      RunKeepsCursor(Step(k, ops[0]), ops[1..]);
    }
  }

  lemma StepKeepsCursor(k: Kernel, op: Op)
    requires Inv(k) && Enabled(k, op) && !op.OpProbe?
    ensures Inv(Step(k, op)) && Step(k, op).cursor == k.cursor
  {
    hide Inv, NewTask, Tick, DeleteTask, TrapFpu, ThreadHasRoom;
    if op.OpNew? {
      StepKeeps(k, op);
      NewTaskCounters(k, op.entry, op.flags, op.priority);
    } else {
      StepSlots(k, op);
    }
  }

  /** getTaskInfo ends: whatever happens between its probes but the probes of a second listing,
      which would move the shared cursor, the shell stays allocated, and the probes come to it. */
  lemma {:induction false} ScanEnds(k: Kernel, waits: seq<seq<Op>>)
    requires Inv(k) && Misses(k, waits)
    ensures |waits| <= ToShell(k) < MAX_TASKS
    decreases |waits|
  {
    hide Inv;
    if waits != [] {
      var k1 := Run(k, waits[0]);
      RunKeepsCursor(k, waits[0]);
      ProbeKeeps(k1);
      ScanEnds(Probe(k1), waits[1..]);
    }
  }

  // ------------------------------------------------------------------ the loop

  ghost predicate RoundOk(k: Kernel, r: Round)
    requires Inv(k)
  {
    ScanOk(k, r.waits) && WaitOk(Scan(k, r.waits), r.between)
  }

  /** One iteration: a slot is found, time passes, and it is deleted unless it is system. */
  ghost function KillOne(k: Kernel, r: Round): (k': Kernel)
    requires Inv(k) && RoundOk(k, r)
    ensures Inv(k')
  {
    var k1 := Scan(k, r.waits);
    var no := k1.cursor - 1;
    var k2 := Run(k1, r.between);
    InvFacts(k2);
    if k2.tcbs[no].id.flags.system then k2
    else
      assert no != 0;
      DeleteKeeps(k2, no);
      DeleteTask(k2, no)
  }

  ghost predicate RoundsOk(k: Kernel, rounds: seq<Round>)
    requires Inv(k)
    decreases |rounds|
  {
    rounds == [] || (RoundOk(k, rounds[0]) && RoundsOk(KillOne(k, rounds[0]), rounds[1..]))
  }

  ghost function Kill(k: Kernel, rounds: seq<Round>): (k': Kernel)
    requires Inv(k) && RoundsOk(k, rounds)
    ensures Inv(k')
    decreases |rounds|
  {
    if rounds == [] then k else Kill(KillOne(k, rounds[0]), rounds[1..])
  }

  // ------------------------------------------------------------------ coverage

  /** The slot d places behind the cursor, going backwards around the pool. */
  function Behind(cursor: nat, d: nat): nat
    requires cursor <= MAX_TASKS && 1 <= d <= MAX_TASKS
  {
    if d <= cursor then cursor - d else cursor + MAX_TASKS - d
  }

  /** The slots the cursor has passed, from the lo-th last to the d-th last, are done. */
  ghost predicate Covered(k: Kernel, lo: nat, d: nat)
    requires |k.tcbs| == MAX_TASKS
  {
    && k.cursor <= MAX_TASKS
    && (forall j :: 1 <= lo <= j <= d && j <= MAX_TASKS ==> Done(k, Behind(k.cursor, j)))
  }

  lemma RunKeepsCovered(k: Kernel, ops: seq<Op>, lo: nat, d: nat)
    requires Inv(k) && Runnable(k, ops) && Quiet(ops)
    requires lo >= 1 && Covered(k, lo, d)
    ensures Covered(Run(k, ops), lo, d)
  {
    RunKeepsCursor(k, ops);
    forall j | lo <= j <= d && j <= MAX_TASKS
      ensures Done(Run(k, ops), Behind(k.cursor, j))
    {
      RunKeepsDone(k, ops, Behind(k.cursor, j));
    }
  }

  /** A probe moves the cursor by one slot; a miss was at a slot that is done. */
  lemma ProbeCovers(k: Kernel, lo: nat, d: nat)
    requires Inv(k) && lo >= 1 && Covered(k, lo, d)
    ensures Inv(Probe(k)) && Covered(Probe(k), lo + 1, d + 1)
    ensures Behind(Probe(k).cursor, 1) == Probed(k)
    ensures !Alloc(k.tcbs, Probed(k)) && lo == 1 ==> Covered(Probe(k), 1, d + 1)
  {
    ProbeKeeps(k);
    var c := Probe(k).cursor;
    forall j {:trigger Behind(c, j)} | lo + 1 <= j <= d + 1 && j <= MAX_TASKS
      ensures Done(Probe(k), Behind(c, j))
    {
      assert Behind(c, j) == Behind(k.cursor, j - 1);
      assert Done(k, Behind(k.cursor, j - 1));
    }
  }

  /** A scan covers every slot it passed; the last one, which it returns, is still to be done. */
  lemma {:induction false} ScanCovers(k: Kernel, waits: seq<seq<Op>>, d: nat)
    requires Inv(k) && ScanOk(k, waits) && Covered(k, 1, d)
    ensures Covered(Scan(k, waits), 2, d + 1)
    decreases |waits|
  {
    hide Inv, Done;
    var k1 := Run(k, waits[0]);
    RunKeepsCovered(k, waits[0], 1, d);
    ProbeCovers(k1, 1, d);
    if |waits| > 1 {
      ScanCovers(Probe(k1), waits[1..], d + 1);
    }
  }

  lemma DeleteKeepsCovered(k: Kernel, no: nat, lo: nat, d: nat)
    requires Inv(k) && 0 < no < MAX_TASKS && lo >= 1 && Covered(k, lo, d)
    ensures Inv(DeleteTask(k, no)) && Covered(DeleteTask(k, no), lo, d)
    ensures DeleteTask(k, no).cursor == k.cursor
  {
    hide Inv, DeleteTask, Done;
    InvFacts(k);
    DeleteKeeps(k, no);
    InvFacts(DeleteTask(k, no));
    DeleteFields(k, no);
    forall j | lo <= j <= d && j <= MAX_TASKS
      ensures Done(DeleteTask(k, no), Behind(k.cursor, j))
    {
      StepKeepsDone(k, OpDelete(no), Behind(k.cursor, j));
    }
  }

  /** Each iteration deals with at least one slot more. */
  lemma RoundCovers(k: Kernel, r: Round, d: nat)
    requires Inv(k) && RoundOk(k, r) && Covered(k, 1, d)
    ensures Covered(KillOne(k, r), 1, d + 1)
  {
    hide Inv, Done, ScanOk, Scan, DeleteTask;
    var k1 := Scan(k, r.waits);
    ScanCovers(k, r.waits, d);
    RunKeepsCovered(k1, r.between, 2, d + 1);
    RunKeepsCursor(k1, r.between);
    var k2, no := Run(k1, r.between), k1.cursor - 1;
    InvFacts(k2);
    if k2.tcbs[no].id.flags.system {
      SystemIsDone(k2, no);
    } else {
      ShellIsSystem(k2);
      DeleteKeepsCovered(k2, no, 2, d + 1);
      DeleteMakesDone(k2, no);
    }
    InvFacts(KillOne(k, r));
    LastIsDone(KillOne(k, r), d + 1);
  }

  lemma SystemIsDone(k: Kernel, no: nat)
    requires no < |k.tcbs| && k.tcbs[no].id.flags.system
    ensures Done(k, no)
  {}

  lemma ShellIsSystem(k: Kernel)
    requires Inv(k)
    ensures Alloc(k.tcbs, 0) && k.tcbs[0].id.flags.system
  {}

  lemma LastIsDone(k: Kernel, d: nat)
    requires |k.tcbs| == MAX_TASKS && 1 <= k.cursor && Covered(k, 2, d) && Done(k, k.cursor - 1)
    ensures Covered(k, 1, d)
  {
    hide Done;
    forall j | 1 <= j <= d && j <= MAX_TASKS
      ensures Done(k, Behind(k.cursor, j))
    {
      if j == 1 { assert Behind(k.cursor, 1) == k.cursor - 1; }
    }
  }

  lemma {:induction false} KillCovers(k: Kernel, rounds: seq<Round>, d: nat)
    requires Inv(k) && RoundsOk(k, rounds) && Covered(k, 1, d)
    ensures Covered(Kill(k, rounds), 1, d + |rounds|)
    decreases |rounds|
  {
    if rounds != [] {
      RoundCovers(k, rounds[0], d);
      KillCovers(KillOne(k, rounds[0]), rounds[1..], d + 1);
    }
  }

  /** The 1025 iterations of kill -a leave every task that is not a system task freed, or flagged
      together with all its threads, wherever the listing cursor was; 1024 would do. */
  lemma KillAllReachesEveryTask(k: Kernel, rounds: seq<Round>, i: nat)
    requires Inv(k) && RoundsOk(k, rounds) && k.cursor <= MAX_TASKS
    requires |rounds| >= MAX_TASKS
    requires i < MAX_TASKS
    ensures Done(Kill(k, rounds), i)
  {
    hide PoolOk, TreeOk, QueuesOk, CountsOk, ShellOk, LevelsOk;
    KillCovers(k, rounds, 0);
    var k' := Kill(k, rounds);
    var j := if i < k'.cursor then k'.cursor - i else k'.cursor + MAX_TASKS - i;
    assert Behind(k'.cursor, j) == i;
  }
}
