/** Liveness: a task that is flagged for deletion and has no threads is freed, however the
    other tasks behave, once enough ticks have passed and no task is created meanwhile; and
    then so is every flagged process whose threads are all flagged. The measure is the task
    count, then the position in the queue, then the distance of the odometer. */
module Reaping {
  import opened Seqs
  import opened KernelState
  import opened Machine
  import opened Effects
  import Tree
  import Queues
  import Share
  import Wheel
  import Odometer

  // ------------------------------------------------------------------ positions

  function IndexOf(q: seq<nat>, t: nat): (i: nat)
    ensures i <= |q|
    ensures t in q ==> i < |q| && q[i] == t
  {
    if q == [] || q[0] == t then 0 else 1 + IndexOf(q[1..], t)
  }

  lemma {:induction false} IndexInFront(q: seq<nat>, r: seq<nat>, t: nat)
    requires t in q
    ensures IndexOf(q + r, t) == IndexOf(q, t)
  {
    if q[0] != t {
      assert (q + r)[1..] == q[1..] + r;
      IndexInFront(q[1..], r, t);
    }
  }

  lemma RotatedIndex(q: seq<nat>, t: nat)
    requires t in q && q[0] != t
    ensures IndexOf(q[1..] + [q[0]], t) == IndexOf(q, t) - 1
  {
    IndexInFront(q[1..], [q[0]], t);
  }

  lemma {:induction false} RemovedIndex(q: seq<nat>, x: nat, t: nat)
    requires t in q && x != t
    ensures t in Remove(q, x)
    ensures IndexOf(Remove(q, x), t) <= IndexOf(q, t)
  {
    if q[0] != x && q[0] != t {
      RemovedIndex(q[1..], x, t);
      assert Remove(q, x)[1..] == Remove(q[1..], x);
    }
  }

  lemma {:induction false} WeightMonotone(s: seq<nat>, r: seq<nat>)
    requires |s| == |r| && forall i :: 0 <= i < |s| ==> r[i] <= s[i]
    ensures Odometer.Weight(r) <= Odometer.Weight(s)
  {
    if s != [] {
      WeightMonotone(s[1..], r[1..]);
      Odometer.Monotone(r[0] + 1, Odometer.Weight(r[1..]), Odometer.Weight(s[1..]));
      Odometer.Monotone(Odometer.Weight(s[1..]), r[0] + 1, s[0] + 1);
    }
  }

  // ------------------------------------------------------------------ the measure

  /** Task t of level l waits at position p; its level comes next in d ticks. */
  datatype Wait = Wait(l: nat, p: nat, d: nat)

  function WaitOf(w: Wheel.Wheel, l: nat, t: nat): Wait
    requires Wheel.Ok(w) && l < |w.queues| && t in w.queues[l]
  {
    Wheel.TurnNamesLevel(w);
    Wait(l, IndexOf(w.queues[l], t), Odometer.Distance(Wheel.Turn(w), l, Wheel.Sizes(w.queues)))
  }

  /** n times len, by addition. */
  function Laps(n: nat, len: nat): nat {
    if n == 0 then 0 else len + Laps(n - 1, len)
  }

  lemma {:induction false} LapsProduct(n: nat, len: nat)
    ensures Laps(n, len) == n * len
  {
    if n > 0 {
      LapsProduct(n - 1, len);
      Odometer.Distribute(len, n - 1, 1);
    }
  }

  lemma {:induction false} MoreLaps(m: nat, n: nat, len: nat)
    requires m <= n
    ensures Laps(m, len) <= Laps(n, len)
    ensures m < n ==> Laps(m, len) + len <= Laps(n, len)
  {
    if m < n { MoreLaps(m, n - 1, len); }
  }

  lemma {:induction false} LongerLaps(n: nat, len: nat, longer: nat)
    requires len <= longer
    ensures Laps(n, len) <= Laps(n, longer)
  {
    if n > 0 { LongerLaps(n - 1, len, longer); }
  }

  /** An upper bound on the ticks until t runs, while no task is freed. */
  function Ticks(x: Wait, turn: nat): nat { Laps(x.p, turn) + x.d }

  /** A turn of the wheel brings t closer to the front, unless t is the one that ran. */
  lemma SpinShortensWait(w: Wheel.Wheel, l: nat, t: nat)
    requires Wheel.Ok(w) && l < |w.queues| && t in w.queues[l] && Wheel.Front(w) != t
    ensures var w' := Wheel.Spin(w);
      && Wheel.Ok(w') && t in w'.queues[l] && Wheel.TurnLength(w') == Wheel.TurnLength(w)
      && Ticks(WaitOf(w', l, t), Wheel.TurnLength(w)) < Ticks(WaitOf(w, l, t), Wheel.TurnLength(w))
  {
    var w', s := Wheel.Spin(w), Wheel.Sizes(w.queues);
    Wheel.SpinAdvancesTurn(w);
    Wheel.TurnNamesLevel(w);
    Wheel.TurnNamesLevel(w');
    var q := w.queues[l];
    if w.curLev == l {
      RotatedIndex(q, t);
      assert q[IndexOf(q, t)] == t;
      assert w'.queues[l] == q[1..] + [q[0]];
      assert t in q[1..];
      MoreLaps(IndexOf(q, t) - 1, IndexOf(q, t), Wheel.TurnLength(w));
    } else {
      assert w'.queues[l] == q;
      Odometer.DistanceDrops(Wheel.Turn(w), l, s);
    }
  }

  // ------------------------------------------------------------------ one step

  /** Task t is due to be freed by the tick. */
  predicate Due(k: Kernel, t: nat) {
    Alloc(k.tcbs, t) && k.tcbs[t].id.flags.delete && k.tcbs[t].threads == []
  }

  lemma PriorityStays(k: Kernel, op: Op, t: nat)
    requires Inv(k) && Enabled(k, op) && !op.OpNew? && t < MAX_TASKS
    ensures Inv(Step(k, op)) && Step(k, op).tcbs[t].id.priority == k.tcbs[t].id.priority
  {
    hide Inv, Step, Possible, ThreadHasRoom;
    InvFacts(k);
    StepSlots(k, op);
    InvFacts(Step(k, op));
    assert SlotStep(k.tcbs[t], Step(k, op).tcbs[t]);
  }

  lemma DueStays(k: Kernel, op: Op, t: nat)
    requires Inv(k) && Enabled(k, op) && !op.OpNew? && Due(k, t)
    ensures Inv(Step(k, op))
    ensures Alloc(Step(k, op).tcbs, t) ==> Due(Step(k, op), t)
    ensures Step(k, op).tcbs[t].id.priority == k.tcbs[t].id.priority
  {
    StepSlots(k, op);
    var b := Step(k, op).tcbs[t];
    assert SlotStep(k.tcbs[t], b);
  }

  /** A step that neither runs t to the end of its slice nor moves it to the back of its queue. */
  predicate PassesBy(k: Kernel, op: Op, t: nat)
    requires Inv(k) && Alloc(k.tcbs, t)
  {
    && (op.OpTick? ==> Current(k) != t)
    && (op == OpDelete(t) ==> Current(k) == t || k.tcbs[t].threads == [])
  }

  /** What is due is not moved, and its own tick frees it. */
  lemma DueIsPassedBy(k: Kernel, op: Op, t: nat)
    requires Inv(k) && Enabled(k, op) && Due(k, t) && Alloc(Step(k, op).tcbs, t)
    ensures PassesBy(k, op, t)
  {
    if op.OpTick? && Current(k) == t {
      if k.totalTasks <= 1 { Share.OnlyTheShell(k, t); }
      Tree.FreeFields(k.tcbs, t);
    }
  }

  /** What a step without creation does to the queues, as far as task t is concerned. */
  ghost predicate QueueStep(k: Kernel, k': Kernel, t: nat, ticked: bool)
    requires |k.queues| == |k'.queues| == LEVELS
  {
    if k'.numTasks < k.numTasks then
      (forall l :: 0 <= l < LEVELS ==> |k'.queues[l]| <= |k.queues[l]|)
    else if ticked then
      Wheel.Ok(WheelOf(k)) && WheelOf(k') == Wheel.Spin(WheelOf(k)) && Wheel.Front(WheelOf(k)) != t
    else
      && k'.executed == k.executed && k'.curLev == k.curLev
      && Wheel.Sizes(k'.queues) == Wheel.Sizes(k.queues)
      && (forall l :: 0 <= l < LEVELS && t in k.queues[l] ==> IndexOf(k'.queues[l], t) <= IndexOf(k.queues[l], t))
  }

  lemma TickQueues(k: Kernel, frame: Frame, t: nat)
    requires Inv(k) && Alloc(k.tcbs, t) && Current(k) != t
    ensures |Tick(k, frame).queues| == LEVELS
    ensures Tick(k, frame).numTasks <= k.numTasks
    ensures QueueStep(k, Tick(k, frame), t, true)
  {
    hide TreeOk, CountsOk, PoolOk, QueuesOk, Wheel.Pick, Wheel.Spin;
    InvFacts(k);
    if k.totalTasks <= 1 { Share.OnlyTheShell(k, t); }
    if k.tcbs[Current(k)].id.flags.delete && k.tcbs[Current(k)].threads == [] {
      FreedTick(k, frame);
    } else {
      Share.TickSpins(k, frame);
    }
  }

  lemma FreedTick(k: Kernel, frame: Frame)
    requires Inv(k) && k.totalTasks > 1
    requires k.tcbs[Current(k)].id.flags.delete && k.tcbs[Current(k)].threads == []
    ensures var k' := Tick(k, frame);
      && k'.numTasks == k.numTasks - 1 && |k'.queues| == LEVELS
      && forall l :: 0 <= l < LEVELS ==> |k'.queues[l]| <= |k.queues[l]|
  {
    InvFacts(k);
    hide Inv, Wheel.Pick, Free;
  }

  /** A task that goes to the back of its queue lets the others move up. */
  lemma BackOfQueue(q: seq<nat>, no: nat, t: nat)
    requires t in q && no in q
    ensures t != no ==> t in Remove(q, no) + [no] && IndexOf(Remove(q, no) + [no], t) <= IndexOf(q, t)
  {
    if t != no {
      RemovedIndex(q, no, t);
      IndexInFront(Remove(q, no), [no], t);
    }
  }

  lemma DeleteQueues(k: Kernel, no: nat, t: nat)
    requires Inv(k) && Alloc(k.tcbs, t) && PassesBy(k, OpDelete(no), t)
    ensures |DeleteTask(k, no).queues| == LEVELS
    ensures DeleteTask(k, no).numTasks <= k.numTasks
    ensures QueueStep(k, DeleteTask(k, no), t, false)
  {
    hide QueuesOk, TreeOk, PoolOk, CountsOk, Free, MarkDeleted, Push;
    InvFacts(k);
    DeleteTargetFacts(k, no);
    Queues.LevelIsPriority(k.tcbs, k.queues, no);
    if no != Current(k) && Alloc(k.tcbs, no) && k.tcbs[no].threads != [] {
      var q := k.queues[k.tcbs[no].id.priority - 1];
      Queues.RequeueKeeps(k.tcbs, k.queues, no);
      assert no != t && no in q;
      if t in q { BackOfQueue(q, no, t); }
    }
  }

  lemma StepQueues(k: Kernel, op: Op, t: nat)
    requires Inv(k) && Enabled(k, op) && !op.OpNew? && Alloc(k.tcbs, t) && PassesBy(k, op, t)
    ensures |Step(k, op).queues| == LEVELS
    ensures Step(k, op).numTasks <= k.numTasks
    ensures QueueStep(k, Step(k, op), t, op.OpTick?)
  {
    match op
    case OpTick(frame) => TickQueues(k, frame, t);
    case OpDelete(no) => DeleteQueues(k, no, t);
    case OpProbe =>
    case OpTrap =>
    case OpExec(_) =>
  }

  // ------------------------------------------------------------------ the potential

  ghost function WaitTicks(k: Kernel, t: nat): nat
    requires Inv(k) && Alloc(k.tcbs, t)
  {
    var l := k.tcbs[t].id.priority - 1;
    assert t in k.queues[l];
    Ticks(WaitOf(WheelOf(k), l, t), Share.TurnLength(k))
  }

  /** A full round: every position of the longest possible queue waits for a turn. */
  function Round(k: Kernel): nat { Laps(MAX_TASKS, Share.TurnLength(k)) }

  /** Ticks left until t is freed, at most: a full round for every task that could be freed
      before, and the current wait. */
  ghost function Potential(k: Kernel, t: nat, round: nat): nat
    requires Inv(k) && Alloc(k.tcbs, t)
  {
    Laps(k.numTasks, round) + WaitTicks(k, t)
  }

  lemma WaitIsBounded(k: Kernel, t: nat)
    requires Inv(k) && Alloc(k.tcbs, t)
    ensures WaitTicks(k, t) < Round(k)
  {
    var l := k.tcbs[t].id.priority - 1;
    assert t in k.queues[l];
    Queues.QueueHasRoom(k.tcbs, k.queues, l, t);
    MoreLaps(IndexOf(k.queues[l], t), MAX_TASKS, Share.TurnLength(k));
  }

  /** While nobody is freed, ticks shorten the wait and nothing else lengthens it. */
  lemma WaitShrinks(k: Kernel, k': Kernel, t: nat, ticked: bool)
    requires Inv(k) && Inv(k') && Alloc(k.tcbs, t) && Alloc(k'.tcbs, t)
    requires k'.tcbs[t].id.priority == k.tcbs[t].id.priority
    requires k'.numTasks == k.numTasks && QueueStep(k, k', t, ticked)
    ensures Share.TurnLength(k') == Share.TurnLength(k)
    ensures WaitTicks(k', t) + (if ticked then 1 else 0) <= WaitTicks(k, t)
  {
    var l := k.tcbs[t].id.priority - 1;
    assert t in k.queues[l] && t in k'.queues[l];
    if ticked {
      SpinShortensWait(WheelOf(k), l, t);
    } else {
      MoreLaps(IndexOf(k'.queues[l], t), IndexOf(k.queues[l], t), Share.TurnLength(k));
    }
  }

  lemma RoundShrinks(k: Kernel, k': Kernel)
    requires |k.queues| == |k'.queues| && forall l :: 0 <= l < |k.queues| ==> |k'.queues[l]| <= |k.queues[l]|
    ensures Round(k') <= Round(k)
  {
    WeightMonotone(Wheel.Sizes(k.queues), Wheel.Sizes(k'.queues));
    LongerLaps(MAX_TASKS, Share.TurnLength(k'), Share.TurnLength(k));
  }

  /** Every tick uses up some of the potential and nothing adds to it. */
  lemma StepLowersPotential(k: Kernel, op: Op, t: nat, round: nat)
    requires Inv(k) && Enabled(k, op) && !op.OpNew? && Alloc(k.tcbs, t) && PassesBy(k, op, t)
    requires Inv(Step(k, op)) && Alloc(Step(k, op).tcbs, t)
    requires round >= Round(k)
    ensures Round(Step(k, op)) <= Round(k)
    ensures Potential(Step(k, op), t, round) + (if op.OpTick? then 1 else 0) <= Potential(k, t, round)
  {
    var k' := Step(k, op);
    StepQueues(k, op, t);
    PriorityStays(k, op, t);
    hide Step, Possible;
    if k'.numTasks < k.numTasks {
      RoundShrinks(k, k');
      WaitIsBounded(k', t);
      MoreLaps(k'.numTasks, k.numTasks, round);
    } else {
      WaitShrinks(k, k', t, op.OpTick?);
    }
  }

  // ------------------------------------------------------------------ the theorems

  predicate NoNews(ops: seq<Op>) {
    forall i :: 0 <= i < |ops| ==> !ops[i].OpNew?
  }

  lemma {:induction false} FreedStaysFree(k: Kernel, ops: seq<Op>, t: nat)
    requires Inv(k) && Runnable(k, ops) && NoNews(ops)
    requires t < MAX_TASKS && !Alloc(k.tcbs, t)
    ensures !Alloc(Run(k, ops).tcbs, t)
    decreases |ops|
  {
    if ops != [] {
      StepSlots(k, ops[0]);
      assert SlotStep(k.tcbs[t], Step(k, ops[0]).tcbs[t]);
      FreedStaysFree(Step(k, ops[0]), ops[1..], t);
    }
  }

  lemma {:induction false} TicksUsePotential(k: Kernel, ops: seq<Op>, t: nat, round: nat)
    requires Inv(k) && Runnable(k, ops) && NoNews(ops)
    requires Due(k, t) && round >= Round(k)
    ensures Alloc(Run(k, ops).tcbs, t) ==> Share.TickCount(ops) <= Potential(k, t, round)
    decreases |ops|
  {
    hide Inv, Step, Possible, ThreadHasRoom, Potential, Round;
    InvFacts(k);
    if ops != [] {
      var k' := Step(k, ops[0]);
      StepKeeps(k, ops[0]);
      if Alloc(k'.tcbs, t) {
        DueStays(k, ops[0], t);
        DueIsPassedBy(k, ops[0], t);
        StepLowersPotential(k, ops[0], t, round);
        TicksUsePotential(k', ops[1..], t, round);
      } else {
        FreedStaysFree(k', ops[1..], t);
      }
    }
  }

  /** Ticks after which every task that is due now has been freed: numTasks + 1 rounds, a
      round being 1024 turns of the odometer. */
  function Patience(k: Kernel): nat
    requires k.numTasks >= 0
  {
    Laps(k.numTasks + 1, Round(k))
  }

  /** The bound in plain terms, W being the length of a turn. */
  lemma PatienceIs(k: Kernel)
    requires k.numTasks >= 0
    ensures Patience(k) == (k.numTasks + 1) * (MAX_TASKS * Share.TurnLength(k))
  {
    LapsProduct(MAX_TASKS, Share.TurnLength(k));
    LapsProduct(k.numTasks + 1, Round(k));
  }

  /** A flagged task without threads is freed in every run that ticks on without creations. */
  lemma DueTaskIsFreed(k: Kernel, ops: seq<Op>, t: nat)
    requires Inv(k) && Runnable(k, ops) && NoNews(ops)
    requires Due(k, t) && Share.TickCount(ops) >= Patience(k)
    ensures !Alloc(Run(k, ops).tcbs, t)
  {
    TicksUsePotential(k, ops, t, Round(k));
    WaitIsBounded(k, t);
  }

  // ------------------------------------------------------------------ every task runs

  predicate NobodyDeletes(ops: seq<Op>, t: nat) {
    forall i :: 0 <= i < |ops| ==> ops[i] != OpDelete(t)
  }

  lemma LivesThroughTick(k: Kernel, frame: Frame, t: nat)
    requires Inv(k) && Alloc(k.tcbs, t) && Current(k) != t
    ensures Alloc(Tick(k, frame).tcbs, t)
  {
    hide Inv, Wheel.Pick, Free, Push, Tree.SlotsNumbered, TreeOk;
    InvFacts(k);
    var c := k.tcbs[Current(k)];
    if c.id.flags.delete && c.threads == [] { FreeKeepsSlots(k.tcbs, Current(k)); }
  }

  lemma LivesThroughDelete(k: Kernel, no: nat, t: nat)
    requires Inv(k) && Alloc(k.tcbs, t) && no != t
    ensures Alloc(DeleteTask(k, no).tcbs, t)
  {
    hide Inv, Free, MarkDeleted, Push, LevelOf, Tree.SlotsNumbered, TreeOk;
    InvFacts(k);
    DeleteTargetFacts(k, no);
    if no == Current(k) || (Alloc(k.tcbs, no) && k.tcbs[no].threads != []) {
      MarkKeepsSlots(k.tcbs, no);
    } else if Alloc(k.tcbs, no) {
      FreeKeepsSlots(k.tcbs, no);
    }
  }

  /** A task is freed by its own tick or its own deletion only. */
  lemma OthersLiveOn(k: Kernel, op: Op, t: nat)
    requires Inv(k) && Enabled(k, op) && !op.OpNew? && Alloc(k.tcbs, t)
    requires op != OpDelete(t) && (op.OpTick? ==> Current(k) != t)
    ensures Alloc(Step(k, op).tcbs, t)
  {
    hide Inv, Tick, DeleteTask;
    match op
    case OpTick(frame) => LivesThroughTick(k, frame, t);
    case OpDelete(no) => LivesThroughDelete(k, no, t);
    case OpTrap => TrapFields(k);
    case _ =>
  }

  lemma {:induction false} WaitingUsesPotential(k: Kernel, ops: seq<Op>, t: nat, round: nat)
    requires Inv(k) && Runnable(k, ops) && NoNews(ops) && NobodyDeletes(ops, t)
    requires Alloc(k.tcbs, t) && round >= Round(k) && t !in Share.Slices(k, ops)
    ensures Share.TickCount(ops) <= Potential(k, t, round)
    decreases |ops|
  {
    hide Inv, Step, Possible, ThreadHasRoom, Potential, Round;
    if ops != [] {
      var k', op := Step(k, ops[0]), ops[0];
      StepKeeps(k, op);
      assert op.OpTick? ==> Current(k) == Share.Slices(k, ops)[0];
      OthersLiveOn(k, op, t);
      StepLowersPotential(k, op, t, round);
      assert t !in Share.Slices(k', ops[1..]);
      WaitingUsesPotential(k', ops[1..], t, round);
    }
  }

  /** Freedom from starvation while tasks are flagged and freed: in every run without creations
      every task runs within patience, unless it is itself deleted. */
  lemma EveryTaskRuns(k: Kernel, ops: seq<Op>, t: nat)
    requires Inv(k) && Runnable(k, ops) && NoNews(ops) && NobodyDeletes(ops, t)
    requires Alloc(k.tcbs, t) && Share.TickCount(ops) >= Patience(k)
    ensures t in Share.Slices(k, ops)
  {
    if t !in Share.Slices(k, ops) {
      WaitingUsesPotential(k, ops, t, Round(k));
      WaitIsBounded(k, t);
    }
  }

  function TickOps(frames: seq<Frame>): seq<Op> {
    if frames == [] then [] else [OpTick(frames[0])] + TickOps(frames[1..])
  }

  lemma {:induction false} TicksAreARun(k: Kernel, frames: seq<Frame>)
    requires Inv(k)
    ensures Runnable(k, TickOps(frames)) && NoNews(TickOps(frames)) && Share.TickCount(TickOps(frames)) == |frames|
    decreases |frames|
  {
    hide PoolOk, TreeOk, QueuesOk, CountsOk, ShellOk, LevelsOk, Tick;
    if frames != [] {
      TickKeeps(k, frames[0]);
      TicksAreARun(Tick(k, frames[0]), frames[1..]);
      assert TickOps(frames)[1..] == TickOps(frames[1..]);
    }
  }

  /** With nothing but ticks the kernel can always go on, and in the end frees the task. */
  lemma TickingFrees(k: Kernel, frames: seq<Frame>, t: nat)
    requires Inv(k) && Due(k, t) && |frames| >= Patience(k)
    ensures Runnable(k, TickOps(frames)) && !Alloc(Run(k, TickOps(frames)).tcbs, t)
  {
    TicksAreARun(k, frames);
    DueTaskIsFreed(k, TickOps(frames), t);
  }

  // ------------------------------------------------------------------ processes

  /** A process on its way out: flagged, and so are all its threads. */
  ghost predicate Doomed(k: Kernel, p: nat)
    requires p < |k.tcbs|
  {
    && Alloc(k.tcbs, p) && k.tcbs[p].id.flags.delete
    && (forall i :: i in k.tcbs[p].threads ==> i < |k.tcbs| && k.tcbs[i].id.flags.delete)
  }

  /** deleteTask frees its target or dooms it with all its threads. */
  lemma DeleteDooms(k: Kernel, no: nat)
    requires Inv(k) && 0 < no < MAX_TASKS
    ensures Inv(DeleteTask(k, no))
    ensures Alloc(DeleteTask(k, no).tcbs, no) ==> Doomed(DeleteTask(k, no), no)
  {
    hide PoolOk, QueuesOk, CountsOk, ShellOk, LevelsOk, MarkDeleted, Free;
    InvFacts(k);
    DeleteKeeps(k, no);
    DeleteTargetFacts(k, no);
    if no == Current(k) || (Alloc(k.tcbs, no) && k.tcbs[no].threads != []) {
      Tree.MarkDeletedFields(k.tcbs, no);
    } else if Alloc(k.tcbs, no) {
      Tree.FreeFields(k.tcbs, no);
    }
  }

  lemma DoomedStays(k: Kernel, op: Op, p: nat)
    requires Inv(k) && Enabled(k, op) && !op.OpNew?
    requires p < MAX_TASKS && Doomed(k, p)
    ensures Inv(Step(k, op))
    ensures Alloc(Step(k, op).tcbs, p) ==> Doomed(Step(k, op), p)
    ensures forall i :: i in Step(k, op).tcbs[p].threads ==> i in k.tcbs[p].threads
  {
    hide PoolOk, QueuesOk, CountsOk, ShellOk, LevelsOk, Step, Possible, ThreadHasRoom;
    InvFacts(k);
    StepSlots(k, op);
    var k' := Step(k, op);
    InvFacts(k');
    assert SlotStep(k.tcbs[p], k'.tcbs[p]);
    forall i | i in k'.tcbs[p].threads
      ensures i < MAX_TASKS && k'.tcbs[i].id.flags.delete
    {
      assert IsChild(k'.tcbs, p, i);
      assert SlotStep(k.tcbs[i], k'.tcbs[i]);
    }
  }

  lemma {:induction false} DoomedRun(k: Kernel, ops: seq<Op>, p: nat)
    requires Inv(k) && Runnable(k, ops) && NoNews(ops)
    requires p < MAX_TASKS && Doomed(k, p)
    ensures Alloc(Run(k, ops).tcbs, p) ==> Doomed(Run(k, ops), p)
    ensures forall i :: i in Run(k, ops).tcbs[p].threads ==> i in k.tcbs[p].threads
    decreases |ops|
  {
    hide PoolOk, QueuesOk, CountsOk, ShellOk, LevelsOk, Step, Possible, ThreadHasRoom;
    if ops != [] {
      var k' := Step(k, ops[0]);
      DoomedStays(k, ops[0], p);
      if Alloc(k'.tcbs, p) {
        DoomedRun(k', ops[1..], p);
      } else {
        FreedStaysFree(k', ops[1..], p);
        var r := Run(k', ops[1..]);
        InvFacts(r);
        assert forall i :: i in r.tcbs[p].threads ==> IsChild(r.tcbs, p, i);
      }
    }
  }

  /** After the first phase the process has no threads left. */
  lemma ThreadsAreFreed(k: Kernel, ops: seq<Op>, p: nat)
    requires Inv(k) && Runnable(k, ops) && NoNews(ops)
    requires p < MAX_TASKS && Doomed(k, p) && Share.TickCount(ops) >= Patience(k)
    ensures Run(k, ops).tcbs[p].threads == []
  {
    var r := Run(k, ops);
    DoomedRun(k, ops, p);
    if r.tcbs[p].threads != [] {
      var i := r.tcbs[p].threads[0];
      assert i in r.tcbs[p].threads;
      assert IsChild(r.tcbs, p, i);
      assert IsChild(k.tcbs, p, i);
      assert k.tcbs[i].threads == [] by {
        if k.tcbs[i].threads != [] { Tree.OnlyProcessesHaveThreads(k.tcbs, i); }
      }
      DueTaskIsFreed(k, ops, i);
      assert false;
    }
  }

  /** Eventual reaping of a whole process: two phases of ticks free its threads and then
      the process itself, whatever else but creation happens in between. */
  lemma DoomedProcessIsFreed(k: Kernel, first: seq<Op>, second: seq<Op>, p: nat)
    requires Inv(k) && Runnable(k, first) && NoNews(first)
    requires Runnable(Run(k, first), second) && NoNews(second)
    requires p < MAX_TASKS && Doomed(k, p)
    requires Share.TickCount(first) >= Patience(k) && Share.TickCount(second) >= Patience(Run(k, first))
    ensures !Alloc(Run(Run(k, first), second).tcbs, p)
  {
    var k1 := Run(k, first);
    DoomedRun(k, first, p);
    ThreadsAreFreed(k, first, p);
    if Alloc(k1.tcbs, p) {
      DueTaskIsFreed(k1, second, p);
    } else {
      FreedStaysFree(k1, second, p);
    }
  }
}
