/** Freedom from starvation in every run, creations and deletions of other tasks included. No
    queue is ever longer than the pool, so a count that has just been reset is checked at most
    1025 times before it is reset again and the next level is checked. Read in the fixed base
    1025 the counts therefore go up from tick to tick whatever happens to the queues, and the
    wait of every task is bounded by a number that depends on nothing but the constants. */
module Fairness {
  import opened Seqs
  import opened KernelState
  import opened Machine
  import opened Effects
  import Odometer
  import Queues
  import Reaping
  import Share
  import Tree
  import Wheel

  const BASE: nat := 1025

  function Power(l: nat): (r: nat)
    ensures r >= 1
  {
    if l == 0 then 1 else BASE * Power(l - 1)
  }

  // ------------------------------------------------------------------ the counts in a fixed base

  ghost predicate Small(c: seq<nat>) { forall j :: 0 <= j < |c| ==> c[j] < BASE }

  /** The counts of the levels below l as one number. */
  function Fixed(c: seq<nat>, l: nat): nat
    requires l <= |c|
  {
    if l == 0 then 0 else c[0] + BASE * Fixed(c[1..], l - 1)
  }

  lemma {:induction false} FixedBound(c: seq<nat>, l: nat)
    requires l <= |c| && Small(c)
    ensures Fixed(c, l) < Power(l)
    decreases l
  {
    if l > 0 {
      FixedBound(c[1..], l - 1);
      Odometer.DigitFits(c[0], BASE, Fixed(c[1..], l - 1), Power(l - 1));
    }
  }

  /** The counts as the next nextLev will read them. */
  function After(c: seq<nat>, s: seq<nat>): (r: seq<nat>)
    requires |c| == |s| > 0
    ensures |r| == |c|
  {
    Odometer.Bump(Odometer.NextCounts(c, s), Odometer.NextLevel(c, s))
  }

  /** A level below l is picked: the number goes up. */
  lemma {:induction false} FixedGrows(c: seq<nat>, s: seq<nat>, l: nat)
    requires |c| == |s| && l <= |c| && Small(c) && Odometer.FirstBelow(c, s) < l
    ensures Fixed(After(c, s), l) > Fixed(c, l)
    decreases l
  {
    var f, r := Odometer.FirstBelow(c, s), After(c, s);
    if f == 0 {
      assert r[1..] == c[1..];
    } else {
      FixedGrows(c[1..], s[1..], l - 1);
      assert r[1..] == After(c[1..], s[1..]);
      Odometer.Monotone(BASE, Fixed(c[1..], l - 1) + 1, Fixed(r[1..], l - 1));
      Odometer.Distribute(BASE, Fixed(c[1..], l - 1), 1);
    }
  }

  /** An upper bound on the ticks until level l is picked: one round of the levels below until
      it is checked, and another one if its count may be used up. */
  function UntilPicked(c: seq<nat>, l: nat): int
    requires l < |c|
  {
    (if c[l] > 0 then Power(l) else 0) + Power(l) - 1 - Fixed(c, l)
  }

  lemma UntilPickedBound(c: seq<nat>, l: nat)
    requires l < |c| && Small(c)
    ensures 0 <= UntilPicked(c, l) < 2 * Power(l)
  {
    FixedBound(c, l);
  }

  /** A tick that picks another level brings level l closer. */
  lemma PickComesCloser(c: seq<nat>, s: seq<nat>, l: nat)
    requires |c| == |s| && l < |c| && s[l] > 0 && Small(c) && Odometer.NextLevel(c, s) != l
    ensures UntilPicked(After(c, s), l) < UntilPicked(c, l)
  {
    FixedBound(c, l);
    if Odometer.FirstBelow(c, s) < l {
      FixedGrows(c, s, l);
    } else {
      assert After(c, s)[l] == 0 && c[l] > 0;
    }
  }

  // ------------------------------------------------------------------ the rank of a waiting task

  function Counts(k: Kernel): (c: seq<nat>)
    requires Inv(k)
    ensures |c| == LEVELS
  {
    Odometer.Bump(k.executed, k.curLev)
  }

  lemma CountsAreSmall(k: Kernel)
    requires Inv(k)
    ensures Small(Counts(k))
  {}

  /** The slices of its level that other tasks still get before t. */
  ghost function Ahead(k: Kernel, t: nat): (n: nat)
    requires Inv(k) && Alloc(k.tcbs, t) && Current(k) != t
    ensures n < MAX_TASKS
  {
    var l := k.tcbs[t].id.priority - 1;
    assert t in k.queues[l];
    Queues.QueueHasRoom(k.tcbs, k.queues, l, t);
    Reaping.IndexOf(k.queues[l], t) - if k.curLev == l then 1 else 0
  }

  /** An upper bound on the ticks until t runs. */
  ghost function Rank(k: Kernel, t: nat): int
    requires Inv(k) && Alloc(k.tcbs, t)
  {
    if Current(k) == t then 0
    else
      var l := k.tcbs[t].id.priority - 1;
      1 + Ahead(k, t) * (2 * Power(l)) + UntilPicked(Counts(k), l)
  }

  lemma PowerGrows(l: nat, n: nat)
    requires l <= n
    ensures Power(l) <= Power(n)
  {}

  const WAIT: nat := MAX_TASKS * (2 * (BASE * BASE * BASE * BASE))

  lemma RankBound(k: Kernel, t: nat)
    requires Inv(k) && Alloc(k.tcbs, t)
    ensures 0 <= Rank(k, t) <= WAIT
  {
    hide PoolOk, TreeOk, CountsOk, ShellOk, Ahead, UntilPicked;
    if Current(k) != t {
      var l := k.tcbs[t].id.priority - 1;
      assert 0 <= l < LEVELS by { assert t in k.queues[l]; }
      CountsAreSmall(k);
      UntilPickedBound(Counts(k), l);
      RankFits(Ahead(k, t), UntilPicked(Counts(k), l), l);
    }
  }

  lemma RankFits(ahead: nat, until: nat, l: nat)
    requires ahead < MAX_TASKS && l < LEVELS && until < 2 * Power(l)
    ensures 1 + ahead * (2 * Power(l)) + until <= WAIT
  {
    Odometer.Monotone(2 * Power(l), ahead + 1, MAX_TASKS);
    Odometer.Distribute(2 * Power(l), ahead, 1);
    PowerGrows(l, 4);
    assert Power(4) == BASE * BASE * BASE * BASE by { assert Power(2) == BASE * BASE; }
  }

  // ------------------------------------------------------------------ a tick

  /** What a tick of another task does to the place of t, and to the counts. */
  lemma TickPlaces(k: Kernel, frame: Frame, t: nat)
    requires Inv(k) && Alloc(k.tcbs, t) && Current(k) != t
    ensures var k', l := Tick(k, frame), k.tcbs[t].id.priority - 1;
      && 0 <= l < LEVELS == |k'.queues| && t in k.queues[l] && t in k'.queues[l]
      && Reaping.IndexOf(k'.queues[l], t) == Reaping.IndexOf(k.queues[l], t) - (if k.curLev == l then 1 else 0)
      && (var s := Wheel.Sizes(k'.queues);
          k'.executed == Odometer.NextCounts(Counts(k), s) && k'.curLev == Odometer.NextLevel(Counts(k), s))
  {
    hide TreeOk, CountsOk, PoolOk, Free, Odometer.NextCounts, Odometer.NextLevel;
    if k.totalTasks <= 1 { Share.OnlyTheShell(k, t); }
    var l := k.tcbs[t].id.priority - 1;
    var q := k.queues[l];
    assert t in q;
    if k.curLev == l {
      assert q[0] != t && t in q[1..];
      Reaping.IndexInFront(q[1..], [q[0]], t);
    }
  }

  lemma TickKeepsPriority(k: Kernel, frame: Frame, t: nat)
    requires Inv(k) && Alloc(k.tcbs, t) && Current(k) != t
    ensures Inv(Tick(k, frame)) && Alloc(Tick(k, frame).tcbs, t)
    ensures Tick(k, frame).tcbs[t].id.priority == k.tcbs[t].id.priority
  {
    hide Inv, Tick;
    TickKeeps(k, frame);
    InvFacts(k);
    Reaping.LivesThroughTick(k, frame, t);
    Reaping.PriorityStays(k, OpTick(frame), t);
  }

  /** A slice ahead is worth more than any wait for the level. */
  lemma SliceOrWait(x: nat, here: nat, until: int, until': int, picked: bool)
    requires 0 <= until && until' < x && (picked ==> here > 0) && (!picked ==> until' < until)
    ensures (here - if picked then 1 else 0) * x + until' < here * x + until
  {
    if picked {
      Odometer.Distribute(x, here - 1, 1);
    }
  }

  lemma AheadIs(k: Kernel, t: nat)
    requires Inv(k) && Alloc(k.tcbs, t) && Current(k) != t
    ensures var l := k.tcbs[t].id.priority - 1;
      0 <= l < LEVELS && t in k.queues[l]
      && Ahead(k, t) == Reaping.IndexOf(k.queues[l], t) - if k.curLev == l then 1 else 0
  {
    TaskIsQueued(k, t);
  }

  /** Each tick of another task brings t closer to its turn. */
  lemma TickLowersRank(k: Kernel, frame: Frame, t: nat)
    requires Inv(k) && Alloc(k.tcbs, t) && Current(k) != t
    ensures Inv(Tick(k, frame)) && Alloc(Tick(k, frame).tcbs, t)
    ensures Rank(Tick(k, frame), t) < Rank(k, t)
  {
    hide Inv, Tick, UntilPicked, Ahead, Power, After, Current, Odometer.NextCounts, Odometer.NextLevel;
    TickKeepsPriority(k, frame, t);
    TickPlaces(k, frame, t);
    var k', l := Tick(k, frame), k.tcbs[t].id.priority - 1;
    CountsAreSmall(k);
    CountsAreSmall(k');
    UntilPickedBound(Counts(k), l);
    UntilPickedBound(Counts(k'), l);
    AheadIs(k, t);
    if Current(k') != t {
      AheadIs(k', t);
      var c, s := Counts(k), Wheel.Sizes(k'.queues);
      CountsFollow(k', c, s);
      if k'.curLev != l { PickComesCloser(c, s, l); }
      SliceOrWait(2 * Power(l), Ahead(k, t), UntilPicked(c, l), UntilPicked(Counts(k'), l), k'.curLev == l);
    }
  }

  lemma CountsFollow(k: Kernel, c: seq<nat>, s: seq<nat>)
    requires Inv(k) && |c| == |s| == LEVELS
    requires k.executed == Odometer.NextCounts(c, s) && k.curLev == Odometer.NextLevel(c, s)
    ensures Counts(k) == After(c, s)
  {}

  // ------------------------------------------------------------------ the other steps

  /** Steps between ticks leave the counts and the running task alone, and nobody gets in front
      of t. */
  ghost predicate KeepsRank(k: Kernel, k': Kernel, t: nat)
    requires Inv(k) && Inv(k') && Alloc(k.tcbs, t)
  {
    && Alloc(k'.tcbs, t) && k'.tcbs[t].id.priority == k.tcbs[t].id.priority
    && k'.executed == k.executed && k'.curLev == k.curLev && Current(k') == Current(k)
    && (var l := k.tcbs[t].id.priority - 1;
        0 <= l < LEVELS ==> Reaping.IndexOf(k'.queues[l], t) <= Reaping.IndexOf(k.queues[l], t))
  }

  lemma RankIsKept(k: Kernel, k': Kernel, t: nat)
    requires Inv(k) && Inv(k') && Alloc(k.tcbs, t) && KeepsRank(k, k', t)
    ensures Alloc(k'.tcbs, t) && Rank(k', t) <= Rank(k, t)
  {
    hide PoolOk, TreeOk, CountsOk, ShellOk, UntilPicked;
    if Current(k) != t {
      var l := k.tcbs[t].id.priority - 1;
      assert 0 <= l < LEVELS by { assert t in k.queues[l]; }
      assert Ahead(k', t) <= Ahead(k, t);
      Odometer.Monotone(2 * Power(l), Ahead(k', t), Ahead(k, t));
    }
  }

  lemma NewKeepsRank(k: Kernel, op: Op, t: nat)
    requires Inv(k) && Enabled(k, op) && op.OpNew? && Alloc(k.tcbs, t)
    ensures Inv(Step(k, op)) && KeepsRank(k, Step(k, op), t)
  {
    hide Inv, NewTask, ThreadHasRoom, FirstFree, InitialFrame;
    StepKeeps(k, op);
    InvFacts(k);
    NewTaskFields(k, op.entry, op.flags, op.priority);
    NewTaskCounters(k, op.entry, op.flags, op.priority);
    NewTaskKeepsQueues(k, op.entry, op.flags, op.priority);
    CreationKeepsCurrent(k, op.entry, op.flags, op.priority);
    TaskIsQueued(k, t);
    if op.priority == k.tcbs[t].id.priority {
      Reaping.IndexInFront(k.queues[op.priority - 1], [FirstFree(k.tcbs, 0)], t);
    }
  }

  lemma TaskIsQueued(k: Kernel, t: nat)
    requires Inv(k) && Alloc(k.tcbs, t)
    ensures 1 <= k.tcbs[t].id.priority <= LEVELS && t in k.queues[k.tcbs[t].id.priority - 1]
  {
    assert t in k.queues[k.tcbs[t].id.priority - 1];
  }

  /** A queue after another one's deletion. */
  ghost predicate WithoutOrBehind(q: seq<nat>, no: nat, r: seq<nat>) {
    r == q || r == Remove(q, no) || r == Remove(q, no) + [no]
  }

  lemma DeleteQueuesAre(k: Kernel, no: nat, l: nat)
    requires Inv(k) && l < LEVELS
    ensures var k' := DeleteTask(k, no);
      && k'.executed == k.executed && k'.curLev == k.curLev && |k'.queues| == LEVELS
      && WithoutOrBehind(k.queues[l], no, k'.queues[l])
      && (no == Current(k) ==> k'.queues == k.queues)
  {
    Queues.LevelIsPriority(k.tcbs, k.queues, no);
    InvFacts(k);
    DeleteTargetFacts(k, no);
    hide Inv, Free, MarkDeleted, LevelOf, Remove, Current;
  }

  lemma NobodyGetsInFront(q: seq<nat>, no: nat, r: seq<nat>, t: nat)
    requires t in q && no != t && WithoutOrBehind(q, no, r)
    ensures Reaping.IndexOf(r, t) <= Reaping.IndexOf(q, t)
  {
    Reaping.RemovedIndex(q, no, t);
    Reaping.IndexInFront(Remove(q, no), [no], t);
  }

  lemma DeleteKeepsPlace(k: Kernel, no: nat, t: nat)
    requires Inv(k) && Alloc(k.tcbs, t) && (no == t ==> Current(k) == t)
    ensures var k' := DeleteTask(k, no);
      && k'.executed == k.executed && k'.curLev == k.curLev && |k'.queues| == LEVELS
      && (var l := k.tcbs[t].id.priority - 1;
          0 <= l < LEVELS ==> Reaping.IndexOf(k'.queues[l], t) <= Reaping.IndexOf(k.queues[l], t))
  {
    TaskIsQueued(k, t);
    var l := k.tcbs[t].id.priority - 1;
    DeleteQueuesAre(k, no, l);
    hide Inv, DeleteTask, WithoutOrBehind;
    if no != t { NobodyGetsInFront(k.queues[l], no, DeleteTask(k, no).queues[l], t); }
  }

  lemma DeleteKeepsRank(k: Kernel, no: nat, t: nat)
    requires Inv(k) && no != 0 && Alloc(k.tcbs, t) && (no == t ==> Current(k) == t)
    ensures Inv(DeleteTask(k, no)) && KeepsRank(k, DeleteTask(k, no), t)
  {
    hide Inv, DeleteTask;
    DeleteKeeps(k, no);
    DeleteKeepsPlace(k, no, t);
    DeleteKeepsCurrent(k, no);
    InvFacts(k);
    InvFacts(DeleteTask(k, no));
    Reaping.PriorityStays(k, OpDelete(no), t);
    if no == t { RunnerIsOnlyFlagged(k); } else { Reaping.LivesThroughDelete(k, no, t); }
  }

  lemma RunnerIsOnlyFlagged(k: Kernel)
    requires Inv(k)
    ensures Alloc(DeleteTask(k, Current(k)).tcbs, Current(k))
  {
    Tree.MarkDeletedFields(k.tcbs, Current(k));
  }

  /** No step of another task sets t back. */
  lemma StepLowersRank(k: Kernel, op: Op, t: nat)
    requires Inv(k) && Enabled(k, op) && Alloc(k.tcbs, t)
    requires op.OpTick? ==> Current(k) != t
    requires op == OpDelete(t) ==> Current(k) == t
    ensures Inv(Step(k, op)) && Alloc(Step(k, op).tcbs, t)
    ensures Rank(Step(k, op), t) + (if op.OpTick? then 1 else 0) <= Rank(k, t)
  {
    hide Inv, Tick, NewTask, DeleteTask, ThreadHasRoom, Rank, KeepsRank;
    match op
    case OpTick(frame) => TickLowersRank(k, frame, t);
    case OpNew(_, _, _) =>
      NewKeepsRank(k, op, t);
      RankIsKept(k, Step(k, op), t);
    case OpDelete(no) =>
      DeleteKeepsRank(k, no, t);
      RankIsKept(k, Step(k, op), t);
    case _ =>
      RestKeepsRank(k, op, t);
      RankIsKept(k, Step(k, op), t);
  }

  lemma RestKeepsRank(k: Kernel, op: Op, t: nat)
    requires Inv(k) && Enabled(k, op) && Alloc(k.tcbs, t) && (op.OpProbe? || op.OpTrap? || op.OpExec?)
    ensures Inv(Step(k, op)) && KeepsRank(k, Step(k, op), t)
  {
    hide Inv, Search;
    Share.CalmStep(k, op);
    InvFacts(k);
    if op.OpTrap? { TrapFields(k); }
  }

  // ------------------------------------------------------------------ the theorems

  lemma {:induction false} WaitingUsesRank(k: Kernel, ops: seq<Op>, t: nat)
    requires Inv(k) && Runnable(k, ops) && Reaping.NobodyDeletes(ops, t)
    requires Alloc(k.tcbs, t) && t !in Share.Slices(k, ops)
    ensures Share.TickCount(ops) <= Rank(k, t)
    decreases |ops|
  {
    hide Inv, Step, Possible, ThreadHasRoom, Rank;
    if ops == [] {
      RankBound(k, t);
    } else {
      var k', op := Step(k, ops[0]), ops[0];
      assert op.OpTick? ==> Current(k) == Share.Slices(k, ops)[0];
      StepLowersRank(k, op, t);
      assert t !in Share.Slices(k', ops[1..]);
      WaitingUsesRank(k', ops[1..], t);
    }
  }

  /** In every run with more than 2048 * 1025^4 ticks every task runs, unless it is itself deleted. */
  lemma NoTaskStarves(k: Kernel, ops: seq<Op>, t: nat)
    requires Inv(k) && Runnable(k, ops) && Reaping.NobodyDeletes(ops, t)
    requires Alloc(k.tcbs, t) && Share.TickCount(ops) > 2048 * (1025 * 1025 * 1025 * 1025)
    ensures t in Share.Slices(k, ops)
  {
    if t !in Share.Slices(k, ops) {
      WaitingUsesRank(k, ops, t);
      RankBound(k, t);
    }
  }

  /** At some point of the run slot t is free. */
  ghost predicate BecomesFree(k: Kernel, ops: seq<Op>, t: nat)
    requires Inv(k) && Runnable(k, ops)
    decreases |ops|
  {
    !Alloc(k.tcbs, t) ||
    (ops != [] && (StepKeeps(k, ops[0]); BecomesFree(Step(k, ops[0]), ops[1..], t)))
  }

  predicate FlaggedThread(k: Kernel, t: nat) {
    Alloc(k.tcbs, t) && k.tcbs[t].id.flags.thread && k.tcbs[t].id.flags.delete
  }

  /** Threads have no threads, so a flagged thread is due for its next tick. */
  lemma FlaggedThreadIsDue(k: Kernel, t: nat)
    requires Inv(k) && FlaggedThread(k, t)
    ensures Reaping.Due(k, t)
  {
    InvFacts(k);
    if k.tcbs[t].threads != [] { Tree.OnlyProcessesHaveThreads(k.tcbs, t); }
  }

  lemma FlaggedThreadStays(k: Kernel, op: Op, t: nat)
    requires Inv(k) && Enabled(k, op) && FlaggedThread(k, t) && Alloc(Step(k, op).tcbs, t)
    ensures FlaggedThread(Step(k, op), t)
  {
    hide Inv, Tick, NewTask, DeleteTask, ThreadHasRoom;
    InvFacts(k);
    if op.OpNew? {
      NewTaskFields(k, op.entry, op.flags, op.priority);
    } else {
      StepSlots(k, op);
      assert SlotStep(k.tcbs[t], Step(k, op).tcbs[t]);
    }
  }

  /** A due task that lives through a step was neither running to the end of its slice nor
      deleted while it was not running. */
  lemma DueLivesOnlyIf(k: Kernel, op: Op, t: nat)
    requires Inv(k) && Enabled(k, op) && Reaping.Due(k, t) && Alloc(Step(k, op).tcbs, t)
    ensures op.OpTick? ==> Current(k) != t
    ensures op == OpDelete(t) ==> Current(k) == t
  {
    hide Inv, Tick, NewTask, ThreadHasRoom, Free;
    InvFacts(k);
    Reaping.DueIsPassedBy(k, op, t);
    if op == OpDelete(t) && Current(k) != t {
      DeleteTargetFacts(k, t);
      Tree.FreeFields(k.tcbs, t);
    }
  }

  lemma {:induction false} FlaggedThreadUsesRank(k: Kernel, ops: seq<Op>, t: nat)
    requires Inv(k) && Runnable(k, ops) && FlaggedThread(k, t) && !BecomesFree(k, ops, t)
    ensures Share.TickCount(ops) <= Rank(k, t)
    decreases |ops|
  {
    hide Inv, Step, Possible, ThreadHasRoom, Rank, Reaping.Due;
    if ops == [] {
      RankBound(k, t);
    } else {
      var k', op := Step(k, ops[0]), ops[0];
      StepKeeps(k, op);
      assert Alloc(k'.tcbs, t);
      FlaggedThreadIsDue(k, t);
      DueLivesOnlyIf(k, op, t);
      StepLowersRank(k, op, t);
      FlaggedThreadStays(k, op, t);
      FlaggedThreadUsesRank(k', ops[1..], t);
    }
  }

  /** In every run with more than 2048 * 1025^4 ticks every flagged thread is freed. */
  lemma FlaggedThreadIsFreed(k: Kernel, ops: seq<Op>, t: nat)
    requires Inv(k) && Runnable(k, ops) && FlaggedThread(k, t)
    requires Share.TickCount(ops) > 2048 * (1025 * 1025 * 1025 * 1025)
    ensures BecomesFree(k, ops, t)
  {
    if !BecomesFree(k, ops, t) {
      FlaggedThreadUsesRank(k, ops, t);
      RankBound(k, t);
    }
  }
}
