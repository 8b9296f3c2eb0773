/** Exact proportional share and freedom from starvation. While no task is due to be freed,
    created or deleted the queue sizes s stay fixed, and with W the product of all s[i] + 1,
    every window of W - 1 ticks runs each task of level i exactly as often as the product of
    s[j] + 1 over the lower-priority levels j > i, from any state the counters can be in.
    FPU use, traps and listings between the ticks make no difference. */
module Share {
  import opened Seqs
  import opened KernelState
  import opened Queues
  import opened Machine
  import Effects
  import Odometer
  import Wheel

  /** No task is due to be freed by the tick. */
  ghost predicate Settled(k: Kernel) {
    Inv(k) && forall t :: Alloc(k.tcbs, t) ==> !(k.tcbs[t].id.flags.delete && k.tcbs[t].threads == [])
  }

  function TurnLength(k: Kernel): nat { Wheel.TurnLength(WheelOf(k)) }

  /** A tick that frees nobody is a turn of the wheel. */
  lemma TickSpins(k: Kernel, frame: Frame)
    requires Inv(k) && k.totalTasks > 1
    requires !(k.tcbs[Current(k)].id.flags.delete && k.tcbs[Current(k)].threads == [])
    ensures WheelOf(Tick(k, frame)) == Wheel.Spin(WheelOf(k))
    ensures Tick(k, frame).totalTasks == k.totalTasks && Tick(k, frame).numTasks == k.numTasks
  {
    hide TreeOk, CountsOk, PoolOk, ShellOk, QueuesOk, Wheel.Pick, Push;
    InvFacts(k);
    FrontIsRemoved(k.queues[k.curLev]);
    RequeueKeeps(k.tcbs, k.queues, Current(k));
    Wheel.PickKeepsQueues(WheelOf(Requeue(k)));
  }

  lemma SettledTick(k: Kernel, frame: Frame)
    requires Settled(k) && k.totalTasks > 1
    ensures Settled(Tick(k, frame)) && Tick(k, frame).totalTasks > 1
    ensures WheelOf(Tick(k, frame)) == Wheel.Spin(WheelOf(k))
  {
    hide Inv, Wheel.Pick, Push, Wheel.Spin;
    TickKeeps(k, frame);
    TickSpins(k, frame);
    InvFacts(k);
    InvFacts(Tick(k, frame));
    assert forall t :: Alloc(Tick(k, frame).tcbs, t) <==> Alloc(k.tcbs, t);
  }

  /** A task stands in one place of one queue. */
  lemma OnePlace(tcbs: seq<Tcb>, queues: seq<seq<nat>>, t: nat) returns (p: nat)
    requires QueuesOk(tcbs, queues) && Alloc(tcbs, t)
    ensures 1 <= tcbs[t].id.priority <= LEVELS
    ensures Wheel.StandsAt(queues, t, tcbs[t].id.priority - 1, p)
  {
    var l := tcbs[t].id.priority - 1;
    assert t in queues[l];
    p :| 0 <= p < |queues[l]| && queues[l][p] == t;
    forall m, r | 0 <= m < LEVELS && 0 <= r < |queues[m]| && queues[m][r] == t
      ensures m == l && r == p
    {
      assert t in queues[m];
      assert m == l && NoDup(queues[l]);
      SameIndex(queues[l], p, r);
    }
  }

  // ------------------------------------------------------------------ slices

  function TickCount(ops: seq<Op>): nat {
    if ops == [] then 0 else (if ops[0].OpTick? then 1 else 0) + TickCount(ops[1..])
  }

  /** Ticks, and operations that leave the queues alone. */
  predicate Calm(ops: seq<Op>) { forall i :: 0 <= i < |ops| ==> !ops[i].OpNew? && !ops[i].OpDelete? }

  /** The tasks whose time slices the ticks of the run end, in order. */
  ghost function Slices(k: Kernel, ops: seq<Op>): seq<nat>
    requires Inv(k) && Runnable(k, ops)
    decreases |ops|
  {
    if ops == [] then []
    else
      StepKeeps(k, ops[0]);
      (if ops[0].OpTick? then [Current(k)] else []) + Slices(Step(k, ops[0]), ops[1..])
  }

  /** What happens between two ticks. */
  lemma CalmStep(k: Kernel, op: Op)
    requires Inv(k) && Enabled(k, op) && (op.OpProbe? || op.OpTrap? || op.OpExec?)
    ensures var k' := Step(k, op);
      && Inv(k') && WheelOf(k') == WheelOf(k) && Current(k') == Current(k) && k'.totalTasks == k.totalTasks
      && (Settled(k) ==> Settled(k'))
  {
    hide Inv, Search;
    StepKeeps(k, op);
    InvFacts(k);
    InvFacts(Step(k, op));
    if op.OpTrap? {
      Effects.TrapFields(k);
      assert forall t :: Alloc(Step(k, op).tcbs, t) ==> Alloc(k.tcbs, t);
    }
  }

  lemma {:induction false} SlicesFollowWheel(k: Kernel, ops: seq<Op>)
    requires Settled(k) && k.totalTasks > 1 && Runnable(k, ops) && Calm(ops)
    ensures Slices(k, ops) == Wheel.Slices(WheelOf(k), TickCount(ops))
    decreases |ops|
  {
    hide PoolOk, TreeOk, QueuesOk, CountsOk, ShellOk, Step, Wheel.Spin, Possible;
    if ops != [] {
      var k' := Step(k, ops[0]);
      if ops[0].OpTick? {
        SettledTick(k, ops[0].frame);
        assert k' == Tick(k, ops[0].frame) by { StepIsTick(k, ops[0].frame); }
        SlicesFollowWheel(k', ops[1..]);
        Wheel.SlicesStep(WheelOf(k), TickCount(ops));
      } else {
        CalmStep(k, ops[0]);
        SlicesFollowWheel(k', ops[1..]);
      }
    }
  }

  lemma StepIsTick(k: Kernel, frame: Frame)
    requires Inv(k)
    ensures Step(k, OpTick(frame)) == Tick(k, frame)
  {}

  // ------------------------------------------------------------------ the shell alone

  lemma TotalOfFive(q: seq<seq<nat>>)
    requires |q| == 5
    ensures Total(q) == |q[0]| + |q[1]| + |q[2]| + |q[3]| + |q[4]|
  {
    assert q == [q[0], q[1], q[2], q[3], q[4]];
    assert Total([q[4]]) == |q[4]|;
    assert Total([q[3], q[4]]) == |q[3]| + |q[4]|;
    assert Total([q[2], q[3], q[4]]) == |q[2]| + |q[3]| + |q[4]|;
    assert Total([q[1], q[2], q[3], q[4]]) == |q[1]| + |q[2]| + |q[3]| + |q[4]|;
  }

  lemma OnlyTheShell(k: Kernel, t: nat)
    requires Inv(k) && k.totalTasks <= 1 && Alloc(k.tcbs, t)
    ensures k.queues == [[t], [], [], [], []] && k.curLev == 0 && t == 0
  {
    var q := k.queues;
    TotalOfFive(q);
    assert 0 in q[0];
    assert |q[0]| == 1 && q[1] == q[2] == q[3] == q[4] == [];
    assert t in q[k.tcbs[t].id.priority - 1];
    assert q[0] == [t];
  }

  lemma LoneShellTurn(k: Kernel)
    requires k.queues == [[0], [], [], [], []]
    ensures TurnLength(k) == 2 && Odometer.Share(0, Wheel.Sizes(k.queues)) == 1
  {
    var s := Wheel.Sizes(k.queues);
    assert s == [1, 0, 0, 0, 0];
    assert s[1..] == [0, 0, 0, 0];
    assert Odometer.Weight([0]) == 1;
    assert Odometer.Weight([0, 0]) == 1;
    assert Odometer.Weight([0, 0, 0]) == 1;
    assert Odometer.Weight([0, 0, 0, 0]) == 1;
  }

  lemma LoneShellTick(k: Kernel, frame: Frame)
    requires Inv(k) && k.totalTasks <= 1
    ensures var k' := Tick(k, frame);
      Inv(k') && k'.totalTasks <= 1 && Current(k') == Current(k)
  {
    TickKeeps(k, frame);
  }

  lemma {:induction false} LoneShellSlices(k: Kernel, ops: seq<Op>)
    requires Inv(k) && k.totalTasks <= 1 && Runnable(k, ops) && Calm(ops)
    ensures |Slices(k, ops)| == TickCount(ops)
    ensures forall x :: x in Slices(k, ops) ==> x == Current(k)
    decreases |ops|
  {
    hide Inv, Step, Possible;
    if ops != [] {
      if ops[0].OpTick? {
        LoneShellTick(k, ops[0].frame);
        StepIsTick(k, ops[0].frame);
      } else {
        CalmStep(k, ops[0]);
      }
      LoneShellSlices(Step(k, ops[0]), ops[1..]);
    }
  }

  lemma LoneShellShare(k: Kernel, t: nat, ops: seq<Op>)
    requires Inv(k) && k.totalTasks <= 1 && Alloc(k.tcbs, t)
    requires Runnable(k, ops) && Calm(ops) && TickCount(ops) == TurnLength(k) - 1
    ensures Slices(k, ops) == [t]
    ensures k.tcbs[t].id.priority == 1 && Odometer.Share(0, Wheel.Sizes(k.queues)) == 1
  {
    OnlyTheShell(k, t);
    LoneShellTurn(k);
    LoneShellSlices(k, ops);
    var r := Slices(k, ops);
    assert |r| == 1 && r[0] in r && Current(k) == t;
  }

  // ------------------------------------------------------------------ the theorems

  lemma WeightFrom(s: seq<nat>, i: nat)
    requires i < |s|
    ensures Odometer.Weight(s[i..]) == (s[i] + 1) * Odometer.Weight(s[i + 1..])
    ensures i + 1 == |s| ==> Odometer.Weight(s[i + 1..]) == 1
  {
    assert s[i..][1..] == s[i + 1..];
  }

  /** The length of a turn and the shares of the five levels in plain terms. */
  lemma TurnInNumbers(k: Kernel)
    requires |k.queues| == 5
    ensures var a, b, c, d, e := |k.queues[0]| + 1, |k.queues[1]| + 1, |k.queues[2]| + 1, |k.queues[3]| + 1,
        |k.queues[4]| + 1;
      var s := Wheel.Sizes(k.queues);
      && TurnLength(k) == a * (b * (c * (d * e)))
      && Odometer.Share(0, s) == b * (c * (d * e)) && Odometer.Share(1, s) == c * (d * e)
      && Odometer.Share(2, s) == d * e && Odometer.Share(3, s) == e && Odometer.Share(4, s) == 1
  {
    var s := Wheel.Sizes(k.queues);
    assert s[0..] == s;
    WeightFrom(s, 0);
    WeightFrom(s, 1);
    WeightFrom(s, 2);
    WeightFrom(s, 3);
    WeightFrom(s, 4);
    hide Odometer.Weight;
  }

  /** Exact proportional share, for every task and every run of W - 1 ticks without creations
      and deletions. */
  lemma ProportionalShare(k: Kernel, t: nat, ops: seq<Op>)
    requires Settled(k) && Alloc(k.tcbs, t)
    requires Runnable(k, ops) && Calm(ops) && TickCount(ops) == TurnLength(k) - 1
    ensures multiset(Slices(k, ops))[t] == Odometer.Share(k.tcbs[t].id.priority - 1, Wheel.Sizes(k.queues))
  {
    hide PoolOk, TreeOk, CountsOk, ShellOk, QueuesOk, Wheel.StandsAt, Odometer.Share, Slices, Wheel.Slices, Calm;
    if k.totalTasks <= 1 {
      LoneShellShare(k, t, ops);
    } else {
      var p := OnePlace(k.tcbs, k.queues, t);
      SlicesFollowWheel(k, ops);
      Wheel.TaskShare(WheelOf(k), t, k.tcbs[t].id.priority - 1, p);
    }
  }

  /** No task is left out of such a run. */
  lemma NoStarvation(k: Kernel, t: nat, ops: seq<Op>)
    requires Settled(k) && Alloc(k.tcbs, t)
    requires Runnable(k, ops) && Calm(ops) && TickCount(ops) == TurnLength(k) - 1
    ensures t in Slices(k, ops)
  {
    ProportionalShare(k, t, ops);
    assert t in multiset(Slices(k, ops));
  }
}
