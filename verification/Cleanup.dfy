/** What is left after "kill -a" and enough ticks. */
module Cleanup {
  import opened KernelState
  import opened Machine
  import opened Effects
  import KillAll
  import Reaping
  import Share

  /** Without task creation a slot does not become or cease to be a system task's. */
  lemma {:induction false} RunKeepsSystem(k: Kernel, ops: seq<Op>, t: nat)
    requires Inv(k) && Runnable(k, ops) && Reaping.NoNews(ops) && t < MAX_TASKS
    ensures Run(k, ops).tcbs[t].id.flags.system == k.tcbs[t].id.flags.system
    decreases |ops|
  {
    hide Inv, Step, Possible, ThreadHasRoom;
    InvFacts(k);
    InvFacts(Run(k, ops));
    if ops != [] {
      StepSlots(k, ops[0]);
      InvFacts(Step(k, ops[0]));
      assert SlotStep(k.tcbs[t], Step(k, ops[0]).tcbs[t]);
      RunKeepsSystem(Step(k, ops[0]), ops[1..], t);
    }
  }

  /** Two runs without creations, each with enough ticks. */
  ghost predicate TwoPhases(k: Kernel, first: seq<Op>, second: seq<Op>)
    requires Inv(k)
  {
    && Runnable(k, first) && Reaping.NoNews(first) && Patient(k, first)
    && Runnable(Run(k, first), second) && Reaping.NoNews(second) && Patient(Run(k, first), second)
  }

  ghost predicate Patient(k: Kernel, ops: seq<Op>)
    requires Inv(k)
  {
    Share.TickCount(ops) >= Reaping.Patience(k)
  }

  /** When "kill -a" is through and ticks go on for two rounds of patience without creations,
      the tasks that are left are system tasks. */
  lemma OnlySystemTasksRemain(k: Kernel, rounds: seq<KillAll.Round>, first: seq<Op>, second: seq<Op>, t: nat)
    requires Inv(k) && KillAll.RoundsOk(k, rounds) && k.cursor <= MAX_TASKS && |rounds| >= MAX_TASKS
    requires TwoPhases(KillAll.Kill(k, rounds), first, second)
    requires t < MAX_TASKS && Alloc(Run(Run(KillAll.Kill(k, rounds), first), second).tcbs, t)
    ensures Run(Run(KillAll.Kill(k, rounds), first), second).tcbs[t].id.flags.system
  {
    hide Inv, KillAll.Kill, KillAll.RoundsOk, Reaping.Doomed, Reaping.Patience;
    var k1 := KillAll.Kill(k, rounds);
    var k2 := Run(k1, first);
    InvFacts(k1);
    InvFacts(k2);
    if !k1.tcbs[t].id.flags.system {
      KillAll.KillAllReachesEveryTask(k, rounds, t);
      if !Alloc(k2.tcbs, t) { Reaping.FreedStaysFree(k2, second, t); }
      if !Alloc(k1.tcbs, t) { Reaping.FreedStaysFree(k1, first, t); }
      Reaping.DoomedProcessIsFreed(k1, first, second, t);
      assert false;
    }
    RunKeepsSystem(k1, first, t);
    RunKeepsSystem(k2, second, t);
  }
}
