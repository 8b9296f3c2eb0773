/** The kill command of the shell over the scheduler object, while the shell runs with nothing
    in between: "kill -a", which module KillAll has among ticks and other operations, and
    "kill" with a number. */
module Shell {
  import opened Seqs
  import opened KernelState
  import Machine
  import KillAll
  import Outcomes
  import Scheduler
  import Numerals

  // ------------------------------------------------------------------ kill -a

  function Idle(n: nat): seq<seq<Machine.Op>> { seq(n, _ => []) }

  /** How many slots getTaskInfo looks at. */
  function Probes(k: Kernel): (n: nat)
    requires Inv(k)
    ensures n > 0
    decreases Machine.ToShell(k)
  {
    Machine.ListingStep(k);
    if Alloc(k.tcbs, Machine.Probed(k)) then 1 else 1 + Probes(Machine.Probe(k))
  }

  lemma IdleWait(k: Kernel)
    requires Inv(k)
    ensures KillAll.WaitOk(k, []) && Machine.Run(k, []) == k
  {
    hide Inv;
  }

  lemma {:induction false} IdleScan(k: Kernel)
    requires Inv(k)
    ensures KillAll.ScanOk(k, Idle(Probes(k))) && KillAll.Scan(k, Idle(Probes(k))) == Machine.GetTaskInfo(k)
    decreases Machine.ToShell(k)
  {
    hide Inv, KillAll.WaitOk, Machine.Run, Machine.GetTaskInfo;
    IdleWait(k);
    Machine.ListingStep(k);
    if !Alloc(k.tcbs, Machine.Probed(k)) {
      IdleScan(Machine.Probe(k));
      assert Idle(Probes(k))[1..] == Idle(Probes(Machine.Probe(k)));
    }
  }

  function UndisturbedRound(k: Kernel): KillAll.Round
    requires Inv(k)
  {
    KillAll.Round(Idle(Probes(k)), [])
  }

  /** An undisturbed round is a listing and the deletion of the task listed, unless it is a
      system task; the shell is one, so the running task is not touched. */
  lemma UndisturbedRoundIs(k: Kernel)
    requires Inv(k) && Machine.Current(k) == 0
    ensures KillAll.RoundOk(k, UndisturbedRound(k))
    ensures var k1, k' := Machine.GetTaskInfo(k), KillAll.KillOne(k, UndisturbedRound(k));
      var no := k1.cursor - 1;
      && Inv(k1) && Inv(k') && Machine.Current(k') == 0
      && (no == 0 ==> k1.tcbs[no].id.flags.system)
      && k' == if k1.tcbs[no].id.flags.system then k1 else Machine.DeleteTask(k1, no)
  {
    hide Inv, KillAll.ScanOk, KillAll.Scan, KillAll.WaitOk, Machine.GetTaskInfo, Machine.Run, Machine.DeleteTask;
    IdleScan(k);
    var k1 := Machine.GetTaskInfo(k);
    IdleWait(k1);
    KillAll.ShellIsSystem(k1);
    Machine.InvFacts(k);
    Machine.InvFacts(k1);
    Machine.DeleteKeepsCurrent(k1, k1.cursor - 1);
    Machine.InvFacts(KillAll.KillOne(k, UndisturbedRound(k)));
  }

  lemma ShellKeepsRunning(k: Kernel)
    requires Inv(k) && Machine.Current(k) == 0
    ensures KillAll.RoundOk(k, UndisturbedRound(k))
    ensures Machine.Current(KillAll.KillOne(k, UndisturbedRound(k))) == 0
  {
    UndisturbedRoundIs(k);
  }

  /** The rounds of n undisturbed iterations. */
  ghost function Rounds(k: Kernel, n: nat): (r: seq<KillAll.Round>)
    requires Inv(k) && Machine.Current(k) == 0
    ensures |r| == n
    decreases n
  {
    if n == 0 then []
    else
      ShellKeepsRunning(k);
      var r := UndisturbedRound(k);
      [r] + Rounds(KillAll.KillOne(k, r), n - 1)
  }

  lemma {:induction false} RoundsAreOk(k: Kernel, n: nat)
    requires Inv(k) && Machine.Current(k) == 0
    ensures KillAll.RoundsOk(k, Rounds(k, n))
    decreases n
  {
    hide Inv, KillAll.RoundOk, KillAll.KillOne;
    if n > 0 {
      UndisturbedRoundIs(k);
      var k1 := KillAll.KillOne(k, UndisturbedRound(k));
      RoundsAreOk(k1, n - 1);
      assert Rounds(k, n)[1..] == Rounds(k1, n - 1);
    }
  }

  lemma KillStep(k: Kernel, n: nat)
    requires Inv(k) && Machine.Current(k) == 0 && n > 0
    ensures KillAll.RoundOk(k, UndisturbedRound(k))
    ensures var k1 := KillAll.KillOne(k, UndisturbedRound(k));
      && Machine.Current(k1) == 0
      && KillAll.RoundsOk(k, Rounds(k, n)) && KillAll.RoundsOk(k1, Rounds(k1, n - 1))
      && KillAll.Kill(k, Rounds(k, n)) == KillAll.Kill(k1, Rounds(k1, n - 1))
  {
    hide Inv, KillAll.RoundOk, KillAll.KillOne, KillAll.RoundsOk;
    UndisturbedRoundIs(k);
    var k1 := KillAll.KillOne(k, UndisturbedRound(k));
    RoundsAreOk(k, n);
    RoundsAreOk(k1, n - 1);
    assert Rounds(k, n)[1..] == Rounds(k1, n - 1);
  }

  lemma KillNone(k: Kernel)
    requires Inv(k) && Machine.Current(k) == 0
    ensures KillAll.RoundsOk(k, Rounds(k, 0)) && KillAll.Kill(k, Rounds(k, 0)) == k
  {
    hide Inv;
  }

  /** A system task that is not a thread of another process than a system process. */
  ghost predicate SystemTask(k: Kernel, t: nat) {
    Alloc(k.tcbs, t) && k.tcbs[t].id.flags.system && k.tcbs[t].Ppid().flags.system
  }

  /** Every system task is still there under its old id. */
  ghost predicate SystemKept(k: Kernel, k': Kernel) {
    forall t: nat :: SystemTask(k, t) ==> SystemTask(k', t) && k'.tcbs[t].id == k.tcbs[t].id
  }

  /** Deleting a task that is not a system task does not touch system tasks. */
  lemma DeleteKeepsSystem(k: Kernel, no: nat)
    requires Inv(k) && no < MAX_TASKS && !k.tcbs[no].id.flags.system
    ensures SystemKept(k, Machine.DeleteTask(k, no))
  {
    Machine.InvFacts(k);
    hide Inv, Machine.DeleteTask;
    forall t: nat | SystemTask(k, t)
      ensures SystemTask(Machine.DeleteTask(k, no), t) && Machine.DeleteTask(k, no).tcbs[t].id == k.tcbs[t].id
    {
      if Alloc(k.tcbs, no) && t in k.tcbs[no].threads { Outcomes.ThreadNamesProcess(k, no, t); }
      Outcomes.DeleteSpares(k, no, t);
    }
  }

  lemma SameSystem(k: Kernel, k': Kernel)
    requires k'.tcbs == k.tcbs
    ensures SystemKept(k, k')
  {}

  /** Nor does an iteration of kill -a. */
  lemma RoundKeepsSystem(k0: Kernel, k: Kernel)
    requires Inv(k) && Machine.Current(k) == 0 && SystemKept(k0, k)
    ensures KillAll.RoundOk(k, UndisturbedRound(k))
    ensures SystemKept(k0, KillAll.KillOne(k, UndisturbedRound(k)))
  {
    hide Inv, Machine.DeleteTask, KillAll.KillOne, KillAll.RoundOk, UndisturbedRound, Machine.GetTaskInfo, SystemTask;
    UndisturbedRoundIs(k);
    var k1 := Machine.GetTaskInfo(k);
    Machine.InvFacts(k1);
    assert SystemKept(k, k1) by { SameSystem(k, k1); }
    if !k1.tcbs[k1.cursor - 1].id.flags.system { DeleteKeepsSystem(k1, k1.cursor - 1); }
  }

  /** The case 'a' of killCmd. */
  method KillAllTasks(sched: Scheduler.Scheduler)
    requires sched.Valid() && Machine.Current(sched.Abs()) == 0 && sched.cursor <= MAX_TASKS
    modifies sched, sched.taskPool, sched.taskPool.pool, sched.queues, sched.queues.repr
    ensures sched.Valid() && Machine.Current(sched.Abs()) == 0
    ensures (RoundsAreOk(old(sched.Abs()), 1025);
      sched.Abs() == KillAll.Kill(old(sched.Abs()), Rounds(old(sched.Abs()), 1025)))
    ensures forall i :: 0 <= i < 1024 ==> KillAll.Done(sched.Abs(), i)
    ensures SystemKept(old(sched.Abs()), sched.Abs())
  {
    hide Inv, KillAll.RoundOk, KillAll.RoundsOk, KillAll.KillOne, KillAll.Kill, KillAll.Done;
    hide Machine.DeleteTask, Machine.GetTaskInfo, Machine.Current, UndisturbedRound, Rounds, Scheduler.Scheduler.Sound;
    hide SystemTask;
    ghost var k, rounds := sched.Abs(), MAX_TASKS + 1;
    RoundsAreOk(k, rounds);
    var i := 0;
    while i <= MAX_TASKS
      invariant 0 <= i <= rounds
      invariant sched.Valid() && Machine.Current(sched.Abs()) == 0
      invariant KillAll.RoundsOk(k, Rounds(k, rounds)) && KillAll.RoundsOk(sched.Abs(), Rounds(sched.Abs(), rounds - i))
      invariant KillAll.Kill(sched.Abs(), Rounds(sched.Abs(), rounds - i)) == KillAll.Kill(k, Rounds(k, rounds))
      invariant SystemKept(k, sched.Abs())
    {
      ghost var before := sched.Abs();
      UndisturbedRoundIs(before);
      KillStep(before, rounds - i);
      RoundKeepsSystem(k, before);
      var no := sched.GetTaskInfo();
      if !sched.taskPool.pool[no].id.flags.system {
        var _ := sched.DeleteTask(no);
      }
      assert sched.Abs() == KillAll.KillOne(before, UndisturbedRound(before));
      i := i + 1;
    }
    KillNone(sched.Abs());
    Machine.InvFacts(sched.Abs());
    forall i | 0 <= i < MAX_TASKS
      ensures KillAll.Done(sched.Abs(), i)
    {
      KillAll.KillAllReachesEveryTask(k, Rounds(k, rounds), i);
    }
  }

  // ------------------------------------------------------------------ kill <number>

  /** The conversion of an int to the u16_t that deleteTask takes. */
  function Target(number: int): (d: nat)
    ensures d < 65536 && (number - d) % 65536 == 0
    ensures 0 <= number < 65536 ==> d == number
  {
    number % 0x1_0000
  }

  function KillNumber(k: Kernel, number: int): Kernel
    requires Inv(k)
  {
    if number == 0 then k else Machine.DeleteTask(k, Target(number))
  }

  lemma LowWord(number: int, c: nat, d: nat)
    requires c < 65536 && d < 65536 && (number - c) % 65536 == 0 && (number - d) % 65536 == 0
    ensures c == d
  {}

  /** The task deleted is the one whose slot is the low 16 bits of the number. */
  lemma KillNumberNames(k: Kernel, number: int, d: nat)
    requires Inv(k) && number != 0 && d < 65536 && (number - d) % 65536 == 0
    ensures KillNumber(k, number) == Machine.DeleteTask(k, d)
  {
    LowWord(number, Target(number), d);
  }

  /** The command refuses the number 0 but not the other numbers that name slot 0. */
  lemma KillHitsShellIff(k: Kernel, number: int)
    requires Inv(k)
    ensures !Inv(KillNumber(k, number)) <==> number != 0 && number % 65536 == 0
  {
    Machine.DeleteKeepsIff(k, Target(number));
  }

  /** So "kill 65536", right after boot, flags the running shell, and it is due to be freed. */
  lemma KillOf65536(stackPool: nat, hw: Fpu)
    ensures (Machine.BootOk(stackPool, hw); var k := KillNumber(Machine.Boot(stackPool, hw), 0x1_0000);
      !Inv(k) && Alloc(k.tcbs, 0) && k.tcbs[0].id.flags.delete && k.tcbs[0].threads == [])
    ensures Numerals.Parse(Numerals.Digits(0x1_0000, 10)) == Some(0x1_0000)
  {
    Machine.BootOk(stackPool, hw);
    KillHitsShellIff(Machine.Boot(stackPool, hw), 0x1_0000);
    Machine.ShellIsHit(Machine.Boot(stackPool, hw));
    Numerals.PrintParse(0x1_0000);
  }

  datatype Reply = Silent | InvalidNumber | NotFound | Overflow

  /** killCmd without an option. A number from 1 to 65535 deletes that task, and the answer is that
      it was not found if and only if its slot is not allocated. When the target is the running
      task, which only the shell can be, the source does not return from deleteTask. */
  method KillCommand(sched: Scheduler.Scheduler, argument: string) returns (reply: Reply)
    requires sched.Valid()
    modifies sched, sched.taskPool, sched.taskPool.pool, sched.queues, sched.queues.repr
    ensures sched.Sound()
    ensures var number, k := Numerals.Parse(argument), old(sched.Abs());
      && (number.None? ==> reply == Overflow && sched.Abs() == k)
      && (number == Some(0) ==> reply == InvalidNumber && sched.Abs() == k)
      && (number.Some? && number.value != 0 ==>
            && sched.Abs() == KillNumber(k, number.value)
            && reply == if Alloc(k.tcbs, Target(number.value)) then Silent else NotFound)
      && (number.Some? && 1 <= number.value <= 65535 ==>
            && sched.Abs() == Machine.DeleteTask(k, number.value)
            && (reply == NotFound <==> !Alloc(k.tcbs, number.value)))
      && (sched.Valid() <==> number.None? || number.value == 0 || number.value % 65536 != 0)
  {
    hide Inv, Machine.DeleteTask;
    var number := Numerals.Atoi(argument);
    if number.None? { return Overflow; }
    if number.value == 0 { return InvalidNumber; }
    Machine.DeleteTargetFacts(sched.Abs(), Target(number.value));
    var result := sched.DeleteTask(Target(number.value));
    reply := if result == -1 then NotFound else Silent;
  }
}
