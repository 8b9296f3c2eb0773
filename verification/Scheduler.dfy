/** The Scheduler object as the source has it: task pool, list objects, counters and the
    machine's FPU and interrupt frame, changed in place. Every method is proved against the
    step of the state machine (module Machine) that it performs. */
module Scheduler {
  import opened Seqs
  import opened KernelState
  import opened RunQueues
  import opened TaskPool
  import Machine
  import Tree
  import Odometer
  import Wheel

  class Scheduler {
    const taskPool: TaskPool
    const queues: RunQueues
    const executed: array<nat>
    const stackPool: nat
    var curLev: nat
    var totalTasks: int
    var exFxUser: Id
    /** The static index inside getTaskInfo. */
    var cursor: nat

    /** The TS bit, the FPU registers and the frame below the IST address. */
    var ts: bool
    var hw: Fpu
    var ist: Frame

    ghost predicate Apart()
      reads this, taskPool, queues
    {
      && taskPool.pool.Length == MAX_TASKS && executed.Length == LEVELS
      && queues.repr !! {this, taskPool, taskPool.pool, executed, queues}
      && taskPool.pool as object != executed as object
    }

    ghost predicate Sound()
      reads this, taskPool, queues, queues.repr
    {
      Apart() && queues.Valid() && |queues.content| == LEVELS
    }

    /** The object as a state of the machine. */
    ghost function Abs(): Kernel
      reads this, taskPool, taskPool.pool, executed, queues, queues.repr
      requires Sound()
    {
      Kernel(taskPool.pool[..], taskPool.numTasks, taskPool.nextKey, stackPool, queues.content, executed[..],
             curLev, totalTasks, exFxUser, ts, hw, ist, cursor)
    }

    ghost predicate Valid()
      reads this, taskPool, taskPool.pool, executed, queues, queues.repr
    {
      Sound() && Inv(Abs())
    }

    /** init. */
    constructor (stackPool: nat, hw: Fpu)
      ensures Valid() && Abs() == Machine.Boot(stackPool, hw)
    {
      hide RunQueues.Valid, PoolOk, TreeOk, QueuesOk, CountsOk, ShellOk, LevelsOk;
      var tp := new TaskPool();
      var qs := new RunQueues();
      taskPool, queues := tp, qs;
      executed := new nat[LEVELS](_ => 0);
      this.stackPool, this.hw := stackPool, hw;
      totalTasks, curLev, cursor := 1, 0, 0;
      exFxUser, ts, ist := Id(0, Machine.NO_FLAGS, 0, 0), true, seq(FRAME_WORDS, _ => 0);
      new;
      var shell := taskPool.AllocateTcb(curLev + 1);
      taskPool.pool[shell] := taskPool.pool[shell].(id := taskPool.pool[shell].id.(flags := Machine.SHELL_FLAGS));
      queues.Push(shell, curLev);
      Machine.BootOk(stackPool, hw);
      assert Abs() == Machine.Boot(stackPool, hw);
    }

    /** currentTask, as far as the queues are concerned. */
    method CurrentSlot() returns (t: nat)
      requires Sound() && curLev < LEVELS && queues.content[curLev] != []
      ensures t == queues.content[curLev][0]
    {
      t := queues.FrontOf(curLev);
    }

    /** currentTask. */
    method CurrentTask() returns (t: nat)
      requires Valid()
      ensures t == Machine.Current(Abs())
    {
      t := CurrentSlot();
    }

    /** nextLev. */
    method NextLev() returns (lev: nat)
      requires Sound() && curLev < LEVELS
      modifies executed
      ensures Sound()
      ensures var w := Wheel.Pick(Wheel.Wheel(queues.content, old(executed[..]), curLev));
        executed[..] == w.executed && lev == w.curLev
    {
      hide RunQueues.Valid;
      ghost var c, s := Odometer.Bump(executed[..], curLev), Wheel.Sizes(queues.content);
      executed[curLev] := executed[curLev] + 1;
      var i := 0;
      while i < LEVELS
        invariant 0 <= i <= LEVELS && Sound()
        invariant executed[..] == Odometer.Cleared(c, i)
        invariant forall j :: 0 <= j < i ==> s[j] <= c[j]
      {
        var size := queues.Size(i);
        if executed[i] < size {
          assert Odometer.FirstBelow(c, s) == i;
          return i;
        }
        executed[i] := 0;
        i := i + 1;
      }
      assert Odometer.FirstBelow(c, s) == LEVELS;
      lev := 0;
    }

    /** The first half of switchTaskIntrpt: the running task leaves its queue and is freed,
        or goes to the back of it. */
    method RequeueCurrent() returns (cur: nat)
      requires Valid()
      modifies this`totalTasks, taskPool, taskPool.pool, queues, queues.repr
      ensures Sound() && Abs() == Machine.Requeue(old(Abs())) && cur == Machine.Current(old(Abs()))
    {
      hide RunQueues.Valid, Inv, Free, TreeOk, Tree.SlotsNumbered, Push;
      Machine.InvFacts(Abs());
      cur := CurrentTask();
      queues.Pop(curLev);
      if taskPool.pool[cur].id.flags.delete && taskPool.pool[cur].threads == [] {
        taskPool.FreeTcb(cur);
        totalTasks := totalTasks - 1;
      } else {
        queues.Push(cur, curLev);
      }
    }

    /** The running task goes back to its queue, and the next level is picked. */
    method Reschedule() returns (cur: nat)
      requires Valid()
      modifies this`totalTasks, this`curLev, executed, taskPool, taskPool.pool, queues, queues.repr
      ensures Valid() && Abs() == Machine.Switch(old(Abs())) && cur == Machine.Current(old(Abs()))
    {
      hide RunQueues.Valid, Inv, Wheel.Pick, Machine.Requeue, Machine.Current;
      ghost var k := Abs();
      Machine.InvFacts(k);
      Machine.SwitchKeeps(k);
      cur := RequeueCurrent();
      curLev := NextLev();
      assert Abs() == Machine.Switch(k);
    }

    /** The frame of the interrupted task is saved and the next task's frame put in its place. */
    method SwapFrames(cur: nat, next: nat)
      requires Apart() && cur < MAX_TASKS && next < MAX_TASKS
      modifies this`ts, this`ist, taskPool.pool
      ensures taskPool.pool[..] == old(taskPool.pool[..])[cur := old(taskPool.pool[cur]).(context := old(ist))]
      ensures ist == taskPool.pool[next].context && ts == (exFxUser != taskPool.pool[next].id)
    {
      ts := exFxUser != taskPool.pool[next].id;
      taskPool.pool[cur] := taskPool.pool[cur].(context := ist);
      ist := taskPool.pool[next].context;
    }

    /** switchTaskIntrpt: on entry ist is the frame the interrupt pushed, on return it is the
        frame the interrupt return loads. */
    method SwitchTaskIntrpt()
      requires Valid()
      modifies this, taskPool, taskPool.pool, executed, queues, queues.repr
      ensures Valid() && Abs() == Machine.Tick(old(Abs()), old(ist))
    {
      hide RunQueues.Valid, Inv, Machine.Switch, Machine.Current;
      ghost var k := Abs();
      Machine.TickKeeps(k, ist);
      if totalTasks <= 1 { return; }
      Machine.InvFacts(k);
      var cur := Reschedule();
      Machine.InvFacts(Abs());
      var next := CurrentTask();
      SwapFrames(cur, next);
    }

    /** The part of newTask that sets up the TCB and hangs a thread under its process; -1 stands
        for the null pointer that allocateTCB answers on a full pool. */
    method MakeTcb(entry: int, flags: Flags, priority: nat) returns (n: int)
      requires Valid() && 1 <= priority <= LEVELS
      modifies taskPool, taskPool.pool
      ensures var r := Machine.NewTask(old(Abs()), entry, flags, priority);
        if r == None then n == -1 && unchanged(taskPool) && unchanged(taskPool.pool)
        else
          && taskPool.pool[..] == r.value.tcbs && taskPool.numTasks == r.value.numTasks
          && taskPool.nextKey == r.value.nextKey && n == FirstFree(old(taskPool.pool[..]), 0)
    {
      hide RunQueues.Valid, Inv, InitialFrame, NextKey, TreeOk, Tree.SlotsNumbered, FirstFree, Search;
      ghost var k := Abs();
      Machine.InvFacts(k);
      Machine.FreeSlotsAreBare(k);
      n := taskPool.AllocateTcb(priority);
      if n < 0 { return; }
      taskPool.SetFlagsAndOwnParent(n, flags);
      taskPool.InitTask(n, stackPool + STACK_SIZE * n, entry);
      assert taskPool.pool[..] == k.tcbs[n := taskPool.pool[n]];
      if flags.thread {
        LinkThread(k, n);
      }
    }

    /** The new thread n is hung under the process of the running task. */
    method LinkThread(ghost k: Kernel, n: nat)
      requires Sound() && Inv(k) && k.queues == queues.content && k.curLev == curLev
      requires n < MAX_TASKS && !k.tcbs[n].Allocated() && taskPool.pool[n].id.no == n
      requires taskPool.pool[..] == k.tcbs[n := taskPool.pool[n]]
      modifies taskPool.pool
      ensures var p := Machine.OwnerOf(k, Machine.Current(k));
        && p != n && p < MAX_TASKS
        && taskPool.pool[..] == k.tcbs
          [n := old(taskPool.pool[n]).(ppid := k.tcbs[p].id)]
          [p := k.tcbs[p].(threads := PushBack(k.tcbs[p].threads, n, MAX_THREADS))]
    {
      hide RunQueues.Valid, Inv, TreeOk, Tree.SlotsNumbered, Search, PushBack;
      Machine.InvFacts(k);
      var cur := CurrentSlot();
      Machine.OwnerAfterAllocation(k, taskPool.pool[..], n);
      var p := taskPool.SearchTcb(taskPool.pool[cur].Ppid());
      taskPool.AddThread(p, n);
    }

    /** newTask. On a full pool the source writes through a null pointer before it tests it;
        that has no meaning here, and the answer is None. */
    method NewTask(entry: int, flags: Flags, priority: nat) returns (ok: Option<bool>)
      requires Valid() && 1 <= priority <= LEVELS
      modifies this`totalTasks, taskPool, taskPool.pool, queues, queues.repr
      ensures var r := Machine.NewTask(old(Abs()), entry, flags, priority);
        if r == None then ok == None && Valid() && Abs() == old(Abs())
        else ok == Some(true) && Sound() && Abs() == r.value
      ensures old(Machine.ThreadHasRoom(Abs(), flags)) ==> Valid()
    {
      hide RunQueues.Valid, Inv, Push, FirstFree, InitialFrame, NextKey;
      ghost var k := Abs();
      if k.numTasks < MAX_TASKS && Machine.ThreadHasRoom(k, flags) { Machine.NewTaskKeeps(k, entry, flags, priority); }
      var n := MakeTcb(entry, flags, priority);
      if n < 0 { return None; }
      totalTasks := totalTasks + 1;
      queues.Push(n, priority - 1);
      assert Abs() == Machine.NewTask(k, entry, flags, priority).value;
      return Some(true);
    }

    /** deleteTask after the target has left its queue: it is flagged and queued again while it
        has threads, and freed if it has none. */
    method FlagOrFree(no: nat)
      requires Sound() && Alloc(taskPool.pool[..], no)
      requires Tree.SlotsNumbered(taskPool.pool[..]) && TreeOk(taskPool.pool[..])
      requires 1 <= taskPool.pool[no].id.priority <= LEVELS
      modifies this`totalTasks, taskPool, taskPool.pool, queues, queues.repr
      ensures Sound()
      ensures var k := old(Abs());
        Abs() ==
          if k.tcbs[no].threads != [] then
            k.(tcbs := MarkDeleted(k.tcbs, no), queues := Push(k.queues, k.tcbs[no].id.priority - 1, no))
          else k.(tcbs := Free(k.tcbs, no), numTasks := k.numTasks - 1, totalTasks := k.totalTasks - 1)
    {
      hide RunQueues.Valid, Push, Free, MarkDeleted, TreeOk, Tree.SlotsNumbered;
      if taskPool.pool[no].threads != [] {
        Machine.FlaggedThreadsAreBare(taskPool.pool[..], no);
        taskPool.FlagTask(no);
        queues.Push(no, taskPool.pool[no].id.priority - 1);
      } else {
        taskPool.FreeTcb(no);
        totalTasks := totalTasks - 1;
      }
    }

    /** deleteTask. For the running task the source waits for its last tick instead of
        returning; the method returns at that point. Only the deletion of the shell breaks
        the invariant. */
    method DeleteTask(no: nat) returns (result: int)
      requires Valid()
      modifies this`totalTasks, taskPool, taskPool.pool, queues, queues.repr
      ensures Sound() && Abs() == Machine.DeleteTask(old(Abs()), no)
      ensures Valid() <==> no != 0
      ensures result == if old(Alloc(Abs().tcbs, no)) then 0 else -1
    {
      hide RunQueues.Valid, Inv, Push, Free, MarkDeleted, TreeOk, Tree.SlotsNumbered, LevelOf, Machine.Current, Remove;
      ghost var k := Abs();
      Machine.InvFacts(k);
      Machine.DeleteKeepsIff(k, no);
      Machine.DeleteTargetFacts(k, no);
      var cur := CurrentTask();
      if cur == no {
        taskPool.FlagTask(cur);
        return 0;
      }
      var found := queues.RemoveTask(no);
      if !found { return -1; }
      FlagOrFree(no);
      return 0;
    }

    /** getTaskInfo, with nothing between its probes: the cursor goes round until it has passed
        an allocated slot; the shell's slot ends the search at the latest. */
    method GetTaskInfo() returns (t: nat)
      requires Valid()
      modifies this`cursor
      ensures Valid() && Abs() == Machine.GetTaskInfo(old(Abs())) && t == cursor - 1
    {
      hide RunQueues.Valid, Inv, Machine.GetTaskInfo;
      ghost var k := Abs();
      while true
        invariant Valid() && Machine.GetTaskInfo(Abs()) == Machine.GetTaskInfo(k)
        decreases Machine.ToShell(Abs())
      {
        ghost var before := Abs();
        Machine.ProbeKeeps(before);
        Machine.ListingStep(before);
        if cursor >= MAX_TASKS { cursor := 0; }
        cursor := cursor + 1;
        assert Abs() == Machine.Probe(before);
        if taskPool.pool[cursor - 1].Allocated() { break; }
      }
      t := cursor - 1;
    }

    /** The FPU registers go to the TCB of their owner, if it is still there. */
    method SaveOwner()
      requires Apart()
      modifies taskPool.pool
      ensures var owner := Search(old(taskPool.pool[..]), exFxUser);
        taskPool.pool[..] ==
          if owner.Some? then old(taskPool.pool[..])[owner.value := old(taskPool.pool[..])[owner.value].(fx := hw)]
          else old(taskPool.pool[..])
    {
      var owner := taskPool.SearchTcb(exFxUser);
      if owner >= 0 {
        taskPool.pool[owner] := taskPool.pool[owner].(fx := hw);
      }
    }

    /** deviceNotAvailableHandler. */
    method DeviceNotAvailable()
      requires Valid()
      modifies this, taskPool.pool
      ensures Valid() && Abs() == Machine.TrapFpu(old(Abs()))
    {
      hide RunQueues.Valid, Inv, Search;
      ghost var k := Abs();
      Machine.InvFacts(k);
      Machine.TrapKeeps(k);
      ts := false;
      SaveOwner();
      var cur := CurrentSlot();
      if taskPool.pool[cur].usingFx {
        hw := taskPool.pool[cur].fx;
      } else {
        hw := FINIT;
        taskPool.pool[cur] := taskPool.pool[cur].(usingFx := true);
      }
      exFxUser := taskPool.pool[cur].id;
      assert Abs() == Machine.TrapFpu(k);
    }
  }
}
