/** The steps of the kernel and the invariant that every one of them keeps. */
module Machine {
  import opened Seqs
  import opened KernelState
  import opened Tree
  import opened Queues
  import Wheel

  /** The running task: the front of the current level's queue. */
  function Current(k: Kernel): (t: nat)
    requires Inv(k)
    ensures Alloc(k.tcbs, t) && k.tcbs[t].id.priority == k.curLev + 1 && t < MAX_TASKS
  {
    var t := k.queues[k.curLev][0];
    assert t in k.queues[k.curLev];
    t
  }

  /** The parts of the invariant that the code relies on as it indexes its arrays. */
  lemma InvFacts(k: Kernel)
    requires Inv(k)
    ensures |k.tcbs| == MAX_TASKS && SlotsNumbered(k.tcbs) && TreeOk(k.tcbs) && 1 <= k.nextKey < KEYS
    ensures Alloc(k.tcbs, 0)
    ensures k.curLev < LEVELS == |k.queues| == |k.executed|
    ensures k.queues[k.curLev] != [] && k.queues[k.curLev][0] == Current(k)
  {}

  lemma FreeSlotsAreBare(k: Kernel)
    requires Inv(k)
    ensures forall i :: 0 <= i < MAX_TASKS && !k.tcbs[i].Allocated() ==> k.tcbs[i].threads == []
    ensures k.numTasks < MAX_TASKS ==> FirstFree(k.tcbs, 0) < MAX_TASKS
  {
    forall i | 0 <= i < MAX_TASKS && !k.tcbs[i].Allocated()
      ensures k.tcbs[i].threads == []
    {
      if k.tcbs[i].threads != [] { OnlyProcessesHaveThreads(k.tcbs, i); }
    }
    FreeSlotExists(k.tcbs);
  }

  /** Flagging t leaves its threads where they were, and they have no threads themselves. */
  lemma FlaggedThreadsAreBare(tcbs: seq<Tcb>, t: nat)
    requires SlotsNumbered(tcbs) && TreeOk(tcbs) && t < |tcbs|
    ensures forall x :: x in tcbs[t].threads ==> x < |tcbs|
    ensures var r := FlagDelete(tcbs, t);
      && r[t].threads == tcbs[t].threads && t !in r[t].threads
      && MarkDeleted(tcbs, t)[t].id.priority == tcbs[t].id.priority
      && forall x :: x in r[t].threads ==> x < |tcbs| && r[x].threads == []
  {
    forall x | x in tcbs[t].threads
      ensures x < |tcbs| && tcbs[x].threads == [] && x != t
    {
      assert IsChild(tcbs, t, x);
      if tcbs[x].threads != [] { OnlyProcessesHaveThreads(tcbs, x); }
    }
  }

  // ------------------------------------------------------------------ timer tick

  /** The running task is taken off its queue and freed, or queued again. */
  function Requeue(k: Kernel): Kernel
    requires Inv(k)
  {
    var cur := Current(k);
    var popped := k.queues[k.curLev := k.queues[k.curLev][1..]];
    if k.tcbs[cur].id.flags.delete && k.tcbs[cur].threads == []
    then k.(tcbs := Free(k.tcbs, cur), numTasks := k.numTasks - 1, totalTasks := k.totalTasks - 1, queues := popped)
    else k.(queues := Push(popped, k.curLev, cur))
  }

  /** nextLev. */
  function PickLevel(k: Kernel): Kernel
    requires k.curLev < LEVELS == |k.executed| == |k.queues|
  {
    var w := Wheel.Pick(WheelOf(k));
    k.(executed := w.executed, curLev := w.curLev)
  }

  function Switch(k: Kernel): Kernel
    requires Inv(k)
  {
    PickLevel(Requeue(k))
  }

  /** switchTaskIntrpt. The frame is what the interrupted task left below the IST address;
      the frame found there afterwards is the one the interrupt return loads. */
  function Tick(k: Kernel, frame: Frame): Kernel
    requires Inv(k)
  {
    if k.totalTasks <= 1 then k.(ist := frame)
    else
      SwitchKeeps(k);
      var k1 := Switch(k);
      var cur, next := Current(k), Current(k1);
      var saved := k1.tcbs[cur := k1.tcbs[cur].(context := frame)];
      k1.(tcbs := saved, ts := k.exFxUser != saved[next].id, ist := saved[next].context)
  }

  /** All of the invariant but the choice of a level: what holds between pop and nextLev. */
  ghost predicate Unpicked(k: Kernel) {
    && PoolOk(k)
    && TreeOk(k.tcbs)
    && QueuesOk(k.tcbs, k.queues)
    && CountsOk(k)
    && ShellOk(k.tcbs)
  }

  /** Freeing a slot other than the shell's, as far as slot numbers and the shell go. */
  lemma FreedPool(tcbs: seq<Tcb>, t: nat, r: seq<Tcb>)
    requires |tcbs| == |r| && 0 < t < |r| && ShellOk(tcbs)
    requires r[t] == tcbs[t].(id := tcbs[t].id.(key := 0))
    requires forall i :: 0 <= i < |r| && i != t ==> r[i] == tcbs[i].(threads := r[i].threads)
    ensures ShellOk(r)
    ensures forall i :: 0 <= i < |r| ==> r[i].id.no == tcbs[i].id.no && r[i].id.key <= tcbs[i].id.key
  {}

  lemma ReapKeeps(k: Kernel, t: nat)
    requires Unpicked(k) && Alloc(k.tcbs, t) && k.tcbs[t].threads == [] && t != 0
    ensures var l := k.tcbs[t].id.priority - 1;
      Unpicked(k.(tcbs := Free(k.tcbs, t), numTasks := k.numTasks - 1, totalTasks := k.totalTasks - 1,
                  queues := k.queues[l := Remove(k.queues[l], t)]))
  {
    hide TreeOk, QueuesOk, Total, AllocatedSlots, Free, ShellOk, Remove;
    var r := Free(k.tcbs, t);
    assert TreeOk(r) by { FreeKeepsTree(k.tcbs, t); }
    FreeFields(k.tcbs, t);
    FreedPool(k.tcbs, t, r);
    ReleaseKeeps(k.tcbs, k.queues, t, r);
  }

  lemma RequeueKeepsRest(k: Kernel)
    requires Inv(k)
    ensures Unpicked(Requeue(k))
  {
    var cur := Current(k);
    FrontIsRemoved(k.queues[k.curLev]);
    hide Free, TreeOk, Push, Total, AllocatedSlots;
    if k.tcbs[cur].id.flags.delete && k.tcbs[cur].threads == [] {
      ReapKeeps(k, cur);
    } else {
      RequeueKeeps(k.tcbs, k.queues, cur);
    }
  }

  /** The level that nextLev picks has a task in it: with the shell on level 0 even the
      fall-through at the end of a turn does. */
  lemma PickKeepsLevels(k: Kernel)
    requires Unpicked(k)
    requires k.curLev < LEVELS == |k.executed|
    requires forall l :: 0 <= l < LEVELS ==> k.executed[l] <= MAX_TASKS
    requires k.executed[k.curLev] < MAX_TASKS
    ensures Inv(PickLevel(k))
  {
    assert 0 in k.queues[0];
    Wheel.PickAdvancesTurn(WheelOf(k));
    forall l | 0 <= l < LEVELS
      ensures |k.queues[l]| <= MAX_TASKS
    {
      QueueHasRoom(k.tcbs, k.queues, l, 0);
    }
  }

  lemma SwitchKeeps(k: Kernel)
    requires Inv(k)
    ensures Inv(Switch(k))
  {
    RequeueKeepsRest(k);
    PickKeepsLevels(Requeue(k));
  }

  lemma TickKeeps(k: Kernel, frame: Frame)
    requires Inv(k)
    ensures Inv(Tick(k, frame))
  {
    hide Requeue, PickLevel;
    if k.totalTasks > 1 {
      SwitchKeeps(k);
      var k1 := Switch(k);
      var k2 := Tick(k, frame);
      SameTree(k1.tcbs, k2.tcbs);
      SamePlaces(k1.tcbs, k2.tcbs, k1.queues);
    }
  }

  // ------------------------------------------------------------------ task creation

  /** The slot of the process a task belongs to. */
  function OwnerOf(k: Kernel, t: nat): (p: nat)
    requires Inv(k) && Alloc(k.tcbs, t)
    ensures Alloc(k.tcbs, p) && !k.tcbs[p].id.flags.thread && k.tcbs[p].id == k.tcbs[t].Ppid()
  {
    ParentIsFound(k.tcbs, t);
    Search(k.tcbs, k.tcbs[t].Ppid()).value
  }

  /** newTask. None is the null-pointer write that a full pool leads to: the TCB is used
      before it is compared with NULL. */
  function NewTask(k: Kernel, entry: int, flags: Flags, priority: nat): (r: Option<Kernel>)
    requires Inv(k) && 1 <= priority <= LEVELS
  {
    if k.numTasks >= MAX_TASKS then None
    else
      FreeSlotExists(k.tcbs);
      var n := FirstFree(k.tcbs, 0);
      var p := OwnerOf(k, Current(k));
      var id := Id(k.nextKey, flags, priority, n);
      var slot := k.tcbs[n];
      var c := Tcb(id, if flags.thread then k.tcbs[p].id else id, slot.threads,
                   InitialFrame(slot.context, k.stackPool + STACK_SIZE * n, entry), false, slot.fx);
      var tcbs := k.tcbs[n := c];
      var linked := if flags.thread
        then tcbs[p := tcbs[p].(threads := PushBack(tcbs[p].threads, n, MAX_THREADS))]
        else tcbs;
      Some(k.(tcbs := linked, numTasks := k.numTasks + 1, nextKey := NextKey(k.nextKey),
              totalTasks := k.totalTasks + 1, queues := Push(k.queues, priority - 1, n)))
  }

  /** The search for the owner is not disturbed by the slot allocated just before. */
  lemma OwnerAfterAllocation(k: Kernel, tcbs: seq<Tcb>, n: nat)
    requires Inv(k) && n < MAX_TASKS == |tcbs| && !k.tcbs[n].Allocated() && tcbs[n].id.no == n
    requires forall i :: 0 <= i < MAX_TASKS && i != n ==> tcbs[i] == k.tcbs[i]
    ensures n != Current(k)
    ensures Search(tcbs, k.tcbs[Current(k)].Ppid()) == Some(OwnerOf(k, Current(k)))
  {
    var id, p := k.tcbs[Current(k)].Ppid(), OwnerOf(k, Current(k));
    SearchIsLookup(tcbs, id);
    assert k.tcbs[p].id.no == p;
  }

  /** A full pool is the only way to the null pointer. */
  lemma NullPointerIffPoolFull(k: Kernel, entry: int, flags: Flags, priority: nat)
    requires Inv(k) && 1 <= priority <= LEVELS
    ensures NewTask(k, entry, flags, priority).None? <==> |AllocatedSlots(k.tcbs)| == MAX_TASKS
  {
    SubsetSize(AllocatedSlots(k.tcbs), Below(MAX_TASKS));
  }

  /** What a caller has to check before it starts a thread: the owning process has room. */
  predicate ThreadHasRoom(k: Kernel, flags: Flags)
    requires Inv(k)
  {
    flags.thread ==> |k.tcbs[OwnerOf(k, Current(k))].threads| < MAX_THREADS
  }

  lemma NewTaskKeepsTree(k: Kernel, entry: int, flags: Flags, priority: nat)
    requires Inv(k) && 1 <= priority <= LEVELS
    requires k.numTasks < MAX_TASKS && ThreadHasRoom(k, flags)
    ensures TreeOk(NewTask(k, entry, flags, priority).value.tcbs)
  {
    FreeSlotExists(k.tcbs);
    var n := FirstFree(k.tcbs, 0);
    var r := NewTask(k, entry, flags, priority).value.tcbs;
    var p := OwnerOf(k, Current(k));
    if flags.thread {
      assert k.tcbs[p].id.no == p;
      NewThreadKeepsTree(k.tcbs, n, r[n], p);
    } else {
      NewProcessKeepsTree(k.tcbs, n, r[n]);
    }
  }

  /** What newTask does to each slot: slot n becomes a new task, its owner may list it. */
  lemma NewTaskFields(k: Kernel, entry: int, flags: Flags, priority: nat)
    requires Inv(k) && 1 <= priority <= LEVELS && k.numTasks < MAX_TASKS
    ensures var n, r := FirstFree(k.tcbs, 0), NewTask(k, entry, flags, priority).value.tcbs;
      && n < MAX_TASKS == |r| && !k.tcbs[n].Allocated()
      && r[n].id == Id(k.nextKey, flags, priority, n)
      && r[n].context == InitialFrame(k.tcbs[n].context, k.stackPool + STACK_SIZE * n, entry) && !r[n].usingFx
      && r[n].fx == k.tcbs[n].fx
      && (var f := r[n].context;
          && f[19] == entry && f[21] == 0x200 && f[20] == 24
          && f[0] == f[1] == f[2] == f[3] == f[23] == 32
          && f[18] == f[22] == k.stackPool + 8192 * n + 8184
          && forall i :: 4 <= i < 18 ==> f[i] == k.tcbs[n].context[i])
      && forall i :: 0 <= i < MAX_TASKS && i != n ==> r[i] == k.tcbs[i].(threads := r[i].threads)
  {
    FreeSlotExists(k.tcbs);
    var n := FirstFree(k.tcbs, 0);
    assert k.tcbs[n].id.no == n;
    var p := OwnerOf(k, Current(k));
  }

  /** A new thread goes to the back of its owner's list, if that has room. */
  lemma NewThreadJoins(k: Kernel, entry: int, flags: Flags, priority: nat)
    requires Inv(k) && 1 <= priority <= LEVELS && k.numTasks < MAX_TASKS && flags.thread
    ensures var p, r := OwnerOf(k, Current(k)), NewTask(k, entry, flags, priority).value.tcbs;
      p < MAX_TASKS == |r| && r[p].threads == PushBack(k.tcbs[p].threads, FirstFree(k.tcbs, 0), MAX_THREADS)
  {
    FreeSlotExists(k.tcbs);
    assert FirstFree(k.tcbs, 0) != OwnerOf(k, Current(k));
    hide Inv, PushBack;
  }

  lemma NewTaskKeepsQueues(k: Kernel, entry: int, flags: Flags, priority: nat)
    requires Inv(k) && 1 <= priority <= LEVELS && k.numTasks < MAX_TASKS
    ensures var k' := NewTask(k, entry, flags, priority).value;
      && QueuesOk(k'.tcbs, k'.queues) && CountsOk(k')
      && k'.queues == k.queues[priority - 1 := k.queues[priority - 1] + [FirstFree(k.tcbs, 0)]]
  {
    hide TreeOk, Total, AllocatedSlots, NoDup, InitialFrame, Push, FirstFree;
    var k' := NewTask(k, entry, flags, priority).value;
    NewTaskFields(k, entry, flags, priority);
    EnterKeeps(k.tcbs, k.queues, FirstFree(k.tcbs, 0), k'.tcbs);
  }

  lemma NewTaskKeeps(k: Kernel, entry: int, flags: Flags, priority: nat)
    requires Inv(k) && 1 <= priority <= LEVELS
    requires k.numTasks < MAX_TASKS && ThreadHasRoom(k, flags)
    ensures Inv(NewTask(k, entry, flags, priority).value)
  {
    hide TreeOk, QueuesOk, CountsOk, ShellOk, LevelsOk, FirstFree, InitialFrame, Push, ThreadHasRoom;
    NewTaskKeepsTree(k, entry, flags, priority);
    NewTaskKeepsQueues(k, entry, flags, priority);
    NewTaskFields(k, entry, flags, priority);
    InvFacts(k);
    var k', n := NewTask(k, entry, flags, priority).value, FirstFree(k.tcbs, 0);
    NewTaskKeepsPlaces(k, k', n, priority - 1);
    NewTaskCounters(k, entry, flags, priority);
    hide NewTask;
  }

  /** Creation puts the new task at the back of a queue, so the running task stays in front. */
  lemma CreationKeepsCurrent(k: Kernel, entry: int, flags: Flags, priority: nat)
    requires Inv(k) && 1 <= priority <= LEVELS && k.numTasks < MAX_TASKS
    requires Inv(NewTask(k, entry, flags, priority).value)
    ensures Current(NewTask(k, entry, flags, priority).value) == Current(k)
  {
    hide QueuesOk, CountsOk, TreeOk, FirstFree;
    NewTaskKeepsQueues(k, entry, flags, priority);
    InvFacts(k);
    InvFacts(NewTask(k, entry, flags, priority).value);
    hide Inv;
  }

  lemma NewTaskCounters(k: Kernel, entry: int, flags: Flags, priority: nat)
    requires Inv(k) && 1 <= priority <= LEVELS && k.numTasks < MAX_TASKS
    ensures var k' := NewTask(k, entry, flags, priority).value;
      && 1 <= k'.nextKey < KEYS && k'.nextKey == NextKey(k.nextKey) && k'.numTasks == k.numTasks + 1
      && k'.executed == k.executed && k'.curLev == k.curLev
      && k'.exFxUser == k.exFxUser && k'.ts == k.ts && k'.hw == k.hw && k'.cursor == k.cursor
  {}

  lemma NewTaskKeepsPlaces(k: Kernel, k': Kernel, n: nat, l: nat)
    requires Inv(k) && l < LEVELS && n < MAX_TASKS == |k'.tcbs|
    requires k'.queues == k.queues[l := k.queues[l] + [n]]
    requires k'.executed == k.executed && k'.curLev == k.curLev
    requires n != 0 && k'.tcbs[0] == k.tcbs[0].(threads := k'.tcbs[0].threads)
    ensures LevelsOk(k') && ShellOk(k'.tcbs)
  {
    assert k'.queues[0] != [] && k'.queues[k'.curLev] != [];
  }

  /** Beyond 32 threads addThread drops the link silently, and the tree is broken: the new
      thread names a process that does not list it. So the check is exactly what is needed. */
  lemma NewTaskKeepsIffRoom(k: Kernel, entry: int, flags: Flags, priority: nat)
    requires Inv(k) && 1 <= priority <= LEVELS && k.numTasks < MAX_TASKS
    ensures Inv(NewTask(k, entry, flags, priority).value) <==> ThreadHasRoom(k, flags)
  {
    if ThreadHasRoom(k, flags) {
      NewTaskKeeps(k, entry, flags, priority);
    } else {
      FreeSlotExists(k.tcbs);
      var n := FirstFree(k.tcbs, 0);
      var p := OwnerOf(k, Current(k));
      var tcbs := NewTask(k, entry, flags, priority).value.tcbs;
      assert k.tcbs[p].id.no == p;
      assert forall i :: i in k.tcbs[p].threads ==> IsChild(k.tcbs, p, i);
      assert !HasParent(tcbs, n);
    }
  }

  // ------------------------------------------------------------------ task deletion

  /** deleteTask. The branch for the running task flags it and never returns to its caller. */
  function DeleteTask(k: Kernel, no: nat): Kernel
    requires Inv(k)
  {
    LevelIsPriority(k.tcbs, k.queues, no);
    var l := LevelOf(k.queues, no);
    if no == Current(k) then k.(tcbs := MarkDeleted(k.tcbs, no))
    else if l == LEVELS then k
    else
      var removed := k.queues[l := Remove(k.queues[l], no)];
      if k.tcbs[no].threads != [] then
        k.(tcbs := MarkDeleted(k.tcbs, no), queues := Push(removed, k.tcbs[no].id.priority - 1, no))
      else
        k.(tcbs := Free(k.tcbs, no), numTasks := k.numTasks - 1, totalTasks := k.totalTasks - 1, queues := removed)
  }

  /** Where deleteTask finds its target. */
  lemma DeleteTargetFacts(k: Kernel, no: nat)
    requires Inv(k)
    ensures LevelOf(k.queues, no) < LEVELS <==> Alloc(k.tcbs, no)
    ensures LevelOf(k.queues, no) <= LEVELS
    ensures Alloc(k.tcbs, no) ==> no < MAX_TASKS && 1 <= k.tcbs[no].id.priority <= LEVELS
    ensures no < MAX_TASKS ==> forall x :: x in k.tcbs[no].threads ==> x < MAX_TASKS
  {
    LevelIsPriority(k.tcbs, k.queues, no);
    assert no < MAX_TASKS ==> forall x :: x in k.tcbs[no].threads ==> IsChild(k.tcbs, no, x);
  }

  /** A delete target other than the shell keeps the shell unflagged. */
  lemma MarkKeepsShell(tcbs: seq<Tcb>, t: nat)
    requires SlotsNumbered(tcbs) && TreeOk(tcbs) && ShellOk(tcbs) && 0 < t < |tcbs|
    ensures ShellOk(MarkDeleted(tcbs, t))
  {
    MarkDeletedFields(tcbs, t);
    assert 0 in tcbs[t].threads ==> IsChild(tcbs, t, 0);
  }

  /** The front of a queue stays in front when another task leaves it. */
  lemma FrontStays(q: seq<nat>, t: nat)
    requires q != [] && q[0] != t
    ensures Remove(q, t) != [] && Remove(q, t)[0] == q[0]
  {}

  lemma MarkKeeps(k: Kernel, t: nat)
    requires Inv(k) && 0 < t < MAX_TASKS
    ensures Inv(k.(tcbs := MarkDeleted(k.tcbs, t)))
  {
    hide MarkDeleted, TreeOk, QueuesOk;
    MarkDeletedFields(k.tcbs, t);
    MarkDeletedKeepsTree(k.tcbs, t);
    MarkKeepsShell(k.tcbs, t);
    var r := MarkDeleted(k.tcbs, t);
    SamePlaces(k.tcbs, r, k.queues);
    assert forall i :: 0 <= i < MAX_TASKS ==>
      r[i].id.no == i && r[i].id.key < KEYS;
  }

  lemma DeleteKeeps(k: Kernel, no: nat)
    requires Inv(k) && no != 0
    ensures Inv(DeleteTask(k, no))
  {
    if no == Current(k) {
      MarkKeeps(k, no);
    } else if Alloc(k.tcbs, no) {
      DeleteOtherKeeps(k, no);
    } else {
      LevelIsPriority(k.tcbs, k.queues, no);
    }
  }

  /** Deleting a task, even the running one, does not change which task runs. */
  lemma DeleteKeepsCurrent(k: Kernel, no: nat)
    requires Inv(k)
    ensures var k' := DeleteTask(k, no);
      && k'.curLev == k.curLev && |k'.queues| == LEVELS
      && k'.queues[k.curLev] != [] && k'.queues[k.curLev][0] == Current(k)
  {
    hide TreeOk, CountsOk, ShellOk, MarkDeleted, Free, PoolOk, LevelOf;
    LevelIsPriority(k.tcbs, k.queues, no);
    if no != Current(k) { FrontStays(k.queues[k.curLev], no); }
  }

  /** Moving a task that does not run to the back of its queue. */
  lemma MoveKeeps(k: Kernel, t: nat)
    requires Inv(k) && Alloc(k.tcbs, t)
    requires t != k.queues[k.curLev][0]
    ensures var l := k.tcbs[t].id.priority - 1;
      Inv(k.(queues := Push(k.queues[l := Remove(k.queues[l], t)], l, t)))
  {
    hide TreeOk, Total, AllocatedSlots;
    RequeueKeeps(k.tcbs, k.queues, t);
    FrontStays(k.queues[k.curLev], t);
  }

  lemma DeleteOtherKeeps(k: Kernel, no: nat)
    requires Inv(k) && no != 0 && no != Current(k) && Alloc(k.tcbs, no)
    ensures Inv(DeleteTask(k, no))
  {
    LevelIsPriority(k.tcbs, k.queues, no);
    FrontStays(k.queues[k.curLev], no);
    if k.tcbs[no].threads != [] {
      MarkKeeps(k, no);
      var k1 := k.(tcbs := MarkDeleted(k.tcbs, no));
      assert k1.tcbs[no].id.priority == k.tcbs[no].id.priority && Alloc(k1.tcbs, no) by {
        MarkDeletedFields(k.tcbs, no);
      }
      MoveKeeps(k1, no);
    } else {
      ReapKeeps(k, no);
    }
  }

  /** Deleting the shell frees it or flags it. */
  lemma ShellIsHit(k: Kernel)
    requires Inv(k)
    ensures !ShellOk(DeleteTask(k, 0).tcbs)
    ensures Current(k) == 0 ==>
      var c := DeleteTask(k, 0).tcbs[0];
      c.Allocated() && c.id.flags.delete && c.threads == k.tcbs[0].threads
  {
    DeleteTargetFacts(k, 0);
    if 0 == Current(k) || k.tcbs[0].threads != [] {
      MarkDeletedFields(k.tcbs, 0);
    } else {
      FreeFields(k.tcbs, 0);
    }
  }

  /** The invariant survives the deletion of any task but the shell. */
  lemma DeleteKeepsIff(k: Kernel, no: nat)
    requires Inv(k)
    ensures Inv(DeleteTask(k, no)) <==> no != 0
  {
    if no != 0 { DeleteKeeps(k, no); } else { ShellIsHit(k); }
  }

  // ------------------------------------------------------------------ task listing

  /** The slot that the next probe of getTaskInfo looks at. */
  function Probed(k: Kernel): (t: nat)
    ensures t < MAX_TASKS
  {
    if k.cursor < MAX_TASKS then k.cursor else 0
  }

  /** One turn of the loop of getTaskInfo. It runs with interrupts on, so anything may happen
      between two turns. */
  function Probe(k: Kernel): Kernel { k.(cursor := Probed(k) + 1) }

  /** How many probes miss at most before one looks at the shell. */
  function ToShell(k: Kernel): nat { if Probed(k) == 0 then 0 else MAX_TASKS - Probed(k) }

  lemma ProbeKeeps(k: Kernel)
    requires Inv(k)
    ensures Inv(Probe(k)) && Alloc(k.tcbs, 0) && |k.tcbs| == MAX_TASKS
  {}

  /** getTaskInfo when nothing comes in between: probes up to the first allocated slot. */
  function GetTaskInfo(k: Kernel): (r: Kernel)
    requires Inv(k)
    ensures r == k.(cursor := r.cursor) && 1 <= r.cursor <= MAX_TASKS && Alloc(k.tcbs, r.cursor - 1)
    decreases ToShell(k)
  {
    ProbeKeeps(k);
    if Alloc(k.tcbs, Probed(k)) then Probe(k) else GetTaskInfo(Probe(k))
  }

  lemma ListingStep(k: Kernel)
    requires Inv(k)
    ensures Inv(Probe(k)) && |k.tcbs| == MAX_TASKS
    ensures GetTaskInfo(k) == if Alloc(k.tcbs, Probed(k)) then Probe(k) else GetTaskInfo(Probe(k))
    ensures !Alloc(k.tcbs, Probed(k)) ==> ToShell(Probe(k)) < ToShell(k)
  {
    ProbeKeeps(k);
    hide Inv;
  }

  // ------------------------------------------------------------------ FPU

  /** deviceNotAvailableHandler: hand the FPU registers over to the running task. */
  function TrapFpu(k: Kernel): Kernel
    requires Inv(k)
  {
    var cur := Current(k);
    var owner := Search(k.tcbs, k.exFxUser);
    var saved := if owner.Some? then k.tcbs[owner.value := k.tcbs[owner.value].(fx := k.hw)] else k.tcbs;
    var hw := if saved[cur].usingFx then saved[cur].fx else FINIT;
    k.(ts := false, hw := hw, tcbs := saved[cur := saved[cur].(usingFx := true)], exFxUser := saved[cur].id)
  }

  /** An FPU instruction of the running task. */
  function ExecFpu(k: Kernel, f: Fpu -> Fpu): Kernel {
    k.(hw := f(k.hw))
  }

  lemma TrapKeeps(k: Kernel)
    requires Inv(k)
    ensures Inv(TrapFpu(k))
  {
    hide Search;
    var r := TrapFpu(k).tcbs;
    SameTree(k.tcbs, r);
    SamePlaces(k.tcbs, r, k.queues);
  }

  // ------------------------------------------------------------------ boot

  const NO_FLAGS := Flags(false, false, false, 0)
  const SHELL_FLAGS := Flags(true, false, false, 0)

  /** TaskPool::init over zeroed memory: a numbered slot with a zero key. */
  function FreeTcb(no: nat): Tcb {
    var zero := Id(0, NO_FLAGS, 0, 0);
    Tcb(zero.(no := no), zero, [], seq(FRAME_WORDS, _ => 0), false, 0)
  }

  /** Scheduler::init: the booting shell takes slot 0 on the highest level. The boot code
      enters protected mode with TS set (CR0 = 0x4000003B). */
  function Boot(stackPool: nat, hw: Fpu): Kernel {
    var pool := seq(MAX_TASKS, i requires 0 <= i < MAX_TASKS => FreeTcb(i));
    var shell := pool[0].(id := Id(1, SHELL_FLAGS, 1, 0));
    Kernel(pool[0 := shell], 1, 2, stackPool, [[0], [], [], [], []], [0, 0, 0, 0, 0], 0, 1,
           Id(0, NO_FLAGS, 0, 0), true, hw, seq(FRAME_WORDS, _ => 0), 0)
  }

  lemma BootPool(stackPool: nat, hw: Fpu)
    ensures var k := Boot(stackPool, hw);
      && PoolOk(k) && ShellOk(k.tcbs) && k.tcbs[0].id.key == 1
      && forall i :: 0 <= i < MAX_TASKS ==> (k.tcbs[i].Allocated() <==> i == 0) && k.tcbs[i].threads == []
  {}

  lemma BootPlaces(k: Kernel)
    requires |k.tcbs| == MAX_TASKS && k.queues == [[0], [], [], [], []] && k.tcbs[0].id.priority == 1
    requires forall i :: 0 <= i < MAX_TASKS ==> (k.tcbs[i].Allocated() <==> i == 0)
    ensures QueuesOk(k.tcbs, k.queues) && AllocatedSlots(k.tcbs) == {0} && Total(k.queues) == 1
  {
    assert Total([[]]) == 0;
    assert Total([[], []]) == 0;
    assert Total([[], [], []]) == 0;
    assert k.queues[1..] == [[], [], [], []];
  }

  lemma BootOk(stackPool: nat, hw: Fpu)
    ensures Inv(Boot(stackPool, hw))
  {
    hide QueuesOk, PoolOk, ShellOk, AllocatedSlots, Total;
    BootPool(stackPool, hw);
    BootPlaces(Boot(stackPool, hw));
  }

  // ------------------------------------------------------------------ runs

  datatype Op =
    | OpTick(frame: Frame)
    | OpNew(entry: int, flags: Flags, priority: nat)
    | OpDelete(no: nat)
    | OpProbe
    | OpTrap
    | OpExec(f: Fpu -> Fpu)

  /** What can happen at all: the hardware traps an FPU instruction exactly when TS is set,
      priorities are 1 to 5, and creation on a full pool has no outcome. */
  predicate Possible(k: Kernel, op: Op)
    requires Inv(k)
  {
    match op
    case OpNew(_, _, priority) => 1 <= priority <= LEVELS && k.numTasks < MAX_TASKS
    case OpTrap => k.ts
    case OpExec(_) => !k.ts
    case _ => true
  }

  /** What the caller of an operation has to see to: room for a thread, and no hand on the shell. */
  predicate Enabled(k: Kernel, op: Op)
    requires Inv(k)
  {
    && Possible(k, op)
    && (op.OpNew? ==> ThreadHasRoom(k, op.flags))
    && (op.OpDelete? ==> op.no != 0)
  }

  function Step(k: Kernel, op: Op): Kernel
    requires Inv(k) && Possible(k, op)
  {
    match op
    case OpTick(frame) => Tick(k, frame)
    case OpNew(entry, flags, priority) => NewTask(k, entry, flags, priority).value
    case OpDelete(no) => DeleteTask(k, no)
    case OpProbe => Probe(k)
    case OpTrap => TrapFpu(k)
    case OpExec(f) => ExecFpu(k, f)
  }

  /** Every step keeps the whole invariant. */
  lemma StepKeeps(k: Kernel, op: Op)
    requires Inv(k) && Enabled(k, op)
    ensures Inv(Step(k, op))
  {
    match op
    case OpTick(frame) => TickKeeps(k, frame);
    case OpNew(entry, flags, priority) => NewTaskKeeps(k, entry, flags, priority);
    case OpDelete(no) => DeleteKeeps(k, no);
    case OpProbe => ProbeKeeps(k);
    case OpTrap => TrapKeeps(k);
    case OpExec(_) =>
  }

  /** And no step keeps it that its caller should not have made. */
  lemma StepKeepsIff(k: Kernel, op: Op)
    requires Inv(k) && Possible(k, op)
    ensures Inv(Step(k, op)) <==> Enabled(k, op)
  {
    hide Inv;
    match op
    case OpNew(entry, flags, priority) => NewTaskKeepsIffRoom(k, entry, flags, priority);
    case OpDelete(no) => DeleteKeepsIff(k, no);
    case _ => StepKeeps(k, op);
  }

  /** A run is possible when each operation is enabled where it happens. */
  predicate Runnable(k: Kernel, ops: seq<Op>)
    requires Inv(k)
    decreases |ops|
  {
    ops == [] || (Enabled(k, ops[0]) && (StepKeeps(k, ops[0]); Runnable(Step(k, ops[0]), ops[1..])))
  }

  function Run(k: Kernel, ops: seq<Op>): (r: Kernel)
    requires Inv(k) && Runnable(k, ops)
    ensures Inv(r)
    decreases |ops|
  {
    if ops == [] then k
    else
      StepKeeps(k, ops[0]);
      Run(Step(k, ops[0]), ops[1..])
  }

  /** How many tasks a run creates. */
  function News(ops: seq<Op>): nat {
    if ops == [] then 0 else (if ops[0].OpNew? then 1 else 0) + News(ops[1..])
  }
}
