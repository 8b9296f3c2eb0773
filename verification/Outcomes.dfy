/** What each operation leaves in every field of the state, said of the fields alone, and what
    follows for one task over a whole run: a task that is not flagged lives on while nobody
    deletes it, and a new task starts with the frame that newTask made. */
module Outcomes {
  import opened Seqs
  import opened KernelState
  import opened Machine
  import opened Effects
  import Queues
  import Share
  import Tree
  import Wheel

  /** q without what stands at position p. */
  function Without(q: seq<nat>, p: nat): seq<nat>
    requires p < |q|
  {
    q[..p] + q[p + 1..]
  }

  // ------------------------------------------------------------------ timer tick

  /** Which slots the tick changes: the running task may be freed, and gets its frame saved. */
  lemma TickSlots(k: Kernel, frame: Frame)
    requires Inv(k) && k.totalTasks > 1
    ensures var k', cur := Tick(k, frame), Current(k);
      var freed := k.tcbs[cur].id.flags.delete && k.tcbs[cur].threads == [];
      && |k'.tcbs| == 1024
      && (forall i :: 0 <= i < 1024 ==>
            && k'.tcbs[i].id == (if freed && i == cur then k.tcbs[i].id.(key := 0) else k.tcbs[i].id)
            && k'.tcbs[i].context == (if i == cur then frame else k.tcbs[i].context)
            && k'.tcbs[i].ppid == k.tcbs[i].ppid
            && k'.tcbs[i].threads == (if freed then Remove(k.tcbs[i].threads, cur) else k.tcbs[i].threads)
            && k'.tcbs[i].usingFx == k.tcbs[i].usingFx && k'.tcbs[i].fx == k.tcbs[i].fx)
  {
    InvFacts(k);
    hide Inv, Wheel.Pick, Free, Push, Remove, TreeOk;
    var cur := Current(k);
    if k.tcbs[cur].id.flags.delete && k.tcbs[cur].threads == [] {
      Tree.FreeFields(k.tcbs, cur);
      assert Remove(k.tcbs[cur].threads, cur) == k.tcbs[cur].threads;
    }
  }

  /** Taking the running task off the front of its queue. */
  lemma RequeuePlaces(k: Kernel)
    requires Inv(k)
    ensures var r, cur := Requeue(k), Current(k);
      var freed := k.tcbs[cur].id.flags.delete && k.tcbs[cur].threads == [];
      && |r.tcbs| == |k.tcbs|
      && r.queues == k.queues[k.curLev := k.queues[k.curLev][1..] + if freed then [] else [cur]]
      && r.numTasks == k.numTasks - (if freed then 1 else 0)
      && r.totalTasks == k.totalTasks - (if freed then 1 else 0)
      && r.executed == k.executed && r.curLev == k.curLev
      && r.stackPool == k.stackPool && r.nextKey == k.nextKey && r.cursor == k.cursor
      && r.hw == k.hw && r.exFxUser == k.exFxUser
  {
    InvFacts(k);
    var cur, l := Current(k), k.curLev;
    Queues.QueueHasRoom(k.tcbs, k.queues, l, cur);
    var popped := k.queues[l := k.queues[l][1..]];
    assert Push(popped, l, cur) == k.queues[l := k.queues[l][1..] + [cur]];
    hide Inv, QueuesOk, Free, Push, Remove;
    assert k.queues[l][1..] + [] == k.queues[l][1..];
  }

  /** The running task leaves the front of its queue for the back, or for good. */
  lemma TickPlaces(k: Kernel, frame: Frame)
    requires Inv(k) && k.totalTasks > 1
    ensures var k', cur := Tick(k, frame), Current(k);
      var freed := k.tcbs[cur].id.flags.delete && k.tcbs[cur].threads == [];
      && cur == k.queues[k.curLev][0] && k.numTasks == k.totalTasks
      && k'.queues == k.queues[k.curLev := k.queues[k.curLev][1..] + if freed then [] else [cur]]
      && k'.numTasks == k'.totalTasks == k.totalTasks - (if freed then 1 else 0)
      && k'.stackPool == k.stackPool && k'.nextKey == k.nextKey && k'.cursor == k.cursor
      && k'.hw == k.hw && k'.exFxUser == k.exFxUser
  {
    InvFacts(k);
    assert k.numTasks == k.totalTasks;
    RequeuePlaces(k);
    hide Inv, Requeue, Wheel.Pick;
  }

  /** nextLev: the slice that ended is counted, levels whose count has come to their size start
      again at zero, and the first level that has not come to its size is next; else level 0. */
  lemma TickLevel(k: Kernel, frame: Frame)
    requires Inv(k) && k.totalTasks > 1
    ensures var k', c := Tick(k, frame), k.executed[k.curLev := k.executed[k.curLev] + 1];
      var f := k'.curLev;
      && |k'.executed| == |k'.queues| == 5 && f < 5
      && (if c[f] < |k'.queues[f]| then
            && (forall l :: 0 <= l < f ==> |k'.queues[l]| <= c[l] && k'.executed[l] == 0)
            && (forall l :: f <= l < 5 ==> k'.executed[l] == c[l])
          else
            f == 0 && forall l :: 0 <= l < 5 ==> |k'.queues[l]| <= c[l] && k'.executed[l] == 0)
  {
    InvFacts(k);
    RequeuePlaces(k);
    hide Inv, Requeue;
  }

  /** A task is freed by a tick if and only if it is the running one, is flagged for deletion and
      has no threads; and a task that is alone goes on where it was interrupted. */
  lemma TickFreesIff(k: Kernel, frame: Frame, t: nat)
    requires Inv(k) && Alloc(k.tcbs, t)
    ensures !Alloc(Tick(k, frame).tcbs, t) <==>
      k.totalTasks > 1 && t == Current(k) && k.tcbs[t].id.flags.delete && k.tcbs[t].threads == []
    ensures k.totalTasks <= 1 ==> Tick(k, frame) == k.(ist := frame)
  {
    InvFacts(k);
    if k.totalTasks > 1 {
      hide Tick;
      TickSlots(k, frame);
    }
    hide Inv;
  }

  // ------------------------------------------------------------------ task deletion

  /** Which branch deleteTask takes, and what it does to everything but the slots. */
  lemma DeleteShape(k: Kernel, no: nat)
    requires Inv(k) && Alloc(k.tcbs, no)
    ensures var k', l := DeleteTask(k, no), k.tcbs[no].id.priority - 1;
      && 0 <= l < |k.queues| == 5 && no in k.queues[l] && NoDup(k.queues[l])
      && k' == (
        if no == Current(k) then k.(tcbs := MarkDeleted(k.tcbs, no))
        else if k.tcbs[no].threads == [] then
          k.(tcbs := Free(k.tcbs, no), numTasks := k.numTasks - 1, totalTasks := k.totalTasks - 1,
             queues := k.queues[l := Remove(k.queues[l], no)])
        else
          k.(tcbs := MarkDeleted(k.tcbs, no), queues := k.queues[l := Remove(k.queues[l], no) + [no]]))
  {
    InvFacts(k);
    Queues.LevelIsPriority(k.tcbs, k.queues, no);
    Queues.RequeueKeeps(k.tcbs, k.queues, no);
    assert no in k.queues[k.tcbs[no].id.priority - 1];
    hide Inv, QueuesOk, Free, MarkDeleted, Push, Remove, LevelOf, NoDup;
  }

  /** What deleteTask does to the slots when its target has no threads and is not running: that
      slot is freed and struck off every thread list, and nothing else changes. */
  lemma FreedSlots(k: Kernel, no: nat)
    requires Inv(k) && Alloc(k.tcbs, no) && no != Current(k) && k.tcbs[no].threads == []
    ensures var r := DeleteTask(k, no).tcbs;
      && |r| == 1024
      && (forall i :: 0 <= i < 1024 ==>
            && r[i].id == (if i == no then k.tcbs[i].id.(key := 0) else k.tcbs[i].id)
            && r[i].threads == Remove(k.tcbs[i].threads, no)
            && r[i].ppid == k.tcbs[i].ppid && r[i].context == k.tcbs[i].context
            && r[i].usingFx == k.tcbs[i].usingFx && r[i].fx == k.tcbs[i].fx)
  {
    InvFacts(k);
    DeleteShape(k, no);
    Tree.FreeFields(k.tcbs, no);
    assert Remove(k.tcbs[no].threads, no) == k.tcbs[no].threads;
    hide Inv, Free, MarkDeleted, TreeOk, Remove, NoDup, DeleteTask;
  }

  /** And when it has threads or runs: it is flagged with all its threads, which are told its new
      id, and nothing else changes. */
  lemma FlaggedSlots(k: Kernel, no: nat)
    requires Inv(k) && Alloc(k.tcbs, no) && (no == Current(k) || k.tcbs[no].threads != [])
    ensures var r := DeleteTask(k, no).tcbs;
      && |r| == 1024
      && (forall i :: 0 <= i < 1024 ==>
            && r[i].id == (
              if i == no || i in k.tcbs[no].threads then k.tcbs[i].id.(flags := k.tcbs[i].id.flags.(delete := true))
              else k.tcbs[i].id)
            && r[i].ppid == (if i in k.tcbs[no].threads then r[no].id else k.tcbs[i].ppid)
            && r[i].threads == k.tcbs[i].threads && r[i].context == k.tcbs[i].context
            && r[i].usingFx == k.tcbs[i].usingFx && r[i].fx == k.tcbs[i].fx)
  {
    InvFacts(k);
    DeleteShape(k, no);
    Tree.MarkDeletedFields(k.tcbs, no);
    hide Inv, Free, MarkDeleted, TreeOk, Remove, NoDup, DeleteTask;
  }

  lemma PlaceOf(q: seq<nat>, t: nat) returns (p: nat)
    requires NoDup(q) && t in q
    ensures p < |q| && q[p] == t && Remove(q, t) == Without(q, p)
  {
    p :| 0 <= p < |q| && q[p] == t;
    RemoveAt(q, p);
  }

  /** And to everything else. A target other than the running task leaves its place p in its
      queue, for the back of the queue if it has threads, and else for good. A number that is
      not allocated changes nothing. */
  lemma DeletePlaces(k: Kernel, no: nat) returns (p: nat)
    requires Inv(k)
    ensures !Alloc(k.tcbs, no) ==> DeleteTask(k, no) == k
    ensures Alloc(k.tcbs, no) ==>
      var k', l := DeleteTask(k, no), k.tcbs[no].id.priority - 1;
      && 0 <= l < |k.queues| == 5 && p < |k.queues[l]| && k.queues[l][p] == no
      && k' == (
        if no == Current(k) then k.(tcbs := k'.tcbs)
        else if k.tcbs[no].threads == [] then
          k.(tcbs := k'.tcbs, numTasks := k.numTasks - 1, totalTasks := k.totalTasks - 1,
             queues := k.queues[l := Without(k.queues[l], p)])
        else
          k.(tcbs := k'.tcbs, queues := k.queues[l := Without(k.queues[l], p) + [no]]))
  {
    p := 0;
    if Alloc(k.tcbs, no) {
      DeleteShape(k, no);
      p := PlaceOf(k.queues[k.tcbs[no].id.priority - 1], no);
    } else {
      InvFacts(k);
      DeleteTargetFacts(k, no);
    }
    hide *;
  }

  /** So a task that is not running and has no threads is gone at once: its slot is free, it is
      in no queue, and both counts are one less. */
  lemma DeleteFrees(k: Kernel, no: nat)
    requires Inv(k) && Alloc(k.tcbs, no) && no != Current(k) && k.tcbs[no].threads == []
    ensures var k' := DeleteTask(k, no);
      && !Alloc(k'.tcbs, no) && |k'.queues| == 5
      && (forall l :: 0 <= l < 5 ==> no !in k'.queues[l])
      && k'.numTasks == k.numTasks - 1 && k'.totalTasks == k.totalTasks - 1
  {
    FreedSlots(k, no);
    DeleteShape(k, no);
    InvFacts(k);
    RemoveMembers(k.queues[k.tcbs[no].id.priority - 1], no);
    hide DeleteTask, Free, MarkDeleted, TreeOk, Remove;
  }

  /** And one that has threads stays, flagged and last in its queue. */
  lemma DeleteFlags(k: Kernel, no: nat)
    requires Inv(k) && Alloc(k.tcbs, no) && no != Current(k) && k.tcbs[no].threads != []
    ensures var k', l := DeleteTask(k, no), k.tcbs[no].id.priority - 1;
      && Alloc(k'.tcbs, no) && k'.tcbs[no].id.flags.delete
      && 0 <= l < |k'.queues| == 5 && k'.queues[l] != [] && k'.queues[l][|k'.queues[l]| - 1] == no
      && k'.numTasks == k.numTasks && k'.totalTasks == k.totalTasks
      && forall i :: i in k.tcbs[no].threads ==> i < 1024 && k'.tcbs[i].id.flags.delete
  {
    FlaggedSlots(k, no);
    DeleteShape(k, no);
    DeleteTargetFacts(k, no);
    hide DeleteTask, Free, MarkDeleted, TreeOk, Remove, Inv;
  }

  /** Whatever the target, no other task but its threads is freed, flagged or otherwise renamed. */
  lemma DeleteSpares(k: Kernel, no: nat, t: nat)
    requires Inv(k) && t < 1024 && t != no && (Alloc(k.tcbs, no) ==> t !in k.tcbs[no].threads)
    ensures var r := DeleteTask(k, no).tcbs;
      && |r| == 1024
      && r[t].id == k.tcbs[t].id && r[t].ppid == k.tcbs[t].ppid && r[t].context == k.tcbs[t].context
  {
    if !Alloc(k.tcbs, no) {
      var _ := DeletePlaces(k, no);
    } else if no != Current(k) && k.tcbs[no].threads == [] {
      FreedSlots(k, no);
    } else {
      FlaggedSlots(k, no);
    }
    InvFacts(k);
    hide *;
  }

  // ------------------------------------------------------------------ task creation

  /** newTask takes the first free slot, the next key (which skips zero) and the back of the queue
      of the priority; only task slots, counts, key and that queue change. */
  lemma NewPlaces(k: Kernel, entry: int, flags: Flags, priority: nat) returns (n: nat)
    requires Inv(k) && 1 <= priority <= 5
    ensures NewTask(k, entry, flags, priority).None? <==> k.numTasks >= 1024
    ensures k.numTasks < 1024 ==>
      var k' := NewTask(k, entry, flags, priority).value;
      && n < |k.tcbs| == 1024 && !k.tcbs[n].Allocated() && (forall j :: 0 <= j < n ==> k.tcbs[j].Allocated())
      && k' == k.(tcbs := k'.tcbs, numTasks := k.numTasks + 1, totalTasks := k.totalTasks + 1,
                  nextKey := if k.nextKey == 0xFFFF_FFFF then 1 else k.nextKey + 1,
                  queues := k.queues[priority - 1 := k.queues[priority - 1] + [n]])
  {
    InvFacts(k);
    n := FirstFree(k.tcbs, 0);
    if k.numTasks < 1024 {
      FreeSlotsAreBare(k);
      NewTaskKeepsQueues(k, entry, flags, priority);
    }
    hide Inv, FirstFree, QueuesOk, CountsOk, Push, InitialFrame;
  }

  /** A process is its own parent; a thread is hung under the process p of the running task, which
      lists it while it lists fewer than 32. No other slot changes. */
  lemma NewSlots(k: Kernel, entry: int, flags: Flags, priority: nat) returns (n: nat, p: nat)
    requires Inv(k) && 1 <= priority <= 5 && k.numTasks < 1024
    ensures |k.tcbs| == 1024 && n < 1024 && p < 1024 && p != n
    ensures !k.tcbs[n].Allocated() && forall j :: 0 <= j < n ==> k.tcbs[j].Allocated()
    ensures var c := k.tcbs[Current(k)].id.flags.thread;
      if c then Current(k) in k.tcbs[p].threads else p == Current(k)
    ensures var r := NewTask(k, entry, flags, priority).value.tcbs;
      && |r| == 1024
      && r[n].id == Id(k.nextKey, flags, priority, n)
      && r[n].ppid == (if flags.thread then k.tcbs[p].id else r[n].id)
      && r[n].threads == [] && !r[n].usingFx
      && r[p] == (if flags.thread && |k.tcbs[p].threads| < 32
                  then k.tcbs[p].(threads := k.tcbs[p].threads + [n]) else k.tcbs[p])
      && forall i :: 0 <= i < 1024 && i != n && i != p ==> r[i] == k.tcbs[i]
  {
    InvFacts(k);
    FreeSlotsAreBare(k);
    n, p := FirstFree(k.tcbs, 0), OwnerOf(k, Current(k));
    Tree.ParentIsFound(k.tcbs, Current(k));
    assert k.numTasks < MAX_TASKS;
    hide Inv, FirstFree, QueuesOk, CountsOk, Push, InitialFrame, TreeOk, OwnerOf;
  }

  // ------------------------------------------------------------------ FPU

  /** #NM: the registers go to the slot of the live task whose id is the owner's, if there is one,
      then the running task's saved copy, or the initial state, is loaded, and it is the owner. An
      FPU instruction f changes the registers by f and nothing else. */
  lemma TrapOutcome(k: Kernel, f: Fpu -> Fpu)
    requires Inv(k)
    ensures var k', cur := TrapFpu(k), Current(k);
      && |k'.tcbs| == 1024 && k' == k.(tcbs := k'.tcbs, hw := k'.hw, ts := false, exFxUser := k.tcbs[cur].id)
      && (forall i :: 0 <= i < 1024 ==>
            k'.tcbs[i] == k.tcbs[i].(
              fx := if k.tcbs[i].Allocated() && k.tcbs[i].id == k.exFxUser then k.hw else k.tcbs[i].fx,
              usingFx := i == cur || k.tcbs[i].usingFx))
      && k'.hw == if k.tcbs[cur].usingFx then k'.tcbs[cur].fx else FINIT
    ensures ExecFpu(k, f) == k.(hw := f(k.hw))
  {
    InvFacts(k);
    Tree.SearchIsLookup(k.tcbs, k.exFxUser);
    assert forall i :: 0 <= i < 1024 ==> k.tcbs[i].id.no == i;
    hide Inv, Search;
  }

  // ------------------------------------------------------------------ task listing

  /** What the probes from the given place on have passed when they come to slot t. */
  predicate Passed(from: nat, t: nat, j: nat) { if t >= from then from <= j < t else j >= from || j < t }

  lemma PassedOn(from: nat, t: nat, j: nat)
    requires from < 1024 && t < 1024 && j < 1024 && Passed(from, t, j) && from != j && from != t
    ensures Passed(if from + 1 < 1024 then from + 1 else 0, t, j)
  {}

  lemma ProbeMovesOn(k: Kernel)
    ensures Probe(k).tcbs == k.tcbs && Probed(k) < 1024
    ensures Probed(Probe(k)) == if Probed(k) + 1 < 1024 then Probed(k) + 1 else 0
  {}

  lemma {:induction false} ListingPasses(k: Kernel, j: nat)
    requires Inv(k) && j < 1024 && Passed(Probed(k), GetTaskInfo(k).cursor - 1, j)
    ensures !Alloc(k.tcbs, j)
    decreases ToShell(k)
  {
    hide Inv, GetTaskInfo, Passed, Probed, ToShell, Probe;
    ListingStep(k);
    ProbeMovesOn(k);
    if !Alloc(k.tcbs, Probed(k)) && j != Probed(k) {
      PassedOn(Probed(k), GetTaskInfo(k).cursor - 1, j);
      ListingPasses(Probe(k), j);
    } else if Alloc(k.tcbs, Probed(k)) {
      ListingStops(k, j);
    }
  }

  lemma ListingStops(k: Kernel, j: nat)
    requires Inv(k) && Alloc(k.tcbs, Probed(k))
    ensures !Passed(Probed(k), GetTaskInfo(k).cursor - 1, j)
  {
    ListingStep(k);
    hide Inv;
  }

  /** getTaskInfo answers with the next allocated slot from the cursor on, going round the pool
      from 1023 to 0, and leaves the cursor behind it. */
  lemma ListingIsNext(k: Kernel, j: nat)
    requires Inv(k) && j < 1024
    ensures var k', from := GetTaskInfo(k), if k.cursor < 1024 then k.cursor else 0;
      var t := k'.cursor - 1;
      && k' == k.(cursor := t + 1) && Alloc(k.tcbs, t)
      && ((if t >= from then from <= j < t else j >= from || j < t) ==> !Alloc(k.tcbs, j))
  {
    hide Inv, GetTaskInfo;
    if Passed(Probed(k), GetTaskInfo(k).cursor - 1, j) { ListingPasses(k, j); }
  }

  // ------------------------------------------------------------------ boot

  /** After init the shell is the only task: slot 0, key 1, a system process on level 0, and it
      runs; every other slot is free and bears its number. */
  lemma BootFields(stackPool: nat, hw: Fpu, i: nat)
    requires i < 1024
    ensures (BootOk(stackPool, hw); Current(Boot(stackPool, hw)) == 0)
    ensures var k := Boot(stackPool, hw);
      && |k.tcbs| == 1024 && k.queues == [[0], [], [], [], []] && k.executed == [0, 0, 0, 0, 0]
      && k.tcbs[i].id == (if i == 0 then Id(1, Flags(true, false, false, 0), 1, 0)
                          else Id(0, Flags(false, false, false, 0), 0, i))
      && k.tcbs[i].threads == [] && !k.tcbs[i].usingFx
      && k.numTasks == k.totalTasks == 1 && k.nextKey == 2 && k.curLev == 0 && k.cursor == 0
      && k.ts && k.exFxUser.key == 0 && k.hw == hw && k.stackPool == stackPool
  {
    BootOk(stackPool, hw);
  }

  // ------------------------------------------------------------------ one task over a run

  /** Nobody deletes t or the process that t belongs to. */
  predicate NobodyEnds(k: Kernel, ops: seq<Op>, t: nat)
    requires t < |k.tcbs|
  {
    forall i :: 0 <= i < |ops| ==> ops[i] != OpDelete(t) && ops[i] != OpDelete(k.tcbs[t].Ppid().no)
  }

  /** A thread names its process in PPID_. */
  lemma ThreadNamesProcess(k: Kernel, p: nat, t: nat)
    requires Inv(k) && Alloc(k.tcbs, p) && t in k.tcbs[p].threads
    ensures Alloc(k.tcbs, t) && k.tcbs[t].Ppid() == k.tcbs[p].id && k.tcbs[t].Ppid().no == p
  {
    assert IsChild(k.tcbs, p, t);
    assert k.tcbs[p].id.no == p;
  }

  lemma NewSpares(k: Kernel, entry: int, flags: Flags, priority: nat, t: nat)
    requires Inv(k) && 1 <= priority <= 5 && k.numTasks < 1024 && Alloc(k.tcbs, t)
    ensures var r := NewTask(k, entry, flags, priority).value.tcbs;
      |r| == |k.tcbs| && r[t] == k.tcbs[t].(threads := r[t].threads)
  {
    var n, p := NewSlots(k, entry, flags, priority);
    hide *;
  }

  /** What a step leaves of a task that it neither ends nor runs to the end of its slice. */
  lemma StepSpares(k: Kernel, op: Op, t: nat)
    requires Inv(k) && Enabled(k, op) && Alloc(k.tcbs, t) && NobodyEnds(k, [op], t)
    requires op.OpTick? && t == Current(k) ==> !k.tcbs[t].id.flags.delete
    ensures var k' := Step(k, op);
      && Inv(k') && Alloc(k'.tcbs, t) && t < |k.tcbs|
      && k'.tcbs[t].id == k.tcbs[t].id && k'.tcbs[t].Ppid() == k.tcbs[t].Ppid()
      && ((op.OpTick? && t == Current(k) && k.totalTasks > 1) || k'.tcbs[t].context == k.tcbs[t].context)
  {
    StepKeeps(k, op);
    InvFacts(k);
    assert op == [op][0];
    hide Inv, Tick, NewTask, DeleteTask, TrapFpu, ThreadHasRoom;
    match op
    case OpTick(frame) => if k.totalTasks > 1 { TickSlots(k, frame); }
    case OpNew(entry, flags, priority) => NewSpares(k, entry, flags, priority, t);
    case OpDelete(no) =>
      if Alloc(k.tcbs, no) && t in k.tcbs[no].threads { ThreadNamesProcess(k, no, t); }
      DeleteSpares(k, no, t);
    case OpTrap => TrapOutcome(k, x => x);
    case _ =>
    hide *;
  }

  /** A task that is not flagged keeps its slot and its id in every run in which neither it nor its
      process is deleted, however often it is preempted. */
  lemma {:induction false} UnflaggedTaskLives(k: Kernel, ops: seq<Op>, t: nat)
    requires Inv(k) && Runnable(k, ops) && Alloc(k.tcbs, t) && !k.tcbs[t].id.flags.delete
    requires NobodyEnds(k, ops, t)
    ensures Alloc(Run(k, ops).tcbs, t) && Run(k, ops).tcbs[t].id == k.tcbs[t].id
    decreases |ops|
  {
    hide Inv, Step, Possible, ThreadHasRoom, Tcb.Ppid;
    if ops != [] {
      StepSpares(k, ops[0], t);
      var k', rest := Step(k, ops[0]), ops[1..];
      assert forall i :: 0 <= i < |rest| ==> rest[i] == ops[i + 1];
      UnflaggedTaskLives(k', rest, t);
    }
  }

  /** Flagged or not, a task keeps its frame as long as it does not run. */
  lemma {:induction false} WaitingTaskKeepsFrame(k: Kernel, ops: seq<Op>, t: nat)
    requires Inv(k) && Runnable(k, ops) && Alloc(k.tcbs, t) && NobodyEnds(k, ops, t)
    requires t !in Share.Slices(k, ops)
    ensures Alloc(Run(k, ops).tcbs, t) && Run(k, ops).tcbs[t].context == k.tcbs[t].context
    decreases |ops|
  {
    hide Inv, Step, Possible, ThreadHasRoom, Tcb.Ppid;
    if ops != [] {
      assert ops[0].OpTick? ==> Current(k) == Share.Slices(k, ops)[0];
      StepSpares(k, ops[0], t);
      var k', rest := Step(k, ops[0]), ops[1..];
      assert forall i :: 0 <= i < |rest| ==> rest[i] == ops[i + 1];
      assert t !in Share.Slices(k', rest);
      WaitingTaskKeepsFrame(k', rest, t);
    }
  }

  /** Task n has not run by the end of a run of operations, and the tick after it picks n. */
  ghost predicate ComesToRun(k: Kernel, ops: seq<Op>, frame: Frame, n: nat)
    requires Inv(k)
  {
    && Alloc(k.tcbs, n) && Runnable(k, ops) && NobodyEnds(k, ops, n) && n !in Share.Slices(k, ops)
    && (var r := Run(k, ops);
        TickKeeps(r, frame);
        r.totalTasks > 1 && Current(r) != n && Current(Tick(r, frame)) == n)
  }

  lemma FirstTickLoads(k: Kernel, ops: seq<Op>, frame: Frame, n: nat)
    requires Inv(k) && ComesToRun(k, ops, frame, n)
    ensures Tick(Run(k, ops), frame).ist == k.tcbs[n].context
  {
    hide Inv, Tick, Runnable, NobodyEnds;
    WaitingTaskKeepsFrame(k, ops, n);
    InvFacts(Run(k, ops));
    TickFields(Run(k, ops), frame);
  }

  /** The first tick that picks a new task n, whatever happens before it, starts the task at its
      entry point with interrupts on, in the kernel's segments, on the top of a stack of its own. */
  lemma FirstRun(k: Kernel, entry: int, flags: Flags, priority: nat, k1: Kernel, ops: seq<Op>, frame: Frame, n: nat)
    requires Inv(k) && 1 <= priority <= 5 && NewTask(k, entry, flags, priority) == Some(k1)
    requires n < |k.tcbs| && !k.tcbs[n].Allocated() && forall j :: 0 <= j < n ==> k.tcbs[j].Allocated()
    requires Inv(k1) && ComesToRun(k1, ops, frame, n)
    ensures var f := Tick(Run(k1, ops), frame).ist;
      && f[19] == entry && f[21] == 0x200 && f[20] == 24
      && f[0] == f[1] == f[2] == f[3] == f[23] == 32
      && f[18] == f[22] == k.stackPool + 8192 * n + 8184 < k.stackPool + 8192 * (n + 1)
      && forall i :: 4 <= i < 18 ==> f[i] == k.tcbs[n].context[i]
  {
    FirstTickLoads(k1, ops, frame, n);
    hide Inv, FirstFree, Tick, Run, ComesToRun;
    NullPointerIffPoolFull(k, entry, flags, priority);
    NewTaskFields(k, entry, flags, priority);
    assert n == FirstFree(k.tcbs, 0);
    hide NewTask;
  }
}
