/** What the steps other than task creation do to the task slots. */
module Effects {
  import opened Seqs
  import opened KernelState
  import opened Machine
  import Tree
  import Wheel

  /** An id stays, is freed, or gets the delete flag. */
  predicate IdStep(a: Id, b: Id) {
    b == a || b == a.(key := 0) || b == Deleted(a)
  }

  /** What happens to a slot when no task is created. */
  ghost predicate SlotStep(a: Tcb, b: Tcb) {
    IdStep(a.id, b.id) && |b.threads| <= |a.threads| && (forall x :: x in b.threads ==> x in a.threads)
  }

  /** Ticks and deletions move every slot by a SlotStep and leave the FPU state alone. */
  ghost predicate SlotsStep(k: Kernel, k': Kernel) {
    && |k.tcbs| == |k'.tcbs| == MAX_TASKS
    && k'.exFxUser == k.exFxUser && k'.hw == k.hw && k'.nextKey == k.nextKey && k'.cursor == k.cursor
    && (forall i :: 0 <= i < MAX_TASKS ==>
          && SlotStep(k.tcbs[i], k'.tcbs[i])
          && k'.tcbs[i].usingFx == k.tcbs[i].usingFx && k'.tcbs[i].fx == k.tcbs[i].fx)
  }

  lemma {:induction false} RemoveShrinks(q: seq<nat>, x: nat)
    ensures forall y :: y in Remove(q, x) ==> y in q
  {
    if q != [] { RemoveShrinks(q[1..], x); }
  }

  /** A slot of which only the id and the thread list may have changed. */
  ghost predicate SlotKept(a: Tcb, b: Tcb) {
    SlotStep(a, b) && b.context == a.context && b.usingFx == a.usingFx && b.fx == a.fx
  }

  lemma FreeKeepsSlots(tcbs: seq<Tcb>, t: nat)
    requires Tree.SlotsNumbered(tcbs) && TreeOk(tcbs) && Alloc(tcbs, t) && tcbs[t].threads == []
    ensures forall i :: 0 <= i < |tcbs| ==>
      SlotKept(tcbs[i], Free(tcbs, t)[i]) && (i != t ==> Free(tcbs, t)[i].id == tcbs[i].id)
  {
    Tree.FreeFields(tcbs, t);
    hide TreeOk, Free;
    forall i | 0 <= i < |tcbs|
      ensures SlotKept(tcbs[i], Free(tcbs, t)[i])
    {
      RemoveShrinks(tcbs[i].threads, t);
    }
  }

  lemma MarkKeepsSlots(tcbs: seq<Tcb>, t: nat)
    requires Tree.SlotsNumbered(tcbs) && TreeOk(tcbs) && t < |tcbs|
    ensures forall i :: 0 <= i < |tcbs| ==>
      SlotKept(tcbs[i], MarkDeleted(tcbs, t)[i]) && MarkDeleted(tcbs, t)[i].id.key == tcbs[i].id.key
  {
    hide TreeOk, MarkDeleted;
    Tree.MarkDeletedFields(tcbs, t);
  }

  /** What taking the running task off its queue does to the slots. */
  lemma RequeueFields(k: Kernel)
    requires Inv(k)
    ensures SlotsStep(k, Switch(k))
    ensures forall i :: 0 <= i < MAX_TASKS ==> Switch(k).tcbs[i].context == k.tcbs[i].context
  {
    hide Inv, TreeOk, QueuesOk, Wheel.Pick, Free, Push, Tree.SlotsNumbered;
    InvFacts(k);
    var c := k.tcbs[Current(k)];
    if c.id.flags.delete && c.threads == [] { FreeKeepsSlots(k.tcbs, Current(k)); }
  }

  /** What a tick with more than the shell does to the slots. */
  lemma TickFields(k: Kernel, frame: Frame)
    requires Inv(k) && k.totalTasks > 1
    ensures var k' := Tick(k, frame);
      && Inv(k') && SlotsStep(k, k')
      && k'.ts == (k.exFxUser != k'.tcbs[Current(k')].id)
      && k'.ist == k'.tcbs[Current(k')].context
      && (forall i :: 0 <= i < MAX_TASKS ==>
            k'.tcbs[i].context == if i == Current(k) then frame else k.tcbs[i].context)
  {
    hide Inv, Requeue, PickLevel, QueuesOk;
    var k1, k', cur := Switch(k), Tick(k, frame), Current(k);
    InvFacts(k);
    assert Inv(k1) by { SwitchKeeps(k); }
    assert Inv(k') by { TickKeeps(k, frame); }
    InvFacts(k1);
    InvFacts(k');
    assert Current(k') == Current(k1);
    RequeueFields(k);
  }

  /** What a deletion does to the slots. */
  lemma DeleteFields(k: Kernel, no: nat)
    requires Inv(k)
    ensures var k' := DeleteTask(k, no);
      && SlotsStep(k, k') && k'.ts == k.ts
      && k'.tcbs[Current(k)].id.key == k.tcbs[Current(k)].id.key
      && (forall i :: 0 <= i < MAX_TASKS ==> k'.tcbs[i].context == k.tcbs[i].context)
  {
    hide Inv, Free, MarkDeleted, TreeOk, QueuesOk, Tree.SlotsNumbered, Push, LevelOf;
    InvFacts(k);
    DeleteTargetFacts(k, no);
    if no == Current(k) || (Alloc(k.tcbs, no) && k.tcbs[no].threads != []) {
      MarkKeepsSlots(k.tcbs, no);
    } else if Alloc(k.tcbs, no) {
      FreeKeepsSlots(k.tcbs, no);
    }
  }

  /** #NM leaves ids and thread lists alone. */
  lemma TrapFields(k: Kernel)
    requires Inv(k)
    ensures var k' := TrapFpu(k);
      && |k'.tcbs| == MAX_TASKS
      && forall i :: 0 <= i < MAX_TASKS ==>
        && k'.tcbs[i].id == k.tcbs[i].id && k'.tcbs[i].threads == k.tcbs[i].threads
        && k'.tcbs[i].context == k.tcbs[i].context
  {}

  /** All steps but task creation move each slot by a SlotStep. */
  lemma StepSlots(k: Kernel, op: Op)
    requires Inv(k) && Enabled(k, op) && !op.OpNew?
    ensures var k' := Step(k, op);
      && Inv(k') && k'.nextKey == k.nextKey
      && (!op.OpProbe? ==> k'.cursor == k.cursor)
      && (!op.OpTrap? ==> k'.exFxUser == k.exFxUser)
      && (op.OpTrap? ==> k'.exFxUser == k.tcbs[Current(k)].id)
      && forall i :: 0 <= i < MAX_TASKS ==> SlotStep(k.tcbs[i], k'.tcbs[i])
  {
    hide Inv, DeleteTask, Switch;
    StepKeeps(k, op);
    InvFacts(k);
    match op
    case OpTick(frame) => if k.totalTasks > 1 { TickFields(k, frame); }
    case OpDelete(no) => DeleteFields(k, no);
    case OpProbe =>
    case OpTrap => TrapFields(k);
    case OpExec(_) =>
  }
}
