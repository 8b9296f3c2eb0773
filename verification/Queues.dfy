/** The run queues: every allocated task is in exactly one queue, once, at its own level. */
module Queues {
  import opened Seqs
  import opened KernelState
  import Wheel

  lemma {:induction false} TotalUpdate(queues: seq<seq<nat>>, l: nat, q: seq<nat>)
    requires l < |queues|
    ensures Total(queues[l := q]) == Total(queues) - |queues[l]| + |q|
  {
    if l > 0 {
      assert queues[l := q][1..] == queues[1..][l - 1 := q];
      TotalUpdate(queues[1..], l - 1, q);
    }
  }

  /** Levels are disjoint, because a task has one priority. */
  lemma LevelIsPriority(tcbs: seq<Tcb>, queues: seq<seq<nat>>, t: nat)
    requires QueuesOk(tcbs, queues)
    ensures LevelOf(queues, t) == if Alloc(tcbs, t) then tcbs[t].id.priority - 1 else LEVELS
  {
    var l := LevelOf(queues, t);
    if Alloc(tcbs, t) {
      assert t in queues[tcbs[t].id.priority - 1];
    }
    if l < LEVELS {
      assert t in queues[l];
    }
  }

  /** No queue is longer than the pool; one shorter while some slot is not in it. */
  lemma QueueHasRoom(tcbs: seq<Tcb>, queues: seq<seq<nat>>, l: nat, t: nat)
    requires |tcbs| == MAX_TASKS && QueuesOk(tcbs, queues)
    requires l < LEVELS && t < MAX_TASKS
    ensures |queues[l]| <= MAX_TASKS
    ensures t !in queues[l] ==> |queues[l]| < MAX_TASKS
    ensures forall x :: x in queues[l] ==> x < MAX_TASKS
  {
    var q := queues[l];
    assert NoDup(q);
    assert forall x :: x in q ==> Alloc(tcbs, x);
    NoDupLength(q, MAX_TASKS);
    if t !in q {
      AppendMembers(q, t);
      NoDupLength(q + [t], MAX_TASKS);
    }
  }

  /** Queues only look at which slots are allocated and at their priorities. */
  lemma SamePlaces(tcbs: seq<Tcb>, r: seq<Tcb>, queues: seq<seq<nat>>)
    requires QueuesOk(tcbs, queues) && |r| == |tcbs|
    requires forall i :: 0 <= i < |r| ==>
      r[i].Allocated() == tcbs[i].Allocated() && r[i].id.priority == tcbs[i].id.priority
    ensures QueuesOk(r, queues)
    ensures AllocatedSlots(r) == AllocatedSlots(tcbs)
  {
    forall l, x | 0 <= l < LEVELS && x in queues[l]
      ensures Alloc(r, x) && r[x].id.priority == l + 1
    {
      assert Alloc(tcbs, x) && r[x].id.priority == tcbs[x].id.priority;
    }
    assert forall x :: Alloc(r, x) <==> Alloc(tcbs, x);
  }

  /** Taking a task out and queueing it again at the back of its level. */
  lemma RequeueKeeps(tcbs: seq<Tcb>, queues: seq<seq<nat>>, t: nat)
    requires |tcbs| == MAX_TASKS && QueuesOk(tcbs, queues) && Alloc(tcbs, t)
    ensures var l := tcbs[t].id.priority - 1;
      var r := Push(queues[l := Remove(queues[l], t)], l, t);
      && r == queues[l := Remove(queues[l], t) + [t]]
      && QueuesOk(tcbs, r) && Total(r) == Total(queues) && Wheel.Sizes(r) == Wheel.Sizes(queues)
  {
    var l := tcbs[t].id.priority - 1;
    var q := queues[l];
    assert t in q && NoDup(q);
    RemoveMembers(q, t);
    QueueHasRoom(tcbs, queues, l, t);
    var q' := Remove(q, t) + [t];
    var r := queues[l := q'];
    assert Push(queues[l := Remove(q, t)], l, t) == r;
    AppendMembers(Remove(q, t), t);
    TotalUpdate(queues, l, q');
    assert forall k :: 0 <= k < LEVELS && k != l ==> r[k] == queues[k];
    assert forall y :: y in q' <==> y in q;
  }

  /** The tick's pop and push rotate one queue. */
  lemma FrontIsRemoved(q: seq<nat>)
    requires q != []
    ensures q[1..] == Remove(q, q[0])
  {}

  /** A freed task leaves its queue. */
  lemma ReleaseKeeps(tcbs: seq<Tcb>, queues: seq<seq<nat>>, t: nat, r: seq<Tcb>)
    requires |tcbs| == MAX_TASKS && QueuesOk(tcbs, queues) && Alloc(tcbs, t)
    requires |r| == |tcbs| && !r[t].Allocated()
    requires forall i :: 0 <= i < |r| && i != t ==>
      r[i].Allocated() == tcbs[i].Allocated() && r[i].id.priority == tcbs[i].id.priority
    ensures var l := tcbs[t].id.priority - 1;
      var s := queues[l := Remove(queues[l], t)];
      QueuesOk(r, s) && Total(s) == Total(queues) - 1
    ensures |AllocatedSlots(r)| == |AllocatedSlots(tcbs)| - 1
  {
    var l := tcbs[t].id.priority - 1;
    var q := queues[l];
    assert t in q && NoDup(q);
    RemoveMembers(q, t);
    TotalUpdate(queues, l, Remove(q, t));
    var s := queues[l := Remove(q, t)];
    assert forall k :: 0 <= k < LEVELS && k != l ==> s[k] == queues[k];
    assert forall x :: Alloc(r, x) <==> Alloc(tcbs, x) && x != t;
    assert AllocatedSlots(r) == AllocatedSlots(tcbs) - {t};
  }

  lemma AllocateOne(tcbs: seq<Tcb>, t: nat, r: seq<Tcb>)
    requires t < |tcbs| == |r| && !tcbs[t].Allocated() && r[t].Allocated()
    requires forall i :: 0 <= i < |r| && i != t ==> r[i].Allocated() == tcbs[i].Allocated()
    ensures |AllocatedSlots(r)| == |AllocatedSlots(tcbs)| + 1
  {
    assert AllocatedSlots(r) == AllocatedSlots(tcbs) + {t};
  }

  /** A new task joins the queue of its priority. */
  lemma EnterKeeps(tcbs: seq<Tcb>, queues: seq<seq<nat>>, t: nat, r: seq<Tcb>)
    requires |tcbs| == MAX_TASKS && QueuesOk(tcbs, queues)
    requires t < MAX_TASKS && !tcbs[t].Allocated()
    requires |r| == |tcbs| && r[t].Allocated() && 1 <= r[t].id.priority <= LEVELS
    requires forall i :: 0 <= i < |r| && i != t ==>
      r[i].Allocated() == tcbs[i].Allocated() && r[i].id.priority == tcbs[i].id.priority
    ensures var l := r[t].id.priority - 1;
      var s := Push(queues, l, t);
      && s == queues[l := queues[l] + [t]]
      && QueuesOk(r, s) && Total(s) == Total(queues) + 1
    ensures |AllocatedSlots(r)| == |AllocatedSlots(tcbs)| + 1
  {
    hide Total, AllocatedSlots, NoDup;
    var l := r[t].id.priority - 1;
    var q := queues[l];
    assert t in q ==> Alloc(tcbs, t);
    QueueHasRoom(tcbs, queues, l, t);
    TotalUpdate(queues, l, q + [t]);
    AllocateOne(tcbs, t, r);
    AppendMembers(q, t);
    var s := queues[l := q + [t]];
    assert Push(queues, l, t) == s;
    forall x | Alloc(r, x)
      ensures 1 <= r[x].id.priority <= LEVELS && x in s[r[x].id.priority - 1]
    {
      if x != t { assert Alloc(tcbs, x); }
    }
  }

  /** allocateTCB finds a slot whenever the count says there is one. */
  lemma FreeSlotExists(tcbs: seq<Tcb>)
    requires |tcbs| == MAX_TASKS
    ensures FirstFree(tcbs, 0) < MAX_TASKS <==> |AllocatedSlots(tcbs)| < MAX_TASKS
  {
    SubsetSize(AllocatedSlots(tcbs), Below(MAX_TASKS));
    if FirstFree(tcbs, 0) == MAX_TASKS {
      assert AllocatedSlots(tcbs) == Below(MAX_TASKS);
    } else {
      assert FirstFree(tcbs, 0) in Below(MAX_TASKS);
    }
  }
}
