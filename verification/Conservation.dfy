/** What the invariant means for a reader of the task list: no task is lost or doubled, no
    push is dropped, and an id names one task until the key counter has come round. */
module Conservation {
  import opened Seqs
  import opened KernelState
  import opened Machine
  import opened Effects
  import Tree
  import Queues

  // ------------------------------------------------------------------ one task, one place

  /** How often t stands in the queues. */
  ghost function Occurrences(queues: seq<seq<nat>>, t: nat): nat {
    if queues == [] then 0 else multiset(queues[0])[t] + Occurrences(queues[1..], t)
  }

  lemma {:induction false} NoDupOccursOnce(q: seq<nat>, t: nat)
    requires NoDup(q)
    ensures multiset(q)[t] == if t in q then 1 else 0
  {
    if q != [] {
      PopMembers(q);
      NoDupOccursOnce(q[1..], t);
      assert q == [q[0]] + q[1..];
    }
  }

  lemma {:induction false} OccursAtOneLevel(queues: seq<seq<nat>>, t: nat, l: int)
    requires forall j :: 0 <= j < |queues| ==> NoDup(queues[j]) && (t in queues[j] <==> j == l)
    ensures Occurrences(queues, t) == if 0 <= l < |queues| then 1 else 0
  {
    if queues != [] {
      NoDupOccursOnce(queues[0], t);
      OccursAtOneLevel(queues[1..], t, l - 1);
    }
  }

  /** In every reachable state an allocated task stands once in the queues and a free slot
      never; the three counts agree, and no queue is too full for one more task. */
  lemma NoTaskLostOrDoubled(k: Kernel, t: nat)
    requires Inv(k) && t < MAX_TASKS
    ensures Occurrences(k.queues, t) == if k.tcbs[t].Allocated() then 1 else 0
    ensures k.totalTasks == k.numTasks == |AllocatedSlots(k.tcbs)| == Total(k.queues)
    ensures !k.tcbs[t].Allocated() ==> forall l :: 0 <= l < LEVELS ==> |k.queues[l]| < MAX_TASKS
  {
    var l := if Alloc(k.tcbs, t) then k.tcbs[t].id.priority - 1 else -1;
    forall j | 0 <= j < LEVELS
      ensures NoDup(k.queues[j]) && (t in k.queues[j] <==> j == l)
      ensures !k.tcbs[t].Allocated() ==> |k.queues[j]| < MAX_TASKS
    {
      Queues.QueueHasRoom(k.tcbs, k.queues, j, t);
      assert t in k.queues[j] ==> Alloc(k.tcbs, t);
    }
    OccursAtOneLevel(k.queues, t, l);
  }

  /** The listing cursor never points behind the pool. */
  lemma {:induction false} CursorStays(k: Kernel, ops: seq<Op>)
    requires Inv(k) && Runnable(k, ops) && k.cursor <= MAX_TASKS
    ensures Run(k, ops).cursor <= MAX_TASKS
    decreases |ops|
  {
    hide PoolOk, TreeOk, QueuesOk, CountsOk, LevelsOk;
    if ops != [] {
      StepKeeps(k, ops[0]);
      InvFacts(k);
      if !ops[0].OpNew? { StepSlots(k, ops[0]); }
      CursorStays(Step(k, ops[0]), ops[1..]);
    }
  }

  /** From boot, every run keeps all of it. */
  lemma EveryRunConserves(stackPool: nat, hw: Fpu, ops: seq<Op>, t: nat)
    requires t < MAX_TASKS
    requires (BootOk(stackPool, hw); Runnable(Boot(stackPool, hw), ops))
    ensures (BootOk(stackPool, hw); var k := Run(Boot(stackPool, hw), ops);
      && Occurrences(k.queues, t) == (if k.tcbs[t].Allocated() then 1 else 0)
      && k.totalTasks == k.numTasks == |AllocatedSlots(k.tcbs)| == Total(k.queues)
      && (!k.tcbs[t].Allocated() ==> forall l :: 0 <= l < LEVELS ==> |k.queues[l]| < MAX_TASKS)
      && TreeOk(k.tcbs)
      && k.queues[k.curLev] != [] && k.cursor <= MAX_TASKS)
  {
    BootOk(stackPool, hw);
    CursorStays(Boot(stackPool, hw), ops);
    NoTaskLostOrDoubled(Run(Boot(stackPool, hw), ops), t);
  }

  // ------------------------------------------------------------------ ids

  /** How many creations until the key counter shows the given key again. */
  function KeyDistance(next: nat, key: nat): nat
    requires 1 <= next < KEYS && 1 <= key < KEYS
  {
    if next <= key then key - next else key + KEYS - 1 - next
  }

  /** The key counter after n more creations. */
  function KeyAfter(next: nat, n: nat): nat
    decreases n
  {
    if n == 0 then next else KeyAfter(NextKey(next), n - 1)
  }

  lemma {:induction false} KeyComesCloser(next: nat, key: nat, n: nat)
    requires 1 <= next < KEYS && 1 <= key < KEYS && n <= KeyDistance(next, key)
    ensures 1 <= KeyAfter(next, n) < KEYS
    ensures KeyDistance(KeyAfter(next, n), key) == KeyDistance(next, key) - n
    decreases n
  {
    if n > 0 { KeyComesCloser(NextKey(next), key, n - 1); }
  }

  /** A key that was just issued is up for issue again after exactly 2^32 - 2 more creations,
      and not before. */
  lemma IssuedKeyReturns(key: nat, n: nat)
    requires 1 <= key < KEYS && n <= KEYS - 2
    ensures KeyAfter(NextKey(key), n) == key <==> n == KEYS - 2
  {
    KeyComesCloser(NextKey(key), key, n);
  }

  lemma StepMovesKey(k: Kernel, op: Op, id: Id)
    requires Inv(k) && Enabled(k, op)
    requires id.no < MAX_TASKS && 1 <= id.key < KEYS && k.tcbs[id.no].id.key != id.key
    requires op.OpNew? ==> KeyDistance(k.nextKey, id.key) > 0
    ensures Inv(Step(k, op)) && Step(k, op).tcbs[id.no].id.key != id.key
    ensures KeyDistance(Step(k, op).nextKey, id.key)
         == KeyDistance(k.nextKey, id.key) - if op.OpNew? then 1 else 0
  {
    hide Inv, NewTask, Tick, DeleteTask, TrapFpu, ThreadHasRoom;
    StepKeeps(k, op);
    InvFacts(k);
    InvFacts(Step(k, op));
    if op.OpNew? {
      NewTaskFields(k, op.entry, op.flags, op.priority);
      NewTaskCounters(k, op.entry, op.flags, op.priority);
    } else {
      StepSlots(k, op);
      assert SlotStep(k.tcbs[id.no], Step(k, op).tcbs[id.no]);
    }
  }

  lemma {:induction false} RetiredKeyStaysAway(k: Kernel, ops: seq<Op>, id: Id)
    requires Inv(k) && Runnable(k, ops)
    requires id.no < MAX_TASKS && 1 <= id.key < KEYS && k.tcbs[id.no].id.key != id.key
    requires News(ops) <= KeyDistance(k.nextKey, id.key)
    ensures Run(k, ops).tcbs[id.no].id.key != id.key
    decreases |ops|
  {
    if ops != [] {
      StepMovesKey(k, ops[0], id);
      RetiredKeyStaysAway(Step(k, ops[0]), ops[1..], id);
    }
  }

  /** An id whose task is gone is found by searchTCB in no later state, until the creations
      bring the key counter back to its key. */
  lemma RetiredIdIsNeverFound(k: Kernel, ops: seq<Op>, id: Id)
    requires Inv(k) && Runnable(k, ops)
    requires id.no < MAX_TASKS && 1 <= id.key < KEYS && k.tcbs[id.no].id.key != id.key
    requires News(ops) <= KeyDistance(k.nextKey, id.key)
    ensures Search(Run(k, ops).tcbs, id) == None
  {
    RetiredKeyStaysAway(k, ops, id);
    Tree.SearchIsLookup(Run(k, ops).tcbs, id);
  }
}
