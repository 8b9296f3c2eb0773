/** The TaskPool object: an array of TCBs, scanned and changed in place. The methods of class
    Task that change a TCB and its threads are here too, since threads are other slots of
    the same array. Every method is proved against the function it performs on the pool. */
module TaskPool {
  import opened Seqs
  import opened CircularList
  import opened KernelState
  import Tree
  import Machine

  /** With no threads, flagging a task touches that task only. */
  lemma FlagLeaf(tcbs: seq<Tcb>, t: nat)
    requires t < |tcbs| && tcbs[t].threads == []
    ensures FlagDelete(tcbs, t) == tcbs[t := tcbs[t].(id := Deleted(tcbs[t].id))]
  {}

  class TaskPool {
    const pool: array<Tcb>
    var numTasks: int
    var nextKey: nat

    /** init over zeroed memory: every slot gets its number and with it a zero key. */
    constructor ()
      ensures fresh(pool) && pool.Length == MAX_TASKS && numTasks == 0 && nextKey == 1
      ensures forall i :: 0 <= i < MAX_TASKS ==> pool[i] == Machine.FreeTcb(i)
    {
      pool := new Tcb[MAX_TASKS](_ => Machine.FreeTcb(0));
      numTasks, nextKey := 0, 1;
      new;
      var i := 0;
      while i < MAX_TASKS
        invariant 0 <= i <= MAX_TASKS && numTasks == 0 && nextKey == 1
        invariant forall j :: 0 <= j < i ==> pool[j] == Machine.FreeTcb(j)
        invariant forall j :: i <= j < MAX_TASKS ==> pool[j] == Machine.FreeTcb(0)
      {
        pool[i] := pool[i].(id := Id(0, Machine.NO_FLAGS, 0, i));
        i := i + 1;
      }
    }

    /** searchTCB; -1 stands for NULL. */
    method SearchTcb(id: Id) returns (r: int)
      ensures Search(pool[..], id) == if r < 0 then None else Some(r)
      ensures r < pool.Length
    {
      r := 0;
      while r < pool.Length
        invariant 0 <= r <= pool.Length
        invariant Search(pool[..], id, r) == Search(pool[..], id)
      {
        if pool[r].Allocated() && pool[r].id == id { return; }
        r := r + 1;
      }
      r := -1;
    }

    /** The scan of allocateTCB. */
    method FindFree() returns (n: nat)
      ensures n == FirstFree(pool[..], 0)
    {
      n := 0;
      while n < pool.Length
        invariant n <= pool.Length
        invariant FirstFree(pool[..], n) == FirstFree(pool[..], 0)
      {
        if !pool[n].Allocated() { return; }
        n := n + 1;
      }
    }

    /** allocateTCB: the first free slot gets the next key and the priority; -1 stands for NULL.
        setPriority tells the threads of the slot their new parent id, but there are none. */
    method AllocateTcb(priority: nat) returns (n: int)
      requires pool.Length == MAX_TASKS && numTasks < MAX_TASKS ==> FirstFree(pool[..], 0) < MAX_TASKS
      requires pool.Length == MAX_TASKS && 1 <= priority <= LEVELS && 1 <= nextKey < KEYS
      requires forall i :: 0 <= i < MAX_TASKS && !pool[i].Allocated() ==> pool[i].threads == []
      modifies this`numTasks, this`nextKey, pool
      ensures old(numTasks) >= MAX_TASKS ==> n == -1 && unchanged(this) && unchanged(pool)
      ensures old(numTasks) < MAX_TASKS ==>
        && n == FirstFree(old(pool[..]), 0)
        && (var c := old(pool[..])[n];
            pool[..] == old(pool[..])[n := c.(id := c.id.(key := old(nextKey), priority := priority))])
        && numTasks == old(numTasks) + 1 && nextKey == NextKey(old(nextKey))
    {
      if numTasks >= MAX_TASKS { return -1; }
      n := FindFree();
      pool[n] := pool[n].(id := pool[n].id.(key := nextKey));
      if priority <= 5 {
        pool[n] := pool[n].(id := pool[n].id.(priority := priority));
      }
      CommitPpids(n);
      numTasks := numTasks + 1;
      nextKey := nextKey + 1;
      if nextKey == KEYS { nextKey := 1; }
    }

    /** commitPPIDOfThreads: every thread in the list of t is told its id. */
    method CommitPpids(t: nat)
      requires t < pool.Length && forall x :: x in pool[t].threads ==> x < pool.Length
      modifies pool
      ensures forall i :: 0 <= i < pool.Length ==>
        pool[i] == if i in old(pool[t].threads) then old(pool[i]).(ppid := old(pool[t].id)) else old(pool[i])
    {
      var threads, id := pool[t].threads, pool[t].id;
      var j := 0;
      while j < |threads|
        invariant 0 <= j <= |threads|
        invariant forall i :: 0 <= i < pool.Length ==>
          pool[i] == if i in threads[..j] then old(pool[i]).(ppid := id) else old(pool[i])
      {
        assert threads[..j + 1] == threads[..j] + [threads[j]];
        assert threads[j] in old(pool[t].threads);
        pool[threads[j]] := pool[threads[j]].(ppid := id);
        j := j + 1;
      }
      assert threads[..j] == threads;
    }

    /** setFlags and setPPID of a new task: it starts out as its own parent. */
    method SetFlagsAndOwnParent(t: nat, flags: Flags)
      requires t < pool.Length
      modifies pool
      ensures var id := old(pool[t]).id.(flags := flags);
        pool[..] == old(pool[..])[t := old(pool[t]).(id := id, ppid := id)]
    {
      pool[t] := pool[t].(id := pool[t].id.(flags := flags));
      pool[t] := pool[t].(ppid := pool[t].id);
    }

    /** Task::init. */
    method InitTask(t: nat, stack: nat, entry: int)
      requires t < pool.Length
      modifies pool
      ensures var c := old(pool[t]);
        pool[..] == old(pool[..])[t := c.(context := InitialFrame(c.context, stack, entry), usingFx := false)]
    {
      var context: Frame := pool[t].context;
      context := context[23 := 32][20 := 24][3 := 32][2 := 32][1 := 32][0 := 32];
      var top := stack + STACK_SIZE - 8;
      context := context[18 := top][22 := top];
      context := context[19 := entry][21 := 0x200];
      pool[t] := pool[t].(context := context, usingFx := false);
    }

    /** setPPID and addThread: t becomes a thread of process p while p has room for it. */
    method AddThread(p: nat, t: nat)
      requires p < pool.Length && t < pool.Length && p != t
      modifies pool
      ensures pool[..] == old(pool[..])
        [t := old(pool[t]).(ppid := old(pool[p].id))]
        [p := old(pool[p]).(threads := PushBack(old(pool[p].threads), t, MAX_THREADS))]
    {
      pool[t] := pool[t].(ppid := pool[p].id);
      pool[p] := pool[p].(threads := PushBack(pool[p].threads, t, MAX_THREADS));
    }

    /** setDeleteFlag. */
    method SetDeleteFlag(t: nat)
      requires t < pool.Length && forall x :: x in pool[t].threads ==> x < pool.Length
      modifies pool
      ensures pool[..] == FlagDelete(old(pool[..]), t)
    {
      pool[t] := pool[t].(id := Deleted(pool[t].id));
      CommitPpids(t);
    }

    /** cleanThread: the delete flag for every thread of t; threads have no threads. */
    method CleanThread(t: nat)
      requires t < pool.Length && t !in pool[t].threads
      requires forall x :: x in pool[t].threads ==> x < pool.Length && pool[x].threads == []
      modifies pool
      ensures pool[..] == CleanThreads(old(pool[..]), t)
    {
      var threads := pool[t].threads;
      var j := 0;
      while j < |threads|
        invariant 0 <= j <= |threads|
        invariant forall i :: 0 <= i < pool.Length ==>
          pool[i] == if i in threads[..j] then old(pool[i]).(id := Deleted(old(pool[i]).id)) else old(pool[i])
      {
        assert threads[..j + 1] == threads[..j] + [threads[j]];
        ghost var before := pool[..];
        assert threads[j] in threads;
        FlagLeaf(before, threads[j]);
        SetDeleteFlag(threads[j]);
        assert forall i :: 0 <= i < pool.Length ==> pool[i] == pool[..][i];
        j := j + 1;
      }
      assert threads[..j] == threads;
    }

    /** What deleteTask does to a task that it cannot free: setDeleteFlag and cleanThread. */
    method FlagTask(t: nat)
      requires Tree.SlotsNumbered(pool[..]) && TreeOk(pool[..]) && t < pool.Length
      modifies pool
      ensures pool[..] == MarkDeleted(old(pool[..]), t)
    {
      hide FlagDelete, CleanThreads, TreeOk, Tree.SlotsNumbered;
      Machine.FlaggedThreadsAreBare(pool[..], t);
      SetDeleteFlag(t);
      CleanThread(t);
    }

    /** rmThread: the first thread of p whose id is that of t leaves the list. */
    method RmThread(p: nat, t: nat)
      requires p < pool.Length && t < pool.Length && Tree.SlotsNumbered(pool[..])
      requires forall x :: x in pool[p].threads ==> x < pool.Length
      modifies pool
      ensures pool[..] == old(pool[..])[p := old(pool[p]).(threads := Remove(old(pool[p].threads), t))]
    {
      var threads := pool[p].threads;
      var j := 0;
      while j < |threads|
        invariant 0 <= j <= |threads|
        invariant forall i :: 0 <= i < j ==> threads[i] != t
      {
        assert threads[j] in threads;
        if pool[threads[j]].id == pool[t].id {
          assert pool[..][threads[j]].id.no == threads[j] && pool[..][t].id.no == t;
          RemoveAt(threads, j);
          pool[p] := pool[p].(threads := threads[..j] + threads[j + 1..]);
          return;
        }
        j := j + 1;
      }
      assert t !in threads;
      assert pool[..] == old(pool[..])[p := old(pool[p]).(threads := Remove(old(pool[p].threads), t))];
    }

    /** rmThread on a thread list that is a list object: walk it with its iterator and take out
        the first thread whose id is that of t. The list does what RmThread does. */
    method RmThreadFrom(list: List<nat>, t: nat)
      requires list.Valid() && t < pool.Length && Tree.SlotsNumbered(pool[..])
      requires forall x :: x in list.contents ==> x < pool.Length
      modifies list, list.next, list.used
      ensures list.Valid() && list.contents == Remove(old(list.contents), t) && pool[..] == old(pool[..])
    {
      hide List.Valid, List.AtPos;
      ghost var q := list.contents;
      list.Begin();
      var j := 0;
      while j < list.num
        invariant list.Valid() && list.contents == q && list.num == |q| && 0 <= j <= |q|
        invariant j < |q| ==> list.AtPos() && list.pos == j
        invariant forall i :: 0 <= i < j ==> q[i] != t
        invariant pool[..] == old(pool[..])
      {
        var y := list.Get();
        assert y in q && pool[..][y].id.no == y && pool[..][t].id.no == t;
        if pool[y].id == pool[t].id {
          RemoveAt(q, j);
          list.Remove();
          return;
        }
        list.Advance();
        j := j + 1;
      }
      assert t !in q;
    }

    /** freeTCB. */
    method FreeTcb(t: nat)
      requires Tree.SlotsNumbered(pool[..]) && TreeOk(pool[..]) && Alloc(pool[..], t)
      modifies pool, this`numTasks
      ensures pool[..] == Free(old(pool[..]), t) && numTasks == old(numTasks) - 1
    {
      if pool[t].id.flags.thread {
        Tree.ParentIsFound(pool[..], t);
        var p := SearchTcb(pool[t].Ppid());
        assert forall x :: x in pool[p].threads ==> IsChild(pool[..], p, x);
        RmThread(p, t);
      }
      pool[t] := pool[t].(id := pool[t].id.(key := 0));
      numTasks := numTasks - 1;
    }
  }
}