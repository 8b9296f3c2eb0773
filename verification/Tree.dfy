/** The process/thread tree: parents are named by id and ids change with the delete flag,
    yet the two directions of the tree never disagree. */
module Tree {
  import opened Seqs
  import opened KernelState

  ghost predicate SlotsNumbered(tcbs: seq<Tcb>) {
    forall i :: 0 <= i < |tcbs| ==> tcbs[i].id.no == i
  }

  /** searchTCB by id is the direct look-up of the slot number inside the id. */
  lemma SearchIsLookup(tcbs: seq<Tcb>, id: Id)
    requires SlotsNumbered(tcbs)
    ensures Search(tcbs, id) == if Alloc(tcbs, id.no) && tcbs[id.no].id == id then Some(id.no) else None
  {
    var r := Search(tcbs, id);
    if r.Some? {
      assert tcbs[r.value].id.no == r.value;
    }
  }

  /** The ids of two allocated tasks differ. */
  lemma IdsAreUnique(tcbs: seq<Tcb>, i: nat, j: nat)
    requires SlotsNumbered(tcbs)
    requires i < |tcbs| && j < |tcbs| && i != j
    ensures tcbs[i].id != tcbs[j].id
  {
    assert tcbs[i].id.no == i;
    assert tcbs[j].id.no == j;
  }

  /** The process a task belongs to, found as newTask and freeTCB find it. */
  lemma ParentIsFound(tcbs: seq<Tcb>, i: nat)
    requires SlotsNumbered(tcbs) && TreeOk(tcbs)
    requires Alloc(tcbs, i)
    ensures Search(tcbs, tcbs[i].Ppid()).Some?
    ensures var p := Search(tcbs, tcbs[i].Ppid()).value;
            && p < |tcbs| && Alloc(tcbs, p) && !tcbs[p].id.flags.thread && tcbs[p].id == tcbs[i].Ppid()
            && if tcbs[i].id.flags.thread then p != i && i in tcbs[p].threads else p == i
  {
    SearchIsLookup(tcbs, tcbs[i].Ppid());
    if tcbs[i].id.flags.thread {
      assert HasParent(tcbs, i);
    } else {
      assert tcbs[i].id.no == i;
    }
  }

  /** Threads have no threads of their own, and a free slot has none either. */
  lemma OnlyProcessesHaveThreads(tcbs: seq<Tcb>, p: nat)
    requires SlotsNumbered(tcbs) && TreeOk(tcbs)
    requires p < |tcbs| && tcbs[p].threads != []
    ensures Alloc(tcbs, p) && !tcbs[p].id.flags.thread
  {
    var i := tcbs[p].threads[0];
    assert i in tcbs[p].threads;
    assert IsChild(tcbs, p, i);
    assert HasParent(tcbs, i);
    assert tcbs[p].id.no == p;
  }

  /** A thread is in the list of one process only. */
  lemma OneParent(tcbs: seq<Tcb>, p: nat, q: nat, i: nat)
    requires SlotsNumbered(tcbs) && TreeOk(tcbs)
    requires p < |tcbs| && q < |tcbs|
    requires i in tcbs[p].threads && i in tcbs[q].threads
    ensures p == q
  {
    assert IsChild(tcbs, p, i) && IsChild(tcbs, q, i);
    assert tcbs[p].id.no == p && tcbs[q].id.no == q;
  }

  /** The tree looks at ids, parent ids and thread lists only. */
  lemma SameTree(tcbs: seq<Tcb>, r: seq<Tcb>)
    requires TreeOk(tcbs) && |r| == |tcbs|
    requires forall i :: 0 <= i < |r| ==>
      r[i].id == tcbs[i].id && r[i].ppid == tcbs[i].ppid && r[i].threads == tcbs[i].threads
    ensures TreeOk(r)
  {
    forall i | 0 <= i < |r| && r[i].Allocated() && r[i].id.flags.thread
      ensures HasParent(r, i)
    {
      assert HasParent(tcbs, i);
    }
    forall p, i | 0 <= p < |r| && i in r[p].threads
      ensures IsChild(r, p, i)
    {
      assert IsChild(tcbs, p, i);
    }
  }

  /** deleteTask's marking, slot by slot: t and its threads are flagged, and the threads
      are told the new id of t. */
  lemma MarkDeletedFields(tcbs: seq<Tcb>, t: nat)
    requires SlotsNumbered(tcbs) && TreeOk(tcbs) && t < |tcbs|
    ensures var r := MarkDeleted(tcbs, t);
      && SlotsNumbered(r)
      && forall i :: 0 <= i < |tcbs| ==>
        && r[i].id == (if i == t || i in tcbs[t].threads then Deleted(tcbs[i].id) else tcbs[i].id)
        && r[i].ppid == (if i in tcbs[t].threads then r[t].id else tcbs[i].ppid)
        && r[i].threads == tcbs[i].threads && r[i].context == tcbs[i].context
        && r[i].usingFx == tcbs[i].usingFx && r[i].fx == tcbs[i].fx
  {
    if t in tcbs[t].threads {
      assert IsChild(tcbs, t, t);
      OnlyProcessesHaveThreads(tcbs, t);
      assert false;
    }
    assert forall i :: 0 <= i < |tcbs| ==> tcbs[i].id.no == i;
  }

  /** The tree survives the id change of a deletion. */
  lemma MarkDeletedKeepsTree(tcbs: seq<Tcb>, t: nat)
    requires SlotsNumbered(tcbs) && TreeOk(tcbs) && t < |tcbs|
    ensures TreeOk(MarkDeleted(tcbs, t))
  {
    var r := MarkDeleted(tcbs, t);
    MarkDeletedFields(tcbs, t);
    forall i | 0 <= i < |r| && r[i].Allocated() && r[i].id.flags.thread
      ensures HasParent(r, i)
    {
      assert HasParent(tcbs, i);
      var p := tcbs[i].ppid.no;
      assert p in tcbs[t].threads ==> IsChild(tcbs, t, p);
      assert i in tcbs[t].threads ==> IsChild(tcbs, t, i);
    }
    forall p, i | 0 <= p < |r| && i in r[p].threads
      ensures IsChild(r, p, i)
    {
      assert IsChild(tcbs, p, i);
      OnlyProcessesHaveThreads(tcbs, p);
      assert p in tcbs[t].threads ==> IsChild(tcbs, t, p);
      if i in tcbs[t].threads { OneParent(tcbs, p, t, i); }
    }
    forall p | 0 <= p < |r|
      ensures NoDup(r[p].threads) && |r[p].threads| <= MAX_THREADS
    {
      assert r[p].threads == tcbs[p].threads;
    }
  }

  /** freeTCB of a task without threads, slot by slot. */
  lemma FreeFields(tcbs: seq<Tcb>, t: nat)
    requires SlotsNumbered(tcbs) && TreeOk(tcbs) && Alloc(tcbs, t) && tcbs[t].threads == []
    ensures var r := Free(tcbs, t);
      && SlotsNumbered(r)
      && r[t] == tcbs[t].(id := tcbs[t].id.(key := 0))
      && forall i :: 0 <= i < |tcbs| && i != t ==> r[i] == tcbs[i].(threads := Remove(tcbs[i].threads, t))
  {
    var r := Free(tcbs, t);
    ParentIsFound(tcbs, t);
    forall i | 0 <= i < |tcbs| && i != t
      ensures r[i] == tcbs[i].(threads := Remove(tcbs[i].threads, t))
    {
      if t in tcbs[i].threads {
        assert IsChild(tcbs, i, t);
        assert tcbs[i].id.no == i;
      }
    }
    assert forall i :: 0 <= i < |tcbs| ==> tcbs[i].id.no == i;
  }

  lemma FreeKeepsTree(tcbs: seq<Tcb>, t: nat)
    requires SlotsNumbered(tcbs) && TreeOk(tcbs) && Alloc(tcbs, t) && tcbs[t].threads == []
    ensures TreeOk(Free(tcbs, t))
  {
    var r := Free(tcbs, t);
    FreeFields(tcbs, t);
    forall i | 0 <= i < |r| && r[i].Allocated() && r[i].id.flags.thread
      ensures HasParent(r, i)
    {
      assert HasParent(tcbs, i);
      RemoveMembers(tcbs[tcbs[i].ppid.no].threads, t);
    }
    forall p, i | 0 <= p < |r| && i in r[p].threads
      ensures IsChild(r, p, i)
    {
      RemoveMembers(tcbs[p].threads, t);
      assert IsChild(tcbs, p, i);
    }
    forall p | 0 <= p < |r|
      ensures NoDup(r[p].threads) && |r[p].threads| <= MAX_THREADS
    {
      RemoveMembers(tcbs[p].threads, t);
      assert p != t ==> r[p].threads == Remove(tcbs[p].threads, t);
    }
  }

  /** A fresh process: slot n, its own parent, no threads. */
  lemma NewProcessKeepsTree(tcbs: seq<Tcb>, n: nat, c: Tcb)
    requires SlotsNumbered(tcbs) && TreeOk(tcbs)
    requires n < |tcbs| && !tcbs[n].Allocated()
    requires c.Allocated() && c.threads == tcbs[n].threads && !c.id.flags.thread && c.id.no == n
    ensures TreeOk(tcbs[n := c])
    ensures c.threads == []
  {
    var r := tcbs[n := c];
    if tcbs[n].threads != [] { OnlyProcessesHaveThreads(tcbs, n); }
    forall i | 0 <= i < |r| && r[i].Allocated() && r[i].id.flags.thread
      ensures HasParent(r, i)
    {
      assert HasParent(tcbs, i);
    }
    forall p, i | 0 <= p < |r| && i in r[p].threads
      ensures IsChild(r, p, i)
    {
      assert i in tcbs[p].threads;
      assert IsChild(tcbs, p, i);
    }
  }

  /** A fresh thread of process p: it joins the list while the list has room. */
  lemma NewThreadKeepsTree(tcbs: seq<Tcb>, n: nat, c: Tcb, p: nat)
    requires SlotsNumbered(tcbs) && TreeOk(tcbs)
    requires n < |tcbs| && !tcbs[n].Allocated()
    requires c.Allocated() && c.threads == tcbs[n].threads && c.id.flags.thread && c.id.no == n
    requires Alloc(tcbs, p) && !tcbs[p].id.flags.thread && c.ppid == tcbs[p].id
    requires |tcbs[p].threads| < MAX_THREADS
    ensures TreeOk(tcbs[n := c][p := tcbs[p].(threads := tcbs[p].threads + [n])])
    ensures c.threads == []
  {
    var r := tcbs[n := c][p := tcbs[p].(threads := tcbs[p].threads + [n])];
    if tcbs[n].threads != [] { OnlyProcessesHaveThreads(tcbs, n); }
    assert tcbs[p].id.no == p;
    forall i | 0 <= i < |r| && r[i].Allocated() && r[i].id.flags.thread
      ensures HasParent(r, i)
    {
      if i == n {
        assert r[p].threads[|tcbs[p].threads|] == n;
      } else {
        assert HasParent(tcbs, i);
      }
    }
    forall q, i | 0 <= q < |r| && i in r[q].threads
      ensures IsChild(r, q, i)
    {
      if !(q == p && i == n) {
        assert i in tcbs[q].threads;
        assert IsChild(tcbs, q, i);
      }
    }
    forall q | 0 <= q < |r|
      ensures NoDup(r[q].threads) && |r[q].threads| <= MAX_THREADS
    {
      assert n in tcbs[p].threads ==> IsChild(tcbs, p, n);
      assert q != p ==> r[q].threads == tcbs[q].threads;
    }
  }
}
