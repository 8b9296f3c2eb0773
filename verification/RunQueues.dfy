/** task_list_: five list objects, and the search-and-remove loop over them. */
module RunQueues {
  import opened Seqs
  import opened CircularList
  import opened KernelState

  /** rmThread and the inner loop of removeTaskFromQueue: walk the list with its iterator and
      take out the first element that is x. Nothing else moves. */
  method RemoveFrom(list: List<nat>, x: nat) returns (found: bool)
    requires list.Valid()
    modifies list, list.next, list.used
    ensures list.Valid() && list.contents == Remove(old(list.contents), x)
    ensures found <==> x in old(list.contents)
  {
    hide List.Valid, List.AtPos;
    ghost var q := list.contents;
    list.Begin();
    var j := 0;
    while j < list.num
      invariant list.Valid() && list.contents == q && list.num == |q| && 0 <= j <= |q|
      invariant j < |q| ==> list.AtPos() && list.pos == j
      invariant forall i :: 0 <= i < j ==> q[i] != x
    {
      var y := list.Get();
      if y == x {
        RemoveAt(q, j);
        list.Remove();
        return true;
      }
      list.Advance();
      j := j + 1;
    }
    assert x !in q;
    return false;
  }

  class RunQueues {
    const lists: seq<List<nat>>
    ghost const repr: set<object>
    /** The five lists as sequences. */
    ghost var content: seq<seq<nat>>

    ghost predicate Valid()
      reads this, repr
    {
      && |lists| == |content| == LEVELS && this !in repr
      && (forall l :: 0 <= l < LEVELS ==>
            && lists[l] in repr && lists[l].next in repr && lists[l].data in repr && lists[l].used in repr
            && lists[l].Valid() && lists[l].capacity == MAX_TASKS
            && lists[l].contents == content[l])
      && (forall l, m :: 0 <= l < m < LEVELS ==> Apart(lists[l], lists[m]))
    }

    /** Two lists share no storage. */
    static ghost predicate Apart(a: List<nat>, b: List<nat>) {
      && a != b && a.next != b.next && a.data != b.data && a.used != b.used
      && a.next as object != b.data as object && a.data as object != b.next as object
      && a.next as object != b.used as object && a.used as object != b.next as object
      && a.data as object != b.used as object && a.used as object != b.data as object
    }

    constructor ()
      ensures Valid() && content == [[], [], [], [], []] && fresh(repr) && this !in repr
    {
      hide List.Valid, List.AtPos;
      var ls := NewLists();
      lists := ls;
      repr := StorageOf(ls);
      content := [[], [], [], [], []];
      new;
      InStorage(ls);
      NotStored(ls);
    }

    ghost static function StorageOf(ls: seq<List<nat>>): set<object> {
      if ls == [] then {}
      else
        var last := ls[|ls| - 1];
        StorageOf(ls[..|ls| - 1]) + {last, last.next, last.data, last.used}
    }

    static lemma {:induction false} InStorage(ls: seq<List<nat>>)
      ensures forall l :: 0 <= l < |ls| ==>
        var s := StorageOf(ls); ls[l] in s && ls[l].next in s && ls[l].data in s && ls[l].used in s
    {
      if ls != [] { InStorage(ls[..|ls| - 1]); }
    }

    lemma {:induction false} NotStored(ls: seq<List<nat>>)
      ensures this !in StorageOf(ls)
    {
      if ls != [] { NotStored(ls[..|ls| - 1]); }
    }

    static method NewLists() returns (ls: seq<List<nat>>)
      ensures |ls| == LEVELS && fresh(StorageOf(ls))
      ensures forall l :: 0 <= l < LEVELS ==> ls[l].Valid() && ls[l].capacity == MAX_TASKS && ls[l].contents == []
      ensures forall l, m :: 0 <= l < m < LEVELS ==> Apart(ls[l], ls[m])
    {
      hide List.Valid, List.AtPos;
      ls := [];
      while |ls| < LEVELS
        invariant |ls| <= LEVELS && fresh(StorageOf(ls))
        invariant forall l :: 0 <= l < |ls| ==> ls[l].Valid() && ls[l].capacity == MAX_TASKS && ls[l].contents == []
        invariant forall l, m :: 0 <= l < m < |ls| ==> Apart(ls[l], ls[m])
      {
        InStorage(ls);
        var next := new List<nat>(MAX_TASKS);
        assert forall l :: 0 <= l < |ls| ==> Apart(ls[l], next);
        assert (ls + [next])[..|ls|] == ls;
        ls := ls + [next];
      }
    }

    method Size(lev: nat) returns (n: nat)
      requires Valid() && lev < LEVELS
      ensures n == |content[lev]|
    {
      n := lists[lev].num;
    }

    method FrontOf(lev: nat) returns (t: nat)
      requires Valid() && lev < LEVELS && content[lev] != []
      ensures t == content[lev][0]
    {
      t := lists[lev].Front();
    }

    /** pushTask. */
    method Push(t: nat, lev: nat)
      requires Valid() && lev < LEVELS
      modifies this`content, repr
      ensures Valid() && content == KernelState.Push(old(content), lev, t)
    {
      hide List.Valid, List.AtPos;
      lists[lev].PushBack(t);
      content := KernelState.Push(content, lev, t);
    }

    /** popTask. */
    method Pop(lev: nat)
      requires Valid() && lev < LEVELS
      modifies this`content, repr
      ensures Valid()
      ensures var q := old(content)[lev]; content == old(content)[lev := if q == [] then [] else q[1..]]
    {
      hide List.Valid, List.AtPos;
      lists[lev].PopFront();
      content := content[lev := if content[lev] == [] then [] else content[lev][1..]];
    }

    /** removeTaskFromQueue: the first level that holds t loses it, all else stays in order. */
    method RemoveTask(t: nat) returns (found: bool)
      requires Valid()
      modifies this`content, repr
      ensures Valid()
      ensures var q, l := old(content), LevelOf(old(content), t);
        && found == (l < LEVELS)
        && content == if l < LEVELS then q[l := Remove(q[l], t)] else q
    {
      hide List.Valid, List.AtPos;
      ghost var q := content;
      var i := 0;
      while i < LEVELS
        invariant 0 <= i <= LEVELS && Valid() && content == q
        invariant forall j :: 0 <= j < i ==> t !in q[j]
      {
        found := RemoveFrom(lists[i], t);
        if found {
          content := q[i := Remove(q[i], t)];
          return;
        }
        i := i + 1;
      }
      found := false;
    }
  }
}
