/** List<T, N>: a circular singly linked list threaded through a fixed array, with a table of
    used slots. The next_ links, read from head_ on, form one cycle through exactly the used
    slots; an empty list keeps head_ == tail_, which the first push relies on. */
module CircularList {
  import opened Seqs

  /** The pigeonhole: fewer than n distinct slots leave one of n free. */
  lemma SomeSlotIsFree(slots: seq<nat>, n: nat) returns (s: nat)
    requires NoDup(slots) && |slots| < n
    ensures s < n && s !in slots
  {
    var members := set x | x in slots;
    NoDupSetSize(slots);
    if Below(n) <= members {
      SubsetSize(Below(n), members);
      assert false;
    }
    s :| s in Below(n) && s !in members;
  }

  /** The next_ links lead from each of the slots to the one after it, and from the last one
      to the first. */
  ghost predicate Linked(next: seq<int>, slots: seq<nat>) {
    forall i :: 0 <= i < |slots| ==> slots[i] < |next| && next[slots[i]] == After(slots, i)
  }

  lemma LinkAt(next: seq<int>, slots: seq<nat>, i: nat)
    requires Linked(next, slots) && i < |slots|
    ensures slots[i] < |next| && next[slots[i]] == After(slots, i)
  {}

  ghost function After(slots: seq<nat>, i: nat): nat
    requires i < |slots|
  {
    if i + 1 == |slots| then slots[0] else slots[i + 1]
  }

  ghost function Before(slots: seq<nat>, i: nat): nat
    requires i < |slots|
  {
    if i == 0 then slots[|slots| - 1] else slots[i - 1]
  }

  /** Linking a new slot in between tail and head extends the cycle at either end. */
  lemma LinkIn(next: seq<int>, slots: seq<nat>, s: nat)
    requires Linked(next, slots) && NoDup(slots) && s < |next| && s !in slots
    ensures slots == [] ==> Linked(next[s := s], [s])
    ensures slots != [] ==>
      var r := next[s := slots[0]][slots[|slots| - 1] := s];
      Linked(r, slots + [s]) && Linked(r, [s] + slots)
  {
    if slots != [] {
      var r := next[s := slots[0]][slots[|slots| - 1] := s];
      forall i | 0 <= i < |slots| + 1
        ensures r[(slots + [s])[i]] == After(slots + [s], i)
        ensures r[([s] + slots)[i]] == After([s] + slots, i)
      {
        assert i < |slots| ==> slots[i] in slots;
        assert i > 0 ==> slots[i - 1] in slots;
      }
    }
  }

  lemma PrependMembers(q: seq<nat>, x: nat)
    requires NoDup(q) && x !in q
    ensures NoDup([x] + q)
    ensures forall y :: y in [x] + q <==> y in q || y == x
  {
    assert ([x] + q)[1..] == q;
  }

  /** The sequence without element p. */
  ghost function TakeOut<T>(slots: seq<T>, p: nat): (q: seq<T>)
    requires p < |slots|
    ensures |q| == |slots| - 1
    ensures forall i :: 0 <= i < |q| ==> q[i] == slots[if i < p then i else i + 1]
  {
    slots[..p] + slots[p + 1..]
  }

  /** The neighbours of an element once element p is gone. */
  lemma NeighboursAfterTakeOut(slots: seq<nat>, p: nat, i: nat)
    requires p < |slots| && i < |slots| - 1
    ensures var j := if i < p then i else i + 1;
      After(TakeOut(slots, p), i) ==
        if j + 1 == p || (p == 0 && j + 1 == |slots|) then After(slots, p) else After(slots, j)
    ensures i == (if p == |slots| - 1 then 0 else p) ==> Before(TakeOut(slots, p), i) == Before(slots, p)
  {}

  /** Linking the predecessor past element p takes exactly that element out of the cycle. */
  lemma LinkOut(next: seq<int>, slots: seq<nat>, p: nat)
    requires Linked(next, slots) && NoDup(slots) && p < |slots|
    ensures Linked(next[Before(slots, p) := After(slots, p)], TakeOut(slots, p))
  {
    hide NoDup, Linked;
    var b := if p == 0 then |slots| - 1 else p - 1;
    LinkAt(next, slots, b);
    var r, q := next[slots[b] := After(slots, p)], TakeOut(slots, p);
    forall i | 0 <= i < |q|
      ensures q[i] < |r| && r[q[i]] == After(q, i)
    {
      var j := if i < p then i else i + 1;
      NeighboursAfterTakeOut(slots, p, i);
      LinkAt(next, slots, j);
      if slots[j] == slots[b] { SameIndex(slots, j, b); }
    }
    LinkedIs(r, q);
  }

  lemma LinkedIs(next: seq<int>, slots: seq<nat>)
    requires forall i :: 0 <= i < |slots| ==> slots[i] < |next| && next[slots[i]] == After(slots, i)
    ensures Linked(next, slots)
  {}

  /** In a list without repetitions, taking out an element is removing its value. */
  lemma TakeOutIsRemove(q: seq<nat>, p: nat)
    requires NoDup(q) && p < |q|
    ensures TakeOut(q, p) == Remove(q, q[p])
  {
    RemoveAt(q, p);
  }

  lemma TakeOutMembers(q: seq<nat>, p: nat)
    requires NoDup(q) && p < |q|
    ensures NoDup(TakeOut(q, p))
    ensures forall y :: y in TakeOut(q, p) <==> y in q && y != q[p]
  {
    TakeOutIsRemove(q, p);
    RemoveMembers(q, q[p]);
  }

  /** The ends of the list without element p. */
  lemma EndsAfterTakeOut(slots: seq<nat>, p: nat)
    requires NoDup(slots) && p < |slots|
    ensures slots[p] == slots[0] <==> p == 0
    ensures slots[p] == slots[|slots| - 1] <==> p == |slots| - 1
    ensures |slots| > 1 ==> TakeOut(slots, p)[0] == if p == 0 then After(slots, p) else slots[0]
    ensures |slots| > 1 ==>
      TakeOut(slots, p)[|slots| - 2] == if p == |slots| - 1 then Before(slots, p) else slots[|slots| - 1]
  {
  }

  // ------------------------------------------------------------------ the list as values

  /** The fields of a list fit together around the cycle of its used slots. */
  ghost predicate Shape(next: seq<int>, used: seq<bool>, head: int, tail: int, slots: seq<nat>) {
    && |next| == |used| > 0
    && NoDup(slots) && Linked(next, slots)
    && (forall s :: 0 <= s < |used| ==> (used[s] <==> s in slots))
    && 0 <= head < |next| && 0 <= tail < |next|
    && (if slots == [] then head == tail else head == slots[0] && tail == slots[|slots| - 1])
  }

  /** The iterator stands on element pos and remembers its predecessor on the cycle. */
  ghost predicate Stands(itr: int, prevItr: int, slots: seq<nat>, pos: nat) {
    pos < |slots| && itr == slots[pos] && prevItr == Before(slots, pos)
  }

  lemma ShapeFits(next: seq<int>, used: seq<bool>, head: int, tail: int, slots: seq<nat>)
    requires Shape(next, used, head, tail, slots)
    ensures forall i :: 0 <= i < |slots| ==> slots[i] < |next| && used[slots[i]]
    ensures |slots| <= |next|
  {
    forall i | 0 <= i < |slots|
      ensures slots[i] < |next| && used[slots[i]]
    {
      assert slots[i] in slots;
    }
    NoDupLength(slots, |next|);
  }

  /** insertNode's writes to the links and the table. */
  ghost function Inserted(next: seq<int>, head: int, tail: int, s: nat): (r: seq<int>)
    requires s < |next| && 0 <= tail < |next|
    ensures |r| == |next|
  {
    next[s := head][tail := s]
  }

  lemma ShapeAppend(next: seq<int>, used: seq<bool>, head: int, tail: int, slots: seq<nat>, s: nat)
    requires Shape(next, used, head, tail, slots)
    requires s < |next| && !used[s] && (slots == [] ==> s == head)
    ensures Shape(Inserted(next, head, tail, s), used[s := true], head, s, slots + [s])
  {
    LinkIn(next, slots, s);
    AppendMembers(slots, s);
    assert slots == [] ==> Inserted(next, head, tail, s) == next[s := s] && slots + [s] == [s];
  }

  lemma ShapePrepend(next: seq<int>, used: seq<bool>, head: int, tail: int, slots: seq<nat>, s: nat)
    requires Shape(next, used, head, tail, slots)
    requires s < |next| && !used[s] && (slots == [] ==> s == head)
    ensures Shape(Inserted(next, head, tail, s), used[s := true], s, tail, [s] + slots)
  {
    LinkIn(next, slots, s);
    PrependMembers(slots, s);
    assert slots == [] ==> Inserted(next, head, tail, s) == next[s := s] && [s] + slots == [s];
  }

  lemma TableRemove(used: seq<bool>, slots: seq<nat>, p: nat)
    requires NoDup(slots) && p < |slots| && slots[p] < |used|
    requires forall s :: 0 <= s < |used| ==> (used[s] <==> s in slots)
    ensures forall s :: 0 <= s < |used| ==> (used[slots[p] := false][s] <==> s in TakeOut(slots, p))
  {
    TakeOutMembers(slots, p);
  }

  /** The links and the table around element p before it is taken out. */
  lemma ElementFacts(next: seq<int>, used: seq<bool>, head: int, tail: int, slots: seq<nat>, p: nat)
    requires Shape(next, used, head, tail, slots) && p < |slots|
    ensures slots[p] < |next| && Before(slots, p) < |next| && After(slots, p) < |next|
    ensures next[slots[p]] == After(slots, p)
    ensures slots[p] == head <==> p == 0
    ensures slots[p] == tail <==> p == |slots| - 1
  {
    ShapeFits(next, used, head, tail, slots);
    EndsAfterTakeOut(slots, p);
  }

  ghost function HeadAfter(head: int, slots: seq<nat>, p: nat): int
    requires p < |slots|
  {
    if p == 0 then After(slots, p) else head
  }

  ghost function TailAfter(tail: int, slots: seq<nat>, p: nat): int
    requires p < |slots|
  {
    if p == |slots| - 1 then Before(slots, p) else tail
  }

  /** Taking element p out: its predecessor is linked to its successor. */
  lemma ShapeRemove(next: seq<int>, used: seq<bool>, head: int, tail: int, slots: seq<nat>, p: nat)
    requires Shape(next, used, head, tail, slots) && p < |slots|
    requires slots[p] < |next| && Before(slots, p) < |next| && After(slots, p) < |next|
    ensures Shape(next[Before(slots, p) := After(slots, p)], used[slots[p] := false],
                  HeadAfter(head, slots, p), TailAfter(tail, slots, p), TakeOut(slots, p))
  {
    hide Linked, NoDup;
    var r, table := next[Before(slots, p) := After(slots, p)], used[slots[p] := false];
    var h, l, q := HeadAfter(head, slots, p), TailAfter(tail, slots, p), TakeOut(slots, p);
    assert NoDup(q) by { TakeOutMembers(slots, p); }
    assert Linked(r, q) by { LinkOut(next, slots, p); }
    assert forall s :: 0 <= s < |table| ==> (table[s] <==> s in q) by { TableRemove(used, slots, p); }
    assert if q == [] then h == l else h == q[0] && l == q[|q| - 1] by { EndsAfterTakeOut(slots, p); }
  }

  lemma StandsAfterRemove(slots: seq<nat>, p: nat)
    requires p < |slots| && |slots| > 1
    ensures Stands(After(slots, p), Before(slots, p), TakeOut(slots, p), if p == |slots| - 1 then 0 else p)
  {
    NeighboursAfterTakeOut(slots, p, if p == |slots| - 1 then 0 else p);
  }

  /** The same in the terms of the code. */
  lemma Removal(next: seq<int>, used: seq<bool>, head: int, tail: int, slots: seq<nat>, p: nat, itr: int, prevItr: int)
    requires Shape(next, used, head, tail, slots) && Stands(itr, prevItr, slots, p)
    ensures 0 <= itr < |next| && 0 <= prevItr < |next|
    ensures Shape(next[prevItr := next[itr]], used[itr := false],
                  if itr == head then next[itr] else head,
                  if itr == tail then prevItr else tail, TakeOut(slots, p))
    ensures |slots| > 1 ==> Stands(next[itr], prevItr, TakeOut(slots, p), if p == |slots| - 1 then 0 else p)
  {
    ElementFacts(next, used, head, tail, slots, p);
    ShapeRemove(next, used, head, tail, slots, p);
    if |slots| > 1 { StandsAfterRemove(slots, p); }
  }

  // ------------------------------------------------------------------ the list as an object

  class List<T(0)> {
    const capacity: nat
    const next: array<int>
    const data: array<T>
    const used: array<bool>
    var head: int
    var tail: int
    var num: nat
    var prevItr: int
    var itr: int

    /** The list as a sequence, the used slots in list order, and the place of the iterator. */
    ghost var contents: seq<T>
    ghost var slots: seq<nat>
    ghost var pos: nat

    ghost predicate Valid()
      reads this, next, data, used
    {
      && next.Length == data.Length == used.Length == capacity
      && next as object != data as object && used as object != data as object
      && num == |slots| == |contents|
      && Shape(next[..], used[..], head, tail, slots)
      && (forall i :: 0 <= i < num ==> slots[i] < capacity && contents[i] == data[slots[i]])
    }

    ghost predicate AtPos()
      reads this
    {
      Stands(itr, prevItr, slots, pos)
    }

    constructor (n: nat)
      requires n > 0
      ensures Valid() && contents == [] && capacity == n
      ensures fresh(next) && fresh(data) && fresh(used)
    {
      capacity := n;
      next := new int[n](_ => 0);
      data := new T[n];
      used := new bool[n](_ => false);
      head, tail, num := 0, 0, 0;
      prevItr, itr := 0, 0;
      contents, slots, pos := [], [], 0;
    }

    // ---------------------------------------------------------------- insertion

    /** insertNode: the slot goes between the tail and the head of the cycle. */
    method InsertNode(slot: nat, value: T)
      requires Valid() && slot < capacity
      modifies this`num, next, data, used
      ensures num == old(num) + 1
      ensures data[..] == old(data[..])[slot := value]
      ensures used[..] == old(used[..])[slot := true]
      ensures next[..] == Inserted(old(next[..]), head, tail, slot)
    {
      data[slot] := value;
      next[slot] := head;
      next[tail] := slot;
      num := num + 1;
      used[slot] := true;
    }

    /** push_back: append, or nothing when the list is full. */
    method PushBack(value: T)
      requires Valid()
      modifies this, next, data, used
      ensures Valid() && contents == Seqs.PushBack(old(contents), value, capacity)
    {
      hide Linked, NoDup;
      if num >= capacity { return; }
      var slot := tail;
      ghost var free := SomeSlotIsFree(slots, capacity);
      while used[slot]
        invariant 0 <= slot < capacity
        invariant num == 0 ==> slot == head
        decreases if slot <= free then free - slot else free + capacity - slot
      {
        slot := slot + 1;
        if slot >= capacity { slot := 0; }
      }
      ShapeFits(next[..], used[..], head, tail, slots);
      ShapeAppend(next[..], used[..], head, tail, slots, slot);
      InsertNode(slot, value);
      tail := slot;
      head := if num == 0 then tail else head;
      slots, contents := slots + [slot], contents + [value];
    }

    /** push_front: prepend, or nothing when the list is full. */
    method PushFront(value: T)
      requires Valid()
      modifies this, next, data, used
      ensures Valid()
      ensures contents == if |old(contents)| >= capacity then old(contents) else [value] + old(contents)
    {
      hide Linked, NoDup;
      if num >= capacity { return; }
      var slot := head;
      ghost var free := SomeSlotIsFree(slots, capacity);
      while used[slot]
        invariant 0 <= slot < capacity
        invariant num == 0 ==> slot == head
        decreases if slot >= free then slot - free else slot + capacity - free
      {
        slot := slot - 1;
        if slot < 0 { slot := capacity - 1; }
      }
      ShapeFits(next[..], used[..], head, tail, slots);
      ShapePrepend(next[..], used[..], head, tail, slots, slot);
      InsertNode(slot, value);
      head := slot;
      tail := if num == 0 then head else tail;
      slots, contents := [slot] + slots, [value] + contents;
    }

    // ---------------------------------------------------------------- removal

    method PopFront()
      requires Valid()
      modifies this, next, used
      ensures Valid()
      ensures contents == if old(contents) == [] then [] else old(contents)[1..]
    {
      hide Linked, NoDup;
      if num == 0 { return; }
      ShapeFits(next[..], used[..], head, tail, slots);
      ElementFacts(next[..], used[..], head, tail, slots, 0);
      ShapeRemove(next[..], used[..], head, tail, slots, 0);
      num := num - 1;
      used[head] := false;
      head := next[head];
      ghost var links := next[..][tail := head];
      next[tail] := head;
      assert next[..] == links;
      slots, contents := TakeOut(slots, 0), contents[1..];
    }

    /** The walk of pop_back: once around the cycle to the element in front of the tail. */
    method BeforeTail() returns (prevTail: int)
      requires Valid() && num > 0
      ensures prevTail == Before(slots, num - 1)
    {
      hide Linked, NoDup;
      prevTail := head;
      ghost var i := 0;
      LinkAt(next[..], slots, 0);
      while next[prevTail] != tail
        invariant 0 <= i < num && prevTail == slots[i] < capacity && next[prevTail] == After(slots, i)
        invariant i == num - 1 ==> num == 1
        decreases num - i
      {
        prevTail := next[prevTail];
        i := i + 1;
        LinkAt(next[..], slots, i);
        EndsAfterTakeOut(slots, i);
      }
      EndsAfterTakeOut(slots, if num == 1 then 0 else i + 1);
    }

    method PopBack()
      requires Valid()
      modifies this, next, used
      ensures Valid()
      ensures contents == if old(contents) == [] then [] else old(contents)[..|old(contents)| - 1]
    {
      hide Linked, NoDup, TakeOut;
      if num == 0 { return; }
      ShapeFits(next[..], used[..], head, tail, slots);
      var prevTail := BeforeTail();
      ElementFacts(next[..], used[..], head, tail, slots, num - 1);
      Removal(next[..], used[..], head, tail, slots, num - 1, tail, prevTail);
      num := num - 1;
      used[tail] := false;
      tail := prevTail;
      ghost var links := next[..][tail := head];
      next[tail] := head;
      assert next[..] == links;
      slots, contents := TakeOut(slots, num), contents[..num];
    }

    // ---------------------------------------------------------------- access

    method Front() returns (x: T)
      requires Valid() && num > 0
      ensures x == contents[0]
    {
      x := data[head];
    }

    method Begin()
      requires Valid()
      modifies this`itr, this`prevItr, this`pos
      ensures Valid() && num == |contents|
      ensures num > 0 ==> AtPos() && pos == 0
    {
      itr := head;
      prevItr := tail;
      pos := 0;
    }

    /** operator++: from the last element the iterator goes round to the first. */
    method Advance()
      requires Valid() && AtPos()
      modifies this`itr, this`prevItr, this`pos
      ensures Valid() && AtPos()
      ensures pos == if old(pos) + 1 == num then 0 else old(pos) + 1
    {
      LinkAt(next[..], slots, pos);
      prevItr := itr;
      itr := next[itr];
      pos := if pos + 1 == num then 0 else pos + 1;
    }

    method Get() returns (x: T)
      requires Valid() && AtPos()
      ensures x == contents[pos]
    {
      x := data[itr];
    }

    /** The writes of remove: the predecessor is linked past the slot, which becomes free. */
    method Unlink()
      requires next.Length == used.Length == capacity && 0 <= itr < capacity && 0 <= prevItr < capacity
      requires num > 0
      modifies this`head, this`tail, this`num, this`itr, next, used
      ensures num == old(num) - 1 && itr == old(next[itr])
      ensures head == if old(itr) == old(head) then old(next[itr]) else old(head)
      ensures tail == if old(itr) == old(tail) then prevItr else old(tail)
      ensures next[..] == old(next[..])[prevItr := old(next[itr])]
      ensures used[..] == old(used[..])[old(itr) := false]
    {
      var nextItr := next[itr];
      if itr == head { head := nextItr; }
      if itr == tail { tail := prevItr; }
      next[prevItr] := nextItr;
      num := num - 1;
      used[itr] := false;
      itr := nextItr;
    }

    /** remove: exactly the element under the iterator leaves, and the iterator stands on
        the one after it. */
    method Remove()
      requires Valid() && (num > 0 ==> AtPos())
      modifies this, next, used
      ensures Valid()
      ensures old(contents) == [] ==> contents == []
      ensures old(contents) != [] ==> contents == TakeOut(old(contents), old(pos))
      ensures num > 0 ==> AtPos() && pos == if old(pos) == num then 0 else old(pos)
    {
      hide Linked, NoDup, TakeOut, Before, After;
      if num == 0 { return; }
      ShapeFits(next[..], used[..], head, tail, slots);
      Removal(next[..], used[..], head, tail, slots, pos, itr, prevItr);
      Unlink();
      slots, contents := TakeOut(slots, pos), TakeOut(contents, pos);
      pos := if pos == num then 0 else pos;
    }
  }
}
