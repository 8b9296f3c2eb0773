/** The sequence facts shared by the list class and the scheduler model. */
module Seqs {

  datatype Option<+T> = None | Some(value: T)

  ghost predicate NoDup<T(!new)>(q: seq<T>) {
    forall a, b :: 0 <= a < b < |q| ==> q[a] != q[b]
  }

  lemma SameIndex<T(!new)>(q: seq<T>, a: nat, b: nat)
    requires NoDup(q) && a < |q| && b < |q| && q[a] == q[b]
    ensures a == b
  {}

  /** q without the first occurrence of x; q itself when x does not occur. */
  function Remove<T(==)>(q: seq<T>, x: T): (r: seq<T>)
    ensures x in q ==> |r| == |q| - 1
    ensures x !in q ==> r == q
  {
    if q == [] then []
    else if q[0] == x then q[1..]
    else [q[0]] + Remove(q[1..], x)
  }

  /** Bounded append: the new element is dropped when the list is full. */
  function PushBack<T>(q: seq<T>, x: T, capacity: nat): (r: seq<T>)
    ensures |q| < capacity ==> |r| == |q| + 1 && r[|q|] == x && r[..|q|] == q
    ensures |q| >= capacity ==> r == q
  {
    if |q| >= capacity then q else q + [x]
  }

  lemma {:induction false} RemoveMembers<T(!new)>(q: seq<T>, x: T)
    requires NoDup(q)
    ensures NoDup(Remove(q, x))
    ensures forall y :: y in Remove(q, x) <==> y in q && y != x
  {
    if q != [] {
      var t := q[1..];
      assert forall y :: y in q <==> y == q[0] || y in t;
      if q[0] == x {
        assert x !in t;
      } else {
        RemoveMembers(t, x);
        var r := Remove(t, x);
        assert Remove(q, x) == [q[0]] + r;
        assert q[0] !in r;
        assert forall y :: y in [q[0]] + r <==> y == q[0] || y in r;
      }
    }
  }

  /** Removing the element at a known position splices the two sides together. */
  lemma {:induction false} RemoveAt<T(!new)>(q: seq<T>, i: nat)
    requires i < |q|
    requires forall j :: 0 <= j < i ==> q[j] != q[i]
    ensures Remove(q, q[i]) == q[..i] + q[i + 1..]
  {
    if i > 0 {
      RemoveAt(q[1..], i - 1);
      assert q[..i] == [q[0]] + q[1..][..i - 1];
      assert q[i + 1..] == q[1..][i..];
    }
  }

  lemma PopMembers<T(!new)>(q: seq<T>)
    requires q != [] && NoDup(q)
    ensures NoDup(q[1..])
    ensures forall y :: y in q[1..] <==> y in q && y != q[0]
  {
    var t := q[1..];
    assert forall y :: y in q <==> y == q[0] || y in t;
  }

  lemma AppendMembers<T(!new)>(q: seq<T>, x: T)
    requires NoDup(q) && x !in q
    ensures NoDup(q + [x])
    ensures forall y :: y in q + [x] <==> y in q || y == x
  {}

  /** The numbers below n. */
  ghost function Below(n: nat): (r: set<nat>)
    ensures forall x :: x in r <==> 0 <= x < n
    ensures |r| == n
  {
    if n == 0 then {} else Below(n - 1) + {n - 1}
  }

  /** A list of distinct numbers below n has at most n of them. */
  lemma NoDupLength(q: seq<nat>, n: nat)
    requires NoDup(q)
    requires forall x :: x in q ==> x < n
    ensures |q| <= n
  {
    NoDupSetSize(q);
    SubsetSize((set x | x in q), Below(n));
  }

  lemma {:induction false} NoDupSetSize<T(!new)>(q: seq<T>)
    requires NoDup(q)
    ensures |set x | x in q| == |q|
  {
    var members := set x | x in q;
    if q == [] {
      assert members == {};
    } else {
      PopMembers(q);
      NoDupSetSize(q[1..]);
      assert members == (set x | x in q[1..]) + {q[0]};
    }
  }

  lemma {:induction false} SubsetSize<T>(a: set<T>, b: set<T>)
    requires a <= b
    ensures |a| <= |b|
    ensures |a| == |b| ==> a == b
    decreases |a|
  {
    if a != {} {
      var x :| x in a;
      SubsetSize(a - {x}, b - {x});
      assert |b - {x}| == |b| - 1;
      assert b == (b - {x}) + {x};
    } else if |b| == 0 {
      assert b == {};
    }
  }
}
