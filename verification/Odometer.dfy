/** The level picker of the scheduler read as arithmetic.

    executed_count_ is a mixed-radix numeral: digit i counts from 0 to the size s[i] of
    queue i, so its base is s[i] + 1. Scheduler::nextLev adds one at the level that just
    ran and carries. This module proves that the numeral goes through 1 .. W-1 in order,
    that the level chosen is the position of its lowest non-zero digit, and counts how
    often each level is chosen in a full turn. */
module Odometer {

  function Min(a: nat, b: nat): nat { if a < b then a else b }

  /** The number of values of the odometer. */
  function Weight(s: seq<nat>): (w: nat)
    ensures w >= 1
  {
    if s == [] then 1 else (s[0] + 1) * Weight(s[1..])
  }

  /** The numeral with the digits c, each clipped to its queue size. */
  function Value(c: seq<nat>, s: seq<nat>): nat
    requires |c| == |s|
  {
    if s == [] then 0 else Min(c[0], s[0]) + (s[0] + 1) * Value(c[1..], s[1..])
  }

  /** The position of the lowest non-zero digit of v; |s| when there is none. */
  function LowestDigit(v: nat, s: seq<nat>): nat {
    if s == [] then 0
    else if v % (s[0] + 1) != 0 then 0
    else 1 + LowestDigit(v / (s[0] + 1), s[1..])
  }

  /** The first level whose count is still below its queue size; |s| when there is none. */
  function FirstBelow(c: seq<nat>, s: seq<nat>): (f: nat)
    requires |c| == |s|
    ensures f <= |s|
    ensures f < |s| ==> c[f] < s[f]
    ensures forall j :: 0 <= j < f ==> s[j] <= c[j]
  {
    if s == [] then 0
    else if c[0] < s[0] then 0
    else 1 + FirstBelow(c[1..], s[1..])
  }

  /** The counts with every level below f set back to zero. */
  function Cleared(c: seq<nat>, f: nat): (r: seq<nat>)
    ensures |r| == |c|
  {
    seq(|c|, i requires 0 <= i < |c| => if i < f then 0 else c[i])
  }

  function Bump(c: seq<nat>, i: nat): (r: seq<nat>)
    requires i < |c|
    ensures |r| == |c|
  {
    c[i := c[i] + 1]
  }

  /** What nextLev leaves in executed_count_, and the level it returns. */
  function NextCounts(c: seq<nat>, s: seq<nat>): (r: seq<nat>)
    requires |c| == |s|
    ensures |r| == |c|
  {
    Cleared(c, FirstBelow(c, s))
  }

  function NextLevel(c: seq<nat>, s: seq<nat>): (lev: nat)
    requires |c| == |s|
    ensures lev < |s| || lev == 0
  {
    var f := FirstBelow(c, s);
    if f == |s| then 0 else f
  }

  // ---------------------------------------------------------------- arithmetic

  lemma Distribute(b: nat, x: nat, y: nat)
    ensures b * (x + y) == b * x + b * y
  {}

  lemma Monotone(b: nat, x: nat, y: nat)
    requires x <= y
    ensures b * x <= b * y
  {}

  /** A digit d below the base b in front of a value below w stays below b * w. */
  lemma DigitFits(d: nat, b: nat, v: nat, w: nat)
    requires d < b && v < w
    ensures d + b * v < b * w
  {
    Distribute(b, v, 1);
    Monotone(b, v + 1, w);
  }

  lemma DivMod(d: nat, b: nat, v: nat)
    requires d < b
    ensures (d + b * v) % b == d
    ensures (d + b * v) / b == v
  {
    var x := d + b * v;
    var q, r := x / b, x % b;
    assert b * q + r == x && 0 <= r < b;
    if q < v {
      Monotone(b, q + 1, v);
      Distribute(b, q, 1);
      assert false;
    } else if q > v {
      Monotone(b, v + 1, q);
      Distribute(b, v, 1);
      assert false;
    }
  }

  // ---------------------------------------------------------------- the value

  lemma {:induction false} ValueBound(c: seq<nat>, s: seq<nat>)
    requires |c| == |s|
    ensures Value(c, s) < Weight(s)
  {
    if s != [] {
      ValueBound(c[1..], s[1..]);
      DigitFits(Min(c[0], s[0]), s[0] + 1, Value(c[1..], s[1..]), Weight(s[1..]));
    }
  }

  /** One carry adds exactly one to the value, short of a full turn. */
  lemma {:induction false} CarryAddsOne(c: seq<nat>, s: seq<nat>)
    requires |c| == |s|
    requires FirstBelow(c, s) < |s|
    ensures Value(Bump(NextCounts(c, s), FirstBelow(c, s)), s) == Value(c, s) + 1
  {
    var f := FirstBelow(c, s);
    var r := Bump(NextCounts(c, s), f);
    if f == 0 {
      assert r[1..] == c[1..];
    } else {
      CarryAddsOne(c[1..], s[1..]);
      assert r[1..] == Bump(NextCounts(c[1..], s[1..]), f - 1);
      Distribute(s[0] + 1, Value(c[1..], s[1..]), 1);
    }
  }

  /** When no level is below its size the value is the largest one. */
  lemma {:induction false} FullTurn(c: seq<nat>, s: seq<nat>)
    requires |c| == |s|
    requires FirstBelow(c, s) == |s|
    ensures Value(c, s) == Weight(s) - 1
  {
    if s != [] {
      FullTurn(c[1..], s[1..]);
      Distribute(s[0] + 1, Weight(s[1..]) - 1, 1);
    }
  }

  lemma {:induction false} ZeroValue(c: seq<nat>, s: seq<nat>)
    requires |c| == |s|
    requires forall j :: 0 <= j < |c| ==> c[j] == 0
    ensures Value(c, s) == 0
  {
    if s != [] { ZeroValue(c[1..], s[1..]); }
  }

  /** The numeral of a fresh turn is one. */
  lemma {:induction false} TurnRestartsAtOne(c: seq<nat>, s: seq<nat>)
    requires |c| == |s| && s != [] && s[0] >= 1
    requires FirstBelow(c, s) == |s|
    ensures Value(Bump(NextCounts(c, s), 0), s) == 1
  {
    ZeroValue(Bump(NextCounts(c, s), 0)[1..], s[1..]);
  }

  /** With zeros below a non-zero digit, the value names that digit's level. */
  lemma {:induction false} ValueNamesLevel(c: seq<nat>, s: seq<nat>, lev: nat)
    requires |c| == |s| && lev < |s|
    requires forall j :: 0 <= j < lev ==> c[j] == 0
    requires c[lev] >= 1 && s[lev] >= 1
    ensures LowestDigit(Value(c, s), s) == lev
    ensures Value(c, s) >= 1
  {
    var b, d, v := s[0] + 1, Min(c[0], s[0]), Value(c[1..], s[1..]);
    DivMod(d, b, v);
    if lev > 0 {
      ValueNamesLevel(c[1..], s[1..], lev - 1);
      Monotone(b, 1, v);
    }
  }

  // ---------------------------------------------------------------- counting

  /** How many v with lo <= v < hi have their lowest non-zero digit at level i. */
  function Count(i: nat, s: seq<nat>, lo: nat, hi: nat): (n: nat)
    decreases hi
  {
    if hi <= lo then 0
    else Count(i, s, lo, hi - 1) + if LowestDigit(hi - 1, s) == i then 1 else 0
  }

  lemma {:induction false} CountSplit(i: nat, s: seq<nat>, lo: nat, mid: nat, hi: nat)
    requires lo <= mid <= hi
    ensures Count(i, s, lo, hi) == Count(i, s, lo, mid) + Count(i, s, mid, hi)
    decreases hi
  {
    if mid < hi { CountSplit(i, s, lo, mid, hi - 1); }
  }

  /** The product of the bases above level i: how often each task of level i runs in a turn. */
  function Share(i: nat, s: seq<nat>): nat
    requires i < |s|
  {
    Weight(s[i + 1..])
  }

  /** Inside one block of the lowest digit, level 0 is named by all but the first value. */
  lemma {:induction false} CountInBlock(i: nat, s: seq<nat>, m: nat, r: nat)
    requires s != [] && 1 <= r <= s[0] + 1
    ensures Count(i, s, (s[0] + 1) * m, (s[0] + 1) * m + r)
         == (if i == 0 then r - 1 else if LowestDigit(m, s[1..]) == i - 1 then 1 else 0)
    decreases r
  {
    var b := s[0] + 1;
    DivMod(r - 1, b, m);
    if r > 1 {
      CountInBlock(i, s, m, r - 1);
    } else {
      assert Count(i, s, b * m, b * m) == 0;
    }
  }

  lemma {:induction false} CountBlocks(i: nat, s: seq<nat>, m: nat)
    requires s != []
    ensures Count(i, s, 0, (s[0] + 1) * m) == if i == 0 then s[0] * m else Count(i - 1, s[1..], 0, m)
    decreases m
  {
    var b := s[0] + 1;
    if m > 0 {
      CountBlocks(i, s, m - 1);
      CountInBlock(i, s, m - 1, b);
      NextBlock(b, m);
      NextBlock(s[0], m);
      CountSplit(i, s, 0, b * (m - 1), b * m);
    }
  }

  lemma NextBlock(b: nat, m: nat)
    requires m > 0
    ensures b * m == b * (m - 1) + b
    ensures b * (m - 1) >= 0
  {
    Distribute(b, m - 1, 1);
  }

  /** In a full turn level i is named s[i] times for each value of the digits above it. */
  lemma {:induction false} CountTurn(i: nat, s: seq<nat>)
    requires i < |s|
    ensures Count(i, s, 0, Weight(s)) == s[i] * Share(i, s)
  {
    CountBlocks(i, s, Weight(s[1..]));
    if i > 0 {
      CountTurn(i - 1, s[1..]);
      assert s[1..][i..] == s[i + 1..];
    }
  }

  // ---------------------------------------------------------------- runs of the value

  /** The value after one more tick: it stays within 1 .. W-1. */
  function NextValue(v: nat, w: nat): nat { if v + 1 >= w then 1 else v + 1 }

  /** How many of n consecutive values, starting at v, name level i. */
  function CountRun(i: nat, s: seq<nat>, v: nat, n: nat): nat
    decreases n
  {
    if n == 0 then 0
    else (if LowestDigit(v, s) == i then 1 else 0) + CountRun(i, s, NextValue(v, Weight(s)), n - 1)
  }

  lemma {:induction false} CountFirst(i: nat, s: seq<nat>, lo: nat, hi: nat)
    requires lo < hi
    ensures Count(i, s, lo, hi) == (if LowestDigit(lo, s) == i then 1 else 0) + Count(i, s, lo + 1, hi)
  {
    CountSplit(i, s, lo, lo + 1, hi);
    assert Count(i, s, lo, lo) == 0;
  }

  lemma {:induction false} CountRunSplit(i: nat, s: seq<nat>, v: nat, n: nat)
    requires 1 <= v < Weight(s)
    ensures n < Weight(s) - v ==> CountRun(i, s, v, n) == Count(i, s, v, v + n)
    ensures n >= Weight(s) - v
         ==> CountRun(i, s, v, n) == Count(i, s, v, Weight(s)) + CountRun(i, s, 1, n - (Weight(s) - v))
    decreases n
  {
    var w := Weight(s);
    if n > 0 {
      if v + 1 < w {
        CountRunSplit(i, s, v + 1, n - 1);
        CountFirst(i, s, v, if n < w - v then v + n else w);
      } else {
        CountFirst(i, s, v, w);
      }
    }
  }

  /** Any W-1 consecutive values name level i exactly as often as a full turn does. */
  lemma {:induction false} CountWindow(i: nat, s: seq<nat>, v: nat, n: nat)
    requires i < |s|
    requires 1 <= v < Weight(s) == n + 1
    ensures CountRun(i, s, v, n) == s[i] * Share(i, s)
  {
    CountRunSplit(i, s, v, n);
    CountRunSplit(i, s, 1, v - 1);
    CountSplit(i, s, 1, v, n + 1);
    CountFirst(i, s, 0, n + 1);
    ZeroHasNoDigit(s);
    CountTurn(i, s);
  }

  lemma {:induction false} ZeroHasNoDigit(s: seq<nat>)
    ensures LowestDigit(0, s) == |s|
  {
    if s != [] { ZeroHasNoDigit(s[1..]); }
  }

  // ---------------------------------------------------------------- distances

  /** The first value of a turn that names level lev: a one at that digit and zeros elsewhere. */
  function Landmark(lev: nat, s: seq<nat>): nat
    requires lev <= |s|
  {
    Weight(s[..lev])
  }

  lemma {:induction false} LandmarkNamesLevel(lev: nat, s: seq<nat>)
    requires lev < |s| && s[lev] >= 1
    ensures LowestDigit(Landmark(lev, s), s) == lev
    ensures 1 <= Landmark(lev, s) < Weight(s)
  {
    var b := s[0] + 1;
    if lev == 0 {
      assert Landmark(0, s) == 1;
      assert 1 % b == 1;
      Monotone(b, 1, Weight(s[1..]));
    } else {
      LandmarkNamesLevel(lev - 1, s[1..]);
      assert s[..lev][1..] == s[1..][..lev - 1];
      assert s[..lev][0] == s[0];
      var l := Landmark(lev - 1, s[1..]);
      DivMod(0, b, l);
      assert Landmark(lev, s) == b * l;
      Monotone(b, 1, l);
      DigitFits(0, b, l, Weight(s[1..]));
    }
  }

  /** Ticks until the value reaches the landmark of level lev. */
  function Distance(v: nat, lev: nat, s: seq<nat>): (d: nat)
    requires lev < |s| && s[lev] >= 1
    requires 1 <= v < Weight(s)
    ensures d < Weight(s)
  {
    var l := Landmark(lev, s);
    LandmarkNamesLevel(lev, s);
    if v <= l then l - v else Weight(s) - 1 - v + l
  }

  /** Away from the landmark a tick brings the value one closer to it. */
  lemma DistanceDrops(v: nat, lev: nat, s: seq<nat>)
    requires lev < |s| && s[lev] >= 1
    requires 1 <= v < Weight(s)
    requires LowestDigit(v, s) != lev
    ensures 1 <= NextValue(v, Weight(s)) < Weight(s)
    ensures Distance(NextValue(v, Weight(s)), lev, s) == Distance(v, lev, s) - 1
  {
    LandmarkNamesLevel(lev, s);
  }
}
