/** The five run queues with their counters, seen apart from the tasks themselves. While no
    task enters or leaves, a tick rotates the current queue and lets the odometer pick the
    next level; the number of slices of each level and of each task follows exactly. */
module Wheel {
  import Odometer

  datatype Wheel = Wheel(queues: seq<seq<nat>>, executed: seq<nat>, curLev: nat)

  function Sizes(queues: seq<seq<nat>>): (s: seq<nat>)
    ensures |s| == |queues|
    ensures forall l :: 0 <= l < |queues| ==> s[l] == |queues[l]|
  {
    seq(|queues|, l requires 0 <= l < |queues| => |queues[l]|)
  }

  /** The current level has a task, level 0 always has one, and the counts below the
      current level are zero; the counts above it may be stale. */
  ghost predicate Ok(w: Wheel) {
    && w.curLev < |w.queues| == |w.executed|
    && w.queues[w.curLev] != [] && w.queues[0] != []
    && (forall l :: 0 <= l < w.curLev ==> w.executed[l] == 0)
  }

  /** Task t stands at position p of level l and nowhere else. */
  ghost predicate StandsAt(queues: seq<seq<nat>>, t: nat, l: nat, p: nat) {
    && l < |queues| && p < |queues[l]| && queues[l][p] == t
    && (forall m, r :: 0 <= m < |queues| && 0 <= r < |queues[m]| && queues[m][r] == t ==> m == l && r == p)
  }

  function Front(w: Wheel): nat
    requires Ok(w)
  {
    w.queues[w.curLev][0]
  }

  /** nextLev on the counts: count the slice that ended, then carry. */
  function Pick(w: Wheel): Wheel
    requires w.curLev < |w.queues| == |w.executed|
  {
    var c, s := Odometer.Bump(w.executed, w.curLev), Sizes(w.queues);
    w.(executed := Odometer.NextCounts(c, s), curLev := Odometer.NextLevel(c, s))
  }

  lemma PickKeepsQueues(w: Wheel)
    requires w.curLev < |w.queues| == |w.executed|
    ensures Pick(w).queues == w.queues
  {}

  /** A tick that frees nobody. */
  function Spin(w: Wheel): Wheel
    requires Ok(w)
  {
    var q := w.queues[w.curLev];
    Pick(w.(queues := w.queues[w.curLev := q[1..] + [q[0]]]))
  }

  /** The counts as the next nextLev will read them, as one number. */
  function Turn(w: Wheel): nat
    requires Ok(w)
  {
    Odometer.Value(Odometer.Bump(w.executed, w.curLev), Sizes(w.queues))
  }

  function TurnLength(w: Wheel): nat { Odometer.Weight(Sizes(w.queues)) }

  /** The number is between 1 and W - 1 and its lowest non-zero digit is the current level. */
  lemma TurnNamesLevel(w: Wheel)
    requires Ok(w)
    ensures 1 <= Turn(w) < TurnLength(w)
    ensures Odometer.LowestDigit(Turn(w), Sizes(w.queues)) == w.curLev
  {
    var c, s := Odometer.Bump(w.executed, w.curLev), Sizes(w.queues);
    Odometer.ValueNamesLevel(c, s, w.curLev);
    Odometer.ValueBound(c, s);
  }

  /** One nextLev moves the number one step along 1 .. W - 1, whatever the counts were. */
  lemma PickAdvancesTurn(w: Wheel)
    requires w.curLev < |w.queues| == |w.executed| && w.queues[0] != []
    ensures Ok(Pick(w))
    ensures Turn(Pick(w))
         == Odometer.NextValue(Odometer.Value(Odometer.Bump(w.executed, w.curLev), Sizes(w.queues)), TurnLength(w))
  {
    var c, s := Odometer.Bump(w.executed, w.curLev), Sizes(w.queues);
    var lev := Odometer.NextLevel(c, s);
    if Odometer.FirstBelow(c, s) == |s| {
      Odometer.FullTurn(c, s);
      Odometer.TurnRestartsAtOne(c, s);
    } else {
      Odometer.CarryAddsOne(c, s);
      Odometer.ValueBound(Odometer.Bump(Odometer.NextCounts(c, s), lev), s);
    }
  }

  /** nextLev picks a level with a task in it exactly when level 0 has one or some count is
      still below its queue size; at the end of a turn it answers 0 without looking. */
  lemma PickFindsTaskIff(w: Wheel)
    requires w.curLev < |w.queues| == |w.executed|
    ensures Pick(w).queues[Pick(w).curLev] != [] <==>
      w.queues[0] != [] || exists l :: 0 <= l < |w.queues| && Odometer.Bump(w.executed, w.curLev)[l] < |w.queues[l]|
  {
    var c, s := Odometer.Bump(w.executed, w.curLev), Sizes(w.queues);
    var f := Odometer.FirstBelow(c, s);
    if f < |s| {
      assert c[f] < |w.queues[f]|;
    } else {
      assert forall l :: 0 <= l < |w.queues| ==> !(c[l] < |w.queues[l]|);
    }
  }

  lemma SpinKeepsSizes(w: Wheel)
    requires Ok(w)
    ensures Ok(Spin(w))
    ensures Sizes(Spin(w).queues) == Sizes(w.queues)
  {}

  lemma SpinAdvancesTurn(w: Wheel)
    requires Ok(w)
    ensures Ok(Spin(w))
    ensures Sizes(Spin(w).queues) == Sizes(w.queues)
    ensures Turn(Spin(w)) == Odometer.NextValue(Turn(w), TurnLength(w))
  {
    var q := w.queues[w.curLev];
    var rotated := w.queues[w.curLev := q[1..] + [q[0]]];
    assert Sizes(rotated) == Sizes(w.queues);
    PickAdvancesTurn(w.(queues := rotated));
  }

  // ---------------------------------------------------------------- counting slices

  /** How many of the next n slices belong to level l. */
  ghost function Visits(w: Wheel, l: nat, n: nat): nat
    requires Ok(w)
    decreases n
  {
    if n == 0 then 0
    else
      SpinKeepsSizes(w);
      (if w.curLev == l then 1 else 0) + Visits(Spin(w), l, n - 1)
  }

  /** The tasks that get the next n slices, in order. */
  ghost function Slices(w: Wheel, n: nat): seq<nat>
    requires Ok(w)
    decreases n
  {
    if n == 0 then []
    else
      SpinKeepsSizes(w);
      [Front(w)] + Slices(Spin(w), n - 1)
  }

  lemma SlicesStep(w: Wheel, n: nat)
    requires Ok(w) && n > 0
    ensures Ok(Spin(w))
    ensures Slices(w, n) == [Front(w)] + Slices(Spin(w), n - 1)
  {
    SpinKeepsSizes(w);
  }

  lemma SlicesStart(w: Wheel, n: nat)
    requires Ok(w)
    ensures n == 0 ==> multiset(Slices(w, n)) == multiset{}
    ensures n > 0 ==> Ok(Spin(w))
    ensures n > 0 ==> multiset(Slices(w, n)) == multiset{Front(w)} + multiset(Slices(Spin(w), n - 1))
  {
    if n > 0 { SlicesStep(w, n); }
  }

  lemma {:induction false} VisitsFollowTurn(w: Wheel, l: nat, n: nat)
    requires Ok(w)
    ensures Visits(w, l, n) == Odometer.CountRun(l, Sizes(w.queues), Turn(w), n)
    decreases n
  {
    if n > 0 {
      TurnNamesLevel(w);
      SpinAdvancesTurn(w);
      VisitsFollowTurn(Spin(w), l, n - 1);
    }
  }

  /** Every level gets its share of a window. */
  lemma LevelShare(w: Wheel, l: nat)
    requires Ok(w) && l < |w.queues|
    ensures Visits(w, l, TurnLength(w) - 1) == |w.queues[l]| * Odometer.Share(l, Sizes(w.queues))
  {
    hide Pick, Visits, Odometer.Share;
    TurnNamesLevel(w);
    var n := TurnLength(w) - 1;
    VisitsFollowTurn(w, l, n);
    Odometer.CountWindow(l, Sizes(w.queues), Turn(w), n);
  }

  /** How often position p comes to the front of a queue of m tasks in v rotations. */
  ghost function Turns(v: nat, p: nat, m: nat): nat
    requires p < m
    decreases v
  {
    if v == 0 then 0
    else if p == 0 then 1 + Turns(v - 1, m - 1, m)
    else Turns(v - 1, p - 1, m)
  }

  lemma {:induction false} TurnsSkip(v: nat, p: nat, m: nat, j: nat)
    requires j <= p < m
    ensures Turns(v + j, p, m) == Turns(v, p - j, m)
    decreases j
  {
    if j > 0 { TurnsSkip(v, p - 1, m, j - 1); }
  }

  /** In n laps every position comes to the front n times. */
  lemma {:induction false} TurnsExact(n: nat, p: nat, m: nat)
    requires p < m
    ensures Turns(m * n, p, m) == n
    decreases n
  {
    if n > 0 {
      Odometer.Distribute(m, n - 1, 1);
      var v := m * (n - 1);
      TurnsSkip(v + m - p, p, m, p);
      TurnsSkip(v, m - 1, m, m - 1 - p);
      TurnsExact(n - 1, p, m);
    }
  }

  /** Where the task at position p of level l is after a tick. */
  function NextPosition(w: Wheel, l: nat, p: nat): nat
    requires l < |w.queues| && p < |w.queues[l]|
  {
    if w.curLev != l then p else if p == 0 then |w.queues[l]| - 1 else p - 1
  }

  lemma RotationStep(w: Wheel, t: nat, l: nat, p: nat)
    requires Ok(w) && StandsAt(w.queues, t, l, p)
    ensures |Spin(w).queues[l]| == |w.queues[l]|
    ensures StandsAt(Spin(w).queues, t, l, NextPosition(w, l, p))
    ensures Front(w) == t <==> w.curLev == l && p == 0
  {
    var c, q := w.curLev, w.queues[w.curLev];
    var r := Spin(w).queues;
    assert r == w.queues[c := q[1..] + [q[0]]];
    forall m, i | 0 <= m < |r| && 0 <= i < |r[m]| && r[m][i] == t
      ensures m == l && i == NextPosition(w, l, p)
    {
      var i0 := if m != c then i else if i == |q| - 1 then 0 else i + 1;
      assert w.queues[m][i0] == t;
    }
  }

  /** Round robin: the task at position p of level l runs in every m-th slice of that level. */
  lemma {:induction false} SlicesFollowRotation(w: Wheel, t: nat, l: nat, p: nat, n: nat)
    requires Ok(w) && StandsAt(w.queues, t, l, p)
    ensures multiset(Slices(w, n))[t] == Turns(Visits(w, l, n), p, |w.queues[l]|)
    decreases n
  {
    assert p < |w.queues[l]|;
    hide Pick, StandsAt, Turn, Slices, Visits, Turns;
    SlicesStart(w, n);
    VisitsStart(w, l, n, p);
    if n > 0 {
      SpinKeepsSizes(w);
      RotationStep(w, t, l, p);
      var p' := NextPosition(w, l, p);
      SlicesFollowRotation(Spin(w), t, l, p', n - 1);
    }
  }

  /** Counting visits and laps of a position go on in step. */
  lemma VisitsStart(w: Wheel, l: nat, n: nat, p: nat)
    requires Ok(w) && l < |w.queues| && p < |w.queues[l]|
    ensures n == 0 ==> Turns(Visits(w, l, n), p, |w.queues[l]|) == 0
    ensures n > 0 ==> Ok(Spin(w)) && NextPosition(w, l, p) < |w.queues[l]|
    ensures n > 0 ==> (var v := Visits(Spin(w), l, n - 1);
      Turns(Visits(w, l, n), p, |w.queues[l]|)
        == (if w.curLev == l && p == 0 then 1 else 0) + Turns(v, NextPosition(w, l, p), |w.queues[l]|))
  {
    hide Visits, Pick, Spin, Ok;
    if n > 0 { VisitsStep(w, l, n); } else { VisitsNone(w, l); }
  }

  lemma VisitsNone(w: Wheel, l: nat)
    requires Ok(w)
    ensures Visits(w, l, 0) == 0
  {}

  lemma VisitsStep(w: Wheel, l: nat, n: nat)
    requires Ok(w) && n > 0
    ensures Ok(Spin(w))
    ensures Visits(w, l, n) == (if w.curLev == l then 1 else 0) + Visits(Spin(w), l, n - 1)
  {
    SpinKeepsSizes(w);
    hide Pick, Spin, Ok;
  }

  /** Every task gets its share of a window: W - 1 slices, from any state of the counts. */
  lemma TaskShare(w: Wheel, t: nat, l: nat, p: nat)
    requires Ok(w) && StandsAt(w.queues, t, l, p)
    ensures multiset(Slices(w, TurnLength(w) - 1))[t] == Odometer.Share(l, Sizes(w.queues))
  {
    var n := TurnLength(w) - 1;
    SlicesFollowRotation(w, t, l, p, n);
    LevelShare(w, l);
    TurnsExact(Odometer.Share(l, Sizes(w.queues)), p, |w.queues[l]|);
  }
}
