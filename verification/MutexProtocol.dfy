/** The re-entrant spin mutex as a protocol of single reads and writes. A timer tick may come
    between any two of them, so every interleaving of the tasks' steps is a run.

    isLockedIfNotLock hands the byte lock_count_ to its compare-and-exchange in a register, so
    what the code does to memory is a load and, later, a store: of 1 if the loaded byte was 0,
    and of the loaded byte if it was not. Step is that machine. (The instruction carries a lock
    prefix, which a processor refuses on a register; Step takes it for nothing.) In AtomicStep, the intended
    design, the load and the store are one step. In both the winner's id is written after the
    exchange, and in between the word still names the task that owned the mutex last. */
module MutexProtocol {
  import opened Seqs

  const COUNTS: nat := 256

  /** Where a task is inside lock() or unLock(). */
  datatype Pc =
    | Outside
    | LockTry                     // isLockedIfNotLock, the load
    | LockTryStore(loaded: nat)   // isLockedIfNotLock, the store
    | LockReadCount               // isLocker: lock_count_
    | LockReadOwner               // isLocker: task_id_
    | LockLoad                    // ++lock_count_, the load
    | LockStore(loaded: nat)      // ++lock_count_, the store
    | LockSpin                    // isLockedIfNotLock in the loop, the load
    | LockSpinStore(loaded: nat)  // isLockedIfNotLock in the loop, the store
    | LockOwn                     // task_id_ = own id
    | UnlockReadCount
    | UnlockReadOwner
    | UnlockLoad
    | UnlockStore(loaded: nat)

  datatype Call = Lock | Unlock

  /** The two words of the mutex, the place of each task, how deep each task has locked,
      and who won the last exchange and has not given the mutex back. */
  datatype State = State(lockCount: nat, taskId: nat, pcs: seq<Pc>, depths: seq<nat>, holder: Option<nat>)

  /** Ids are not zero and differ between tasks; they do not change while a mutex is held. */
  function IdOf(t: nat): nat { t + 1 }

  function Init(tasks: nat): State {
    State(0, 0, seq(tasks, _ => Outside), seq(tasks, _ => 0), None)
  }

  predicate IsTask(m: State, t: nat) { t < |m.pcs| == |m.depths| }

  function Goto(m: State, t: nat, pc: Pc): State
    requires IsTask(m, t)
  {
    m.(pcs := m.pcs[t := pc])
  }

  /** The store of the exchange: it tells the winner from the loaded byte. */
  function Exchange(m: State, t: nat, loaded: nat, otherwise: Pc): State
    requires IsTask(m, t)
  {
    if loaded == 0 then Goto(m.(lockCount := 1, holder := Some(t)), t, LockOwn)
    else Goto(m.(lockCount := loaded), t, otherwise)
  }

  /** The next read or write of task t; a task outside starts the given call. */
  function Step(m: State, t: nat, call: Call): (r: State)
    requires IsTask(m, t)
    ensures |r.pcs| == |m.pcs| && |r.depths| == |m.depths|
  {
    match m.pcs[t]
    case Outside => Goto(m, t, if call.Lock? then LockTry else UnlockReadCount)
    case LockTry => Goto(m, t, LockTryStore(m.lockCount))
    case LockTryStore(v) => Exchange(m, t, v, LockReadCount)
    case LockReadCount => Goto(m, t, if m.lockCount == 0 then LockSpin else LockReadOwner)
    case LockReadOwner => Goto(m, t, if m.taskId == IdOf(t) then LockLoad else LockSpin)
    case LockLoad => Goto(m, t, LockStore(m.lockCount))
    case LockStore(v) =>
      Goto(m.(lockCount := (v + 1) % COUNTS, depths := m.depths[t := m.depths[t] + 1]), t, Outside)
    case LockSpin => Goto(m, t, LockSpinStore(m.lockCount))
    case LockSpinStore(v) => Exchange(m, t, v, LockSpin)
    case LockOwn => Goto(m.(taskId := IdOf(t), depths := m.depths[t := m.depths[t] + 1]), t, Outside)
    case UnlockReadCount => Goto(m, t, if m.lockCount == 0 then Outside else UnlockReadOwner)
    case UnlockReadOwner => Goto(m, t, if m.taskId == IdOf(t) then UnlockLoad else Outside)
    case UnlockLoad => Goto(m, t, UnlockStore(m.lockCount))
    case UnlockStore(v) =>
      var count := if v == 0 then COUNTS - 1 else v - 1;
      Goto(m.(lockCount := count,
              depths := m.depths[t := if m.depths[t] == 0 then 0 else m.depths[t] - 1],
              holder := if count == 0 then None else m.holder), t, Outside)
  }

  // ------------------------------------------------------------------ invariant

  /** Steps that only the holder of the mutex takes. */
  predicate Privileged(pc: Pc) {
    pc.LockOwn? || pc.LockLoad? || pc.LockStore? || pc.UnlockLoad? || pc.UnlockStore?
  }

  predicate ReadsOwner(pc: Pc) { pc.LockReadOwner? || pc.UnlockReadOwner? }

  /** Between the load and the store of an exchange. */
  predicate Pending(pc: Pc) { pc.LockTryStore? || pc.LockSpinStore? }

  /** Another task has won the mutex but not yet written its id. */
  predicate InWindow(m: State)
    requires |m.pcs| == |m.depths|
  {
    m.holder.Some? && m.holder.value < |m.pcs| && m.pcs[m.holder.value].LockOwn?
  }

  /** A task that does not hold the mutex. */
  ghost predicate BystanderOk(m: State, t: nat)
    requires IsTask(m, t)
  {
    && m.depths[t] == 0 && !Privileged(m.pcs[t])
    && (ReadsOwner(m.pcs[t]) && m.taskId == IdOf(t) ==> InWindow(m))
  }

  ghost predicate HolderOk(m: State, h: nat)
    requires IsTask(m, h)
  {
    if m.pcs[h].LockOwn? then m.depths[h] == 0 && m.lockCount == 1
    else
      && m.depths[h] == m.lockCount > 0 && m.taskId == IdOf(h)
      && !m.pcs[h].LockSpin? && !m.pcs[h].LockSpinStore?
      && (m.pcs[h].LockTryStore? || m.pcs[h].LockStore? || m.pcs[h].UnlockStore? ==>
            m.pcs[h].loaded == m.lockCount)
  }

  ghost predicate Inv(m: State) {
    && |m.pcs| == |m.depths| && m.lockCount < COUNTS
    && (m.holder.None? ==> m.lockCount == 0)
    && (m.holder.Some? ==> m.holder.value < |m.pcs| && HolderOk(m, m.holder.value))
    && (forall t :: 0 <= t < |m.pcs| && m.holder != Some(t) ==> BystanderOk(m, t))
  }

  lemma InitOk(tasks: nat)
    ensures Inv(Init(tasks))
  {}

  /** Mutual exclusion: at most one task is inside, and the count is its nesting depth. */
  lemma MutualExclusion(m: State, t: nat, u: nat)
    requires Inv(m) && IsTask(m, t) && IsTask(m, u)
    requires m.depths[t] > 0
    ensures m.depths[u] > 0 ==> u == t
    ensures m.lockCount == m.depths[t] && m.taskId == IdOf(t)
  {
    assert m.holder != Some(t) ==> BystanderOk(m, t);
    assert m.holder != Some(u) ==> BystanderOk(m, u);
  }

  // ------------------------------------------------------------------ when it fails

  /** A task that does not hold the mutex is about to read its own id, left behind from
      earlier, because the winner of the mutex has not written its id yet. */
  predicate Hazard(m: State, t: nat)
    requires IsTask(m, t)
  {
    m.holder != Some(t) && ReadsOwner(m.pcs[t]) && m.taskId == IdOf(t)
  }

  /** The 256th nested lock wraps the count to zero. */
  predicate Overflow(m: State, t: nat)
    requires IsTask(m, t)
  {
    m.pcs[t] == LockStore(COUNTS - 1)
  }

  /** The exchange is about to store what it makes of a byte that is no longer there. */
  predicate Stale(m: State, t: nat)
    requires IsTask(m, t)
  {
    Pending(m.pcs[t]) && m.pcs[t].loaded != m.lockCount
  }

  /** A step keeps the invariant if and only if it is none of the three. */
  lemma StepKeepsIff(m: State, t: nat, call: Call)
    requires Inv(m) && IsTask(m, t)
    ensures Inv(Step(m, t, call)) <==> !Hazard(m, t) && !Overflow(m, t) && !Stale(m, t)
  {
    var m' := Step(m, t, call);
    assert m.holder != Some(t) ==> BystanderOk(m, t);
    if Hazard(m, t) {
      assert m'.holder == m.holder;
      assert !BystanderOk(m', t);
    } else if Overflow(m, t) {
      assert m'.holder == Some(t) && !HolderOk(m', t);
    } else if Stale(m, t) {
      StaleBreaks(m, t, call);
    } else {
      GoodStepKeeps(m, t, call);
    }
  }

  lemma StaleBreaks(m: State, t: nat, call: Call)
    requires Inv(m) && IsTask(m, t) && Stale(m, t)
    ensures !Inv(Step(m, t, call))
  {
    var m' := Step(m, t, call);
    if m.holder.Some? {
      var h := m.holder.value;
      assert h != t && IsTask(m', h) && m'.depths[h] == m.depths[h] && m'.pcs[h] == m.pcs[h];
      if m.pcs[t].loaded == 0 {
        assert !BystanderOk(m', h);
      } else {
        assert !HolderOk(m', h);
      }
    }
  }

  lemma GoodStepKeeps(m: State, t: nat, call: Call)
    requires Inv(m) && IsTask(m, t) && !Hazard(m, t) && !Overflow(m, t) && !Stale(m, t)
    ensures Inv(Step(m, t, call))
  {
    var m' := Step(m, t, call);
    assert m.holder != Some(t) ==> BystanderOk(m, t);
    forall u | 0 <= u < |m'.pcs| && m'.holder != Some(u)
      ensures BystanderOk(m', u)
    {
      assert m.holder != Some(u) ==> BystanderOk(m, u);
    }
  }

  /** The hazard needs another task inside its window. */
  lemma HazardNeedsWindow(m: State, t: nat)
    requires Inv(m) && IsTask(m, t) && Hazard(m, t)
    ensures InWindow(m) && m.holder != Some(t)
  {
    assert BystanderOk(m, t);
  }

  // ------------------------------------------------------------------ runs

  datatype Move = Move(task: nat, call: Call)

  predicate Tasks(m: State, moves: seq<Move>) {
    |m.pcs| == |m.depths| && forall i :: 0 <= i < |moves| ==> moves[i].task < |m.pcs|
  }

  function Run(m: State, moves: seq<Move>): (r: State)
    requires Tasks(m, moves)
    ensures |r.pcs| == |m.pcs| && |r.depths| == |m.depths|
    decreases |moves|
  {
    if moves == [] then m else Run(Step(m, moves[0].task, moves[0].call), moves[1..])
  }

  /** The first step of a run. */
  lemma RunStep(m: State, mv: Move, rest: seq<Move>)
    requires Tasks(m, [mv] + rest)
    ensures Tasks(m, rest) && Run(m, [mv] + rest) == Run(Step(m, mv.task, mv.call), rest)
  {
    assert ([mv] + rest)[1..] == rest;
    forall i | 0 <= i < |rest|
      ensures rest[i].task < |m.pcs|
    {
      assert rest[i] == ([mv] + rest)[i + 1];
    }
  }

  lemma {:induction false} RunConcat(m: State, a: seq<Move>, b: seq<Move>)
    requires Tasks(m, a) && Tasks(m, b)
    ensures Tasks(m, a + b) && Run(m, a + b) == Run(Run(m, a), b)
    decreases |a|
  {
    if a == [] {
      assert a + b == b;
    } else {
      assert (a + b)[1..] == a[1..] + b;
      RunConcat(Step(m, a[0].task, a[0].call), a[1..], b);
    }
  }

  /** No step of the run is one of the three. */
  predicate Safe(m: State, moves: seq<Move>)
    requires Tasks(m, moves)
    decreases |moves|
  {
    moves == [] ||
    (var t := moves[0].task;
     && !Hazard(m, t) && !Overflow(m, t) && !Stale(m, t)
     && Safe(Step(m, t, moves[0].call), moves[1..]))
  }

  lemma {:induction false} SafeRunsKeep(m: State, moves: seq<Move>)
    requires Tasks(m, moves) && Inv(m) && Safe(m, moves)
    ensures Inv(Run(m, moves))
    decreases |moves|
  {
    if moves != [] {
      StepKeepsIff(m, moves[0].task, moves[0].call);
      SafeRunsKeep(Step(m, moves[0].task, moves[0].call), moves[1..]);
    }
  }

  // ------------------------------------------------------------------ unLock by others

  /** How many steps a task in unLock that does not hold the mutex has before it at most. */
  function UnlockSteps(pc: Pc): nat {
    if pc.UnlockReadCount? then 2 else if pc.UnlockReadOwner? then 1 else 0
  }

  /** A task in unLock that does not hold the mutex never comes to the decrement. */
  lemma OthersDoNotUnlock(m: State, t: nat, call: Call)
    requires Inv(m) && IsTask(m, t) && m.holder != Some(t) && !Hazard(m, t)
    requires UnlockSteps(m.pcs[t]) > 0
    ensures var m' := Step(m, t, call);
      && (m'.pcs[t] == Outside || m'.pcs[t] == UnlockReadOwner)
      && UnlockSteps(m'.pcs[t]) < UnlockSteps(m.pcs[t])
      && m'.lockCount == m.lockCount && m'.taskId == m.taskId && m'.depths == m.depths && m'.holder == m.holder
  {
    assert BystanderOk(m, t);
  }

  /** Task t, in unLock, takes at most the given number of further steps of its own before it is
      outside again, and none of them changes a word of the mutex. */
  ghost predicate ReturnsUntouched(m: State, moves: seq<Move>, t: nat, left: nat)
    requires Tasks(m, moves) && IsTask(m, t)
    decreases |moves|
  {
    moves == [] ||
    (var m' := Step(m, moves[0].task, moves[0].call);
     if moves[0].task != t then ReturnsUntouched(m', moves[1..], t, left)
     else
       && left > 0 && m'.lockCount == m.lockCount && m'.taskId == m.taskId
       && (m'.pcs[t] == Outside || ReturnsUntouched(m', moves[1..], t, left - 1)))
  }

  /** In every safe run, whatever the others do meanwhile, a call of unLock by a task that does
      not hold the mutex is over after two steps and has left the mutex alone. */
  lemma {:induction false} UnlockByOthersIsNeutral(m: State, moves: seq<Move>, t: nat)
    requires Tasks(m, moves) && IsTask(m, t) && Inv(m) && Safe(m, moves)
    requires m.holder != Some(t) && UnlockSteps(m.pcs[t]) > 0
    ensures ReturnsUntouched(m, moves, t, UnlockSteps(m.pcs[t]))
    decreases |moves|
  {
    hide Step, Inv;
    if moves != [] {
      var u, call := moves[0].task, moves[0].call;
      var m' := Step(m, u, call);
      StepKeepsIff(m, u, call);
      if u == t {
        OthersDoNotUnlock(m, t, call);
        if m'.pcs[t] != Outside {
          UnlockByOthersIsNeutral(m', moves[1..], t);
          MoreSteps(m', moves[1..], t, UnlockSteps(m'.pcs[t]), UnlockSteps(m.pcs[t]) - 1);
        }
      } else {
        OthersKeepPlace(m, u, call, t);
        UnlockByOthersIsNeutral(m', moves[1..], t);
      }
    }
  }

  lemma OthersKeepPlace(m: State, u: nat, call: Call, t: nat)
    requires IsTask(m, u) && IsTask(m, t) && u != t && m.holder != Some(t)
    ensures var m' := Step(m, u, call); m'.pcs[t] == m.pcs[t] && m'.holder != Some(t)
  {}

  lemma {:induction false} MoreSteps(m: State, moves: seq<Move>, t: nat, few: nat, many: nat)
    requires Tasks(m, moves) && IsTask(m, t) && few <= many && ReturnsUntouched(m, moves, t, few)
    ensures ReturnsUntouched(m, moves, t, many)
    decreases |moves|
  {
    hide Step;
    if moves != [] {
      var m' := Step(m, moves[0].task, moves[0].call);
      if moves[0].task != t {
        MoreSteps(m', moves[1..], t, few, many);
      } else if m'.pcs[t] != Outside {
        MoreSteps(m', moves[1..], t, few - 1, many - 1);
      }
    }
  }

  // ------------------------------------------------------------------ what a stale store does

  predicate TwoInside(m: State, t: nat, u: nat)
    requires IsTask(m, t) && IsTask(m, u)
  {
    t != u && m.depths[t] > 0 && m.depths[u] > 0
  }

  /** The winning store and the write of the id. */
  lemma StaleWin(m: State, t: nat, h: nat)
    requires IsTask(m, t) && IsTask(m, h) && t != h && Pending(m.pcs[t]) && m.pcs[t].loaded == 0
    ensures var s := Step(Step(m, t, Lock), t, Lock);
      s.depths[t] == m.depths[t] + 1 && s.depths[h] == m.depths[h] && s.pcs[h] == m.pcs[h]
  {}

  lemma StaleWinMoves(m: State, t: nat) returns (moves: seq<Move>)
    requires Inv(m) && IsTask(m, t) && Stale(m, t) && m.pcs[t].loaded == 0
    ensures m.holder.Some? && IsTask(m, m.holder.value)
    ensures Tasks(m, moves) && 1 <= |moves| <= 3 && moves[0].task == t && TwoInside(Run(m, moves), t, m.holder.value)
  {
    var h := m.holder.value;
    assert t != h && HolderOk(m, h);
    StaleWin(m, t, h);
    RunNone(m);
    hide Run, Tasks, Inv, Step;
    moves := GoOn(m, [], t, Lock);
    moves := GoOn(m, moves, t, Lock);
    if m.pcs[h].LockOwn? {
      OwnGoesIn(Run(m, moves), h);
      moves := GoOn(m, moves, h, Lock);
    }
  }

  lemma OwnGoesIn(m: State, h: nat)
    requires IsTask(m, h) && m.pcs[h].LockOwn?
    ensures Step(m, h, Lock).depths == m.depths[h := m.depths[h] + 1]
  {}

  /** A task that has loaded 0 wins although the mutex is held, and two tasks are inside as
      soon as both have written their ids. */
  lemma StaleWinLetsTwoIn(m: State, t: nat)
    requires Inv(m) && IsTask(m, t) && Stale(m, t) && m.pcs[t].loaded == 0
    ensures m.holder.Some? && IsTask(m, m.holder.value)
    ensures exists moves: seq<Move> ::
      && Tasks(m, moves) && 1 <= |moves| <= 3 && moves[0].task == t && TwoInside(Run(m, moves), t, m.holder.value)
  {
    hide Inv, Stale, Run, Tasks, TwoInside;
    var moves := StaleWinMoves(m, t);
  }

  /** Nobody holds the mutex, and yet it counts as locked. */
  ghost predicate Orphaned(m: State) {
    && |m.pcs| == |m.depths| && m.lockCount > 0
    && (forall t :: 0 <= t < |m.pcs| ==>
          m.depths[t] == 0 && !Privileged(m.pcs[t]) && (Pending(m.pcs[t]) ==> m.pcs[t].loaded > 0))
  }

  /** No exchange is on its way to win. */
  predicate NoWinPending(m: State) {
    forall t :: 0 <= t < |m.pcs| && Pending(m.pcs[t]) ==> m.pcs[t].loaded > 0
  }

  /** A stale store into a free mutex orphans it if and only if no exchange has loaded 0. */
  lemma StaleStoreOrphansIff(m: State, t: nat, call: Call)
    requires Inv(m) && IsTask(m, t) && m.holder.None? && Stale(m, t)
    ensures Orphaned(Step(m, t, call)) <==> NoWinPending(m)
  {
    var m' := Step(m, t, call);
    forall u | 0 <= u < |m.pcs|
      ensures m.depths[u] == 0 && !Privileged(m.pcs[u])
      ensures u != t ==> m'.pcs[u] == m.pcs[u]
    {
      assert BystanderOk(m, u);
    }
  }

  /** The last owner is about to find its own id. */
  predicate OwnerReads(m: State, t: nat)
    requires IsTask(m, t)
  {
    ReadsOwner(m.pcs[t]) && m.taskId == IdOf(t)
  }

  /** An orphaned mutex stays so in exactly the steps in which the last owner does not find its
      own id. */
  lemma StaysOrphanedIff(m: State, t: nat, call: Call)
    requires Orphaned(m) && IsTask(m, t)
    ensures Orphaned(Step(m, t, call)) <==> !OwnerReads(m, t)
    ensures Step(m, t, call).taskId == m.taskId
  {
    var m' := Step(m, t, call);
    if OwnerReads(m, t) {
      assert Privileged(m'.pcs[t]);
    }
  }

  predicate OwnerStaysAway(m: State, moves: seq<Move>)
    requires Tasks(m, moves)
    decreases |moves|
  {
    moves == [] ||
    (!OwnerReads(m, moves[0].task) && OwnerStaysAway(Step(m, moves[0].task, moves[0].call), moves[1..]))
  }

  /** So no task comes in as long as the last owner does not get that far. */
  lemma {:induction false} OrphanedWhileOwnerIsAway(m: State, moves: seq<Move>)
    requires Tasks(m, moves) && Orphaned(m) && OwnerStaysAway(m, moves)
    ensures Orphaned(Run(m, moves))
    decreases |moves|
  {
    hide Step, Orphaned;
    if moves != [] {
      StaysOrphanedIff(m, moves[0].task, moves[0].call);
      OrphanedWhileOwnerIsAway(Step(m, moves[0].task, moves[0].call), moves[1..]);
    }
  }

  // ------------------------------------------------------------------ whole calls

  /** One more step of the code at the end of a run. */
  lemma GoOn(m: State, moves: seq<Move>, t: nat, call: Call) returns (r: seq<Move>)
    requires Tasks(m, moves) && IsTask(m, t)
    ensures r == moves + [Move(t, call)] && Tasks(m, r)
    ensures Run(m, r) == Step(Run(m, moves), t, call)
  {
    r := moves + [Move(t, call)];
    RunConcat(m, moves, [Move(t, call)]);
    RunStep(Run(m, moves), Move(t, call), []);
    assert [Move(t, call)] + [] == [Move(t, call)];
  }

  /** Moves of task t alone come after the given ones. */
  predicate Continues(moves: seq<Move>, r: seq<Move>, t: nat) {
    moves <= r && forall i :: |moves| <= i < |r| ==> r[i].task == t
  }

  /** So many steps of task h in unLock. */
  function Unlocks(h: nat, n: nat): seq<Move> { seq(n, _ => Move(h, Unlock)) }

  /** One call of unLock, of five steps, by the task whose id is in the mutex. */
  lemma UnlockCall(m: State, moves: seq<Move>, h: nat)
    requires Tasks(m, moves) && IsTask(m, h)
    requires var s := Run(m, moves); s.pcs[h] == Outside && s.taskId == IdOf(h) && s.lockCount > 0
    ensures Tasks(m, moves + Unlocks(h, 5))
    ensures var s, s' := Run(m, moves), Run(m, moves + Unlocks(h, 5));
      && s'.lockCount == s.lockCount - 1 && s'.taskId == s.taskId && s'.pcs == s.pcs
      && s'.depths == s.depths[h := if s.depths[h] == 0 then 0 else s.depths[h] - 1]
      && s'.holder == if s.lockCount == 1 then None else s.holder
  {
    hide Run, Tasks;
    var r := GoOn(m, moves, h, Unlock);
    r := GoOn(m, r, h, Unlock);
    r := GoOn(m, r, h, Unlock);
    r := GoOn(m, r, h, Unlock);
    r := GoOn(m, r, h, Unlock);
    assert r == moves + Unlocks(h, 5);
  }

  function Locks(t: nat, n: nat): seq<Move> { seq(n, _ => Move(t, Lock)) }

  /** One call of lock on a free mutex, of four steps: the caller is inside, once. */
  lemma LockFree(m: State, moves: seq<Move>, t: nat)
    requires Tasks(m, moves) && IsTask(m, t)
    requires var s := Run(m, moves); s.pcs[t] == Outside && s.lockCount == 0
    ensures Tasks(m, moves + Locks(t, 4))
    ensures var s := Run(m, moves);
      Run(m, moves + Locks(t, 4)) == State(1, IdOf(t), s.pcs, s.depths[t := s.depths[t] + 1], Some(t))
  {
    hide Run, Tasks;
    var r := GoOn(m, moves, t, Lock);
    r := GoOn(m, r, t, Lock);
    r := GoOn(m, r, t, Lock);
    r := GoOn(m, r, t, Lock);
    assert r == moves + Locks(t, 4);
  }

  /** The first four steps of a call of lock on a mutex that is not free. */
  lemma LockLoses(m: State, moves: seq<Move>, t: nat)
    requires Tasks(m, moves) && IsTask(m, t)
    requires var s := Run(m, moves); s.pcs[t] == Outside && s.lockCount > 0
    ensures Tasks(m, moves + Locks(t, 4))
    ensures var s := Run(m, moves); Run(m, moves + Locks(t, 4)) == s.(pcs := s.pcs[t := LockReadOwner])
  {
    hide Run, Tasks;
    var r := GoOn(m, moves, t, Lock);
    r := GoOn(m, r, t, Lock);
    r := GoOn(m, r, t, Lock);
    r := GoOn(m, r, t, Lock);
    assert r == moves + Locks(t, 4);
  }

  /** One call of lock by the task whose id is in the mutex, of seven steps: it is inside once more. */
  lemma LockAgain(m: State, moves: seq<Move>, t: nat)
    requires Tasks(m, moves) && IsTask(m, t)
    requires var s := Run(m, moves); s.pcs[t] == Outside && 0 < s.lockCount < 255 && s.taskId == IdOf(t)
    ensures Tasks(m, moves + Locks(t, 7))
    ensures var s := Run(m, moves);
      Run(m, moves + Locks(t, 7)) ==
        State(s.lockCount + 1, IdOf(t), s.pcs, s.depths[t := s.depths[t] + 1], s.holder)
  {
    hide Run, Tasks;
    LockLoses(m, moves, t);
    var r := GoOn(m, moves + Locks(t, 4), t, Lock);
    r := GoOn(m, r, t, Lock);
    r := GoOn(m, r, t, Lock);
    assert r == moves + Locks(t, 7);
  }

  /** Any other task that calls lock spins after five steps, and keeps spinning. */
  lemma LockSpins(m: State, moves: seq<Move>, t: nat)
    requires Tasks(m, moves) && IsTask(m, t)
    requires var s := Run(m, moves); s.pcs[t] == Outside && s.lockCount > 0 && s.taskId != IdOf(t)
    ensures Tasks(m, moves + Locks(t, 5)) && Tasks(m, moves + Locks(t, 7))
    ensures var s := Run(m, moves);
      Run(m, moves + Locks(t, 5)) == Run(m, moves + Locks(t, 7)) == s.(pcs := s.pcs[t := LockSpin])
  {
    hide Run, Tasks;
    LockLoses(m, moves, t);
    var r := GoOn(m, moves + Locks(t, 4), t, Lock);
    assert r == moves + Locks(t, 5);
    r := GoOn(m, r, t, Lock);
    r := GoOn(m, r, t, Lock);
    assert r == moves + Locks(t, 7);
  }

  // ------------------------------------------------------------------ a stale store under a holder

  lemma {:induction false} UnlockCalls(m: State, moves: seq<Move>, h: nat, n: nat)
    requires Tasks(m, moves) && IsTask(m, h)
    requires var s := Run(m, moves); s.pcs[h] == Outside && s.taskId == IdOf(h) && s.lockCount >= n
    ensures Tasks(m, moves + Unlocks(h, 5 * n))
    ensures var s, s' := Run(m, moves), Run(m, moves + Unlocks(h, 5 * n));
      && s'.lockCount == s.lockCount - n && s'.taskId == s.taskId && s'.pcs == s.pcs
      && s'.depths == s.depths[h := if s.depths[h] < n then 0 else s.depths[h] - n]
    decreases n
  {
    hide Run, Tasks;
    if n == 0 {
      assert moves + Unlocks(h, 0) == moves;
    } else {
      UnlockCall(m, moves, h);
      UnlockCalls(m, moves + Unlocks(h, 5), h, n - 1);
      assert moves + Unlocks(h, 5) + Unlocks(h, 5 * (n - 1)) == moves + Unlocks(h, 5 * n);
    }
  }

  /** A stale exchange that loses while the mutex is held: what the step does to the state. */
  lemma StaleLoss(m: State, t: nat)
    requires Inv(m) && IsTask(m, t) && Stale(m, t) && m.holder.Some? && m.pcs[t].loaded > 0
    requires m.pcs[m.holder.value] == Outside
    ensures var h, s := m.holder.value, Step(m, t, Lock);
      && h != t && IsTask(m, h) && m.depths[h] == m.lockCount > 0 && m.depths[t] == 0
      && s.pcs[h] == Outside && s.taskId == IdOf(h) && s.lockCount == m.pcs[t].loaded && s.depths == m.depths
      && (s.pcs[t].LockReadCount? || s.pcs[t].LockSpin?)
  {
    assert BystanderOk(m, t);
  }

  /** A task that waits in lock() comes into a free mutex. */
  lemma ComesIn(m: State, moves: seq<Move>, t: nat) returns (r: seq<Move>)
    requires Tasks(m, moves) && IsTask(m, t)
    requires var s := Run(m, moves); s.lockCount == 0 && (s.pcs[t].LockReadCount? || s.pcs[t].LockSpin?)
    ensures Tasks(m, r) && Continues(moves, r, t)
    ensures Run(m, r).depths == Run(m, moves).depths[t := Run(m, moves).depths[t] + 1]
  {
    hide Run, Tasks;
    r := moves;
    if Run(m, r).pcs[t].LockReadCount? { r := GoOn(m, r, t, Lock); }
    r := GoOn(m, r, t, Lock);
    r := GoOn(m, r, t, Lock);
    r := GoOn(m, r, t, Lock);
  }

  /** It stores less than the holder's depth: the holder's unlocks free the mutex while it is
      still inside, and the other task comes in. */
  lemma StaleLossLetsTwoIn(m: State, t: nat)
    requires Inv(m) && IsTask(m, t) && Stale(m, t) && m.holder.Some? && m.pcs[m.holder.value] == Outside
    requires 0 < m.pcs[t].loaded < m.lockCount
    ensures IsTask(m, m.holder.value)
    ensures exists moves: seq<Move> ::
      Tasks(m, moves) && moves != [] && moves[0].task == t && TwoInside(Run(m, moves), t, m.holder.value)
  {
    StaleLoss(m, t);
    var h := m.holder.value;
    RunNone(m);
    var first := GoOn(m, [], t, Lock);
    hide Run, Tasks, Inv, Step;
    UnlockCalls(m, first, h, m.pcs[t].loaded);
    var freed := first + Unlocks(h, 5 * m.pcs[t].loaded);
    var r := ComesIn(m, freed, t);
    assert r[0] == first[0];
    assert TwoInside(Run(m, r), t, h);
  }

  /** It stores more: when the holder has made as many unLock calls as it is deep inside, five steps
      each, the mutex is orphaned. */
  lemma StaleLossOrphans(m: State, t: nat)
    requires Inv(m) && IsTask(m, t) && Stale(m, t) && m.holder.Some? && m.pcs[m.holder.value] == Outside
    requires m.pcs[t].loaded > m.lockCount && NoWinPending(m)
    ensures IsTask(m, m.holder.value)
    ensures var h := m.holder.value;
      var moves := [Move(t, Lock)] + Unlocks(h, 5 * m.depths[h]);
      Tasks(m, moves) && Orphaned(Run(m, moves))
  {
    StaleLoss(m, t);
    var h := m.holder.value;
    RunNone(m);
    var first := GoOn(m, [], t, Lock);
    UnlockCalls(m, first, h, m.lockCount);
    var r := first + Unlocks(h, 5 * m.lockCount);
    var s, s' := Run(m, first), Run(m, r);
    forall u | 0 <= u < |m.pcs|
      ensures s'.depths[u] == 0 && !Privileged(s'.pcs[u]) && (Pending(s'.pcs[u]) ==> s'.pcs[u].loaded > 0)
    {
      assert u != h ==> BystanderOk(m, u);
    }
    assert first == [Move(t, Lock)];
  }

  // ------------------------------------------------------------------ a holder whose id changes

  /** An id that no task has. */
  const NOBODY: nat := 0

  /** The holder is flagged for deletion, and with its id it loses the one in the mutex. */
  function HolderFlagged(m: State): State { m.(taskId := NOBODY) }

  ghost predicate Abandoned(m: State) {
    && |m.pcs| == |m.depths| && m.lockCount > 0 && m.taskId == NOBODY && NoWinPending(m)
    && (forall t :: 0 <= t < |m.pcs| ==> !Privileged(m.pcs[t]))
  }

  lemma {:induction false} AbandonedForGood(m: State, moves: seq<Move>)
    requires Tasks(m, moves) && Abandoned(m)
    ensures Abandoned(Run(m, moves)) && Run(m, moves).depths == m.depths
    decreases |moves|
  {
    if moves != [] {
      assert IsTask(m, moves[0].task);
      AbandonedForGood(Step(m, moves[0].task, moves[0].call), moves[1..]);
    }
  }

  /** A holder that is flagged outside the last steps of a call, where it no longer looks at the
      id, can never unlock again, nor can any task ever lock, in any run whatsoever. */
  lemma FlaggedHolderNeverUnlocks(m: State, moves: seq<Move>)
    requires Inv(m) && m.holder.Some? && IsTask(m, m.holder.value) && Tasks(m, moves)
    requires !Privileged(m.pcs[m.holder.value]) && NoWinPending(m)
    ensures var r := Run(HolderFlagged(m), moves);
      r.lockCount > 0 && r.depths == m.depths && r.depths[m.holder.value] > 0
  {
    forall t | 0 <= t < |m.pcs|
      ensures !Privileged(m.pcs[t])
    {
      assert m.holder != Some(t) ==> BystanderOk(m, t);
    }
    AbandonedForGood(HolderFlagged(m), moves);
  }

  /** If an exchange has loaded 0, its task comes in while the flagged holder is still inside. */
  lemma FlaggedHolderLetsTwoIn(m: State, u: nat)
    requires Inv(m) && m.holder.Some? && IsTask(m, m.holder.value) && !Privileged(m.pcs[m.holder.value])
    requires IsTask(m, u) && Pending(m.pcs[u]) && m.pcs[u].loaded == 0
    ensures var moves := [Move(u, Lock), Move(u, Lock)];
      Tasks(m, moves) && TwoInside(Run(HolderFlagged(m), moves), u, m.holder.value)
  {
    var m' := HolderFlagged(m);
    var mv := Move(u, Lock);
    assert [mv, mv] == [mv] + [mv] && [mv] == [mv] + [];
    RunStep(m', mv, [mv]);
    RunStep(Step(m', u, Lock), mv, []);
  }

  // ------------------------------------------------------------------ the intended design

  /** The compare-and-exchange as one step on memory. */
  function AtomicStep(m: State, t: nat, call: Call): (r: State)
    requires IsTask(m, t)
    ensures |r.pcs| == |m.pcs| && |r.depths| == |m.depths|
  {
    var m1 := Step(m, t, call);
    if m.pcs[t].LockTry? || m.pcs[t].LockSpin? then Step(m1, t, call) else m1
  }

  predicate NonePending(m: State) { forall t :: 0 <= t < |m.pcs| ==> !Pending(m.pcs[t]) }

  /** With an atomic exchange a step keeps the invariant if and only if it is neither a hazard
      nor an overflow. */
  lemma AtomicStepKeepsIff(m: State, t: nat, call: Call)
    requires Inv(m) && IsTask(m, t) && NonePending(m)
    ensures Inv(AtomicStep(m, t, call)) <==> !Hazard(m, t) && !Overflow(m, t)
    ensures NonePending(AtomicStep(m, t, call))
  {
    hide Inv;
    StepKeepsIff(m, t, call);
    if m.pcs[t].LockTry? || m.pcs[t].LockSpin? {
      StepKeepsIff(Step(m, t, call), t, call);
    }
  }

  function AtomicRun(m: State, moves: seq<Move>): (r: State)
    requires Tasks(m, moves)
    ensures |r.pcs| == |m.pcs| && |r.depths| == |m.depths|
    decreases |moves|
  {
    if moves == [] then m else AtomicRun(AtomicStep(m, moves[0].task, moves[0].call), moves[1..])
  }

  /** The moves of the code that make one move of the design. */
  function ExpandOne(m: State, mv: Move): seq<Move>
    requires IsTask(m, mv.task)
  {
    if m.pcs[mv.task].LockTry? || m.pcs[mv.task].LockSpin? then [mv, mv] else [mv]
  }

  function Expand(m: State, moves: seq<Move>): (r: seq<Move>)
    requires Tasks(m, moves)
    ensures Tasks(m, r)
    decreases |moves|
  {
    if moves == [] then []
    else ExpandOne(m, moves[0]) + Expand(AtomicStep(m, moves[0].task, moves[0].call), moves[1..])
  }

  lemma ExpandOneIsStep(m: State, mv: Move)
    requires IsTask(m, mv.task)
    ensures Run(m, ExpandOne(m, mv)) == AtomicStep(m, mv.task, mv.call)
  {
    hide Step;
    var m1 := Step(m, mv.task, mv.call);
    RunStep(m, mv, []);
    assert [mv] + [] == [mv] && [mv, mv] == [mv] + [mv];
    RunStep(m, mv, [mv]);
    RunStep(m1, mv, []);
  }

  /** Every run of the design is a run of the code. */
  lemma {:induction false} AtomicRunIsRun(m: State, moves: seq<Move>)
    requires Tasks(m, moves)
    ensures Run(m, Expand(m, moves)) == AtomicRun(m, moves)
    decreases |moves|
  {
    hide AtomicStep, ExpandOne, Run;
    if moves == [] {
      RunNone(m);
    } else {
      var mv := moves[0];
      var m1 := AtomicStep(m, mv.task, mv.call);
      AtomicRunIsRun(m1, moves[1..]);
      ExpandOneIsStep(m, mv);
      ExpandOneTasks(m, mv);
      RunConcat(m, ExpandOne(m, mv), Expand(m1, moves[1..]));
    }
  }

  lemma RunNone(m: State)
    requires |m.pcs| == |m.depths|
    ensures Run(m, []) == m
  {}

  lemma ExpandOneTasks(m: State, mv: Move)
    requires IsTask(m, mv.task)
    ensures Tasks(m, ExpandOne(m, mv))
  {}

  /** The winner of the mutex writes its id before any other task moves, and nobody nests 256
      deep. */
  predicate Prompt(m: State, moves: seq<Move>)
    requires Tasks(m, moves)
    decreases |moves|
  {
    moves == [] ||
    ((InWindow(m) ==> m.holder == Some(moves[0].task))
     && !Overflow(m, moves[0].task)
     && Prompt(AtomicStep(m, moves[0].task, moves[0].call), moves[1..]))
  }

  /** With an atomic exchange and a prompt winner every interleaving keeps the mutex exclusive. */
  lemma {:induction false} PromptRunsAreSafe(m: State, moves: seq<Move>)
    requires Tasks(m, moves) && Inv(m) && NonePending(m) && Prompt(m, moves)
    ensures Inv(AtomicRun(m, moves))
    decreases |moves|
  {
    if moves != [] {
      var t := moves[0].task;
      if Hazard(m, t) { HazardNeedsWindow(m, t); }
      AtomicStepKeepsIff(m, t, moves[0].call);
      PromptRunsAreSafe(AtomicStep(m, t, moves[0].call), moves[1..]);
    }
  }

  // ------------------------------------------------------------------ why both conditions are needed

  /** One more move at the end of a run of the design. */
  lemma {:induction false} Append(m: State, moves: seq<Move>, mv: Move)
    requires Tasks(m, moves) && IsTask(m, mv.task)
    ensures Tasks(m, moves + [mv])
    ensures AtomicRun(m, moves + [mv]) == AtomicStep(AtomicRun(m, moves), mv.task, mv.call)
    decreases |moves|
  {
    if moves == [] {
      assert moves + [mv] == [mv] && [mv][1..] == [];
    } else {
      assert (moves + [mv])[1..] == moves[1..] + [mv];
      Append(AtomicStep(m, moves[0].task, moves[0].call), moves[1..], mv);
    }
  }

  /** Task t goes on, in lock() when it is outside. */
  lemma Go(m: State, moves: seq<Move>, t: nat) returns (r: seq<Move>)
    requires Tasks(m, moves) && IsTask(m, t)
    ensures r == moves + [Move(t, Lock)] && Tasks(m, r)
    ensures AtomicRun(m, r) == AtomicStep(AtomicRun(m, moves), t, Lock)
  {
    r := moves + [Move(t, Lock)];
    Append(m, moves, Move(t, Lock));
  }

  /** In lock(), the stale owner takes itself for the owner and comes in. */
  lemma HazardInLock(m: State, t: nat) returns (moves: seq<Move>)
    requires Inv(m) && IsTask(m, t) && Hazard(m, t) && m.pcs[t].LockReadOwner? && InWindow(m)
    ensures Tasks(m, moves) && |moves| == 4 && moves[0].task == t
    ensures TwoInside(AtomicRun(m, moves), t, m.holder.value)
  {
    assert AtomicRun(m, []) == m && HolderOk(m, m.holder.value) && BystanderOk(m, t);
    hide AtomicRun, Tasks, Inv, BystanderOk, HolderOk;
    moves := Go(m, [], t);
    moves := Go(m, moves, t);
    moves := Go(m, moves, t);
    moves := Go(m, moves, m.holder.value);
  }

  /** In unLock(), it frees the mutex under the winner. */
  lemma FreesUnderWinner(m: State, t: nat) returns (moves: seq<Move>)
    requires Inv(m) && IsTask(m, t) && Hazard(m, t) && m.pcs[t].UnlockReadOwner? && InWindow(m)
    ensures Tasks(m, moves) && |moves| == 4 && moves[0].task == t
    ensures var s, h := AtomicRun(m, moves), m.holder.value;
      s.lockCount == 0 && s.taskId == IdOf(h) && s.pcs[t] == Outside && s.depths[h] == 1
  {
    assert AtomicRun(m, []) == m && HolderOk(m, m.holder.value) && BystanderOk(m, t);
    hide AtomicRun, Tasks, Inv, BystanderOk, HolderOk;
    moves := Go(m, [], t);
    moves := Go(m, moves, t);
    moves := Go(m, moves, t);
    moves := Go(m, moves, m.holder.value);
  }

  /** And can then win it itself. */
  lemma HazardInUnlock(m: State, t: nat) returns (moves: seq<Move>)
    requires Inv(m) && IsTask(m, t) && Hazard(m, t) && m.pcs[t].UnlockReadOwner? && InWindow(m)
    ensures Tasks(m, moves) && 1 <= |moves| <= 8 && moves[0].task == t
    ensures TwoInside(AtomicRun(m, moves), t, m.holder.value)
  {
    hide AtomicRun, AtomicStep, Inv;
    var before := FreesUnderWinner(m, t);
    moves := EnterFree(m, before, t);
    assert moves[0] == moves[..|before|][0];
  }

  /** A step of t can be followed by at most n - 1 others of the design that leave both t and u
      inside. */
  ghost predicate LetsTwoIn(m: State, t: nat, u: nat, n: nat)
    requires IsTask(m, t) && IsTask(m, u)
  {
    exists moves: seq<Move> ::
      Tasks(m, moves) && 1 <= |moves| <= n && moves[0].task == t && TwoInside(AtomicRun(m, moves), t, u)
  }

  /** Every hazard can be followed by a second task inside within eight moves, even with an
      atomic exchange. */
  lemma HazardLetsTwoIn(m: State, t: nat)
    requires Inv(m) && IsTask(m, t) && Hazard(m, t)
    ensures m.holder.Some? && IsTask(m, m.holder.value) && LetsTwoIn(m, t, m.holder.value, 8)
  {
    HazardNeedsWindow(m, t);
    if m.pcs[t].LockReadOwner? {
      var moves := HazardInLock(m, t);
    } else {
      var moves := HazardInUnlock(m, t);
    }
  }

  /** From a free mutex a task that is neither in its last steps nor the last owner is inside
      after at most four moves. */
  lemma EnterFree(m: State, moves: seq<Move>, u: nat) returns (r: seq<Move>)
    requires Tasks(m, moves) && IsTask(m, u)
    requires var s := AtomicRun(m, moves);
      s.lockCount == 0 && s.taskId != IdOf(u) && !Privileged(s.pcs[u]) && !Pending(s.pcs[u])
    ensures Tasks(m, r) && |moves| <= |r| <= |moves| + 4 && r[..|moves|] == moves
    ensures var s, s' := AtomicRun(m, moves), AtomicRun(m, r);
      s'.depths[u] > 0 && forall t :: 0 <= t < |s.depths| && t != u ==> s'.depths[t] == s.depths[t]
  {
    hide AtomicRun, Tasks;
    var pc := AtomicRun(m, moves).pcs[u];
    r := moves;
    if pc.UnlockReadCount? || pc.UnlockReadOwner? || pc.LockReadOwner? || pc.LockReadCount? {
      r := Go(m, r, u);
    }
    if pc.UnlockReadCount? || pc.UnlockReadOwner? || pc.Outside? {
      r := Go(m, r, u);
    }
    r := Go(m, r, u);
    r := Go(m, r, u);
  }

  /** Every overflow can be followed by a second task inside within five moves. */
  lemma OverflowLetsTwoIn(m: State, t: nat, u: nat)
    requires Inv(m) && NonePending(m) && IsTask(m, t) && IsTask(m, u) && u != t && Overflow(m, t)
    ensures LetsTwoIn(m, t, u, 5)
  {
    assert m.holder != Some(t) ==> BystanderOk(m, t);
    assert m.holder != Some(u) ==> BystanderOk(m, u);
    var moves := Go(m, [], t);
    var before := moves;
    moves := EnterFree(m, moves, u);
    assert moves[0] == moves[..|before|][0];
  }

  // ------------------------------------------------------------------ two runs from the start

  /** Moves of one task in a row, with an atomic exchange. */
  function Moves(m: State, t: nat, call: Call, n: nat): (r: State)
    requires IsTask(m, t)
    ensures |r.pcs| == |m.pcs| && |r.depths| == |m.depths|
    decreases n
  {
    if n == 0 then m else Moves(AtomicStep(m, t, call), t, call, n - 1)
  }

  // Task 0 locks and unlocks; task 1 wins the mutex; before it writes its id, task 0 locks
  // again and takes itself for the owner.

  const START := State(0, 0, [Outside, Outside], [0, 0], None)
  const FIRST_LOCK := State(1, 1, [Outside, Outside], [1, 0], Some(0))
  const FIRST_UNLOCK := State(0, 1, [Outside, Outside], [0, 0], None)
  const WINDOW := State(1, 1, [Outside, LockOwn], [0, 0], Some(1))
  const STOLEN := State(2, 1, [Outside, LockOwn], [1, 0], Some(1))

  lemma FirstLock()
    ensures Moves(START, 0, Lock, 3) == FIRST_LOCK
  {
    var s1 := AtomicStep(START, 0, Lock);
    var s2 := AtomicStep(s1, 0, Lock);
    assert AtomicStep(s2, 0, Lock) == FIRST_LOCK;
    assert Moves(START, 0, Lock, 3) == Moves(s1, 0, Lock, 2) == Moves(s2, 0, Lock, 1);
  }

  lemma FirstUnlock()
    ensures Moves(FIRST_LOCK, 0, Unlock, 5) == FIRST_UNLOCK
  {
    var s1 := AtomicStep(FIRST_LOCK, 0, Unlock);
    var s2 := AtomicStep(s1, 0, Unlock);
    var s3 := AtomicStep(s2, 0, Unlock);
    var s4 := AtomicStep(s3, 0, Unlock);
    assert AtomicStep(s4, 0, Unlock) == FIRST_UNLOCK;
    assert Moves(FIRST_LOCK, 0, Unlock, 5) == Moves(s1, 0, Unlock, 4) == Moves(s2, 0, Unlock, 3);
    assert Moves(s2, 0, Unlock, 3) == Moves(s3, 0, Unlock, 2) == Moves(s4, 0, Unlock, 1);
  }

  lemma OpenWindow()
    ensures Moves(FIRST_UNLOCK, 1, Lock, 2) == WINDOW
  {
    var s1 := AtomicStep(FIRST_UNLOCK, 1, Lock);
    assert AtomicStep(s1, 1, Lock) == WINDOW;
    assert Moves(FIRST_UNLOCK, 1, Lock, 2) == Moves(s1, 1, Lock, 1);
  }

  lemma StealLock()
    ensures Moves(WINDOW, 0, Lock, 6) == STOLEN
  {
    var s1 := AtomicStep(WINDOW, 0, Lock);
    var s2 := AtomicStep(s1, 0, Lock);
    var s3 := AtomicStep(s2, 0, Lock);
    var s4 := AtomicStep(s3, 0, Lock);
    var s5 := AtomicStep(s4, 0, Lock);
    assert AtomicStep(s5, 0, Lock) == STOLEN;
    assert Moves(WINDOW, 0, Lock, 6) == Moves(s1, 0, Lock, 5) == Moves(s2, 0, Lock, 4) == Moves(s3, 0, Lock, 3);
    assert Moves(s3, 0, Lock, 3) == Moves(s4, 0, Lock, 2) == Moves(s5, 0, Lock, 1);
  }

  /** Even with an atomic exchange two tasks can both be inside. */
  lemma TwoTasksInside()
    ensures Init(2) == START
    ensures Moves(Moves(Moves(Moves(START, 0, Lock, 3), 0, Unlock, 5), 1, Lock, 2), 0, Lock, 6) == STOLEN
    ensures Moves(STOLEN, 1, Lock, 1).depths == [1, 1]
  {
    assert Moves(STOLEN, 1, Lock, 1) == Moves(AtomicStep(STOLEN, 1, Lock), 1, Lock, 0);
    assert AtomicStep(STOLEN, 1, Lock).depths == [1, 1];
    hide Moves, AtomicStep;
    FirstLock();
    FirstUnlock();
    OpenWindow();
    StealLock();
  }

  const ZERO := Move(0, Lock)
  const ONE := Move(1, Lock)

  /** As the code is, both tasks can load 0 and win, each writing its id at once. */
  lemma BothTasksWin()
    ensures Tasks(START, BOTH_WIN) && Run(START, BOTH_WIN).depths == [1, 1]
  {
    var s1 := Step(START, 0, Lock);
    var s2 := Step(s1, 0, Lock);
    var s3 := Step(s2, 1, Lock);
    var s4 := Step(s3, 1, Lock);
    var s5 := Step(s4, 0, Lock);
    var s6 := Step(s5, 0, Lock);
    var s7 := Step(s6, 1, Lock);
    assert s4 == State(0, 0, [LockTryStore(0), LockTryStore(0)], [0, 0], None);
    assert s6 == State(1, 1, [Outside, LockTryStore(0)], [1, 0], Some(0));
    assert Step(s7, 1, Lock).depths == [1, 1];
    RunStep(START, ZERO, [ZERO] + ([ONE] + ([ONE] + ([ZERO] + ([ZERO] + ([ONE] + ([ONE] + [])))))));
    RunStep(s1, ZERO, [ONE] + ([ONE] + ([ZERO] + ([ZERO] + ([ONE] + ([ONE] + []))))));
    RunStep(s2, ONE, [ONE] + ([ZERO] + ([ZERO] + ([ONE] + ([ONE] + [])))));
    RunStep(s3, ONE, [ZERO] + ([ZERO] + ([ONE] + ([ONE] + []))));
    RunStep(s4, ZERO, [ZERO] + ([ONE] + ([ONE] + [])));
    RunStep(s5, ZERO, [ONE] + ([ONE] + []));
    RunStep(s6, ONE, [ONE] + []);
    RunStep(s7, ONE, []);
  }

  const BOTH_WIN: seq<Move> :=
    [ZERO] + ([ZERO] + ([ONE] + ([ONE] + ([ZERO] + ([ZERO] + ([ONE] + ([ONE] + [])))))))

  const FREE := Move(0, Unlock)

  const ORPHAN: seq<Move> :=
    [ZERO] + ([ZERO] + ([ZERO] + ([ZERO] + ([ONE] + ([ONE]
    + ([FREE] + ([FREE] + ([FREE] + ([FREE] + ([FREE] + ([ONE] + [])))))))))))

  /** And task 1, which has loaded 1, can store it when task 0 has let go: the mutex is orphaned. */
  lemma TaskOneOrphans()
    ensures Tasks(START, ORPHAN) && Run(START, ORPHAN) == ORPHAN_STATE && Orphaned(ORPHAN_STATE)
  {
    var s1 := Step(START, 0, Lock);
    var s2 := Step(s1, 0, Lock);
    var s3 := Step(s2, 0, Lock);
    var s4 := Step(s3, 0, Lock);
    var s5 := Step(s4, 1, Lock);
    var s6 := Step(s5, 1, Lock);
    var s7 := Step(s6, 0, Unlock);
    var s8 := Step(s7, 0, Unlock);
    var s9 := Step(s8, 0, Unlock);
    var s10 := Step(s9, 0, Unlock);
    var s11 := Step(s10, 0, Unlock);
    assert s4 == State(1, 1, [Outside, Outside], [1, 0], Some(0));
    assert s6 == State(1, 1, [Outside, LockTryStore(1)], [1, 0], Some(0));
    assert s11 == State(0, 1, [Outside, LockTryStore(1)], [0, 0], None);
    assert Orphaned(Step(s11, 1, Lock));
    assert Step(s11, 1, Lock) == ORPHAN_STATE;
    hide Step, Orphaned;
    var r12 := [ONE] + [];
    var r11 := [FREE] + r12;
    var r10 := [FREE] + r11;
    var r9 := [FREE] + r10;
    var r8 := [FREE] + r9;
    var r7 := [FREE] + r8;
    var r6 := [ONE] + r7;
    var r5 := [ONE] + r6;
    var r4 := [ZERO] + r5;
    var r3 := [ZERO] + r4;
    var r2 := [ZERO] + r3;
    RunStep(START, ZERO, r2);
    RunStep(s1, ZERO, r3);
    RunStep(s2, ZERO, r4);
    RunStep(s3, ZERO, r5);
    RunStep(s4, ONE, r6);
    RunStep(s5, ONE, r7);
    RunStep(s6, FREE, r8);
    RunStep(s7, FREE, r9);
    RunStep(s8, FREE, r10);
    RunStep(s9, FREE, r11);
    RunStep(s10, FREE, r12);
    RunStep(s11, ONE, []);
  }

  const ORPHAN_STATE := State(1, 1, [Outside, LockReadCount], [0, 0], None)

  const RESCUE: seq<Move> :=
    [FREE] + ([FREE] + ([FREE] + ([FREE] + ([FREE] + ([ONE] + ([ONE] + ([ONE] + ([ONE] + []))))))))

  /** The last owner can end that: one more unLock by it frees the mutex, and task 1 comes in. */
  lemma LastOwnerRescues()
    ensures Tasks(ORPHAN_STATE, RESCUE)
    ensures Run(ORPHAN_STATE, RESCUE).depths == [0, 1]
  {
    var s1 := Step(ORPHAN_STATE, 0, Unlock);
    var s2 := Step(s1, 0, Unlock);
    var s3 := Step(s2, 0, Unlock);
    var s4 := Step(s3, 0, Unlock);
    var s5 := Step(s4, 0, Unlock);
    var s6 := Step(s5, 1, Lock);
    var s7 := Step(s6, 1, Lock);
    var s8 := Step(s7, 1, Lock);
    assert s5 == State(0, 1, [Outside, LockReadCount], [0, 0], None);
    assert Step(s8, 1, Lock).depths == [0, 1];
    hide Step;
    var r8 := [ONE] + [];
    var r7 := [ONE] + r8;
    var r6 := [ONE] + r7;
    var r5 := [ONE] + r6;
    var r4 := [FREE] + r5;
    var r3 := [FREE] + r4;
    var r2 := [FREE] + r3;
    var r1 := [FREE] + r2;
    RunStep(ORPHAN_STATE, FREE, r1);
    RunStep(s1, FREE, r2);
    RunStep(s2, FREE, r3);
    RunStep(s3, FREE, r4);
    RunStep(s4, FREE, r5);
    RunStep(s5, ONE, r6);
    RunStep(s6, ONE, r7);
    RunStep(s7, ONE, r8);
    RunStep(s8, ONE, []);
  }

  const SPINNING := State(1, 1, [Outside, LockSpin], [0, 0], None)
  const LOCKED_AGAIN := State(2, 1, [Outside, LockSpinStore(1)], [1, 0], None)

  lemma {:induction false} Repeated(m: State, moves: seq<Move>, t: nat, call: Call, n: nat) returns (r: seq<Move>)
    requires Tasks(m, moves) && IsTask(m, t)
    ensures Tasks(m, r) && Run(m, r) == CodeMoves(Run(m, moves), t, call, n)
    decreases n
  {
    hide Run, Tasks, Step;
    r := moves;
    if n > 0 {
      r := GoOn(m, moves, t, call);
      r := Repeated(m, r, t, call, n - 1);
    }
  }

  /** Moves of one task in a row. */
  function CodeMoves(m: State, t: nat, call: Call, n: nat): (r: State)
    requires IsTask(m, t)
    ensures |r.pcs| == |m.pcs| && |r.depths| == |m.depths|
    decreases n
  {
    if n == 0 then m else CodeMoves(Step(m, t, call), t, call, n - 1)
  }

  lemma LocksAgain()
    ensures CodeMoves(Step(SPINNING, 1, Lock), 0, Lock, 7) == LOCKED_AGAIN
  {
    var s0 := Step(SPINNING, 1, Lock);
    var s1 := Step(s0, 0, Lock);
    var s2 := Step(s1, 0, Lock);
    var s3 := Step(s2, 0, Lock);
    var s4 := Step(s3, 0, Lock);
    var s5 := Step(s4, 0, Lock);
    var s6 := Step(s5, 0, Lock);
    assert Step(s6, 0, Lock) == LOCKED_AGAIN;
    hide Step;
    assert CodeMoves(s0, 0, Lock, 7) == CodeMoves(s1, 0, Lock, 6) == CodeMoves(s2, 0, Lock, 5);
    assert CodeMoves(s2, 0, Lock, 5) == CodeMoves(s3, 0, Lock, 4) == CodeMoves(s4, 0, Lock, 3);
    assert CodeMoves(s4, 0, Lock, 3) == CodeMoves(s5, 0, Lock, 2) == CodeMoves(s6, 0, Lock, 1);
  }

  lemma ThenUnlocks()
    ensures CodeMoves(Step(LOCKED_AGAIN, 1, Lock), 0, Unlock, 5) == State(0, 1, [Outside, LockSpin], [0, 0], None)
  {
    var s0 := Step(LOCKED_AGAIN, 1, Lock);
    var s1 := Step(s0, 0, Unlock);
    var s2 := Step(s1, 0, Unlock);
    var s3 := Step(s2, 0, Unlock);
    var s4 := Step(s3, 0, Unlock);
    assert Step(s4, 0, Unlock) == State(0, 1, [Outside, LockSpin], [0, 0], None);
    hide Step;
    assert CodeMoves(s0, 0, Unlock, 5) == CodeMoves(s1, 0, Unlock, 4) == CodeMoves(s2, 0, Unlock, 3);
    assert CodeMoves(s2, 0, Unlock, 3) == CodeMoves(s3, 0, Unlock, 2) == CodeMoves(s4, 0, Unlock, 1);
  }

  lemma SpinningIsOrphaned()
    ensures Orphaned(SPINNING)
  {}

  lemma SpinningIsReached()
    ensures Tasks(ORPHAN_STATE, [ONE, ONE]) && Run(ORPHAN_STATE, [ONE, ONE]) == SPINNING
  {
    assert [ONE, ONE] == [ONE] + [ONE] && [ONE] == [ONE] + [];
    RunStep(ORPHAN_STATE, ONE, [ONE]);
    RunStep(Step(ORPHAN_STATE, 1, Lock), ONE, []);
  }

  lemma BalancedUse() returns (r: seq<Move>)
    ensures Tasks(SPINNING, r) && Run(SPINNING, r) == State(0, 1, [Outside, LockSpin], [0, 0], None)
  {
    RunNone(SPINNING);
    LocksAgain();
    ThenUnlocks();
    hide *;
    r := GoOn(SPINNING, [], 1, Lock);
    r := Repeated(SPINNING, r, 0, Lock, 7);
    r := GoOn(SPINNING, r, 1, Lock);
    r := Repeated(SPINNING, r, 0, Unlock, 5);
  }

  /** Even a balanced lock and unLock by the last owner can end it, when a task spinning meanwhile
      stores a stale byte once more. */
  lemma BalancedUseRescues()
    ensures Tasks(ORPHAN_STATE, [ONE, ONE]) && Run(ORPHAN_STATE, [ONE, ONE]) == SPINNING && Orphaned(SPINNING)
    ensures exists moves: seq<Move> :: Tasks(SPINNING, moves) && Run(SPINNING, moves).depths == [0, 1]
  {
    SpinningIsOrphaned();
    SpinningIsReached();
    hide CodeMoves, Run, Tasks, Step, Orphaned;
    var r := BalancedUse();
    r := ComesIn(SPINNING, r, 1);
    assert Run(SPINNING, r).depths == [0, 1];
  }
}
