/** The scheduler, task pool, process/thread tree and FPU hand-over of the 64-bit kernel as
    one state machine on one CPU. Ticks, traps, creations and deletions are atomic because the
    kernel runs them inside an interrupt or with interrupts switched off; a listing runs with
    interrupts on and is one step for each slot it looks at. Tasks are named by their pool slot. */
module KernelState {
  import opened Seqs
  import Wheel

  const MAX_TASKS: nat := 1024
  const MAX_THREADS: nat := 32
  const LEVELS: nat := 5
  const STACK_SIZE: nat := 8192
  const KEYS: nat := 0x1_0000_0000
  const FRAME_WORDS: nat := 24

  /** The FPU registers as one abstract value; FINIT is what finit leaves. */
  type Fpu = int
  const FINIT: Fpu := 0

  /** The register frame the interrupt entry pushes below the IST address. */
  type Frame = f: seq<int> | |f| == FRAME_WORDS witness seq(24, _ => 0)

  datatype Flags = Flags(system: bool, thread: bool, delete: bool, rest: nat)

  /** The packed id_ word, read field by field (module PackedId). */
  datatype Id = Id(key: nat, flags: Flags, priority: nat, no: nat)

  datatype Tcb = Tcb(id: Id, ppid: Id, threads: seq<nat>, context: Frame, usingFx: bool, fx: Fpu)
  {
    predicate Allocated() { id.key != 0 }

    /** getPPID: a process answers its own id. */
    function Ppid(): Id { if id.flags.thread then ppid else id }
  }

  datatype Kernel = Kernel(
    tcbs: seq<Tcb>,
    numTasks: int,
    nextKey: nat,
    stackPool: nat,
    queues: seq<seq<nat>>,
    executed: seq<nat>,
    curLev: nat,
    totalTasks: int,
    exFxUser: Id,
    ts: bool,
    hw: Fpu,
    ist: Frame,
    cursor: nat)

  // ------------------------------------------------------------------ pool

  predicate Alloc(tcbs: seq<Tcb>, i: int) {
    0 <= i < |tcbs| && tcbs[i].Allocated()
  }

  /** The first free slot at or after i; |tcbs| when there is none. */
  function FirstFree(tcbs: seq<Tcb>, i: nat): (n: nat)
    requires i <= |tcbs|
    ensures i <= n <= |tcbs|
    ensures n < |tcbs| ==> !tcbs[n].Allocated()
    ensures forall j :: i <= j < n ==> tcbs[j].Allocated()
    decreases |tcbs| - i
  {
    if i == |tcbs| || !tcbs[i].Allocated() then i else FirstFree(tcbs, i + 1)
  }

  /** searchTCB: the first allocated slot whose id is the given one. */
  function Search(tcbs: seq<Tcb>, id: Id, i: nat := 0): (r: Option<nat>)
    requires i <= |tcbs|
    ensures r.Some? ==> i <= r.value < |tcbs| && tcbs[r.value].Allocated() && tcbs[r.value].id == id
    ensures r.None? ==> forall j :: i <= j < |tcbs| ==> !(tcbs[j].Allocated() && tcbs[j].id == id)
    decreases |tcbs| - i
  {
    if i == |tcbs| then None
    else if tcbs[i].Allocated() && tcbs[i].id == id then Some(i)
    else Search(tcbs, id, i + 1)
  }

  /** The 32-bit key counter skips zero, the mark of a free slot. */
  function NextKey(key: nat): nat { if key + 1 == KEYS then 1 else key + 1 }

  function Deleted(id: Id): Id { id.(flags := id.flags.(delete := true)) }

  /** setDeleteFlag: the flag changes the id, and the threads of t are told the new id. */
  function FlagDelete(tcbs: seq<Tcb>, t: nat): (r: seq<Tcb>)
    requires t < |tcbs|
    ensures |r| == |tcbs|
  {
    var id := Deleted(tcbs[t].id);
    seq(|tcbs|, i requires 0 <= i < |tcbs| =>
      var c := if i == t then tcbs[i].(id := id) else tcbs[i];
      if i in tcbs[t].threads then c.(ppid := id) else c)
  }

  /** cleanThread: the delete flag for every thread of t. */
  function CleanThreads(tcbs: seq<Tcb>, t: nat): (r: seq<Tcb>)
    requires t < |tcbs|
    ensures |r| == |tcbs|
  {
    seq(|tcbs|, i requires 0 <= i < |tcbs| =>
      if i in tcbs[t].threads then tcbs[i].(id := Deleted(tcbs[i].id)) else tcbs[i])
  }

  function MarkDeleted(tcbs: seq<Tcb>, t: nat): (r: seq<Tcb>)
    requires t < |tcbs|
    ensures |r| == |tcbs|
  {
    CleanThreads(FlagDelete(tcbs, t), t)
  }

  /** freeTCB: a thread leaves its parent's list, and a zero key frees the slot. */
  function Free(tcbs: seq<Tcb>, t: nat): (r: seq<Tcb>)
    requires t < |tcbs|
    ensures |r| == |tcbs|
  {
    var parent := if tcbs[t].id.flags.thread then Search(tcbs, tcbs[t].Ppid()) else None;
    var rest := if parent.Some?
      then tcbs[parent.value := tcbs[parent.value].(threads := Remove(tcbs[parent.value].threads, t))]
      else tcbs;
    rest[t := rest[t].(id := rest[t].id.(key := 0))]
  }

  /** Task::init: 10 of the 24 words are set, the general registers keep what the slot held. */
  function InitialFrame(stale: Frame, stack: nat, entry: int): (f: Frame)
    ensures f[19] == entry && f[21] == 0x200 && f[20] == 24
    ensures f[0] == f[1] == f[2] == f[3] == f[23] == 32
    ensures f[18] == f[22] == stack + 8184
    ensures forall i :: 4 <= i < 18 ==> f[i] == stale[i]
  {
    var top := stack + STACK_SIZE - 8;
    stale[23 := 32][20 := 24][3 := 32][2 := 32][1 := 32][0 := 32][18 := top][22 := top][19 := entry][21 := 0x200]
  }

  // ------------------------------------------------------------------ queues

  function Push(queues: seq<seq<nat>>, lev: nat, t: nat): (r: seq<seq<nat>>)
    requires lev < |queues|
    ensures |r| == |queues|
  {
    queues[lev := PushBack(queues[lev], t, MAX_TASKS)]
  }

  /** The first level whose queue holds t; |queues| when none does. */
  function LevelOf(queues: seq<seq<nat>>, t: nat): (l: nat)
    ensures l <= |queues|
    ensures l < |queues| ==> t in queues[l]
    ensures forall j :: 0 <= j < l ==> t !in queues[j]
  {
    if queues == [] then 0
    else if t in queues[0] then 0
    else 1 + LevelOf(queues[1..], t)
  }

  // ------------------------------------------------------------------ invariant

  ghost predicate PoolOk(k: Kernel) {
    && |k.tcbs| == MAX_TASKS
    && 1 <= k.nextKey < KEYS
    && (forall i :: 0 <= i < MAX_TASKS ==>
          k.tcbs[i].id.no == i && k.tcbs[i].id.key < KEYS)
  }

  /** Thread i hangs in the list of the process its PPID_ names. */
  ghost predicate HasParent(tcbs: seq<Tcb>, i: nat)
    requires i < |tcbs|
  {
    var p := tcbs[i].ppid.no;
    && Alloc(tcbs, p)
    && !tcbs[p].id.flags.thread
    && tcbs[p].id == tcbs[i].ppid
    && i in tcbs[p].threads
  }

  /** Entry i of the thread list of p is a live thread that knows p. */
  ghost predicate IsChild(tcbs: seq<Tcb>, p: nat, i: nat)
    requires p < |tcbs|
  {
    && Alloc(tcbs, p)
    && Alloc(tcbs, i)
    && tcbs[i].id.flags.thread
    && tcbs[i].ppid == tcbs[p].id
  }

  ghost predicate TreeOk(tcbs: seq<Tcb>) {
    && (forall i {:trigger HasParent(tcbs, i)} ::
          0 <= i < |tcbs| && tcbs[i].Allocated() && tcbs[i].id.flags.thread ==> HasParent(tcbs, i))
    && (forall p, i {:trigger IsChild(tcbs, p, i)} ::
          0 <= p < |tcbs| && i in tcbs[p].threads ==> IsChild(tcbs, p, i))
    && (forall p :: 0 <= p < |tcbs| ==> NoDup(tcbs[p].threads) && |tcbs[p].threads| <= MAX_THREADS)
  }

  /** Every allocated task is in exactly one place: once, in the queue of its priority. */
  ghost predicate QueuesOk(tcbs: seq<Tcb>, queues: seq<seq<nat>>) {
    && |queues| == LEVELS
    && (forall l, x {:trigger x in queues[l]} :: 0 <= l < LEVELS && x in queues[l] ==>
          Alloc(tcbs, x) && tcbs[x].id.priority == l + 1)
    && (forall x :: Alloc(tcbs, x) ==>
          1 <= tcbs[x].id.priority <= LEVELS && x in queues[tcbs[x].id.priority - 1])
    && (forall l :: 0 <= l < LEVELS ==> NoDup(queues[l]))
  }

  ghost function AllocatedSlots(tcbs: seq<Tcb>): set<nat> {
    set i: nat | i < |tcbs| && tcbs[i].Allocated()
  }

  function Total(queues: seq<seq<nat>>): nat {
    if queues == [] then 0 else |queues[0]| + Total(queues[1..])
  }

  ghost predicate CountsOk(k: Kernel) {
    && k.totalTasks == k.numTasks == |AllocatedSlots(k.tcbs)|
    && k.totalTasks == Total(k.queues)
  }

  /** Slot 0 is the shell: a live system process on the highest level, never flagged. */
  ghost predicate ShellOk(tcbs: seq<Tcb>) {
    && Alloc(tcbs, 0)
    && tcbs[0].id.priority == 1
    && tcbs[0].id.flags.system && !tcbs[0].id.flags.thread && !tcbs[0].id.flags.delete
  }

  function WheelOf(k: Kernel): Wheel.Wheel { Wheel.Wheel(k.queues, k.executed, k.curLev) }

  /** The current level has a task to run, and no count outgrows its 32 bits. */
  ghost predicate LevelsOk(k: Kernel) {
    && |k.executed| == LEVELS
    && Wheel.Ok(WheelOf(k))
    && (forall l :: 0 <= l < LEVELS ==> k.executed[l] <= MAX_TASKS)
    && k.executed[k.curLev] < MAX_TASKS
  }

  ghost predicate Inv(k: Kernel) {
    && PoolOk(k)
    && TreeOk(k.tcbs)
    && QueuesOk(k.tcbs, k.queues)
    && CountsOk(k)
    && ShellOk(k.tcbs)
    && LevelsOk(k)
  }
}
