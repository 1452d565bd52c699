/**
  The process table of proc.c: fork, exit, wait, kill, sleep, wakeup and the scheduler's switches, each
  section under ptable.lock as one step.  Processes are slots of the table; -1 stands for a null pointer.
*/
module ProcTable {
  datatype Mode = UNUSED | EMBRYO | SLEEPING | RUNNABLE | RUNNING | ZOMBIE

  /** child: the embryo this process is building in fork; maker: the process that builds this embryo. */
  datatype Slot = Slot(mode: Mode, pid: int, parent: int, killed: bool, chan: int, child: int, maker: int)

  /** exited and reaped: the pids that left by exit and were returned by wait; birth: the parent's pid at fork. */
  datatype Table = Table(procs: seq<Slot>, nextpid: int, exited: set<int>, reaped: set<int>, birth: map<int, int>)

  /** initproc: userinit takes the first slot. */
  const INIT: int := 0

  predicate Is(t: Table, i: int)
  {
    0 <= i < |t.procs|
  }

  predicate Live(q: Slot)
  {
    q.mode == SLEEPING || q.mode == RUNNABLE || q.mode == RUNNING
  }

  // ---------------------------------------------------------------------------------------------
  // What the sections under ptable.lock do to the table
  // ---------------------------------------------------------------------------------------------

  function Woken(q: Slot, chan: int): Slot
  {
    if q.mode == SLEEPING && q.chan == chan then q.(mode := RUNNABLE) else q
  }

  /** wakeup1 (proc.c:470-478). */
  function WakeUp(procs: seq<Slot>, chan: int): (r: seq<Slot>)
    ensures |r| == |procs| && forall i :: 0 <= i < |r| ==> r[i] == Woken(procs[i], chan)
  {
    seq(|procs|, i requires 0 <= i < |procs| => Woken(procs[i], chan))
  }

  /** Process c has a zombie child. */
  ghost predicate HasZombie(procs: seq<Slot>, c: int)
  {
    exists j :: 0 <= j < |procs| && procs[j].parent == c && procs[j].mode == ZOMBIE
  }

  ghost function ExitSlot(procs: seq<Slot>, c: int, i: int): Slot
    requires 0 <= c < |procs| && 0 <= i < |procs|
  {
    var q := Woken(procs[i], procs[c].parent);
    var w := if HasZombie(procs, c) then Woken(q, INIT) else q;
    if i == c then w.(mode := ZOMBIE) else if w.parent == c then w.(parent := INIT) else w
  }

  /** exit: the parent is woken, the children go to init, which is woken if one of them is a zombie (proc.c:254-266). */
  ghost function ExitProcs(procs: seq<Slot>, c: int): (r: seq<Slot>)
    requires 0 <= c < |procs|
    ensures |r| == |procs| && forall i :: 0 <= i < |r| ==> r[i] == ExitSlot(procs, c, i)
  {
    seq(|procs|, i requires 0 <= i < |procs| => ExitSlot(procs, c, i))
  }

  /** wait's reaping of a zombie (proc.c:290-300). */
  function Reap(q: Slot): Slot
  {
    q.(pid := 0, parent := -1, killed := false, mode := UNUSED)
  }

  /** kill (proc.c:500-503). */
  function Kill(q: Slot): Slot
  {
    q.(killed := true, mode := if q.mode == SLEEPING then RUNNABLE else q.mode)
  }

  // ---------------------------------------------------------------------------------------------
  // Steps
  // ---------------------------------------------------------------------------------------------

  datatype Step =
    | Alloc(c: int, e: int)      // allocproc in fork: e is the first unused slot
    | Abort(c: int)              // fork fails and gives the embryo back
    | Adopt(c: int)              // fork makes the embryo its child
    | Launch(c: int)             // fork makes the embryo runnable
    | Exit(c: int)
    | WaitReap(c: int, z: int)   // wait finds the zombie z
    | WaitSleep(c: int)          // wait finds children, but no zombie
    | WaitFail(c: int)           // wait returns -1
    | Sleep(c: int, chan: int)   // any other sleep
    | WakeOther(chan: int)       // any other wakeup
    | KillPid(i: int)            // kill of the first slot with that pid
    | Yield(c: int)
    | Dispatch(c: int)

  /** A process that is running and not in the middle of fork. */
  predicate Acts(t: Table, c: int)
  {
    Is(t, c) && t.procs[c].mode == RUNNING && t.procs[c].child == -1
  }

  predicate Builds(t: Table, c: int)
  {
    Is(t, c) && t.procs[c].mode == RUNNING && Is(t, t.procs[c].child)
  }

  ghost predicate Enabled(t: Table, s: Step)
  {
    match s
    case Alloc(c, e) => Acts(t, c) && Is(t, e) && t.procs[e].mode == UNUSED
      && forall j :: 0 <= j < e ==> t.procs[j].mode != UNUSED
    case Abort(c) => Builds(t, c) && t.procs[t.procs[c].child].parent == -1
    case Adopt(c) => Builds(t, c)
    case Launch(c) => Builds(t, c) && t.procs[t.procs[c].child].parent == c
    case Exit(c) => Acts(t, c) && c != INIT
    case WaitReap(c, z) => Acts(t, c) && Is(t, z) && t.procs[z].parent == c && t.procs[z].mode == ZOMBIE
    case WaitSleep(c) => Acts(t, c) && !HasZombie(t.procs, c) && !t.procs[c].killed
      && exists j :: Is(t, j) && t.procs[j].parent == c
    case WaitFail(c) => Acts(t, c) && !HasZombie(t.procs, c)
      && (t.procs[c].killed || forall j :: Is(t, j) ==> t.procs[j].parent != c)
    case Sleep(c, chan) => Acts(t, c) && chan >= |t.procs|
    case WakeOther(chan) => chan >= |t.procs|
    case KillPid(i) => Is(t, i) && forall j :: 0 <= j < i ==> t.procs[j].pid != t.procs[i].pid
    case Yield(c) => Is(t, c) && t.procs[c].mode == RUNNING
    case Dispatch(c) => Is(t, c) && t.procs[c].mode == RUNNABLE
  }

  function Set(t: Table, i: int, q: Slot): Table
    requires Is(t, i)
  {
    t.(procs := t.procs[i := q])
  }

  ghost function Next(t: Table, s: Step): Table
    requires Enabled(t, s)
  {
    match s
    case Alloc(c, e) =>
      Set(Set(t, e, t.procs[e].(mode := EMBRYO, pid := t.nextpid, maker := c)), c,
          t.procs[c].(child := e)).(nextpid := t.nextpid + 1)
    case Abort(c) =>
      var e := t.procs[c].child;
      Set(Set(t, e, t.procs[e].(mode := UNUSED)), c, t.procs[c].(child := -1))
    case Adopt(c) =>
      var e := t.procs[c].child;
      Set(t, e, t.procs[e].(parent := c)).(birth := t.birth[t.procs[e].pid := t.procs[c].pid])
    case Launch(c) =>
      var e := t.procs[c].child;
      Set(Set(t, e, t.procs[e].(mode := RUNNABLE)), c, t.procs[c].(child := -1))
    case Exit(c) => t.(procs := ExitProcs(t.procs, c), exited := t.exited + {t.procs[c].pid})
    case WaitReap(c, z) => Set(t, z, Reap(t.procs[z])).(reaped := t.reaped + {t.procs[z].pid})
    case WaitSleep(c) => Set(t, c, t.procs[c].(mode := SLEEPING, chan := c))
    case WaitFail(c) => t
    case Sleep(c, chan) => Set(t, c, t.procs[c].(mode := SLEEPING, chan := chan))
    case WakeOther(chan) => t.(procs := WakeUp(t.procs, chan))
    case KillPid(i) => Set(t, i, Kill(t.procs[i]))
    case Yield(c) => Set(t, c, t.procs[c].(mode := RUNNABLE))
    case Dispatch(c) => Set(t, c, t.procs[c].(mode := RUNNING, chan := -1))
  }

  // ---------------------------------------------------------------------------------------------
  // The invariant, whenever ptable.lock is free
  // ---------------------------------------------------------------------------------------------

  /** Every parent is live, and it is init or the process that forked. */
  predicate ParentOk(t: Table, i: int)
    requires Is(t, i)
  {
    var q := t.procs[i];
    && (q.parent != -1 ==>
          && Is(t, q.parent) && q.parent != i && Live(t.procs[q.parent]) && q.mode != UNUSED
          && (q.parent == INIT || (q.pid in t.birth && t.birth[q.pid] == t.procs[q.parent].pid)))
    && ((Live(q) || q.mode == ZOMBIE) && i != INIT ==> q.parent != -1)
  }

  /** An embryo and the process that builds it know each other. */
  predicate ForkOk(t: Table, i: int)
    requires Is(t, i)
  {
    var q := t.procs[i];
    && (q.child != -1 ==>
          && (q.mode == RUNNING || q.mode == RUNNABLE) && Is(t, q.child)
          && t.procs[q.child].mode == EMBRYO && t.procs[q.child].maker == i)
    && (q.mode == EMBRYO ==> Is(t, q.maker) && t.procs[q.maker].child == i && (q.parent == -1 || q.parent == q.maker))
  }

  /** pids are below nextpid, and zero only in unused slots; exactly the zombies have exited and not been reaped. */
  predicate PidOk(t: Table, i: int)
    requires Is(t, i)
  {
    var q := t.procs[i];
    && 0 <= q.pid < t.nextpid
    && (q.mode != UNUSED ==> 1 <= q.pid && q.pid !in t.reaped && (q.mode == ZOMBIE <==> q.pid in t.exited))
    && (q.mode == SLEEPING ==> q.chan == i || q.chan >= |t.procs|)
  }

  predicate Distinct(t: Table, i: int, j: int)
    requires Is(t, i) && Is(t, j)
  {
    i != j && t.procs[i].pid == t.procs[j].pid ==> t.procs[i].pid == 0
  }

  /** Process i does not sleep in wait while its child j is a zombie. */
  predicate NotMissed(t: Table, i: int, j: int)
    requires Is(t, i) && Is(t, j)
  {
    t.procs[j].parent == i && t.procs[j].mode == ZOMBIE ==> !(t.procs[i].mode == SLEEPING && t.procs[i].chan == i)
  }

  predicate InitOk(t: Table)
  {
    Is(t, INIT) && Live(t.procs[INIT]) && t.procs[INIT].parent == -1
  }

  /** The zombie that pid has become. */
  predicate ZombieAt(t: Table, i: int, pid: int)
  {
    Is(t, i) && t.procs[i].mode == ZOMBIE && t.procs[i].pid == pid
  }

  ghost predicate Kept(t: Table, pid: int)
  {
    exists i :: ZombieAt(t, i, pid)
  }

  ghost predicate HistoryOk(t: Table)
  {
    && t.reaped <= t.exited && (forall p :: p in t.exited ==> p < t.nextpid)
    && (forall p :: p in t.exited && p !in t.reaped ==> Kept(t, p))
  }

  ghost predicate SlotsOk(t: Table)
  {
    && (forall i :: Is(t, i) ==> ParentOk(t, i))
    && (forall i :: Is(t, i) ==> ForkOk(t, i))
    && (forall i :: Is(t, i) ==> PidOk(t, i))
  }

  ghost predicate PairsOk(t: Table)
  {
    && (forall i, j :: Is(t, i) && Is(t, j) ==> Distinct(t, i, j))
    && (forall i, j :: Is(t, i) && Is(t, j) ==> NotMissed(t, i, j))
  }

  ghost predicate Inv(t: Table)
  {
    InitOk(t) && SlotsOk(t) && PairsOk(t) && HistoryOk(t)
  }

  /** After userinit. */
  predicate Start(t: Table)
  {
    && |t.procs| > 0 && t.nextpid == 2 && t.exited == {} && t.reaped == {} && t.birth == map[]
    && t.procs[INIT] == Slot(RUNNABLE, 1, -1, false, -1, -1, -1)
    && forall i :: 0 < i < |t.procs| ==> t.procs[i] == Slot(UNUSED, 0, -1, false, -1, -1, -1)
  }

  lemma StartInv(t: Table)
    requires Start(t)
    ensures Inv(t)
  {
  }
}
