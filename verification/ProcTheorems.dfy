/** Exit, wait and kill over all runs of the process table. */
module ProcTheorems {
  import opened ProcTable
  import opened ProcInvariant

  /** ss leads from t to u. */
  ghost predicate Runs(t: Table, ss: seq<Step>, u: Table)
    decreases |ss|
  {
    if ss == [] then u == t else Enabled(t, ss[0]) && Runs(Next(t, ss[0]), ss[1..], u)
  }

  lemma {:induction false} RunKeeps(t: Table, ss: seq<Step>, u: Table)
    requires Inv(t) && Runs(t, ss, u)
    ensures Inv(u)
    decreases |ss|
  {
    if ss != [] {
      StepKeeps(t, ss[0]);
      RunKeeps(Next(t, ss[0]), ss[1..], u);
    }
  }

  /** Nobody sleeps in wait while a child of theirs is a zombie. */
  lemma NoMissedExit(t: Table, ss: seq<Step>, u: Table, i: int, j: int)
    requires Start(t) && Runs(t, ss, u) && Is(u, i) && Is(u, j) && u.procs[i].mode == SLEEPING && u.procs[i].chan == i
    ensures !(u.procs[j].parent == i && u.procs[j].mode == ZOMBIE)
  {
    StartInv(t);
    RunKeeps(t, ss, u);
    assert NotMissed(u, i, j);
  }

  /** Every parent is live; every live process and zombie but init has one. */
  lemma ParentsLive(t: Table, ss: seq<Step>, u: Table, i: int)
    requires Start(t) && Runs(t, ss, u) && Is(u, i)
    ensures u.procs[i].parent != -1 ==> Is(u, u.procs[i].parent) && Live(u.procs[u.procs[i].parent])
    ensures (Live(u.procs[i]) || u.procs[i].mode == ZOMBIE) && i != INIT ==> u.procs[i].parent != -1
  {
    StartInv(t);
    RunKeeps(t, ss, u);
    assert ParentOk(u, i);
  }

  lemma PidsDistinct(t: Table, ss: seq<Step>, u: Table, i: int, j: int)
    requires Start(t) && Runs(t, ss, u) && Is(u, i) && Is(u, j) && i != j && u.procs[i].mode != UNUSED
    ensures u.procs[i].pid != u.procs[j].pid
  {
    StartInv(t);
    RunKeeps(t, ss, u);
    assert Distinct(u, i, j) && PidOk(u, i);
  }

  // ---------------------------------------------------------------------------------------------
  // Reaping
  // ---------------------------------------------------------------------------------------------

  /** The pids that wait returns along a run. */
  ghost function Reaps(t: Table, ss: seq<Step>): seq<int>
    decreases |ss|
  {
    if ss == [] || !Enabled(t, ss[0]) then []
    else
      var rest := Reaps(Next(t, ss[0]), ss[1..]);
      if ss[0].WaitReap? then [t.procs[ss[0].z].pid] + rest else rest
  }

  /** Reaped pids have exited, and no pid is reaped twice. */
  lemma {:induction false} ReapedOnce(t: Table, ss: seq<Step>, u: Table)
    requires Inv(t) && Runs(t, ss, u)
    ensures forall k :: 0 <= k < |Reaps(t, ss)| ==> Reaps(t, ss)[k] in u.exited && Reaps(t, ss)[k] !in t.reaped
    ensures forall j, k :: 0 <= j < k < |Reaps(t, ss)| ==> Reaps(t, ss)[j] != Reaps(t, ss)[k]
    ensures t.exited <= u.exited && t.reaped <= u.reaped
    decreases |ss|
  {
    if ss != [] {
      var v := Next(t, ss[0]);
      StepKeeps(t, ss[0]);
      ReapedOnce(v, ss[1..], u);
      if ss[0].WaitReap? {
        ReapHistory(t, ss[0]);
        assert t.procs[ss[0].z].pid in v.reaped;
      }
    }
  }

  /** Whoever reaps a process forked it, or is init. */
  lemma ReaperIsParent(t: Table, ss: seq<Step>, u: Table, s: Step)
    requires Start(t) && Runs(t, ss, u) && s.WaitReap? && Enabled(u, s)
    ensures s.c == INIT || (u.procs[s.z].pid in u.birth && u.birth[u.procs[s.z].pid] == u.procs[s.c].pid)
  {
    StartInv(t);
    RunKeeps(t, ss, u);
    assert ParentOk(u, s.z);
  }

  /** Every process that exited is a zombie until it is reaped; then it has a live parent that can reap it. */
  lemma ExitedIsKept(t: Table, ss: seq<Step>, u: Table, pid: int) returns (z: int)
    requires Start(t) && Runs(t, ss, u) && pid in u.exited && pid !in u.reaped
    ensures ZombieAt(u, z, pid) && Is(u, u.procs[z].parent) && Live(u.procs[u.procs[z].parent])
  {
    StartInv(t);
    RunKeeps(t, ss, u);
    assert Kept(u, pid);
    z :| ZombieAt(u, z, pid);
    assert ParentOk(u, z);
  }

  // ---------------------------------------------------------------------------------------------
  // kill
  // ---------------------------------------------------------------------------------------------

  /** A process gets the mark that was meant for it: the first slot with a pid in use is that process. */
  lemma KillFindsProcess(t: Table, i: int, j: int)
    requires Inv(t) && Enabled(t, KillPid(i)) && Is(t, j) && t.procs[j].mode != UNUSED
      && t.procs[j].pid == t.procs[i].pid
    ensures i == j
  {
    assert Distinct(t, i, j) && PidOk(t, j);
  }

  /** Right after a kill that finds a process, it is marked and not asleep. */
  lemma KilledIsAwake(t: Table, ss: seq<Step>, u: Table, i: int)
    requires Start(t) && Runs(t, ss, u) && Enabled(u, KillPid(i)) && u.procs[i].mode != UNUSED
    ensures var v := Next(u, KillPid(i)).procs;
            v[i].killed && v[i].mode != SLEEPING && v == u.procs[i := v[i]] && v[i].pid == u.procs[i].pid
    ensures u.procs[i].mode != SLEEPING ==> Next(u, KillPid(i)).procs[i].mode == u.procs[i].mode
  {
  }

  /** What ends the sleep of process i: a wakeup of what it sleeps on, a kill, or an exit that wakes its wait. */
  ghost predicate Rouses(t: Table, s: Step, i: int)
    requires Is(t, i)
  {
    match s
    case WakeOther(chan) => chan == t.procs[i].chan
    case KillPid(k) => k == i
    case Exit(c) => t.procs[i].chan == i && Is(t, c)
      && (t.procs[c].parent == i
          || (i == INIT && exists j :: Is(t, j) && t.procs[j].parent == c && t.procs[j].mode == ZOMBIE))
    case _ => false
  }

  lemma RousedStep(t: Table, s: Step, i: int)
    requires Enabled(t, s) && Is(t, i) && t.procs[i].mode == SLEEPING && PidOk(t, i)
    requires s.Exit? ==> ParentOk(t, s.c)
    requires s.Abort? || s.Adopt? || s.Launch? ==> ForkOk(t, s.c)
    ensures var q := Next(t, s).procs[i];
            q.mode == (if Rouses(t, s, i) then RUNNABLE else SLEEPING) && q.chan == t.procs[i].chan
  {
    if s.Exit? {
      assert Next(t, s).procs[i] == ExitSlot(t.procs, s.c, i);
    }
  }

  /** A sleeper becomes runnable exactly by the steps that are for it, and keeps what it sleeps on otherwise. */
  lemma SleeperRoused(t: Table, ss: seq<Step>, u: Table, s: Step, i: int)
    requires Start(t) && Runs(t, ss, u) && Enabled(u, s) && Is(u, i) && u.procs[i].mode == SLEEPING
    ensures var q := Next(u, s).procs[i];
            q.mode == (if Rouses(u, s, i) then RUNNABLE else SLEEPING) && q.chan == u.procs[i].chan
  {
    StartInv(t);
    RunKeeps(t, ss, u);
    assert PidOk(u, i) && ForkOk(u, i);
    if s.Exit? {
      assert ParentOk(u, s.c);
    } else if s.Abort? || s.Adopt? || s.Launch? {
      assert ForkOk(u, s.c);
    }
    RousedStep(u, s, i);
  }

  /** A step leaves the pid of a slot and adds at most the mark, frees the slot, or gives it a new pid. */
  lemma SlotStep(t: Table, s: Step, i: int)
    requires Enabled(t, s) && Is(t, i)
    ensures var u := Next(t, s);
            && Is(u, i) && t.nextpid <= u.nextpid
            && ((u.procs[i].pid == t.procs[i].pid && (t.procs[i].killed ==> u.procs[i].killed))
                || u.procs[i].pid == 0 || u.procs[i].pid == t.nextpid)
  {
    if s.Exit? {
      assert Next(t, s).procs[i] == ExitSlot(t.procs, s.c, i);
    }
  }

  /** A pid that was given out and is not in slot i never comes to slot i. */
  lemma {:induction false} PidGone(t: Table, ss: seq<Step>, u: Table, i: int, pid: int)
    requires Runs(t, ss, u) && Is(t, i) && 1 <= pid < t.nextpid && t.procs[i].pid != pid
    ensures Is(u, i) && u.procs[i].pid != pid
    decreases |ss|
  {
    if ss != [] {
      SlotStep(t, ss[0], i);
      PidGone(Next(t, ss[0]), ss[1..], u, i, pid);
    }
  }

  /** Nothing takes the mark of a killed process back: it is killed for as long as it has its pid. */
  lemma {:induction false} KilledStays(t: Table, ss: seq<Step>, u: Table, i: int)
    requires Runs(t, ss, u) && Is(t, i) && t.procs[i].killed && 1 <= t.procs[i].pid < t.nextpid
    requires Is(u, i) && u.procs[i].pid == t.procs[i].pid
    ensures u.procs[i].killed
    decreases |ss|
  {
    if ss != [] {
      var v := Next(t, ss[0]);
      SlotStep(t, ss[0], i);
      if v.procs[i].pid != t.procs[i].pid {
        PidGone(v, ss[1..], u, i, t.procs[i].pid);
        assert false;
      }
      KilledStays(v, ss[1..], u, i);
    }
  }

  predicate CleanAt(t: Table, i: int)
    requires Is(t, i)
  {
    t.procs[i].mode == UNUSED ==> !t.procs[i].killed
  }

  /** No unused slot is marked killed, so that no process is born killed. */
  ghost predicate Clean(t: Table)
  {
    forall i :: Is(t, i) ==> CleanAt(t, i)
  }

  /** The steps that leave a mark in an unused slot: kill of an unused slot, and giving up a killed embryo. */
  predicate Stains(t: Table, s: Step)
  {
    || (s.KillPid? && Is(t, s.i) && t.procs[s.i].mode == UNUSED)
    || (s.Abort? && Is(t, s.c) && Is(t, t.procs[s.c].child) && t.procs[t.procs[s.c].child].killed)
  }

  lemma CleanIff(t: Table, s: Step)
    requires Inv(t) && Enabled(t, s) && Clean(t)
    ensures Clean(Next(t, s)) <==> !Stains(t, s)
  {
    var u := Next(t, s);
    if Stains(t, s) {
      var i := if s.KillPid? then s.i else t.procs[s.c].child;
      assert ForkOk(t, i);
      assert s.Abort? ==> ForkOk(t, s.c);
      assert !CleanAt(u, i);
    } else {
      forall i | Is(u, i)
        ensures CleanAt(u, i)
      {
        assert CleanAt(t, i);
        if s.Exit? {
          assert u.procs[i] == ExitSlot(t.procs, s.c, i);
        }
      }
    }
  }

  /** kill(0) marks the first unused slot, and the next process is born there with the mark. */
  lemma BornKilled(t: Table)
    requires Start(t) && |t.procs| > 1
    ensures var u := Next(t, KillPid(1));
            Enabled(t, KillPid(1)) && t.procs[1].pid == 0 && Enabled(u, Dispatch(INIT))
              && Enabled(Next(u, Dispatch(INIT)), Alloc(INIT, 1))
            && Next(Next(u, Dispatch(INIT)), Alloc(INIT, 1)).procs[1].killed
  {
  }
}
