/** Every step of the process table keeps its invariant. */
module ProcInvariant {
  import opened ProcTable

  // ---------------------------------------------------------------------------------------------
  // Steps that only move live processes between running, runnable and sleeping
  // ---------------------------------------------------------------------------------------------

  predicate Shuffled(t: Table, q: Slot, r: Slot, i: int)
  {
    && r.pid == q.pid && r.parent == q.parent && r.child == q.child && r.maker == q.maker
    && (r.mode == q.mode || (Live(q) && Live(r))) && (q.child != -1 && q.mode != SLEEPING ==> r.mode != SLEEPING)
    && (r.mode == SLEEPING ==> (q.mode == SLEEPING && r.chan == q.chan) || r.chan == i || r.chan >= |t.procs|)
  }

  /** Slot i goes to sleep in wait only if it has no zombie child. */
  ghost predicate Waiting(t: Table, r: Slot, i: int)
    requires Is(t, i)
  {
    r.mode == SLEEPING && r.chan == i ==>
      (t.procs[i].mode == SLEEPING && t.procs[i].chan == i) || !HasZombie(t.procs, i)
  }

  ghost predicate Shuffle(t: Table, u: Table)
  {
    && |u.procs| == |t.procs| && u == t.(procs := u.procs)
    && forall i :: Is(t, i) ==> Shuffled(t, t.procs[i], u.procs[i], i) && Waiting(t, u.procs[i], i)
  }

  lemma ShuffleSlots(t: Table, u: Table)
    requires Shuffle(t, u) && SlotsOk(t)
    ensures SlotsOk(u)
  {
    forall i | Is(u, i)
      ensures ParentOk(u, i) && ForkOk(u, i) && PidOk(u, i)
    {
      assert ParentOk(t, i) && ForkOk(t, i) && PidOk(t, i);
      assert Shuffled(t, t.procs[i], u.procs[i], i);
    }
  }

  lemma ShufflePairs(t: Table, u: Table)
    requires Shuffle(t, u) && PairsOk(t)
    ensures PairsOk(u)
  {
    forall i, j | Is(u, i) && Is(u, j)
      ensures Distinct(u, i, j) && NotMissed(u, i, j)
    {
      assert Distinct(t, i, j) && NotMissed(t, i, j);
      assert Shuffled(t, t.procs[i], u.procs[i], i) && Shuffled(t, t.procs[j], u.procs[j], j);
      assert Waiting(t, u.procs[i], i);
    }
  }

  /** Zombies stay where they are. */
  lemma ZombiesKept(t: Table, u: Table)
    requires HistoryOk(t) && u.exited == t.exited && u.reaped == t.reaped && u.nextpid >= t.nextpid
    requires forall i, p :: ZombieAt(t, i, p) ==> ZombieAt(u, i, p)
    ensures HistoryOk(u)
  {
    forall p | p in u.exited && p !in u.reaped
      ensures Kept(u, p)
    {
      assert Kept(t, p);
    }
  }

  lemma ShuffleKeeps(t: Table, u: Table)
    requires Inv(t) && Shuffle(t, u)
    ensures Inv(u)
  {
    ShuffleSlots(t, u);
    ShufflePairs(t, u);
    ZombiesKept(t, u);
  }

  lemma ShuffleStep(t: Table, s: Step)
    requires Inv(t) && Enabled(t, s)
    requires s.WaitSleep? || s.WaitFail? || s.Sleep? || s.WakeOther? || s.KillPid? || s.Yield? || s.Dispatch?
    ensures Inv(Next(t, s))
  {
    var u := Next(t, s);
    forall i | Is(t, i)
      ensures Shuffled(t, t.procs[i], u.procs[i], i) && Waiting(t, u.procs[i], i)
    {
      assert PidOk(t, i) && ForkOk(t, i);
    }
    ShuffleKeeps(t, u);
  }

  // ---------------------------------------------------------------------------------------------
  // fork
  // ---------------------------------------------------------------------------------------------

  lemma AllocSlots(t: Table, s: Step)
    requires Inv(t) && s.Alloc? && Enabled(t, s)
    ensures SlotsOk(Next(t, s)) && InitOk(Next(t, s))
  {
    var u := Next(t, s);
    assert ParentOk(t, s.e) && ForkOk(t, s.e);
    forall i | Is(u, i)
      ensures ParentOk(u, i) && ForkOk(u, i) && PidOk(u, i)
    {
      assert ParentOk(t, i) && ForkOk(t, i) && PidOk(t, i);
    }
  }

  lemma AllocPairs(t: Table, s: Step)
    requires Inv(t) && s.Alloc? && Enabled(t, s)
    ensures PairsOk(Next(t, s))
  {
    var u := Next(t, s);
    forall i, j | Is(u, i) && Is(u, j)
      ensures Distinct(u, i, j) && NotMissed(u, i, j)
    {
      assert Distinct(t, i, j) && NotMissed(t, i, j) && PidOk(t, i) && PidOk(t, j);
    }
  }

  lemma AllocKeeps(t: Table, s: Step)
    requires Inv(t) && s.Alloc? && Enabled(t, s)
    ensures Inv(Next(t, s))
  {
    AllocSlots(t, s);
    AllocPairs(t, s);
    ZombiesKept(t, Next(t, s));
  }

  /** Abort, Adopt and Launch. */
  predicate Forking(s: Step)
  {
    s.Abort? || s.Adopt? || s.Launch?
  }

  lemma ForkSlots(t: Table, s: Step)
    requires Inv(t) && Forking(s) && Enabled(t, s)
    ensures SlotsOk(Next(t, s)) && InitOk(Next(t, s))
  {
    var u, e := Next(t, s), t.procs[s.c].child;
    assert ForkOk(t, s.c) && ForkOk(t, e) && ParentOk(t, e) && PidOk(t, e);
    forall i | Is(u, i)
      ensures ParentOk(u, i) && ForkOk(u, i) && PidOk(u, i)
    {
      assert ParentOk(t, i) && ForkOk(t, i) && PidOk(t, i) && Distinct(t, i, e);
    }
  }

  lemma ForkPairs(t: Table, s: Step)
    requires Inv(t) && Forking(s) && Enabled(t, s)
    ensures PairsOk(Next(t, s))
  {
    var u, e := Next(t, s), t.procs[s.c].child;
    assert ForkOk(t, s.c);
    forall i, j | Is(u, i) && Is(u, j)
      ensures Distinct(u, i, j) && NotMissed(u, i, j)
    {
      assert Distinct(t, i, j) && NotMissed(t, i, j);
    }
  }

  lemma ForkKeeps(t: Table, s: Step)
    requires Inv(t) && Forking(s) && Enabled(t, s)
    ensures Inv(Next(t, s))
  {
    ForkSlots(t, s);
    ForkPairs(t, s);
    assert ForkOk(t, s.c);
    ZombiesKept(t, Next(t, s));
  }

  // ---------------------------------------------------------------------------------------------
  // exit
  // ---------------------------------------------------------------------------------------------

  /** What exit of c makes of slot i. */
  ghost predicate Departed(t: Table, c: int, i: int, r: Slot)
    requires Is(t, c) && Is(t, i)
  {
    var q := t.procs[i];
    && r.pid == q.pid && r.child == q.child && r.maker == q.maker && r.chan == q.chan
    && r.parent == (if i != c && q.parent == c then INIT else q.parent)
    && (if i == c then r.mode == ZOMBIE else r.mode == q.mode || (q.mode == SLEEPING && r.mode == RUNNABLE))
    && (r.mode == SLEEPING && r.chan == i ==> i != t.procs[c].parent && (i == INIT ==> !HasZombie(t.procs, c)))
  }

  ghost predicate Departure(t: Table, c: int, u: Table)
    requires Is(t, c)
  {
    && |u.procs| == |t.procs| && u == t.(procs := u.procs, exited := t.exited + {t.procs[c].pid})
    && forall i :: Is(t, i) ==> Departed(t, c, i, u.procs[i])
  }

  lemma ExitDeparts(t: Table, c: int)
    requires Enabled(t, Exit(c))
    ensures Departure(t, c, Next(t, Exit(c)))
  {
    var u := Next(t, Exit(c));
    forall i | Is(t, i)
      ensures Departed(t, c, i, u.procs[i])
    {
      assert u.procs[i] == ExitSlot(t.procs, c, i);
    }
  }

  lemma DepartSlot(t: Table, c: int, u: Table, i: int)
    requires Inv(t) && Acts(t, c) && c != INIT && Departure(t, c, u) && Is(t, i)
    ensures ParentOk(u, i) && ForkOk(u, i) && PidOk(u, i)
  {
    assert ParentOk(t, i) && ForkOk(t, i) && PidOk(t, i) && Distinct(t, i, c) && PidOk(t, c) && ParentOk(t, c);
    assert Departed(t, c, i, u.procs[i]) && Departed(t, c, INIT, u.procs[INIT]);
    if Is(t, t.procs[i].parent) {
      assert Departed(t, c, t.procs[i].parent, u.procs[t.procs[i].parent]);
    }
    if Is(t, t.procs[i].child) {
      assert Departed(t, c, t.procs[i].child, u.procs[t.procs[i].child]);
    }
    if Is(t, t.procs[i].maker) {
      assert Departed(t, c, t.procs[i].maker, u.procs[t.procs[i].maker]);
    }
  }

  /** A parent that gets a zombie child is not left asleep in wait. */
  lemma DepartPair(t: Table, c: int, u: Table, i: int, j: int)
    requires PairsOk(t) && Acts(t, c) && Departure(t, c, u) && Is(t, i) && Is(t, j) && InitOk(t)
    ensures Distinct(u, i, j) && NotMissed(u, i, j)
  {
    assert Distinct(t, i, j) && NotMissed(t, i, j);
    assert Departed(t, c, i, u.procs[i]) && Departed(t, c, j, u.procs[j]);
  }

  lemma ExitKeeps(t: Table, c: int)
    requires Inv(t) && Enabled(t, Exit(c))
    ensures Inv(Next(t, Exit(c)))
  {
    var u := Next(t, Exit(c));
    ExitDeparts(t, c);
    forall i | Is(u, i)
      ensures ParentOk(u, i) && ForkOk(u, i) && PidOk(u, i)
    {
      DepartSlot(t, c, u, i);
    }
    forall i, j | Is(u, i) && Is(u, j)
      ensures Distinct(u, i, j) && NotMissed(u, i, j)
    {
      DepartPair(t, c, u, i, j);
    }
    ExitHistory(t, c);
    assert InitOk(u) by {
      assert Departed(t, c, INIT, u.procs[INIT]);
    }
  }

  lemma ExitHistory(t: Table, c: int)
    requires Inv(t) && Enabled(t, Exit(c))
    ensures HistoryOk(Next(t, Exit(c)))
  {
    var u := Next(t, Exit(c));
    assert PidOk(t, c);
    forall p | p in u.exited && p !in u.reaped
      ensures Kept(u, p)
    {
      if p == t.procs[c].pid {
        assert ZombieAt(u, c, p);
      } else {
        assert Kept(t, p);
        var i :| ZombieAt(t, i, p);
        assert ZombieAt(u, i, p);
      }
    }
  }

  // ---------------------------------------------------------------------------------------------
  // wait
  // ---------------------------------------------------------------------------------------------

  lemma ReapSlots(t: Table, s: Step)
    requires Inv(t) && s.WaitReap? && Enabled(t, s)
    ensures SlotsOk(Next(t, s)) && InitOk(Next(t, s)) && PairsOk(Next(t, s))
  {
    var u := Next(t, s);
    assert ForkOk(t, s.z);
    forall i | Is(u, i)
      ensures ParentOk(u, i) && ForkOk(u, i) && PidOk(u, i)
    {
      assert ParentOk(t, i) && ForkOk(t, i) && PidOk(t, i) && Distinct(t, i, s.z);
    }
    forall i, j | Is(u, i) && Is(u, j)
      ensures Distinct(u, i, j) && NotMissed(u, i, j)
    {
      assert Distinct(t, i, j) && NotMissed(t, i, j);
    }
  }

  lemma ReapHistory(t: Table, s: Step)
    requires Inv(t) && s.WaitReap? && Enabled(t, s)
    ensures HistoryOk(Next(t, s)) && t.procs[s.z].pid in t.exited && t.procs[s.z].pid !in t.reaped
  {
    var u := Next(t, s);
    assert PidOk(t, s.z);
    forall p | p in u.exited && p !in u.reaped
      ensures Kept(u, p)
    {
      assert Kept(t, p);
      var i :| ZombieAt(t, i, p);
      assert ZombieAt(u, i, p);
    }
  }

  // ---------------------------------------------------------------------------------------------
  // Every step
  // ---------------------------------------------------------------------------------------------

  lemma StepKeeps(t: Table, s: Step)
    requires Inv(t) && Enabled(t, s)
    ensures Inv(Next(t, s))
  {
    match s
    case Alloc(_, _) => AllocKeeps(t, s);
    case Abort(_) => ForkKeeps(t, s);
    case Adopt(_) => ForkKeeps(t, s);
    case Launch(_) => ForkKeeps(t, s);
    case Exit(c) => ExitKeeps(t, c);
    case WaitReap(_, _) =>
      ReapSlots(t, s);
      ReapHistory(t, s);
    case _ => ShuffleStep(t, s);
  }
}
