/** The sections of proc.c under ptable.lock, as loops over the process table. */
module ProcCode {
  import opened ProcTable
  import opened ProcInvariant

  class Ptable {
    var procs: seq<Slot>
    var nextpid: int
    ghost var exited: set<int>
    ghost var reaped: set<int>
    ghost var birth: map<int, int>

    ghost function Now(): Table
      reads this
    {
      Table(procs, nextpid, exited, reaped, birth)
    }

    ghost predicate Valid()
      reads this
    {
      Inv(Now())
    }

    /** proc.c:73-93, called by fork in process c. */
    method Allocproc(c: int) returns (p: int)
      requires Valid() && Acts(Now(), c)
      modifies this
      ensures Valid()
      ensures p == -1 ==> Now() == old(Now()) && forall i :: 0 <= i < |procs| ==> procs[i].mode != UNUSED
      ensures p != -1 ==> Enabled(old(Now()), Alloc(c, p)) && Now() == Next(old(Now()), Alloc(c, p))
      ensures p != -1 ==>
          && 0 <= p < |old(procs)| == |procs| && nextpid == old(nextpid) + 1
          && old(procs)[p].mode == UNUSED && procs[p].mode == EMBRYO && procs[p].pid == old(nextpid)
          && forall i :: 0 <= i < |procs| && i != p ==> procs[i] == old(procs)[i].(child := procs[i].child)
    {
      p := 0;
      while p < |procs| && procs[p].mode != UNUSED
        invariant 0 <= p <= |procs| && forall i :: 0 <= i < p ==> procs[i].mode != UNUSED
      {
        p := p + 1;
      }
      if p == |procs| {
        return -1;
      }
      StepKeeps(Now(), Alloc(c, p));
      procs := procs[p := procs[p].(mode := EMBRYO, pid := nextpid, maker := c)];
      procs := procs[c := procs[c].(child := p)];
      nextpid := nextpid + 1;
    }

    /** proc.c:470-478. */
    method Wakeup1(chan: int)
      modifies `procs
      ensures procs == WakeUp(old(procs), chan)
      ensures |procs| == |old(procs)|
      ensures forall i :: 0 <= i < |procs| ==>
        var q := old(procs)[i];
        procs[i] == if q.mode == SLEEPING && q.chan == chan then q.(mode := RUNNABLE) else q
    {
      var p := 0;
      while p < |procs|
        invariant 0 <= p <= |procs| == |old(procs)|
        invariant forall i :: 0 <= i < |procs| ==>
          procs[i] == if i < p then Woken(old(procs)[i], chan) else old(procs)[i]
      {
        if procs[p].mode == SLEEPING && procs[p].chan == chan {
          procs := procs[p := procs[p].(mode := RUNNABLE)];
        }
        p := p + 1;
      }
    }

    /** proc.c:251-266. */
    method Exit(c: int)
      requires Valid() && Acts(Now(), c) && c != INIT
      modifies this
      ensures Valid() && Now() == Next(old(Now()), ProcTable.Exit(c))
      ensures |procs| == |old(procs)| && forall i :: 0 <= i < |procs| ==> LeftAt(old(procs), procs[i], c, i)
    {
      ghost var t := Now();
      StepKeeps(t, ProcTable.Exit(c));
      assert ParentOk(t, c);
      Wakeup1(procs[c].parent);
      PassChildren(c, procs[c].parent, t.procs);
      procs := procs[c := procs[c].(mode := ZOMBIE)];
      exited := exited + {procs[c].pid};
      assert procs == ExitProcs(t.procs, c);
      ExitSlots(t, c);
    }

    /** The loop of exit that hands the children to init (proc.c:257-263). */
    method PassChildren(c: int, parent: int, ghost was: seq<Slot>)
      requires 0 <= c < |was| && c != INIT && procs == WakeUp(was, parent)
      modifies `procs
      ensures |procs| == |was| && forall i :: 0 <= i < |procs| ==> procs[i] == Passed(was, parent, c, i, |was|)
    {
      var p := 0;
      while p < |procs|
        invariant 0 <= p <= |procs| == |was|
        invariant forall i :: 0 <= i < |procs| ==> procs[i] == Passed(was, parent, c, i, p)
      {
        assert procs[p] == Passed(was, parent, c, p, p);
        assert ZombieBelow(was, c, p + 1) <==> ZombieBelow(was, c, p) || (was[p].parent == c && was[p].mode == ZOMBIE);
        if procs[p].parent == c {
          procs := procs[p := procs[p].(parent := INIT)];
          if procs[p].mode == ZOMBIE {
            Wakeup1(INIT);
          }
        }
        p := p + 1;
      }
    }

    /** One scan of wait (proc.c:281-311): the pid of a reaped child, -1, or to sleep. */
    method Wait(c: int) returns (r: int, slept: bool, ghost s: Step)
      requires Valid() && Acts(Now(), c)
      modifies this
      ensures Valid() && Enabled(old(Now()), s) && Now() == Next(old(Now()), s)
      ensures (s.WaitReap? || s.WaitSleep? || s.WaitFail?) && s.c == c
      ensures slept <==> s.WaitSleep?
      ensures !slept ==> r == if s.WaitReap? then old(procs)[s.z].pid else -1
      ensures slept ==> procs == old(procs)[c := old(procs)[c].(mode := SLEEPING, chan := c)] && !old(procs)[c].killed
      ensures s.WaitReap? ==>
          && 0 <= s.z < |old(procs)| && old(procs)[s.z].parent == c && old(procs)[s.z].mode == ZOMBIE
          && procs == old(procs)[s.z := old(procs)[s.z].(pid := 0, parent := -1, killed := false, mode := UNUSED)]
      ensures s.WaitFail? ==> procs == old(procs)
      ensures !s.WaitReap? ==>
        forall j :: 0 <= j < |old(procs)| && old(procs)[j].parent == c ==> old(procs)[j].mode != ZOMBIE
    {
      slept := false;
      var havekids := false;
      var p := 0;
      while p < |procs|
        invariant 0 <= p <= |procs| && Now() == old(Now())
        invariant havekids <==> exists j :: 0 <= j < p && procs[j].parent == c
        invariant forall j :: 0 <= j < p && procs[j].parent == c ==> procs[j].mode != ZOMBIE
      {
        if procs[p].parent == c {
          havekids := true;
          if procs[p].mode == ZOMBIE {
            r := procs[p].pid;
            s := WaitReap(c, p);
            StepKeeps(Now(), s);
            reaped := reaped + {r};
            procs := procs[p := procs[p].(pid := 0, parent := -1, killed := false, mode := UNUSED)];
            return;
          }
        }
        p := p + 1;
      }
      if !havekids || procs[c].killed {
        return -1, false, WaitFail(c);
      }
      s := WaitSleep(c);
      assert exists j :: Is(Now(), j) && procs[j].parent == c;
      StepKeeps(Now(), s);
      procs := procs[c := procs[c].(mode := SLEEPING, chan := c)];
      return 0, true, s;
    }

    /** The scan of kill: the first slot with this pid (proc.c:498-499). */
    method FindPid(pid: int) returns (p: int)
      ensures 0 <= p <= |procs| && (p < |procs| ==> procs[p].pid == pid)
        && forall j :: 0 <= j < p ==> procs[j].pid != pid
    {
      p := 0;
      while p < |procs| && procs[p].pid != pid
        invariant 0 <= p <= |procs| && forall j :: 0 <= j < p ==> procs[j].pid != pid
      {
        p := p + 1;
      }
    }

    /** proc.c:492-510. */
    method KillProc(pid: int) returns (r: int, ghost i: int)
      requires Valid()
      modifies `procs
      ensures Valid()
      ensures r == -1 <==> forall j :: 0 <= j < |old(procs)| ==> old(procs)[j].pid != pid
      ensures r == -1 ==> Now() == old(Now())
      ensures r != -1 ==>
        r == 0 && Enabled(old(Now()), KillPid(i)) && old(procs)[i].pid == pid && Now() == Next(old(Now()), KillPid(i))
      ensures r == 0 ==>
        0 <= i < |old(procs)| && old(procs)[i].pid == pid
        && var q := old(procs)[i];
        procs == old(procs)[i := q.(killed := true, mode := if q.mode == SLEEPING then RUNNABLE else q.mode)]
    {
      var p := FindPid(pid);
      if p == |procs| {
        return -1, 0;
      }
      ghost var t := Now();
      StepKeeps(t, KillPid(p));
      procs := procs[p := procs[p].(killed := true)];
      if procs[p].mode == SLEEPING {
        procs := procs[p := procs[p].(mode := RUNNABLE)];
      }
      assert Now() == Next(t, KillPid(p));
      return 0, p;
    }
  }

  /** The exit of c is for i: c is a child of i, or it leaves a zombie to i, which is init. */
  ghost predicate Collects(procs: seq<Slot>, c: int, i: int)
    requires 0 <= c < |procs|
  {
    || i == procs[c].parent
    || (i == INIT && exists j :: 0 <= j < |procs| && procs[j].parent == c && procs[j].mode == ZOMBIE)
  }

  /** Slot i after the exit of c: c is a zombie, its children are init's, and whoever waits for this is woken. */
  ghost predicate LeftAt(was: seq<Slot>, w: Slot, c: int, i: int)
    requires 0 <= c < |was| && 0 <= i < |was|
  {
    var q := was[i];
    if i == c then w == q.(mode := ZOMBIE)
    else
      && w == q.(mode := w.mode, parent := if q.parent == c then INIT else q.parent)
      && w.mode == if q.mode == SLEEPING && q.chan == i && Collects(was, c, i) then RUNNABLE else q.mode
  }

  lemma ExitSlots(t: Table, c: int)
    requires Inv(t) && Acts(t, c) && c != INIT
    ensures forall i :: 0 <= i < |t.procs| ==> LeftAt(t.procs, ExitProcs(t.procs, c)[i], c, i)
  {
    forall i | 0 <= i < |t.procs|
      ensures LeftAt(t.procs, ExitProcs(t.procs, c)[i], c, i)
    {
      assert ExitProcs(t.procs, c)[i] == ExitSlot(t.procs, c, i);
      assert ParentOk(t, c) && PidOk(t, i);
    }
  }

  ghost predicate ZombieBelow(procs: seq<Slot>, c: int, n: int)
    requires n <= |procs|
  {
    exists j :: 0 <= j < n && procs[j].parent == c && procs[j].mode == ZOMBIE
  }

  /** Slot i after the first n rounds of the loop. */
  ghost function Passed(was: seq<Slot>, parent: int, c: int, i: int, n: int): Slot
    requires 0 <= i < |was| && n <= |was|
  {
    var q := Woken(was[i], parent);
    var w := if ZombieBelow(was, c, n) then Woken(q, INIT) else q;
    if i < n && w.parent == c then w.(parent := INIT) else w
  }
}
