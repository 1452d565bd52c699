/**
  acquiresleep and releasesleep of sleeplock.c over sleep, wakeup, yield and the scheduler of proc.c, as a
  system of atomic steps: every acquire, release or assignment of a process is a step of its own, and the
  steps of any number of processes interleave.  That no wakeup is lost is the general theorem about sleep and
  wakeup, at one channel whose condition is that the sleep-lock is free.
*/
module SleepLock {
  import General = SleepWakeup

  /** Where a process is; the comment names the locks it holds, L for lk->lk and P for ptable.lock. */
  datatype Pc =
    | Idle
    | WantLk    // acquiresleep is about to take lk->lk
    | Test      // L: about to look at the locked field
    | GotIt     // L: has set it and is about to let go of lk->lk
    | Holding   // has the sleep-lock
    | WantPt    // L: sleep is about to take ptable.lock
    | DropLk    // L P: sleep is about to let go of lk->lk
    | SetSleep  // P: about to become SLEEPING and switch away
    | Asleep    // switched away
    | Awake     // P: switched back, about to let go of ptable.lock
    | RelWant   // releasesleep is about to take lk->lk
    | Clear     // L: about to clear the locked field
    | WakeWant  // L: wakeup is about to take ptable.lock
    | Wake      // L P: about to wake the sleepers
    | WakeDone  // L P: about to let go of ptable.lock
    | RelDrop   // L: about to let go of lk->lk

  datatype Run = Running | Runnable | Sleeping

  /** `yielded`: in yield(), from its acquire of ptable.lock to its release. */
  datatype Proc = Proc(pc: Pc, run: Run, yielded: bool)

  const NOBODY: int := -1
  /** ptable.lock is held by a CPU's scheduler. */
  const SCHEDULER: int := -2

  /** lk and pt: the process that holds lk->lk and ptable.lock; locked and pid: the fields of the sleep-lock. */
  datatype State = State(procs: seq<Proc>, lk: int, pt: int, locked: bool, pid: int)

  datatype Step =
    | Move(p: int)      // the next statement of process p
    | Preempt(p: int)   // a timer interrupt makes p yield
    | Kill(p: int)      // kill() of p by another process
    | Take              // a scheduler acquires ptable.lock
    | Drop              // a scheduler releases it
    | Dispatch(p: int)  // a scheduler switches to p

  predicate Is(s: State, p: int)
  {
    0 <= p < |s.procs|
  }

  predicate HoldsLk(pc: Pc)
  {
    pc.Test? || pc.GotIt? || pc.WantPt? || pc.DropLk? || pc.Clear? || pc.WakeWant? || pc.Wake? || pc.WakeDone?
      || pc.RelDrop?
  }

  predicate HoldsPt(q: Proc)
  {
    (q.pc.DropLk? || q.pc.SetSleep? || q.pc.Awake? || q.pc.Wake? || q.pc.WakeDone?) || (q.yielded && q.run == Running)
  }

  /** Between setting and clearing lk->locked. */
  predicate Owns(pc: Pc)
  {
    pc.GotIt? || pc.Holding? || pc.RelWant? || pc.Clear?
  }

  /** Has cleared lk->locked and has yet to wake the sleepers. */
  predicate Due(pc: Pc)
  {
    pc.WakeWant? || pc.Wake?
  }

  /** Asleep on lk, or past the test and going to sleep. */
  predicate Waits(q: Proc)
  {
    (q.pc.WantPt? || q.pc.DropLk? || q.pc.SetSleep?) || (q.pc.Asleep? && q.run == Sleeping)
  }

  /** What the next statement of a process needs. */
  predicate Unblocked(s: State, q: Proc)
  {
    && q.run == Running
    && ((q.pc.WantLk? || q.pc.RelWant?) && !q.yielded ==> s.lk == NOBODY)
    && ((q.pc.WantPt? || q.pc.WakeWant?) && !q.yielded ==> s.pt == NOBODY)
  }

  predicate Enabled(s: State, e: Step)
  {
    match e
    case Move(p) => Is(s, p) && Unblocked(s, s.procs[p])
    case Preempt(p) =>
      // interrupts are off while a spin lock is held
      && Is(s, p) && s.procs[p].run == Running && !s.procs[p].yielded && !HoldsLk(s.procs[p].pc) && !HoldsPt(s.procs[p])
      && s.pt == NOBODY
    case Kill(p) => Is(s, p) && s.pt == NOBODY
    case Take => s.pt == NOBODY
    case Drop => s.pt == SCHEDULER
    case Dispatch(p) => Is(s, p) && s.pt == SCHEDULER && s.procs[p].run == Runnable
  }

  function At(s: State, p: int, pc: Pc): State
    requires Is(s, p)
  {
    s.(procs := s.procs[p := s.procs[p].(pc := pc)])
  }

  /** wakeup1: every sleeper becomes runnable (proc.c:470-478). */
  function WakeAll(procs: seq<Proc>): (r: seq<Proc>)
    ensures |r| == |procs|
    ensures forall i :: 0 <= i < |r| ==>
      r[i] == if procs[i].run == Sleeping then procs[i].(run := Runnable) else procs[i]
  {
    seq(|procs|,
        i requires 0 <= i < |procs| => if procs[i].run == Sleeping then procs[i].(run := Runnable) else procs[i])
  }

  function Moved(s: State, p: int): State
    requires Is(s, p)
  {
    var q := s.procs[p];
    if q.yielded then s.(procs := s.procs[p := q.(yielded := false)], pt := NOBODY)
    else match q.pc
    case Idle => At(s, p, WantLk)
    case WantLk => At(s, p, Test).(lk := p)
    case Test => if s.locked then At(s, p, WantPt) else At(s, p, GotIt).(locked := true, pid := p)
    case GotIt => At(s, p, Holding).(lk := NOBODY)
    case Holding => At(s, p, RelWant)
    case WantPt => At(s, p, DropLk).(pt := p)
    case DropLk => At(s, p, SetSleep).(lk := NOBODY)
    case SetSleep => s.(procs := s.procs[p := q.(pc := Asleep, run := Sleeping)], pt := SCHEDULER)
    case Asleep => s
    case Awake => At(s, p, WantLk).(pt := NOBODY)
    case RelWant => At(s, p, Clear).(lk := p)
    case Clear => At(s, p, WakeWant).(locked := false, pid := NOBODY)
    case WakeWant => At(s, p, Wake).(pt := p)
    case Wake => At(s.(procs := WakeAll(s.procs)), p, WakeDone)
    case WakeDone => At(s, p, RelDrop).(pt := NOBODY)
    case RelDrop => At(s, p, Idle).(lk := NOBODY)
  }

  function Next(s: State, e: Step): State
    requires Enabled(s, e)
  {
    match e
    case Move(p) => Moved(s, p)
    case Preempt(p) => s.(procs := s.procs[p := s.procs[p].(run := Runnable, yielded := true)], pt := SCHEDULER)
    case Kill(p) => if s.procs[p].run == Sleeping then s.(procs := s.procs[p := s.procs[p].(run := Runnable)]) else s
    case Take => s.(pt := SCHEDULER)
    case Drop => s.(pt := NOBODY)
    case Dispatch(p) =>
      var q := s.procs[p];
      s.(procs := s.procs[p := q.(run := Running, pc := if q.pc.Asleep? then Awake else q.pc)], pt := p)
  }

  predicate Start(s: State)
  {
    && s.lk == s.pt == s.pid == NOBODY && !s.locked
    && forall i :: 0 <= i < |s.procs| ==> s.procs[i] == Proc(Idle, Running, false)
  }

  // ---------------------------------------------------------------------------------------------
  // The invariant
  // ---------------------------------------------------------------------------------------------

  /** The fields of the locks agree with where the processes are. */
  predicate LocksOk(s: State, p: int, q: Proc)
  {
    (s.lk == p <==> HoldsLk(q.pc)) && (s.pt == p <==> HoldsPt(q)) && (Owns(q.pc) <==> s.locked && s.pid == p)
  }

  predicate RunOk(q: Proc)
  {
    && (q.pc.Asleep? <==> q.run == Sleeping || (q.run == Runnable && !q.yielded))
    && (q.yielded ==> !HoldsLk(q.pc) && !(q.pc.SetSleep? || q.pc.Asleep? || q.pc.Awake?))
  }

  /** The sleep-lock is held, or somebody is about to call wakeup. */
  predicate WakerDue(s: State)
  {
    s.locked || (Is(s, s.lk) && Due(s.procs[s.lk].pc))
  }

  predicate ProcOk(s: State, p: int)
    requires Is(s, p)
  {
    LocksOk(s, p, s.procs[p]) && RunOk(s.procs[p]) && (Waits(s.procs[p]) ==> WakerDue(s))
  }

  predicate FieldsOk(s: State)
  {
    (s.lk == NOBODY || Is(s, s.lk)) && (s.pt == NOBODY || s.pt == SCHEDULER || Is(s, s.pt))
      && (s.locked ==> Is(s, s.pid))
  }

  ghost predicate Inv(s: State)
  {
    FieldsOk(s) && forall p :: Is(s, p) ==> ProcOk(s, p)
  }

  lemma StartInv(s: State)
    requires Start(s)
    ensures Inv(s)
  {
  }

  /** The process that moves. */
  lemma MoverOk(s: State, q: int)
    requires Enabled(s, Move(q)) && FieldsOk(s) && ProcOk(s, q)
    ensures LocksOk(Moved(s, q), q, Moved(s, q).procs[q]) && RunOk(Moved(s, q).procs[q])
  {
  }

  /** The other processes: their locks are not touched. */
  lemma StayerOk(s: State, q: int, p: int)
    requires Enabled(s, Move(q)) && FieldsOk(s) && Is(s, p) && p != q && ProcOk(s, p) && ProcOk(s, q)
    ensures LocksOk(Moved(s, q), p, Moved(s, q).procs[p]) && RunOk(Moved(s, q).procs[p])
  {
  }

  /** A move takes away the last waker only by waking everybody. */
  lemma WakerKept(s: State, q: int)
    requires Inv(s) && Enabled(s, Move(q)) && WakerDue(s) && (s.procs[q].yielded || !s.procs[q].pc.Wake?)
    ensures WakerDue(Moved(s, q))
  {
    assert ProcOk(s, q);
    assert Is(s, s.lk) ==> ProcOk(s, s.lk);
  }

  /** Nobody waits unless the sleep-lock is held or a waker is due. */
  lemma WaitersOk(s: State, q: int, p: int)
    requires Inv(s) && Enabled(s, Move(q)) && Is(s, p) && Waits(Moved(s, q).procs[p])
    ensures WakerDue(Moved(s, q))
  {
    assert ProcOk(s, p) && ProcOk(s, q);
    if s.procs[q].yielded || !s.procs[q].pc.Wake? {
      if WakerDue(s) {
        WakerKept(s, q);
      }
    }
  }

  lemma MoveKeeps(s: State, q: int, p: int)
    requires Inv(s) && Enabled(s, Move(q)) && Is(s, p)
    ensures Is(Moved(s, q), p) && ProcOk(Moved(s, q), p)
  {
    if p == q {
      MoverOk(s, q);
    } else {
      StayerOk(s, q, p);
    }
    if Waits(Moved(s, q).procs[p]) {
      WaitersOk(s, q, p);
    }
  }

  lemma OtherStepKeeps(s: State, e: Step, p: int)
    requires Inv(s) && Enabled(s, e) && !e.Move? && Is(s, p)
    ensures ProcOk(Next(s, e), p)
  {
    assert ProcOk(s, p);
    if !e.Take? && !e.Drop? {
      assert ProcOk(s, e.p);
    }
  }

  lemma StepFields(s: State, e: Step)
    requires FieldsOk(s) && Enabled(s, e) && (e.Move? ==> ProcOk(s, e.p))
    ensures FieldsOk(Next(s, e)) && |Next(s, e).procs| == |s.procs|
  {
  }

  lemma StepKeeps(s: State, e: Step)
    requires Inv(s) && Enabled(s, e)
    ensures Inv(Next(s, e))
  {
    var t := Next(s, e);
    if e.Move? {
      assert ProcOk(s, e.p);
    }
    StepFields(s, e);
    forall p | Is(s, p)
      ensures ProcOk(t, p)
    {
      if e.Move? {
        MoveKeeps(s, e.p, p);
      } else {
        OtherStepKeeps(s, e, p);
      }
    }
  }

  // ---------------------------------------------------------------------------------------------
  // All runs
  // ---------------------------------------------------------------------------------------------

  /** es leads from s to t. */
  ghost predicate Runs(s: State, es: seq<Step>, t: State)
    decreases |es|
  {
    if es == [] then t == s else Enabled(s, es[0]) && Runs(Next(s, es[0]), es[1..], t)
  }

  lemma {:induction false} RunKeeps(s: State, es: seq<Step>, t: State)
    requires Inv(s) && Runs(s, es, t)
    ensures Inv(t)
    decreases |es|
  {
    if es != [] {
      StepKeeps(s, es[0]);
      RunKeeps(Next(s, es[0]), es[1..], t);
    }
  }

  /** No two processes hold the sleep-lock, and lk->pid names the one that does. */
  lemma MutualExclusion(s: State, es: seq<Step>, t: State, p: int, q: int)
    requires Start(s) && Runs(s, es, t) && Is(t, p) && Is(t, q) && Owns(t.procs[p].pc) && Owns(t.procs[q].pc)
    ensures p == q && t.locked && t.pid == p
  {
    StartInv(s);
    RunKeeps(s, es, t);
    assert ProcOk(t, p) && ProcOk(t, q);
  }

  // ---------------------------------------------------------------------------------------------
  // One channel of sleep and wakeup
  // ---------------------------------------------------------------------------------------------

  /** lk->lk, beside ptable.lock; the address of the sleep-lock is the only channel. */
  const LK: int := 1
  const CHAN: int := 0

  function GeneralPc(pc: Pc): General.Pc
  {
    match pc
    case Idle => General.Out
    case WantLk => General.Want(LK)
    case Test => General.In(LK)
    case GotIt => General.In(LK)
    case Holding => General.Out
    case WantPt => General.SleepWant(CHAN)
    case DropLk => General.SleepDrop(CHAN)
    case SetSleep => General.SleepSet(CHAN)
    case Asleep => General.Asleep(CHAN)
    case Awake => General.Awake(CHAN)
    case RelWant => General.Want(LK)
    case Clear => General.In(LK)
    case WakeWant => General.WakeWant(LK, CHAN)
    case Wake => General.Wake(LK, CHAN)
    case WakeDone => General.WakeDone(LK, CHAN)
    case RelDrop => General.In(LK)
  }

  function GeneralRun(r: Run): General.Run
  {
    match r
    case Running => General.Running
    case Runnable => General.Runnable
    case Sleeping => General.Sleeping
  }

  /** Everybody waits for the sleep-lock to be free; who has cleared it owes the channel a wakeup. */
  function GeneralProc(q: Proc, locked: bool): General.Proc
  {
    General.Proc(GeneralPc(q.pc), GeneralRun(q.run), q.yielded, !locked, if Due(q.pc) then {CHAN} else {})
  }

  function GeneralState(s: State): (g: General.State)
    ensures |g.procs| == |s.procs| && forall i :: 0 <= i < |g.procs| ==> g.procs[i] == GeneralProc(s.procs[i], s.locked)
    ensures g.locks == [s.pt, s.lk] && g.guard == [LK]
  {
    General.State(seq(|s.procs|, i requires 0 <= i < |s.procs| => GeneralProc(s.procs[i], s.locked)), [s.pt, s.lk],
                  [LK])
  }

  function All(s: State, ready: bool): (r: seq<bool>)
    ensures |r| == |s.procs| && forall i :: 0 <= i < |r| ==> r[i] == ready
  {
    seq(|s.procs|, _ => ready)
  }

  /** What a statement of acquiresleep or releasesleep is in the general system. */
  function GeneralMove(s: State, p: int): seq<General.Step>
    requires Is(s, p)
  {
    var q := s.procs[p];
    if q.yielded then [General.Move(p)]
    else match q.pc
      case Idle => [General.Enter(p, LK)]
      case Test => if s.locked then [General.Doze(p, CHAN)] else [General.Change(p, All(s, false), {})]
      case GotIt => [General.Leave(p)]
      case Holding => [General.Enter(p, LK)]
      case Asleep => []
      case Clear => [General.Change(p, All(s, true), {CHAN}), General.Announce(p, CHAN)]
      case RelDrop => [General.Leave(p)]
      case _ => [General.Move(p)]
  }

  function GeneralSteps(s: State, e: Step): seq<General.Step>
    requires Enabled(s, e)
  {
    match e
    case Move(p) => GeneralMove(s, p)
    case Preempt(p) => [General.Preempt(p)]
    case Kill(p) => [General.Kill(p)]
    case Take => [General.Take]
    case Drop => [General.Drop]
    case Dispatch(p) => [General.Dispatch(p)]
  }

  predicate Alike(s: State, g: General.State, p: int)
  {
    && |g.procs| == |s.procs| && g.locks == [s.pt, s.lk] && g.guard == [LK]
    && Is(s, p) && g.procs[p] == GeneralProc(s.procs[p], s.locked)
  }

  lemma MoveEnabled(s: State, p: int, g: General.State)
    requires Enabled(s, Move(p)) && ProcOk(s, p) && |GeneralMove(s, p)| == 1
    requires Alike(s, g, p) && forall i :: 0 <= i < |g.procs| ==> Alike(s, g, i)
    ensures General.Enabled(g, GeneralMove(s, p)[0])
  {
    assert General.IsChan(g, CHAN);
  }

  /** A statement of acquire, sleep, wakeup or yield. */
  lemma PlainMover(s: State, p: int, g: General.State)
    requires Enabled(s, Move(p)) && ProcOk(s, p) && GeneralMove(s, p) == [General.Move(p)]
      && General.Enabled(g, General.Move(p)) && Alike(s, g, p)
    ensures Alike(Moved(s, p), General.Moved(g, p), p)
  {
  }

  /** A statement of acquiresleep or releasesleep itself. */
  lemma OwnMover(s: State, p: int, g: General.State)
    requires Enabled(s, Move(p)) && ProcOk(s, p) && |GeneralMove(s, p)| == 1
      && General.Enabled(g, GeneralMove(s, p)[0]) && Alike(s, g, p)
    requires !GeneralMove(s, p)[0].Move?
    ensures Alike(Moved(s, p), General.Next(g, GeneralMove(s, p)[0]), p)
  {
  }

  lemma MoveMover(s: State, p: int, g: General.State)
    requires Enabled(s, Move(p)) && ProcOk(s, p) && |GeneralMove(s, p)| == 1
      && General.Enabled(g, GeneralMove(s, p)[0]) && Alike(s, g, p)
    ensures Alike(Moved(s, p), General.Next(g, GeneralMove(s, p)[0]), p)
  {
    if GeneralMove(s, p)[0].Move? {
      PlainMover(s, p, g);
    } else {
      OwnMover(s, p, g);
    }
  }

  lemma MoveOther(s: State, p: int, g: General.State, i: int)
    requires Enabled(s, Move(p)) && ProcOk(s, p) && |GeneralMove(s, p)| == 1
      && General.Enabled(g, GeneralMove(s, p)[0]) && Alike(s, g, p)
    requires i != p && Alike(s, g, i) && ProcOk(s, i)
    ensures var n := General.Next(g, GeneralMove(s, p)[0]);
            i < |n.procs| && i < |Moved(s, p).procs|
              && n.procs[i] == GeneralProc(Moved(s, p).procs[i], Moved(s, p).locked)
  {
  }

  /** A statement other than clearing the sleep-lock is one step of the general system. */
  lemma MoveSimulated(s: State, p: int)
    requires Inv(s) && Enabled(s, Move(p)) && |GeneralMove(s, p)| == 1
    ensures var g, e := GeneralState(s), GeneralMove(s, p)[0];
            General.Enabled(g, e) && General.Next(g, e) == GeneralState(Moved(s, p))
  {
    var g := GeneralState(s);
    assert ProcOk(s, p);
    MoveEnabled(s, p, g);
    MoveMover(s, p, g);
    forall i | Is(s, i) && i != p
      ensures General.Next(g, GeneralMove(s, p)[0]).procs[i] == GeneralState(Moved(s, p)).procs[i]
    {
      assert ProcOk(s, i);
      MoveOther(s, p, g, i);
    }
  }

  /** Clearing the sleep-lock, and the call of wakeup. */
  lemma ClearSimulated(s: State, p: int)
    requires Inv(s) && Enabled(s, Move(p)) && s.procs[p].pc.Clear? && !s.procs[p].yielded
    ensures General.Runs(GeneralState(s), GeneralMove(s, p), GeneralState(Moved(s, p)))
  {
    var g, t := GeneralState(s), GeneralState(Moved(s, p));
    var e, f := General.Change(p, All(s, true), {CHAN}), General.Announce(p, CHAN);
    assert General.IsChan(g, CHAN) && General.Enabled(g, e);
    var h := General.Next(g, e);
    assert g.procs[p].owed + {CHAN} == {CHAN};
    assert General.Enabled(h, f);
    assert General.Next(h, f).procs == t.procs;
    assert General.Next(h, f) == t;
    assert General.Runs(t, [], t);
    General.RunFirst(h, f, [], t);
    General.RunFirst(g, e, [f], t);
    assert [e] + [f] == [e, f];
  }

  lemma OtherSimulated(s: State, e: Step)
    requires Inv(s) && Enabled(s, e) && !e.Move?
    ensures var g, f := GeneralState(s), GeneralSteps(s, e)[0];
            General.Enabled(g, f) && General.Next(g, f) == GeneralState(Next(s, e))
  {
    var g, f, t := GeneralState(s), GeneralSteps(s, e)[0], GeneralState(Next(s, e));
    if e.Preempt? {
      assert ProcOk(s, e.p);
    }
    assert General.Next(g, f).procs == t.procs;
  }

  /** Every step of the sleep-lock is a run of the general system. */
  lemma StepSimulated(s: State, e: Step)
    requires Inv(s) && Enabled(s, e)
    ensures General.Runs(GeneralState(s), GeneralSteps(s, e), GeneralState(Next(s, e)))
  {
    var g, t := GeneralState(s), GeneralState(Next(s, e));
    if e.Move? && s.procs[e.p].pc.Clear? && !s.procs[e.p].yielded {
      ClearSimulated(s, e.p);
    } else if GeneralSteps(s, e) != [] {
      if e.Move? {
        MoveSimulated(s, e.p);
      } else {
        OtherSimulated(s, e);
      }
      assert General.Runs(t, [], t);
      General.RunFirst(g, GeneralSteps(s, e)[0], [], t);
      assert [GeneralSteps(s, e)[0]] + [] == GeneralSteps(s, e);
    }
  }

  lemma {:induction false} RunSimulated(s: State, es: seq<Step>, t: State) returns (gs: seq<General.Step>)
    requires Inv(s) && Runs(s, es, t)
    ensures General.Runs(GeneralState(s), gs, GeneralState(t))
    decreases |es|
  {
    if es == [] {
      return [];
    }
    StepKeeps(s, es[0]);
    StepSimulated(s, es[0]);
    gs := RunSimulated(Next(s, es[0]), es[1..], t);
    General.RunsJoin(GeneralState(s), GeneralSteps(s, es[0]), GeneralState(Next(s, es[0])), gs, GeneralState(t));
    gs := GeneralSteps(s, es[0]) + gs;
  }

  /** While the sleep-lock is free, nobody sleeps on it unless the holder of lk->lk is still due to call wakeup. */
  lemma NoLostWakeup(s: State, es: seq<Step>, t: State, p: int)
    requires Start(s) && Runs(s, es, t) && Is(t, p) && t.procs[p].run == Sleeping && !t.locked
    ensures Is(t, t.lk) && Due(t.procs[t.lk].pc)
  {
    StartInv(s);
    var gs := RunSimulated(s, es, t);
    General.NoLostWakeup(GeneralState(s), gs, GeneralState(t), p);
  }

  // ---------------------------------------------------------------------------------------------
  // Whoever waits can still get the sleep-lock
  // ---------------------------------------------------------------------------------------------

  /** In acquiresleep. */
  predicate Acquiring(pc: Pc)
  {
    pc.WantLk? || pc.Test? || pc.GotIt? || pc.WantPt? || pc.DropLk? || pc.SetSleep? || pc.Asleep? || pc.Awake?
  }

  /** Steps of a process that holds spin locks until it has let go of them. */
  function Rank(pc: Pc): int
  {
    match pc
    case Test => 5
    case WantPt => 4
    case DropLk => 3
    case SetSleep => 2
    case WakeWant => 4
    case Wake => 3
    case WakeDone => 2
    case _ => 1
  }

  /** Steps until ptable.lock is free, if neither x nor the holder of lk->lk has it. */
  function PtCost(s: State, x: int): int
  {
    if s.pt == NOBODY || s.pt == s.lk || s.pt == x then 0
    else if Is(s, s.pt) then Rank(s.procs[s.pt].pc)
    else if s.lk == NOBODY && Is(s, x) && s.procs[x].run == Runnable then 0
    else 1
  }

  /** Steps until x runs. */
  function RunCost(s: State, x: int): int
    requires Is(s, x)
  {
    if s.procs[x].run == Runnable then (if s.lk == NOBODY && s.pt == SCHEDULER then 2 else 3)
    else if s.pt == x then 1
    else 0
  }

  /** Statements of the owner until the sleep-lock is free. */
  function OwnerCost(pc: Pc): int
  {
    match pc
    case GotIt => 4
    case Holding => 3
    case RelWant => 2
    case _ => 1
  }

  /** Statements of p until it has the sleep-lock, if that is free. */
  function OwnCost(pc: Pc): int
  {
    match pc
    case Test => 2
    case GotIt => 1
    case _ => 3
  }

  predicate Other(s: State, p: int)
  {
    s.lk != p && Is(s, s.lk)
  }

  /** Somebody else is about to test the sleep-lock; somebody else has it; somebody else has just released it. */
  predicate Testing(s: State, p: int)
  {
    Other(s, p) && s.procs[s.lk].pc.Test?
  }

  predicate Taken(s: State, p: int)
  {
    !Testing(s, p) && s.locked && s.pid != p && Is(s, s.pid)
  }

  predicate Releasing(s: State, p: int)
  {
    !Testing(s, p) && !s.locked && Other(s, p)
  }

  /** How far p is from the sleep-lock if everybody on the way goes on. */
  function Far(s: State, p: int): int
    requires Is(s, p)
  {
    if Testing(s, p) then 96 + PtCost(s, NOBODY)
    else if Taken(s, p) then
      64 + RunCost(s, s.pid) + OwnerCost(s.procs[s.pid].pc) + PtCost(s, s.pid)
        + (if Other(s, s.pid) then Rank(s.procs[s.lk].pc) else 0)
    else if Releasing(s, p) then 32 + Rank(s.procs[s.lk].pc) + PtCost(s, NOBODY)
    else RunCost(s, p) + OwnCost(s.procs[p].pc) + PtCost(s, p)
  }

  /** Who has to run next. */
  function Target(s: State, p: int): int
  {
    if Taken(s, p) then s.pid else p
  }

  function Choose(s: State, p: int): Step
    requires Is(s, p)
  {
    var x := Target(s, p);
    if s.pt == SCHEDULER then (if s.lk == NOBODY && Is(s, x) && s.procs[x].run == Runnable then Dispatch(x) else Drop)
    else if s.pt != NOBODY then Move(s.pt)
    else if s.lk != NOBODY then Move(s.lk)
    else if Is(s, x) && s.procs[x].run == Runnable then Take
    else Move(x)
  }

  predicate Trying(s: State, p: int)
  {
    Is(s, p) && Acquiring(s.procs[p].pc)
  }

  /** What the invariant says about the processes that count. */
  predicate Known(s: State, p: int)
  {
    && FieldsOk(s) && Is(s, p) && ProcOk(s, p) && (Is(s, s.lk) ==> ProcOk(s, s.lk)) && (Is(s, s.pt) ==> ProcOk(s, s.pt))
    && (Is(s, s.pid) ==> ProcOk(s, s.pid))
  }

  lemma ChooseEnabled(s: State, p: int)
    requires Known(s, p) && Trying(s, p)
    ensures Enabled(s, Choose(s, p))
  {
  }

  /** The step brings p closer to the sleep-lock. */
  predicate Closer(s: State, e: Step, p: int)
    requires Is(s, p) && Enabled(s, e)
  {
    var t := Next(s, e);
    Is(t, p) && (t.procs[p].pc.Holding? || (Trying(t, p) && 0 <= Far(t, p) < Far(s, p)))
  }

  lemma TestingCloser(s: State, p: int)
    requires Known(s, p) && Trying(s, p) && Enabled(s, Choose(s, p)) && Testing(s, p)
    ensures Closer(s, Choose(s, p), p)
  {
  }

  lemma TakenByScheduler(s: State, p: int)
    requires Known(s, p) && Trying(s, p) && Enabled(s, Choose(s, p)) && Taken(s, p) && s.pt == SCHEDULER
    ensures Closer(s, Choose(s, p), p)
  {
  }

  lemma TakenByBoth(s: State, p: int)
    requires Known(s, p) && Trying(s, p) && Enabled(s, Choose(s, p)) && Taken(s, p) && Is(s, s.pt) && s.pt == s.lk
    ensures Closer(s, Choose(s, p), p)
  {
  }

  lemma TakenByPt(s: State, p: int)
    requires Known(s, p) && Trying(s, p) && Enabled(s, Choose(s, p)) && Taken(s, p) && Is(s, s.pt) && s.pt != s.lk
    ensures Closer(s, Choose(s, p), p)
  {
  }

  lemma TakenByLk(s: State, p: int)
    requires Known(s, p) && Trying(s, p) && Enabled(s, Choose(s, p)) && Taken(s, p) && s.pt == NOBODY && s.lk != NOBODY
    ensures Closer(s, Choose(s, p), p)
  {
  }

  lemma TakenByOwner(s: State, p: int)
    requires Known(s, p) && Trying(s, p) && Enabled(s, Choose(s, p)) && Taken(s, p) && s.pt == s.lk == NOBODY
    ensures Closer(s, Choose(s, p), p)
  {
  }

  lemma ReleasingCloser(s: State, p: int)
    requires Known(s, p) && Trying(s, p) && Enabled(s, Choose(s, p)) && Releasing(s, p)
    ensures Closer(s, Choose(s, p), p)
  {
  }

  lemma FreeCloser(s: State, p: int)
    requires Known(s, p) && Trying(s, p) && Enabled(s, Choose(s, p)) && !Testing(s, p) && !Taken(s, p)
      && !Releasing(s, p)
    ensures Closer(s, Choose(s, p), p)
  {
  }

  lemma ChooseCloser(s: State, p: int)
    requires Known(s, p) && Trying(s, p) && Enabled(s, Choose(s, p))
    ensures Closer(s, Choose(s, p), p)
  {
    if Testing(s, p) {
      TestingCloser(s, p);
    } else if Taken(s, p) {
      if s.pt == SCHEDULER {
        TakenByScheduler(s, p);
      } else if s.pt != NOBODY && s.pt == s.lk {
        TakenByBoth(s, p);
      } else if s.pt != NOBODY {
        TakenByPt(s, p);
      } else if s.lk != NOBODY {
        TakenByLk(s, p);
      } else {
        TakenByOwner(s, p);
      }
    } else if Releasing(s, p) {
      ReleasingCloser(s, p);
    } else {
      FreeCloser(s, p);
    }
  }

  lemma FarBound(s: State, p: int)
    requires Is(s, p)
    ensures 0 <= Far(s, p) <= 101
  {
  }

  lemma {:induction false} Reaches(s: State, p: int) returns (es: seq<Step>, t: State)
    requires Inv(s) && Trying(s, p)
    ensures Runs(s, es, t) && |es| <= Far(s, p) + 1 && Is(t, p) && t.procs[p].pc.Holding?
    decreases Far(s, p)
  {
    FarBound(s, p);
    assert ProcOk(s, p) && (Is(s, s.lk) ==> ProcOk(s, s.lk)) && (Is(s, s.pt) ==> ProcOk(s, s.pt))
      && (Is(s, s.pid) ==> ProcOk(s, s.pid));
    ChooseEnabled(s, p);
    ChooseCloser(s, p);
    var e := Choose(s, p);
    var u := Next(s, e);
    if u.procs[p].pc.Holding? {
      es, t := [e], u;
    } else {
      StepKeeps(s, e);
      es, t := Reaches(u, p);
      es := [e] + es;
    }
  }

  /**
    No deadlock, and nobody is stranded: in every state of every run, each process in acquiresleep can still get the
    sleep-lock, within a bounded number of steps of the processes and the schedulers, whatever the number of processes.
  */
  lemma CanAcquire(s: State, es: seq<Step>, t: State, p: int) returns (fs: seq<Step>, u: State)
    requires Start(s) && Runs(s, es, t) && Trying(t, p)
    ensures Runs(t, fs, u) && |fs| <= 102 && Is(u, p) && u.procs[p].pc.Holding? && u.locked && u.pid == p
  {
    StartInv(s);
    RunKeeps(s, es, t);
    FarBound(t, p);
    fs, u := Reaches(t, p);
    RunKeeps(t, fs, u);
    assert ProcOk(u, p);
  }
}
