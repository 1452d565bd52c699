/**
  sleep and wakeup of proc.c for any number of channels and spin locks, as a system of atomic steps.  A channel is
  guarded by the spin lock that its sleepers pass to sleep; that may be ptable.lock itself.  What a process waits for
  is abstract: `ready` says whether it is true now, and only a process that holds the guard may change it.  Whoever
  makes it true owes the channel a wakeup before it lets go of the guard.
*/
module SleepWakeup {
  /** Where a process is; c is a channel, l a spin lock. */
  datatype Pc =
    | Out                           // in no critical section
    | Want(l: int)                  // about to acquire l
    | In(l: int)                    // holds l
    | SleepWant(c: int)             // holds the guard of c: sleep is about to take ptable.lock
    | SleepDrop(c: int)             // holds both: about to let go of the guard
    | SleepSet(c: int)              // holds ptable.lock: about to become SLEEPING and switch away
    | Asleep(c: int)                // switched away
    | Awake(c: int)                 // holds ptable.lock: switched back
    | WakeWant(l: int, c: int)      // holds l: wakeup(c) is about to take ptable.lock
    | Wake(l: int, c: int)          // holds both: about to wake the sleepers on c
    | WakeDone(l: int, c: int)      // holds both: about to let go of ptable.lock

  datatype Run = Running | Runnable | Sleeping

  /** `yielded`: in yield(), from its acquire of ptable.lock to its release.  `owed`: channels yet to be woken. */
  datatype Proc = Proc(pc: Pc, run: Run, yielded: bool, ready: bool, owed: set<int>)

  /** ptable.lock. */
  const PT: int := 0
  const NOBODY: int := -1
  /** ptable.lock is held by a CPU's scheduler. */
  const SCHEDULER: int := -2

  /** locks: who holds each spin lock; guard: the spin lock of each channel. */
  datatype State = State(procs: seq<Proc>, locks: seq<int>, guard: seq<int>)

  datatype Step =
    | Enter(p: int, l: int)                              // p is going to acquire l
    | Move(p: int)                                       // the next statement of acquire, sleep, wakeup or yield
    | Doze(p: int, c: int)                               // p finds that it has to wait, and calls sleep(c, guard)
    | Change(p: int, ready: seq<bool>, owes: set<int>)   // p changes what its lock protects
    | Announce(p: int, c: int)                           // p calls wakeup(c), or wakeup1(c) if it holds ptable.lock
    | Leave(p: int)                                      // p releases its lock
    | Preempt(p: int)                                    // a timer interrupt makes p yield
    | Kill(p: int)                                       // kill() of p by another process
    | Take                                               // a scheduler acquires ptable.lock
    | Drop                                               // a scheduler releases it
    | Dispatch(p: int)                                   // a scheduler switches to p

  predicate Is(s: State, p: int)
  {
    0 <= p < |s.procs|
  }

  predicate IsLock(s: State, l: int)
  {
    0 <= l < |s.locks|
  }

  predicate IsChan(s: State, c: int)
  {
    0 <= c < |s.guard| && IsLock(s, s.guard[c])
  }

  /** Asleep on c, or past the test and going to sleep. */
  predicate Waits(q: Proc, c: int)
  {
    (q.pc == SleepWant(c) || q.pc == SleepDrop(c) || q.pc == SleepSet(c)) || (q.pc == Asleep(c) && q.run == Sleeping)
  }

  /** q holds its critical section's lock l. */
  predicate Inside(q: Proc, l: int)
  {
    q.pc == In(l) || ((q.pc.WakeWant? || q.pc.Wake? || q.pc.WakeDone?) && q.pc.l == l)
  }

  predicate Holds(s: State, q: Proc, l: int)
  {
    || Inside(q, l)
    || ((q.pc.SleepWant? || q.pc.SleepDrop?) && IsChan(s, q.pc.c) && s.guard[q.pc.c] == l)
    || (l == PT
      && (q.pc.SleepDrop? || q.pc.SleepSet? || q.pc.Awake? || q.pc.Wake? || q.pc.WakeDone?
        || (q.yielded && q.run == Running)))
  }

  predicate Goes(q: Proc)
  {
    q.run == Running && !q.yielded
  }

  /**
    What a process may do to the conditions: change those whose channel its lock guards, and owe those it makes
    true.
  */
  ghost predicate Fair(s: State, l: int, ready: seq<bool>, owes: set<int>)
    requires |ready| == |s.procs|
  {
    && (forall c :: c in owes ==> IsChan(s, c) && s.guard[c] == l)
    && forall q, c :: Is(s, q) && IsChan(s, c) && Waits(s.procs[q], c) && ready[q] != s.procs[q].ready ==>
         s.guard[c] == l && (ready[q] ==> c in owes)
  }

  ghost predicate Enabled(s: State, e: Step)
  {
    match e
    case Enter(p, l) => Is(s, p) && Goes(s.procs[p]) && s.procs[p].pc.Out? && IsLock(s, l)
    case Move(p) =>
      && Is(s, p) && s.procs[p].run == Running
      && (s.procs[p].yielded ||
          match s.procs[p].pc
          case Want(l) => IsLock(s, l) && s.locks[l] == NOBODY
          case SleepWant(_) => s.locks != [] && s.locks[PT] == NOBODY
          case WakeWant(_, _) => s.locks != [] && s.locks[PT] == NOBODY
          case SleepDrop(c) => IsChan(s, c)
          case Awake(c) => IsChan(s, c)
          case Out => false
          case In(_) => false
          case Asleep(_) => false
          case _ => true)
      && s.locks != []
    case Doze(p, c) =>
      Is(s, p) && Goes(s.procs[p]) && IsChan(s, c) && s.procs[p].pc == In(s.guard[c]) && s.procs[p].owed == {}
    case Change(p, ready, owes) =>
      Is(s, p) && Goes(s.procs[p]) && s.procs[p].pc.In? && |ready| == |s.procs| && Fair(s, s.procs[p].pc.l, ready, owes)
    case Announce(p, c) => Is(s, p) && Goes(s.procs[p]) && s.procs[p].pc.In? && IsChan(s, c)
    case Leave(p) =>
      Is(s, p) && Goes(s.procs[p]) && s.procs[p].pc.In? && IsLock(s, s.procs[p].pc.l) && s.procs[p].owed == {}
    case Preempt(p) =>
      // interrupts are off while a spin lock is held
      Is(s, p) && Goes(s.procs[p]) && (s.procs[p].pc.Out? || s.procs[p].pc.Want?) && s.locks != []
        && s.locks[PT] == NOBODY
    case Kill(p) => Is(s, p) && s.locks != [] && s.locks[PT] == NOBODY
    case Take => s.locks != [] && s.locks[PT] == NOBODY
    case Drop => s.locks != [] && s.locks[PT] == SCHEDULER
    case Dispatch(p) => Is(s, p) && s.locks != [] && s.locks[PT] == SCHEDULER && s.procs[p].run == Runnable
  }

  function At(s: State, p: int, pc: Pc): State
    requires Is(s, p)
  {
    s.(procs := s.procs[p := s.procs[p].(pc := pc)])
  }

  function Lock(s: State, l: int, p: int): State
    requires IsLock(s, l)
  {
    s.(locks := s.locks[l := p])
  }

  /** wakeup1: the sleepers on c become runnable (proc.c:470-478). */
  function Woken(q: Proc, c: int): Proc
  {
    if q.run == Sleeping && q.pc == Asleep(c) then q.(run := Runnable) else q
  }

  function WakeAll(procs: seq<Proc>, c: int): (r: seq<Proc>)
    ensures |r| == |procs| && forall i :: 0 <= i < |r| ==> r[i] == Woken(procs[i], c)
  {
    seq(|procs|, i requires 0 <= i < |procs| => Woken(procs[i], c))
  }

  /** wakeup1(c) by p, which then owes c nothing. */
  function WokenBy(s: State, p: int, c: int, pc: Pc): State
    requires Is(s, p)
  {
    var procs := WakeAll(s.procs, c);
    s.(procs := procs[p := procs[p].(pc := pc, owed := procs[p].owed - {c})])
  }

  ghost function Moved(s: State, p: int): State
    requires Enabled(s, Move(p))
  {
    var q := s.procs[p];
    if q.yielded then Lock(s.(procs := s.procs[p := q.(yielded := false)]), PT, NOBODY)
    else match q.pc
    case Want(l) => Lock(At(s, p, In(l)), l, p)
    case SleepWant(c) => Lock(At(s, p, SleepDrop(c)), PT, p)
    case SleepDrop(c) => Lock(At(s, p, SleepSet(c)), s.guard[c], NOBODY)
    case SleepSet(c) => Lock(s.(procs := s.procs[p := q.(pc := Asleep(c), run := Sleeping)]), PT, SCHEDULER)
    case Awake(c) => if s.guard[c] == PT then At(s, p, In(PT)) else Lock(At(s, p, Want(s.guard[c])), PT, NOBODY)
    case WakeWant(l, c) => Lock(At(s, p, Wake(l, c)), PT, p)
    case Wake(l, c) => WokenBy(s, p, c, WakeDone(l, c))
    case WakeDone(l, _) => Lock(At(s, p, In(l)), PT, NOBODY)
    case _ => s
  }

  function Changed(procs: seq<Proc>, ready: seq<bool>): (r: seq<Proc>)
    requires |ready| == |procs|
    ensures |r| == |procs| && forall i :: 0 <= i < |r| ==> r[i] == procs[i].(ready := ready[i])
  {
    seq(|procs|, i requires 0 <= i < |procs| => procs[i].(ready := ready[i]))
  }

  ghost function Next(s: State, e: Step): State
    requires Enabled(s, e)
  {
    match e
    case Enter(p, l) => At(s, p, Want(l))
    case Move(p) => Moved(s, p)
    case Doze(p, c) =>
      var pc := if s.guard[c] == PT then SleepSet(c) else SleepWant(c);
      s.(procs := s.procs[p := s.procs[p].(pc := pc, ready := false)])
    case Change(p, ready, owes) =>
      var procs := Changed(s.procs, ready);
      s.(procs := procs[p := procs[p].(owed := procs[p].owed + owes)])
    case Announce(p, c) =>
      var l := s.procs[p].pc.l;
      if l == PT then WokenBy(s, p, c, In(PT)) else At(s, p, WakeWant(l, c))
    case Leave(p) => Lock(At(s, p, Out), s.procs[p].pc.l, NOBODY)
    case Preempt(p) => Lock(s.(procs := s.procs[p := s.procs[p].(run := Runnable, yielded := true)]), PT, SCHEDULER)
    case Kill(p) => if s.procs[p].run == Sleeping then s.(procs := s.procs[p := s.procs[p].(run := Runnable)]) else s
    case Take => Lock(s, PT, SCHEDULER)
    case Drop => Lock(s, PT, NOBODY)
    case Dispatch(p) =>
      var q := s.procs[p];
      Lock(s.(procs := s.procs[p := q.(run := Running, pc := if q.pc.Asleep? then Awake(q.pc.c) else q.pc)]), PT, p)
  }

  /** Any number of processes, locks and channels; nobody holds or waits for anything. */
  ghost predicate Start(s: State)
  {
    && s.locks != [] && (forall l :: IsLock(s, l) ==> s.locks[l] == NOBODY)
    && (forall c :: 0 <= c < |s.guard| ==> IsLock(s, s.guard[c]))
    && forall p :: Is(s, p) ==> Fresh(s.procs[p])
  }

  predicate Fresh(q: Proc)
  {
    q.pc.Out? && q.run == Running && !q.yielded && q.owed == {}
  }

  // ---------------------------------------------------------------------------------------------
  // The invariant
  // ---------------------------------------------------------------------------------------------

  predicate LockOk(s: State, p: int, l: int)
    requires Is(s, p) && IsLock(s, l)
  {
    s.locks[l] == p <==> Holds(s, s.procs[p], l)
  }

  predicate FieldOk(s: State, l: int)
    requires IsLock(s, l)
  {
    s.locks[l] == NOBODY || Is(s, s.locks[l]) || (l == PT && s.locks[l] == SCHEDULER)
  }

  /** What the place of a process says about it. */
  predicate ProcOk(s: State, q: Proc)
  {
    && (q.pc.Asleep? <==> q.run == Sleeping || (q.run == Runnable && !q.yielded))
    && (q.yielded ==> q.pc.Out? || q.pc.Want?)
    && (q.owed != {} ==> q.pc.In? || q.pc.WakeWant? || q.pc.Wake? || q.pc.WakeDone?)
    && match q.pc
       case Out => true
       case Want(l) => IsLock(s, l)
       case In(l) => IsLock(s, l)
       case SleepWant(c) => IsChan(s, c) && s.guard[c] != PT
       case SleepDrop(c) => IsChan(s, c) && s.guard[c] != PT
       case SleepSet(c) => IsChan(s, c)
       case Asleep(c) => IsChan(s, c)
       case Awake(c) => IsChan(s, c)
       case WakeWant(l, c) => IsLock(s, l) && l != PT && IsChan(s, c)
       case Wake(l, c) => IsLock(s, l) && l != PT && IsChan(s, c)
       case WakeDone(l, c) => IsLock(s, l) && l != PT && IsChan(s, c)
  }

  predicate DebtOk(s: State, p: int, c: int)
    requires Is(s, p)
  {
    c in s.procs[p].owed ==> IsChan(s, c)
  }

  /** The process that holds the guard of c is still to call wakeup(c). */
  predicate Owes(s: State, c: int)
  {
    IsChan(s, c) && var r := s.locks[s.guard[c]]; Is(s, r) && Inside(s.procs[r], s.guard[c]) && c in s.procs[r].owed
  }

  /** Whoever waits for something that is true has a wakeup coming. */
  predicate Paid(s: State, q: int, c: int)
    requires Is(s, q)
  {
    Waits(s.procs[q], c) && s.procs[q].ready ==> Owes(s, c)
  }

  ghost predicate Inv(s: State)
  {
    && s.locks != [] && (forall c :: 0 <= c < |s.guard| ==> IsLock(s, s.guard[c]))
    && (forall l :: IsLock(s, l) ==> FieldOk(s, l))
    && (forall p :: Is(s, p) ==> ProcOk(s, s.procs[p]))
    && (forall p, l :: Is(s, p) && IsLock(s, l) ==> LockOk(s, p, l))
    && (forall p, c :: Is(s, p) ==> DebtOk(s, p, c))
    && forall q, c :: Is(s, q) ==> Paid(s, q, c)
  }

  lemma StartInv(s: State)
    requires Start(s)
    ensures Inv(s)
  {
  }

  lemma StepShape(s: State, e: Step)
    requires Inv(s) && Enabled(s, e)
    ensures var t := Next(s, e);
            |t.procs| == |s.procs| && |t.locks| == |s.locks| && t.guard == s.guard
  {
  }

  predicate Acts(e: Step)
  {
    !e.Take? && !e.Drop?
  }

  /** The process that moves. */
  lemma MoverOk(s: State, e: Step)
    requires Enabled(s, e) && Acts(e) && ProcOk(s, s.procs[e.p]) && |s.locks| > 0
    ensures ProcOk(Next(s, e), Next(s, e).procs[e.p])
  {
  }

  lemma OtherOk(s: State, e: Step, p: int)
    requires Enabled(s, e) && Is(s, p) && (Acts(e) ==> p != e.p) && ProcOk(s, s.procs[p])
    ensures ProcOk(Next(s, e), Next(s, e).procs[p])
  {
  }

  lemma MoverLocks(s: State, p: int, l: int)
    requires Enabled(s, Move(p)) && IsLock(s, l) && ProcOk(s, s.procs[p]) && LockOk(s, p, l) && LockOk(s, p, PT)
    ensures LockOk(Moved(s, p), p, l)
  {
  }

  lemma ActorLocks(s: State, e: Step, l: int)
    requires Enabled(s, e) && Acts(e) && !e.Move? && IsLock(s, l) && ProcOk(s, s.procs[e.p]) && LockOk(s, e.p, l)
      && LockOk(s, e.p, PT)
    ensures LockOk(Next(s, e), e.p, l)
  {
  }

  lemma OtherLocks(s: State, e: Step, p: int, l: int)
    requires IsLock(s, l) && IsLock(s, PT) && Is(s, p) && LockOk(s, p, l) && LockOk(s, p, PT) && ProcOk(s, s.procs[p])
    requires Enabled(s, e)
      && (Acts(e) ==> p != e.p && ProcOk(s, s.procs[e.p]) && LockOk(s, e.p, l) && LockOk(s, e.p, PT))
    ensures LockOk(Next(s, e), p, l)
  {
  }

  lemma DebtKept(s: State, e: Step, p: int, c: int)
    requires Enabled(s, e) && Is(s, p) && DebtOk(s, p, c)
    ensures Is(Next(s, e), p) && DebtOk(Next(s, e), p, c)
  {
  }

  lemma FieldKept(s: State, e: Step, l: int)
    requires Enabled(s, e) && IsLock(s, l) && FieldOk(s, l) && (Acts(e) ==> ProcOk(s, s.procs[e.p]))
    ensures FieldOk(Next(s, e), l)
  {
  }

  /** A process that waits in the next state waited before, or has just found that it has to. */
  lemma WaitedBefore(s: State, e: Step, q: int, c: int)
    requires Enabled(s, e) && Is(s, q) && ProcOk(s, s.procs[q]) && Waits(Next(s, e).procs[q], c)
      && Next(s, e).procs[q].ready
    ensures Waits(s.procs[q], c) && (s.procs[q].ready || e.Change?)
  {
  }

  /** A wakeup that is due stays due until it is done. */
  lemma OwesKept(s: State, e: Step, c: int)
    requires Inv(s) && Enabled(s, e) && Owes(s, c)
    requires !(e.Move? && !s.procs[e.p].yielded && s.procs[e.p].pc.Wake? && s.procs[e.p].pc.c == c)
    requires !(e.Announce? && s.procs[e.p].pc == In(PT) && e.c == c)
    ensures Owes(Next(s, e), c)
  {
    var r := s.locks[s.guard[c]];
    assert ProcOk(s, s.procs[r]) && LockOk(s, r, s.guard[c]);
    if Acts(e) && e.p != r {
      assert ProcOk(s, s.procs[e.p]) && LockOk(s, e.p, s.guard[c]) && LockOk(s, e.p, PT);
    }
  }

  /** After wakeup1(c) nobody waits on c who could be waiting for something that is true. */
  lemma NoneLeft(s: State, p: int, c: int, q: int)
    requires Inv(s) && Is(s, p) && Is(s, q) && Holds(s, s.procs[p], PT) && Waits(s.procs[q], c) && s.procs[q].ready
      && s.procs[p].run == Running
    requires Inside(s.procs[p], PT) || s.procs[p].pc.Wake?
    ensures Woken(s.procs[q], c).run == Runnable && q != p
  {
    assert Paid(s, q, c) && ProcOk(s, s.procs[q]) && ProcOk(s, s.procs[p]);
    assert LockOk(s, p, PT) && LockOk(s, q, PT);
    var l := s.guard[c];
    assert LockOk(s, q, l);
  }

  lemma PaidKept(s: State, e: Step, q: int, c: int)
    requires Inv(s) && Enabled(s, e) && Is(s, q)
    ensures Is(Next(s, e), q) && Paid(Next(s, e), q, c)
  {
    var t := Next(s, e);
    StepShape(s, e);
    if Waits(t.procs[q], c) && t.procs[q].ready {
      assert ProcOk(s, s.procs[q]);
      WaitedBefore(s, e, q, c);
      assert Paid(s, q, c);
      if e.Change? {
        ChangePays(s, e, q, c);
      } else {
        if e.Move? && !s.procs[e.p].yielded && s.procs[e.p].pc.Wake? {
          NoneLeft(s, e.p, c, q);
        } else if e.Announce? && s.procs[e.p].pc == In(PT) {
          NoneLeft(s, e.p, c, q);
        }
        OwesKept(s, e, c);
      }
    }
  }

  lemma ChangePays(s: State, e: Step, q: int, c: int)
    requires Inv(s) && e.Change? && Enabled(s, e) && Is(s, q) && Waits(s.procs[q], c) && e.ready[q]
    ensures Owes(Next(s, e), c)
  {
    assert Paid(s, q, c) && ProcOk(s, s.procs[q]) && ProcOk(s, s.procs[e.p]) && IsChan(s, c);
    var l := s.guard[c];
    assert LockOk(s, e.p, l);
    if s.procs[q].ready {
      OwesKept(s, e, c);
    }
  }

  lemma StepKeeps(s: State, e: Step)
    requires Inv(s) && Enabled(s, e)
    ensures Inv(Next(s, e))
  {
    var t := Next(s, e);
    StepShape(s, e);
    if Acts(e) {
      assert ProcOk(s, s.procs[e.p]);
      MoverOk(s, e);
    }
    forall l | IsLock(s, l)
      ensures FieldOk(t, l)
    {
      FieldKept(s, e, l);
    }
    forall p | Is(s, p)
      ensures ProcOk(t, t.procs[p])
    {
      if !(Acts(e) && p == e.p) {
        OtherOk(s, e, p);
      }
    }
    LocksKept(s, e);
    forall p, c | Is(s, p)
      ensures DebtOk(t, p, c)
    {
      DebtKept(s, e, p, c);
    }
    forall q, c | Is(s, q)
      ensures Paid(t, q, c)
    {
      PaidKept(s, e, q, c);
    }
  }

  lemma LocksKept(s: State, e: Step)
    requires Inv(s) && Enabled(s, e)
    ensures var t := Next(s, e);
            forall p, l :: Is(t, p) && IsLock(t, l) ==> LockOk(t, p, l)
  {
    StepShape(s, e);
    forall p, l | Is(s, p) && IsLock(s, l)
      ensures LockOk(Next(s, e), p, l)
    {
      assert LockOk(s, p, l) && LockOk(s, p, PT) && ProcOk(s, s.procs[p]);
      if Acts(e) {
        assert LockOk(s, e.p, l) && LockOk(s, e.p, PT) && ProcOk(s, s.procs[e.p]);
      }
      if Acts(e) && p == e.p {
        if e.Move? {
          MoverLocks(s, p, l);
        } else {
          ActorLocks(s, e, l);
        }
      } else {
        OtherLocks(s, e, p, l);
      }
    }
  }

  // ---------------------------------------------------------------------------------------------
  // All runs
  // ---------------------------------------------------------------------------------------------

  /** es leads from s to t. */
  ghost predicate Runs(s: State, es: seq<Step>, t: State)
    decreases |es|
  {
    if es == [] then t == s else Enabled(s, es[0]) && Runs(Next(s, es[0]), es[1..], t)
  }

  lemma {:induction false} RunKeeps(s: State, es: seq<Step>, t: State)
    requires Inv(s) && Runs(s, es, t)
    ensures Inv(t)
    decreases |es|
  {
    if es != [] {
      StepKeeps(s, es[0]);
      RunKeeps(Next(s, es[0]), es[1..], t);
    }
  }

  lemma {:induction false} RunsJoin(s: State, es: seq<Step>, t: State, fs: seq<Step>, u: State)
    requires Runs(s, es, t) && Runs(t, fs, u)
    ensures Runs(s, es + fs, u)
    decreases |es|
  {
    if es == [] {
      assert es + fs == fs;
    } else {
      RunsJoin(Next(s, es[0]), es[1..], t, fs, u);
      assert (es + fs)[1..] == es[1..] + fs;
    }
  }

  /** The step carries out a wakeup of channel c. */
  predicate Calls(s: State, e: Step, c: int)
  {
    || (e.Move? && Is(s, e.p) && !s.procs[e.p].yielded && s.procs[e.p].pc.Wake? && s.procs[e.p].pc.c == c)
    || (e.Announce? && Is(s, e.p) && s.procs[e.p].pc == In(PT) && e.c == c)
  }

  /** In every run a sleeper on c is made runnable by exactly the wakeups of c and the kills of itself. */
  lemma SleeperRoused(s: State, es: seq<Step>, t: State, e: Step, q: int, c: int)
    requires Start(s) && Runs(s, es, t) && Enabled(t, e) && Is(t, q)
      && t.procs[q].run == Sleeping && t.procs[q].pc == Asleep(c)
    ensures var u := Next(t, e);
            Is(u, q) && u.procs[q].pc == Asleep(c)
              && u.procs[q].run == if e == Kill(q) || Calls(t, e, c) then Runnable else Sleeping
  {
    StartInv(s);
    RunKeeps(s, es, t);
    StepShape(t, e);
    assert ProcOk(t, t.procs[q]);
  }

  /** Whoever sleeps while what it waits for is true: the process that holds the guard is still to wake its channel. */
  lemma NoLostWakeup(s: State, es: seq<Step>, t: State, q: int)
    requires Start(s) && Runs(s, es, t) && Is(t, q) && t.procs[q].run == Sleeping && t.procs[q].ready
    ensures t.procs[q].pc.Asleep? && Owes(t, t.procs[q].pc.c)
  {
    StartInv(s);
    RunKeeps(s, es, t);
    assert ProcOk(t, t.procs[q]);
    assert Paid(t, q, t.procs[q].pc.c);
  }

  /** Letting go of the lock whatever is owed. */
  function Released(s: State, p: int): State
    requires Is(s, p) && s.procs[p].pc.In? && IsLock(s, s.procs[p].pc.l)
  {
    Lock(s.(procs := s.procs[p := s.procs[p].(pc := Out, owed := {})]), s.procs[p].pc.l, NOBODY)
  }

  /** Nobody waits on a channel of l for something that is true. */
  ghost predicate NothingDue(s: State, l: int)
  {
    forall q, c :: Is(s, q) && IsChan(s, c) && s.guard[c] == l && Waits(s.procs[q], c) ==> !s.procs[q].ready
  }

  /** Whoever lets go of a lock loses a wakeup exactly if somebody waits on one of its channels for what is true. */
  lemma ForgottenWakeup(s: State, p: int)
    requires Inv(s) && Is(s, p) && Goes(s.procs[p]) && s.procs[p].pc.In?
    ensures IsLock(s, s.procs[p].pc.l)
    ensures Inv(Released(s, p)) <==> NothingDue(s, s.procs[p].pc.l)
  {
    assert ProcOk(s, s.procs[p]);
    var l := s.procs[p].pc.l;
    assert LockOk(s, p, l);
    var t := Released(s, p);
    if Inv(t) {
      forall q, c | Is(s, q) && IsChan(s, c) && s.guard[c] == l && Waits(s.procs[q], c)
        ensures !s.procs[q].ready
      {
        assert Paid(t, q, c);
      }
    } else if NothingDue(s, l) {
      ReleaseKeeps(s, p);
    }
  }

  lemma ReleaseKeeps(s: State, p: int)
    requires Inv(s) && Is(s, p) && Goes(s.procs[p]) && s.procs[p].pc.In? && IsLock(s, s.procs[p].pc.l)
      && NothingDue(s, s.procs[p].pc.l)
    ensures Inv(Released(s, p))
  {
    var l, t := s.procs[p].pc.l, Released(s, p);
    forall m | IsLock(t, m)
      ensures FieldOk(t, m)
    {
      assert FieldOk(s, m);
    }
    forall q | Is(t, q)
      ensures ProcOk(t, t.procs[q])
    {
      assert ProcOk(s, s.procs[q]);
    }
    forall q, m | Is(t, q) && IsLock(t, m)
      ensures LockOk(t, q, m)
    {
      assert LockOk(s, q, m) && LockOk(s, p, m) && LockOk(s, p, l);
    }
    forall q, c | Is(t, q)
      ensures Paid(t, q, c) && DebtOk(t, q, c)
    {
      assert Paid(s, q, c) && ProcOk(s, s.procs[q]) && DebtOk(s, q, c);
    }
  }

  // ---------------------------------------------------------------------------------------------
  // Nobody is stranded
  // ---------------------------------------------------------------------------------------------

  /** q sleeps on c for what is true, or has been woken. */
  predicate Due(s: State, q: int, c: int)
  {
    Is(s, q) && s.procs[q].pc == Asleep(c)
      && ((s.procs[q].run == Sleeping && s.procs[q].ready) || s.procs[q].run == Runnable)
  }

  /** How many steps its holder is from letting go of ptable.lock. */
  function PtRank(s: State): int
  {
    if s.locks == [] || s.locks[PT] == NOBODY then 0
    else if !Is(s, s.locks[PT]) then 1
    else
      var z := s.procs[s.locks[PT]];
      if z.yielded then 1
      else match z.pc
        case In(_) => 2 + |z.owed|
        case SleepDrop(_) => 4
        case SleepSet(_) => 3
        case Awake(_) => 4
        case Wake(_, _) => 2
        case _ => 1
  }

  /** The holder of ptable.lock moves on. */
  lemma PtMove(s: State, q: int, c: int, z: int)
    requires |s.locks| > 0 && s.locks[PT] == z && Is(s, z) && Due(s, q, c) && ProcOk(s, s.procs[z])
      && LockOk(s, z, PT) && LockOk(s, q, PT)
    requires s.procs[z].pc != In(PT)
    ensures Enabled(s, Move(z)) && PtRank(Moved(s, z)) < PtRank(s) && Due(Moved(s, z), q, c)
  {
  }

  lemma PtLeave(s: State, q: int, c: int, z: int) returns (e: Step)
    requires Inv(s) && s.locks[PT] == z && Is(s, z) && Due(s, q, c) && s.procs[z].pc == In(PT)
    ensures Enabled(s, e) && PtRank(Next(s, e)) < PtRank(s) && Due(Next(s, e), q, c)
  {
    assert ProcOk(s, s.procs[z]);
    if c' :| c' in s.procs[z].owed {
      assert DebtOk(s, z, c');
      e := Announce(z, c');
    } else {
      forall x | x in s.procs[z].owed
        ensures false
      {
      }
      e := Leave(z);
    }
  }

  /** While ptable.lock is held, its holder, or the scheduler, has a step that brings it closer to letting go. */
  lemma PtStep(s: State, q: int, c: int) returns (e: Step)
    requires Inv(s) && Due(s, q, c) && s.locks[PT] != NOBODY
    ensures Enabled(s, e) && PtRank(Next(s, e)) < PtRank(s) && Due(Next(s, e), q, c)
  {
    assert FieldOk(s, PT);
    var z := s.locks[PT];
    if z == SCHEDULER {
      e := Drop;
    } else if s.procs[z].pc == In(PT) {
      e := PtLeave(s, q, c, z);
    } else {
      assert ProcOk(s, s.procs[z]) && LockOk(s, z, PT) && LockOk(s, q, PT);
      PtMove(s, q, c, z);
      e := Move(z);
    }
  }

  lemma RunFirst(s: State, e: Step, es: seq<Step>, t: State)
    requires Enabled(s, e) && Runs(Next(s, e), es, t)
    ensures Runs(s, [e] + es, t)
  {
    assert ([e] + es)[0] == e && ([e] + es)[1..] == es;
  }

  /** r, about to call wakeup1(c), wakes q. */
  lemma WakesNow(s: State, q: int, c: int, r: int) returns (t: State)
    requires Inv(s) && Due(s, q, c) && Is(s, r) && r != q && Goes(s.procs[r]) && s.procs[r].pc.WakeWant?
      && s.procs[r].pc.c == c && s.locks[PT] == NOBODY
    ensures Runs(s, [Move(r), Move(r)], t) && Is(t, q) && t.procs[q].run == Runnable
  {
    var s1 := Moved(s, r);
    t := Moved(s1, r);
    assert Runs(t, [], t);
    RunFirst(s1, Move(r), [], t);
    RunFirst(s, Move(r), [Move(r)], t);
  }

  /** r, in its critical section, calls wakeup(c). */
  lemma WakesFirst(s: State, q: int, c: int, r: int) returns (es: seq<Step>, t: State)
    requires Inv(s) && Due(s, q, c) && Is(s, r) && r != q && Goes(s.procs[r]) && s.procs[r].pc.In?
      && s.procs[r].pc.l != PT && s.locks[PT] == NOBODY
    ensures Runs(s, es, t) && |es| == 3 && Is(t, q) && t.procs[q].run == Runnable
  {
    assert ProcOk(s, s.procs[q]);
    var e := Announce(r, c);
    StepKeeps(s, e);
    t := WakesNow(Next(s, e), q, c, r);
    RunFirst(s, e, [Move(r), Move(r)], t);
    es := [e] + [Move(r), Move(r)];
  }

  /** r is about to wake another channel first. */
  lemma WakesNext(s: State, q: int, c: int, r: int) returns (es: seq<Step>, t: State)
    requires Inv(s) && Due(s, q, c) && Is(s, r) && r != q && Goes(s.procs[r]) && s.procs[r].pc.WakeWant?
      && s.procs[r].pc.c != c && s.locks[PT] == NOBODY
    ensures Runs(s, es, t) && |es| == 6 && Is(t, q) && t.procs[q].run == Runnable
  {
    assert ProcOk(s, s.procs[r]);
    var e := Move(r);
    var s1 := Moved(s, r);
    var s2 := Moved(s1, r);
    var s3 := Moved(s2, r);
    StepKeeps(s, e);
    StepKeeps(s1, e);
    StepKeeps(s2, e);
    es, t := WakesFirst(s3, q, c, r);
    RunFirst(s2, e, es, t);
    RunFirst(s1, e, [e] + es, t);
    RunFirst(s, e, [e] + ([e] + es), t);
    es := [e] + ([e] + ([e] + es));
  }

  /** With ptable.lock free, the process that owes c wakes it in at most six steps of its own. */
  lemma OwerWakes(s: State, q: int, c: int) returns (es: seq<Step>, t: State)
    requires Inv(s) && Due(s, q, c) && s.procs[q].run == Sleeping && s.locks[PT] == NOBODY
    ensures Runs(s, es, t) && |es| <= 6 && Is(t, q) && t.procs[q].run == Runnable
  {
    assert Paid(s, q, c);
    var l := s.guard[c];
    var r := s.locks[l];
    assert ProcOk(s, s.procs[r]) && LockOk(s, r, l) && LockOk(s, r, PT);
    if s.procs[r].pc == In(l) {
      es, t := WakesFirst(s, q, c, r);
    } else if s.procs[r].pc.c == c {
      t := WakesNow(s, q, c, r);
      es := [Move(r), Move(r)];
    } else {
      es, t := WakesNext(s, q, c, r);
    }
  }

  /**
    From every state of every run: a process that sleeps while what it waits for is true can still be woken, by
    steps of the holders of ptable.lock and of the process that owes the wakeup alone.
  */
  lemma {:induction false} CanWake(s: State, q: int, c: int) returns (es: seq<Step>, t: State)
    requires Inv(s) && Due(s, q, c)
    ensures Runs(s, es, t) && |es| <= PtRank(s) + 6 && Is(t, q) && t.procs[q].run == Runnable
    decreases PtRank(s)
  {
    if s.procs[q].run == Runnable {
      es, t := [], s;
    } else if s.locks[PT] == NOBODY {
      es, t := OwerWakes(s, q, c);
    } else {
      var e := PtStep(s, q, c);
      StepKeeps(s, e);
      es, t := CanWake(Next(s, e), q, c);
      RunFirst(s, e, es, t);
      es := [e] + es;
    }
  }

  lemma NobodyStranded(s: State, es: seq<Step>, t: State, q: int) returns (fs: seq<Step>, u: State)
    requires Start(s) && Runs(s, es, t) && Is(t, q) && t.procs[q].run == Sleeping && t.procs[q].ready
    ensures Runs(t, fs, u) && |fs| <= PtRank(t) + 6 && Is(u, q) && u.procs[q].run == Runnable
  {
    StartInv(s);
    RunKeeps(s, es, t);
    assert ProcOk(t, t.procs[q]);
    fs, u := CanWake(t, q, t.procs[q].pc.c);
  }
}
