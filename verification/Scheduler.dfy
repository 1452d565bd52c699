/**
  The priority scheduler of proc.c.  While a dispatched process runs, the scheduler does not hold
  ptable.lock, so the table it sees afterwards can be any table: these tables are the parameter env.
*/
module Scheduler {
  datatype Proc = Proc(pid: int, runnable: bool, priority: int)

  type Procs = seq<Proc>

  /** Runnable, and no runnable process has a higher priority. */
  ghost predicate Maximal(t: Procs, p: int)
  {
    0 <= p < |t| && t[p].runnable && forall q :: 0 <= q < |t| && t[q].runnable ==> t[q].priority <= t[p].priority
  }

  ghost predicate SameSize(n: int, env: seq<Procs>)
  {
    |env| >= n && forall k :: 0 <= k < |env| ==> |env[k]| == n
  }

  /**
    The processes dispatched by a scan from slot i on that sees table t first and env[k], env[k+1], ... after each
    dispatch.
  */
  ghost function Scan(t: Procs, env: seq<Procs>, i: int, k: int): seq<int>
    requires 0 <= i && 0 <= k <= i && SameSize(|t|, env)
    decreases |t| - i
  {
    if i >= |t| then []
    else if Maximal(t, i) then [i] + Scan(env[k], env, i + 1, k + 1)
    else Scan(t, env, i + 1, k)
  }

  /** The inner loop (proc.c:340-348). */
  method IsHighest(t: Procs, p: int) returns (highest: bool)
    requires 0 <= p < |t| && t[p].runnable
    ensures highest <==> Maximal(t, p)
    ensures highest <==> forall q :: 0 <= q < |t| && t[q].runnable ==> t[q].priority <= t[p].priority
  {
    var q := 0;
    while q < |t|
      invariant 0 <= q <= |t| && forall r :: 0 <= r < q && t[r].runnable ==> t[r].priority <= t[p].priority
    {
      if t[q].runnable && t[q].priority > t[p].priority {
        return false;
      }
      q := q + 1;
    }
    return true;
  }

  /** One pass of the scheduler (proc.c:334-366). */
  method Pass(first: Procs, env: seq<Procs>) returns (dispatched: seq<int>)
    requires SameSize(|first|, env)
    ensures dispatched == Scan(first, env, 0, 0)
  {
    dispatched := [];
    var t, p := first, 0;
    while p < |first|
      invariant 0 <= p <= |first| == |t| && |dispatched| <= p
      invariant dispatched + Scan(t, env, p, |dispatched|) == Scan(first, env, 0, 0)
    {
      if t[p].runnable {
        var highest := IsHighest(t, p);
        if highest {
          assert dispatched + ([p] + Scan(env[|dispatched|], env, p + 1, |dispatched| + 1))
              == (dispatched + [p]) + Scan(env[|dispatched|], env, p + 1, |dispatched| + 1);
          t := env[|dispatched|];
          dispatched := dispatched + [p];
        }
      }
      p := p + 1;
    }
  }

  /** proc.c:550-565. */
  method SetPriority(t: Procs, pid: int, priority: int) returns (r: int, u: Procs)
    ensures r == -1 <==> forall i :: 0 <= i < |t| ==> t[i].pid != pid
    ensures r == -1 ==> u == t
    ensures r != -1 ==>
      r == 0 && exists i :: 0 <= i < |t| && t[i].pid == pid && (forall j :: 0 <= j < i ==> t[j].pid != pid)
                                              && u == t[i := t[i].(priority := priority)]
  {
    var p := 0;
    while p < |t|
      invariant 0 <= p <= |t| && forall j :: 0 <= j < p ==> t[j].pid != pid
    {
      if t[p].pid == pid {
        return 0, t[p := t[p].(priority := priority)];
      }
      p := p + 1;
    }
    return -1, t;
  }

  // ---------------------------------------------------------------------------------------------
  // What a pass dispatches
  // ---------------------------------------------------------------------------------------------

  /** The table the scheduler looks at for its m-th dispatch. */
  function Seen(t: Procs, env: seq<Procs>, k: int, m: int): Procs
    requires 0 <= k && 0 <= m && k + m <= |env|
  {
    if m == 0 then t else env[k + m - 1]
  }

  /** Every dispatch picks a runnable process of maximal priority; a pass visits the slots in order. */
  lemma {:induction false} DispatchesMaximal(t: Procs, env: seq<Procs>, i: int, k: int, m: int)
    requires 0 <= k <= i && SameSize(|t|, env) && 0 <= m < |Scan(t, env, i, k)|
    ensures k + m < |t| && Maximal(Seen(t, env, k, m), Scan(t, env, i, k)[m])
    ensures i + m <= Scan(t, env, i, k)[m] < |t|
    ensures var u, p := Seen(t, env, k, m), Scan(t, env, i, k)[m];
            u[p].runnable && forall q :: 0 <= q < |u| && u[q].runnable ==> u[q].priority <= u[p].priority
    ensures m > 0 ==> Scan(t, env, i, k)[m - 1] < Scan(t, env, i, k)[m]
    decreases |t| - i
  {
    if Maximal(t, i) {
      if m > 0 {
        DispatchesMaximal(env[k], env, i + 1, k + 1, m - 1);
      }
    } else {
      DispatchesMaximal(t, env, i + 1, k, m);
    }
  }

  /** A runnable process of maximal priority, if any process is runnable. */
  lemma {:induction false} SomeMaximal(t: Procs, q: int) returns (p: int)
    requires 0 <= q < |t| && t[q].runnable
    ensures Maximal(t, p)
  {
    p := q;
    var r := 0;
    while r < |t|
      invariant 0 <= r <= |t| && 0 <= p < |t| && t[p].runnable
      invariant forall j :: 0 <= j < r && t[j].runnable ==> t[j].priority <= t[p].priority
    {
      if t[r].runnable && t[r].priority > t[p].priority {
        p := r;
      }
      r := r + 1;
    }
  }

  lemma {:induction false} MaximalIsDispatched(t: Procs, env: seq<Procs>, i: int, k: int, p: int)
    requires 0 <= k <= i <= p && SameSize(|t|, env) && Maximal(t, p)
    ensures Scan(t, env, i, k) != []
    decreases |t| - i
  {
    if i < p && !Maximal(t, i) {
      MaximalIsDispatched(t, env, i + 1, k, p);
    }
  }

  /** A pass over a table with a runnable process dispatches at least one. */
  lemma PassDispatches(t: Procs, env: seq<Procs>, q: int)
    requires SameSize(|t|, env) && 0 <= q < |t| && t[q].runnable
    ensures Scan(t, env, 0, 0) != []
  {
    var p := SomeMaximal(t, q);
    MaximalIsDispatched(t, env, 0, 0, p);
  }

  // ---------------------------------------------------------------------------------------------
  // Round robin
  // ---------------------------------------------------------------------------------------------

  /** p is runnable with maximal priority in every table that the scan from slot i sees until it reaches slot p. */
  ghost predicate Stays(t: Procs, env: seq<Procs>, i: int, k: int, p: int)
    requires 0 <= k <= i && SameSize(|t|, env)
    decreases p - i
  {
    Maximal(t, p)
      && (i < p ==> if Maximal(t, i) then Stays(env[k], env, i + 1, k + 1, p) else Stays(t, env, i + 1, k, p))
  }

  /** Then the scan that comes to slot p dispatches it, after at most p - i others. */
  lemma {:induction false} ReachedAfter(t: Procs, env: seq<Procs>, i: int, k: int, p: int) returns (m: int)
    requires 0 <= k <= i <= p < |t| && SameSize(|t|, env) && Stays(t, env, i, k, p)
    ensures 0 <= m <= p - i && m < |Scan(t, env, i, k)| && Scan(t, env, i, k)[m] == p
    decreases |t| - i
  {
    if i == p {
      return 0;
    }
    if Maximal(t, i) {
      m := ReachedAfter(env[k], env, i + 1, k + 1, p);
      m := m + 1;
    } else {
      m := ReachedAfter(t, env, i + 1, k, p);
    }
  }

  lemma {:induction false} ScanSize(t: Procs, env: seq<Procs>, i: int, k: int)
    requires 0 <= k <= i <= |t| && SameSize(|t|, env)
    ensures |Scan(t, env, i, k)| <= |t| - i
    decreases |t| - i
  {
    if i < |t| {
      if Maximal(t, i) {
        ScanSize(env[k], env, i + 1, k + 1);
      } else {
        ScanSize(t, env, i + 1, k);
      }
    }
  }

  /**
    From any point of a pass (slot i, table t) on, a process that stays runnable with maximal priority until its turn
    is dispatched before |t| = NPROC other dispatches: in this pass if its slot is still to come, else in the next
    one, over t' and env'.  What becomes of it after its dispatch does not matter.
  */
  lemma RoundRobin(t: Procs, env: seq<Procs>, i: int, k: int, t': Procs, env': seq<Procs>, p: int) returns (m: int)
    requires 0 <= k <= i <= |t| && SameSize(|t|, env) && |t'| == |t| && SameSize(|t|, env') && 0 <= p < |t|
    requires if i <= p then Stays(t, env, i, k, p) else Stays(t', env', 0, 0, p)
    ensures var all := Scan(t, env, i, k) + Scan(t', env', 0, 0);
            0 <= m < |t| && m < |all| && all[m] == p
  {
    if i <= p {
      m := ReachedAfter(t, env, i, k, p);
    } else {
      ScanSize(t, env, i, k);
      m := ReachedAfter(t', env', 0, 0, p);
      m := |Scan(t, env, i, k)| + m;
    }
  }
}
