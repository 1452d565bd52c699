/**
  How full the log can get.  begin_op admits an operation only while every outstanding one could still
  append MAXOPBLOCKS blocks, but log_write refuses at log.size - 1 entries, and mkfs makes log.size
  equal to LOGSIZE, header included.  This file finds the exact number of appends per operation up to
  which the "too big a transaction" panic is unreachable.
*/
module LogSpace {
  import opened Disk
  import opened LogProtocol
  import opened LogInvariant
  import opened LogTheorems
  import opened Allowance

  /** The most entries the log can hold if each operation appends at most `bound` blocks. */
  function Peak(bound: int): int
  {
    MAXOPBLOCKS + 2 * bound
  }

  /** Entries present plus appends still allowed never exceed the peak. */
  ghost predicate Reserved(s: State)
  {
    && (forall id :: id in s.ops ==> 0 <= s.ops[id] <= s.opBound)
    && (Running(s) ==> |s.lh| + Unused(s.ops.Keys, s.ops, s.opBound) <= Peak(s.opBound))
  }

  lemma AdmittedFits(n: int, k: int, bound: int, unused: int)
    requires 0 <= n && 0 <= k && n + (k + 1) * MAXOPBLOCKS <= LOGSIZE && 1 <= bound <= MAXOPBLOCKS
    requires k == 0 ==> n == 0
    requires unused <= k * bound
    ensures n + unused + bound <= Peak(bound)
  {
    assert k == 0 || k == 1 || k == 2;
  }

  lemma BeginReserves(s: State, id: int)
    requires PhaseOk(s.pc, s.committing, s.ops.Keys, |s.lh|) && Reserved(s) && 1 <= s.opBound <= MAXOPBLOCKS
    requires s.pc == Up && id !in s.ops && Admits(s)
    ensures Reserved(DoBegin(s, id))
  {
    EmptyMap(s.ops);
    UnusedBounded(s.ops.Keys, s.ops, s.opBound);
    AdmittedFits(|s.lh|, |s.ops|, s.opBound, Unused(s.ops.Keys, s.ops, s.opBound));
    var ops := s.ops[id := 0];
    UnusedSplits(ops.Keys, ops, s.opBound, id);
    assert ops.Keys - {id} == s.ops.Keys;
    UnusedSame(s.ops.Keys, s.ops, ops, s.opBound);
  }

  lemma LogWriteReserves(s: State, id: int, b: int)
    requires Reserved(s) && Running(s) && id in s.ops && b in s.cache
    requires b in s.lh || s.ops[id] < s.opBound
    ensures Reserved(DoLogWrite(s, id, b))
  {
    var ops := s.ops[id := s.ops[id] + 1];
    assert ops.Keys == s.ops.Keys;
    UnusedSplits(ops.Keys, ops, s.opBound, id);
    UnusedSplits(s.ops.Keys, s.ops, s.opBound, id);
    UnusedSame(s.ops.Keys - {id}, s.ops, ops, s.opBound);
  }

  lemma EndReserves(s: State, id: int)
    requires Reserved(s) && Running(s) && id in s.ops
    ensures Reserved(Ended(Leave(s, id)))
  {
    UnusedSplits(s.ops.Keys, s.ops, s.opBound, id);
    assert (s.ops - {id}).Keys == s.ops.Keys - {id};
    UnusedSame(s.ops.Keys - {id}, s.ops, s.ops - {id}, s.opBound);
  }

  lemma CommitReserves(s: State)
    requires Reserved(s) && CommitEnabled(s)
    ensures var t := CommitNext(s); Reserved(t) && t.opBound == s.opBound && t.layout == s.layout
  {
  }

  lemma RecoverReserves(s: State)
    requires Reserved(s) && RecoverEnabled(s) && s.ops.Keys == {} && 1 <= s.opBound
    ensures var t := RecoverNext(s); Reserved(t) && t.opBound == s.opBound && t.layout == s.layout
  {
  }

  /** The other steps neither append nor begin anything. */
  lemma OtherReserves(s: State, step: Step)
    requires s.layout.Valid() && |s.disk| == s.layout.nblocks && PhaseOk(s.pc, s.committing, s.ops.Keys, |s.lh|)
    requires Enabled(s, step) && Reserved(s)
    requires !(step.BeginOp? || step.LogWrite? || step.EndOp? || step.CommitStep? || step.RecoverStep?)
    ensures var t := Next(s, step); Reserved(t) && t.opBound == s.opBound && t.layout == s.layout
  {
  }

  lemma StepReserves(s: State, step: Step)
    requires s.layout.Valid() && |s.disk| == s.layout.nblocks
    requires PhaseOk(s.pc, s.committing, s.ops.Keys, |s.lh|)
    requires Enabled(s, step) && Reserved(s) && 1 <= s.opBound <= MAXOPBLOCKS
    ensures Reserved(Next(s, step)) && Next(s, step).opBound == s.opBound && Next(s, step).layout == s.layout
  {
    match step
    case BeginOp(id) => BeginReserves(s, id);
    case LogWrite(id, b) => LogWriteReserves(s, id, b);
    case EndOp(id) => EndReserves(s, id);
    case CommitStep => CommitReserves(s);
    case RecoverStep => RecoverReserves(s);
    case _ => OtherReserves(s, step);
  }

  lemma {:induction false} RunsReserve(s: State, steps: seq<Step>, t: State)
    requires Inv(s) && Reserved(s) && 1 <= s.opBound <= MAXOPBLOCKS && Runs(s, steps, t)
    ensures Reserved(t) && t.opBound == s.opBound && t.layout == s.layout && Inv(t)
    decreases |steps|
  {
    if steps != [] {
      StepKeeps(s, steps[0]);
      StepReserves(s, steps[0]);
      RunsReserve(Next(s, steps[0]), steps[1..], t);
    }
  }

  /** In every reachable state the log holds at most Peak entries while operations run. */
  lemma LogSpaceBound(s: State, t: State)
    requires Boots(s) && 1 <= s.opBound <= MAXOPBLOCKS && Reaches(s, t)
    ensures Running(t) ==> |t.lh| + Unused(t.ops.Keys, t.ops, s.opBound) <= Peak(s.opBound)
    ensures Running(t) ==> |t.lh| <= Peak(s.opBound)
    ensures t.opBound == s.opBound && t.layout == s.layout
  {
    BootInv(s);
    var steps :| Runs(s, steps, t);
    RunsReserve(s, steps, t);
    UnusedBounded(t.ops.Keys, t.ops, t.opBound);
  }

  // ---------------------------------------------------------------------------------------------
  // The peak is reached
  // ---------------------------------------------------------------------------------------------

  lemma {:induction false} RunsCompose(s: State, first: seq<Step>, m: State, rest: seq<Step>, t: State)
    requires Runs(s, first, m) && Runs(m, rest, t)
    ensures Runs(s, first + rest, t)
    decreases |first|
  {
    if first == [] {
      assert first + rest == rest;
    } else {
      assert (first + rest)[1..] == first[1..] + rest;
      RunsCompose(Next(s, first[0]), first[1..], m, rest, t);
    }
  }

  lemma ReachesCompose(s: State, m: State, t: State)
    requires Reaches(s, m) && Reaches(m, t)
    ensures Reaches(s, t)
  {
    var first :| Runs(s, first, m);
    var rest :| Runs(m, rest, t);
    RunsCompose(s, first, m, rest, t);
  }

  /** The i-th block after the log region. */
  function Data(l: Layout, i: int): int
  {
    l.start + l.size + i
  }

  /** Nothing is locked and the log holds the first n blocks after the log region. */
  ghost predicate Ready(s: State, n: int)
  {
    && Inv(s) && s.pc == Up && Unlocked(s)
    && Data(s.layout, LOGSIZE) <= s.layout.nblocks
    && |s.lh| == n && forall i :: 0 <= i < n ==> s.lh[i] == Data(s.layout, i)
  }

  /** bread, log_write, brelse of one block. */
  function Locked(s: State, id: int, b: int): State
    requires 0 <= b < |s.disk|
  {
    Get(s, b, ByOp(id, false))
  }

  lemma AppendRun(s: State, id: int, b: int)
    requires Inv(s) && s.pc == Up && Unlocked(s) && |s.lh| < s.layout.Limit()
    requires id in s.ops && s.ops[id] < s.opBound && s.layout.Home(b)
    ensures var t := SetHolder(DoLogWrite(Locked(s, id, b), id, b), b, Nobody);
            Reaches(s, t) && Inv(t)
  {
    EmptyMap(s.ops);
    var s1 := Locked(s, id, b);
    GetKeeps(s, b, ByOp(id, false));
    var s2 := DoLogWrite(s1, id, b);
    LogWriteKeeps(s1, id, b);
    ReleaseKeeps(s2, b);
    var t := SetHolder(s2, b, Nobody);
    ReachesSelf(t);
    StepReaches(s2, OpRelease(id, b), t);
    StepReaches(s1, LogWrite(id, b), t);
    StepReaches(s, OpRead(id, b), t);
  }

  lemma AppendEffect(s: State, n: int, id: int, b: int)
    requires Unlocked(s) && id in s.ops && 0 <= b < |s.disk|
    requires |s.lh| == n && b == Data(s.layout, n) && forall i :: 0 <= i < n ==> s.lh[i] == Data(s.layout, i)
    ensures var t := SetHolder(DoLogWrite(Locked(s, id, b), id, b), b, Nobody);
            && Unlocked(t) && t.lh == s.lh + [b] && t.ops == s.ops[id := s.ops[id] + 1]
            && t.layout == s.layout && t.opBound == s.opBound && t.pc == s.pc
  {
    assert b !in s.lh;
  }

  lemma AppendOne(s: State, n: int, id: int) returns (t: State)
    requires Ready(s, n) && n < s.layout.Limit() && id in s.ops && s.ops[id] < s.opBound
    ensures Reaches(s, t) && Ready(t, n + 1) && t.ops == s.ops[id := s.ops[id] + 1]
    ensures t.layout == s.layout && t.opBound == s.opBound
  {
    var b := Data(s.layout, n);
    AppendRun(s, id, b);
    AppendEffect(s, n, id, b);
    t := SetHolder(DoLogWrite(Locked(s, id, b), id, b), b, Nobody);
  }

  /** One operation appends m blocks, or as many as fit. */
  lemma {:induction false} AppendMany(s: State, n: int, id: int, m: int) returns (t: State, k: int)
    requires Ready(s, n) && id in s.ops && 0 <= m <= s.opBound - s.ops[id]
    ensures Reaches(s, t) && Ready(t, k) && id in t.ops && t.ops.Keys == s.ops.Keys
    ensures k == n + m || s.layout.Limit() <= k
    ensures forall i :: i in s.ops && i != id ==> t.ops[i] == s.ops[i]
    ensures t.layout == s.layout && t.opBound == s.opBound
    decreases m
  {
    if m == 0 || s.layout.Limit() <= n {
      t, k := s, n;
      ReachesSelf(s);
    } else {
      var r := AppendOne(s, n, id);
      t, k := AppendMany(r, n + 1, id, m - 1);
      ReachesCompose(s, r, t);
    }
  }

  lemma BeginRuns(s: State, n: int, id: int) returns (t: State)
    requires Ready(s, n) && id !in s.ops && n + (|s.ops| + 1) * MAXOPBLOCKS <= LOGSIZE
    ensures Reaches(s, t) && Ready(t, n) && t.ops == s.ops[id := 0]
    ensures t.layout == s.layout && t.opBound == s.opBound
  {
    BeginKeeps(s, id);
    t := DoBegin(s, id);
    ReachesSelf(t);
    StepReaches(s, BeginOp(id), t);
  }

  /** An operation that leaves another one running does not commit. */
  lemma EndRuns(s: State, n: int, id: int, other: int) returns (t: State)
    requires Ready(s, n) && id in s.ops && other in s.ops && other != id
    ensures Reaches(s, t) && Ready(t, n) && t.ops == s.ops - {id}
    ensures t.layout == s.layout && t.opBound == s.opBound
  {
    assert other in s.ops - {id};
    EmptyMap(s.ops - {id});
    EndKeeps(s, id);
    t := Ended(Leave(s, id));
    ReachesSelf(t);
    StepReaches(s, EndOp(id), t);
  }

  lemma OnlyZeroLeft(ops: map<int, int>, k: int)
    requires ops == map[0 := 0][1 := k]
    ensures ops - {1} == map[0 := 0]
  {
  }

  /** A one-block operation begins, appends and ends while operation 0 runs. */
  lemma ShortOp(s: State, n: int) returns (t: State)
    requires Ready(s, n) && s.ops == map[0 := 0] && 1 <= s.opBound && 0 <= n < MAXOPBLOCKS && n < s.layout.Limit()
    ensures Reaches(s, t) && Ready(t, n + 1) && t.ops == map[0 := 0]
    ensures t.layout == s.layout && t.opBound == s.opBound
  {
    var r := BeginRuns(s, n, 1);
    var u := AppendOne(r, n, 1);
    OnlyZeroLeft(u.ops, u.ops[1]);
    t := EndRuns(u, n + 1, 1, 0);
    ReachesCompose(r, u, t);
    ReachesCompose(s, r, t);
  }

  /** While operation 0 runs, one-block operations come and go until the log holds MAXOPBLOCKS entries. */
  lemma {:induction false} ShortOps(s: State, n: int) returns (t: State, k: int)
    requires Ready(s, n) && s.ops == map[0 := 0] && 1 <= s.opBound && 0 <= n <= MAXOPBLOCKS
    ensures Reaches(s, t) && Ready(t, k) && t.ops == map[0 := 0]
    ensures k == MAXOPBLOCKS || s.layout.Limit() <= k
    ensures t.layout == s.layout && t.opBound == s.opBound
    decreases MAXOPBLOCKS - n
  {
    if n == MAXOPBLOCKS || s.layout.Limit() <= n {
      t, k := s, n;
      ReachesSelf(s);
    } else {
      var r := ShortOp(s, n);
      t, k := ShortOps(r, n + 1);
      ReachesCompose(s, r, t);
    }
  }

  /** From a booted system with operation 0 outstanding, the log fills to the limit if the peak allows. */
  lemma FillsUp(s: State) returns (t: State)
    requires Ready(s, 0) && s.ops == map[0 := 0] && 1 <= s.opBound && s.layout.Limit() <= Peak(s.opBound)
    ensures Reaches(s, t) && 0 in t.ops && t.layout == s.layout && t.layout.Limit() <= |t.lh|
  {
    var a, n := ShortOps(s, 0);
    if s.layout.Limit() <= n {
      t := a;
    } else {
      var b := BeginRuns(a, n, 1);
      var c, k := AppendMany(b, n, 1, s.opBound);
      var d, j := AppendMany(c, k, 0, s.opBound);
      t := d;
      ReachesCompose(b, c, t);
      ReachesCompose(a, b, t);
      ReachesCompose(s, a, t);
    }
  }

  /**
    Exactly when log_write never panics: for a disk with at least LOGSIZE home blocks after the log,
    the panic is unreachable for operations that append at most opBound blocks each if and only if the
    peak stays below log_write's limit.
  */
  lemma LogNeverOverflowsIff(s: State)
    requires Boots(s) && 1 <= s.opBound && Data(s.layout, LOGSIZE) <= s.layout.nblocks
    ensures (forall t :: Reaches(s, t) && t.ops != map[] ==> !LogWritePanics(t))
            <==> Peak(s.opBound) < s.layout.Limit()
  {
    BootInv(s);
    if Peak(s.opBound) < s.layout.Limit() {
      forall t | Reaches(s, t) && t.ops != map[]
        ensures !LogWritePanics(t)
      {
        LogSpaceBound(s, t);
        CommitExcludesOps(s, t);
        EmptyMap(t.ops);
      }
    } else {
      var r := RecoveryRuns(s);
      EmptyMap(r.ops);
      var b := BeginRuns(r, 0, 0);
      var t := FillsUp(b);
      ReachesCompose(r, b, t);
      ReachesCompose(s, r, t);
      assert LogWritePanics(t) && t.ops != map[];
    }
  }

  /** On mkfs's layout nine appends per operation are safe and the promised MAXOPBLOCKS are not. */
  lemma MkfsLogSpace(s: State)
    requires Boots(s) && 1 <= s.opBound && s.layout == MKFS_LAYOUT
    ensures (forall t :: Reaches(s, t) && t.ops != map[] ==> !LogWritePanics(t)) <==> s.opBound < MAXOPBLOCKS
  {
    LogNeverOverflowsIff(s);
  }
}
