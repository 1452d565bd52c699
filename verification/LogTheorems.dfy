/**
  Theorems about whole runs of the log: crash atomicity, which operations are committed together, and what
  recovery rebuilds.
*/
module LogTheorems {
  import opened Disk
  import opened LogProtocol
  import opened LogInvariant

  /** The kernel boots from any image whose log header is well formed (mkfs's, or one left by a crash). */
  ghost predicate Boots(s: State)
  {
    && s.layout.Valid() && |s.disk| == s.layout.nblocks && GoodHeader(s.layout, s.disk[s.layout.start])
    && s.base == Recovered(s.layout, s.disk)
    && s.cache == map[] && s.lh == [] && !s.committing && s.ops == map[] && s.pc == RecRead
    && s.hist == [] && s.mark == 0
  }

  ghost predicate Runs(s: State, steps: seq<Step>, t: State)
    decreases |steps|
  {
    if steps == [] then s == t
    else
      && s.layout.Valid() && |s.disk| == s.layout.nblocks
      && Enabled(s, steps[0]) && Runs(Next(s, steps[0]), steps[1..], t)
  }

  ghost predicate Reaches(s: State, t: State)
  {
    exists steps :: Runs(s, steps, t)
  }

  lemma RecoveredHolds(l: Layout, d: seq<Block>)
    requires l.Valid() && |d| == l.nblocks && GoodHeader(l, d[l.start])
    ensures Holds(l, d, Recovered(l, d))
  {
    var ts := Targets(d[l.start]);
    forall b | l.Home(b)
      ensures b !in ts ==> Recovered(l, d)[b] == d[b]
      ensures forall i :: 0 <= i < |ts| && ts[i] == b ==> Recovered(l, d)[b] == d[l.LogBlock(i)]
    {
      InstalledAt(l, d, ts, |ts|, b);
      assert ts[..|ts|] == ts;
    }
  }

  /** Conversely, recovery rebuilds whatever the disk holds. */
  lemma HoldsRecovers(l: Layout, d: seq<Block>, safe: seq<Block>)
    requires l.Valid() && |d| == |safe| == l.nblocks && GoodHeader(l, d[l.start]) && Holds(l, d, safe)
    ensures SameHome(l, Recovered(l, d), safe)
  {
    var ts := Targets(d[l.start]);
    forall b | l.Home(b)
      ensures Recovered(l, d)[b] == safe[b]
    {
      InstalledAt(l, d, ts, |ts|, b);
      assert ts[..|ts|] == ts;
      if b in ts {
        var i :| 0 <= i < |ts| && ts[i] == b;
        assert d[l.LogBlock(i)] == safe[b];
      }
    }
  }

  lemma BootInv(s: State)
    requires Boots(s)
    ensures Inv(s)
  {
    RecoveredHolds(s.layout, s.disk);
    assert s.hist[..s.mark] == [];
  }

  lemma {:induction false} RunsKeep(s: State, steps: seq<Step>, t: State)
    requires Inv(s) && Runs(s, steps, t)
    ensures Inv(t)
    decreases |steps|
  {
    if steps != [] {
      StepKeeps(s, steps[0]);
      RunsKeep(Next(s, steps[0]), steps[1..], t);
    }
  }

  lemma ReachableInv(s: State, t: State)
    requires Boots(s) && Reaches(s, t)
    ensures Inv(t)
  {
    BootInv(s);
    var steps :| Runs(s, steps, t);
    RunsKeep(s, steps, t);
  }

  /**
    Crash atomicity.  Whenever power fails, in any interleaving and also during recovery itself,
    recovery yields exactly the writes of a prefix of the history in which no operation is cut in two.
  */
  lemma CrashAtomicity(s: State, t: State)
    requires Boots(s) && Reaches(s, t)
    ensures t.layout.Valid() && |t.disk| == |t.base| == t.layout.nblocks
    ensures GoodHeader(t.layout, t.disk[t.layout.start]) && 0 <= t.mark <= |t.hist|
    ensures SameHome(t.layout, Recovered(t.layout, t.disk), Replay(t.base, t.hist[..t.mark]))
    ensures OpenOps(t.hist[..t.mark]) == {}
  {
    ReachableInv(s, t);
    HoldsRecovers(t.layout, t.disk, Replay(t.base, t.hist[..t.mark]));
  }

  /** When the system is idle everything any operation did is already safe. */
  lemma IdleIsDurable(s: State, t: State)
    requires Boots(s) && Reaches(s, t) && t.pc == Up && t.ops == map[]
    ensures t.layout.Valid() && |t.disk| == |t.base| == t.layout.nblocks
    ensures t.mark == |t.hist| && t.lh == []
    ensures SameHome(t.layout, t.disk, Replay(t.base, t.hist))
  {
    ReachableInv(s, t);
    assert t.hist[..t.mark] == t.hist;
  }

  /** The only step that changes what a crash would leave behind is the header write (or an empty commit). */
  lemma OnlyHeaderWriteCommits(s: State, t: State, step: Step)
    requires Boots(s) && Reaches(s, t)
    requires t.layout.Valid() && |t.disk| == t.layout.nblocks && Enabled(t, step)
    requires var n := Next(t, step);
             0 <= t.mark <= |t.hist| && 0 <= n.mark <= |n.hist| && n.hist[..n.mark] != t.hist[..t.mark]
    ensures (step == CommitStep && t.pc == CommitHead) || (step.EndOp? && t.lh == [] && t.ops.Keys == {step.id})
  {
    ReachableInv(s, t);
    if step.EndOp? {
      EmptyMap(Leave(t, step.id).ops);
      assert Leave(t, step.id).ops.Keys == t.ops.Keys - {step.id};
    }
  }

  /**
    Transaction integrity: a commit never overlaps an operation, so end_op cannot find
    log.committing set and log_write never changes the log under a commit.
  */
  lemma CommitExcludesOps(s: State, t: State)
    requires Boots(s) && Reaches(s, t)
    ensures t.committing ==> |t.ops| == 0
    ensures t.ops != map[] ==> !t.committing && t.pc == Up
    ensures t.pc == Up && |t.ops| == 0 ==> t.lh == []
  {
    ReachableInv(s, t);
    EmptyMap(t.ops);
  }

  /** What write_log copies is the modified data: the block is pinned in the cache until installed. */
  lemma WriteLogReadsModifiedData(s: State, t: State, i: int)
    requires Boots(s) && Reaches(s, t) && (t.pc == Up || t.pc.WriteLog? || t.pc == CommitHead) && 0 <= i < |t.lh|
    ensures t.lh[i] in t.cache && t.cache[t.lh[i]].dirty
    ensures 0 <= t.lh[i] < |t.base| && t.cache[t.lh[i]].data == Replay(t.base, t.hist)[t.lh[i]]
  {
    ReachableInv(s, t);
    assert Waiting(t) == t.lh;
    assert Look(t.cache, t.disk, t.lh[i]) == Replay(t.base, t.hist)[t.lh[i]];
  }

  // ---------------------------------------------------------------------------------------------
  // No operation is ever half committed
  // ---------------------------------------------------------------------------------------------

  /** In the history of a run an operation writes only between its begin and its end. */
  ghost predicate Bracketed(hist: seq<Event>)
  {
    forall i :: 0 <= i < |hist| ==>
      match hist[i]
      case Begin(id) => id !in OpenOps(hist[..i])
      case Write(id, _, _) => id in OpenOps(hist[..i])
      case End(id) => id in OpenOps(hist[..i])
  }

  lemma BracketedGrows(hist: seq<Event>, e: Event)
    requires Bracketed(hist)
    requires match e
             case Begin(id) => id !in OpenOps(hist)
             case Write(id, _, _) => id in OpenOps(hist)
             case End(id) => id in OpenOps(hist)
    ensures Bracketed(hist + [e])
  {
    forall i | 0 <= i <= |hist|
      ensures (hist + [e])[..i] == hist[..i]
    {
    }
    assert hist[..|hist|] == hist;
  }

  lemma BracketedPrefix(hist: seq<Event>, k: int)
    requires Bracketed(hist) && 0 <= k <= |hist|
    ensures Bracketed(hist[..k])
  {
    assert forall i :: 0 <= i < k ==> hist[..k][..i] == hist[..i];
  }

  lemma StepBrackets(s: State, step: Step)
    requires Inv(s) && Enabled(s, step) && Bracketed(s.hist)
    ensures Bracketed(Next(s, step).hist)
  {
    match step
    case BeginOp(id) => BracketedGrows(s.hist, Begin(id));
    case OpModify(id, b, data) => BracketedGrows(s.hist, Write(id, b, data));
    case EndOp(id) => BracketedGrows(s.hist, End(id));
    case Crash => BracketedPrefix(s.hist, s.mark);
    case _ =>
  }

  lemma {:induction false} RunsBracket(s: State, steps: seq<Step>, t: State)
    requires Inv(s) && Bracketed(s.hist) && Runs(s, steps, t)
    ensures Bracketed(t.hist)
    decreases |steps|
  {
    if steps != [] {
      StepKeeps(s, steps[0]);
      StepBrackets(s, steps[0]);
      RunsBracket(Next(s, steps[0]), steps[1..], t);
    }
  }

  /** Between position i and a later position j where id is no longer open there is an End(id). */
  lemma {:induction false} OpenUntilEnd(hist: seq<Event>, id: int, i: int, j: int)
    requires 0 <= i <= j <= |hist| && id in OpenOps(hist[..i]) && id !in OpenOps(hist[..j])
    ensures exists k :: i <= k < j && hist[k] == End(id)
    decreases j - i
  {
    assert hist[..i + 1][..i] == hist[..i];
    if hist[i] != End(id) {
      assert id in OpenOps(hist[..i + 1]);
      OpenUntilEnd(hist, id, i + 1, j);
    }
  }

  /**
    Every operation falls in exactly one commit: for a write at position i whose operation ends at
    position k, the write is committed if and only if the end is.
  */
  lemma CommittedTogether(s: State, t: State, i: int, k: int)
    requires Boots(s) && Reaches(s, t)
    requires 0 <= i < k < |t.hist| && t.hist[i].Write? && t.hist[k] == End(t.hist[i].id)
    requires forall j :: i < j < k ==> t.hist[j] != t.hist[k]
    ensures i < t.mark <==> k < t.mark
  {
    BootInv(s);
    var steps :| Runs(s, steps, t);
    RunsBracket(s, steps, t);
    RunsKeep(s, steps, t);
    var id := t.hist[i].id;
    if i < t.mark {
      OpenUntilEnd(t.hist, id, i, t.mark);
    }
  }

  /** A write of an operation that has not ended is not committed. */
  lemma UnfinishedIsNotCommitted(s: State, t: State, i: int)
    requires Boots(s) && Reaches(s, t)
    requires 0 <= i < |t.hist| && t.hist[i].Write? && forall j :: i < j < |t.hist| ==> t.hist[j] != End(t.hist[i].id)
    ensures t.mark <= i
  {
    BootInv(s);
    var steps :| Runs(s, steps, t);
    RunsBracket(s, steps, t);
    RunsKeep(s, steps, t);
    if i < t.mark {
      OpenUntilEnd(t.hist, t.hist[i].id, i, t.mark);
    }
  }

  // ---------------------------------------------------------------------------------------------
  // Recovery finishes, and repeating or interrupting it changes nothing
  // ---------------------------------------------------------------------------------------------

  lemma StepReaches(s: State, step: Step, t: State)
    requires s.layout.Valid() && |s.disk| == s.layout.nblocks && Enabled(s, step) && Reaches(Next(s, step), t)
    ensures Reaches(s, t)
  {
    var steps :| Runs(Next(s, step), steps, t);
    assert ([step] + steps)[1..] == steps;
    assert Runs(s, [step] + steps, t);
  }

  lemma ReachesSelf(s: State)
    ensures Reaches(s, s)
  {
    assert Runs(s, [], s);
  }

  ghost predicate Unlocked(s: State)
  {
    forall b :: b in s.cache ==> s.cache[b].holder == Nobody
  }

  /** Recovery never gets stuck. */
  lemma RecoveryEnabled(s: State)
    requires Inv(s) && Unlocked(s) && !Running(s)
    ensures RecoverEnabled(s)
    ensures Unlocked(RecoverNext(s))
  {
    if s.pc.RecInstall? {
      assert s.pc.tail < |s.lh| ==> s.layout.Home(s.lh[s.pc.tail]);
    } else {
      LogBlockLook(s.layout, s.disk, s.cache, Waiting(s), s.ops.Keys, s.layout.start);
    }
  }

  /** How many recovery steps remain. */
  function Remaining(s: State): int
  {
    match s.pc
    case RecRead => LOGSIZE + 5
    case RecInstall(k) => |s.lh| - k + 2
    case RecClear => 1
    case _ => 0
  }

  lemma {:induction false} RecoveryRuns(s: State) returns (t: State)
    requires Inv(s) && Unlocked(s) && !Running(s)
    ensures Reaches(s, t) && Inv(t) && t.pc == Up && t.ops == map[]
    ensures t.base == s.base && t.hist == s.hist && t.layout == s.layout && t.opBound == s.opBound
    ensures Unlocked(t)
    decreases Remaining(s)
  {
    RecoveryEnabled(s);
    RecoverKeeps(s);
    var next := RecoverNext(s);
    if next.pc == Up {
      t := next;
      ReachesSelf(t);
    } else {
      t := RecoveryRuns(next);
    }
    StepReaches(s, RecoverStep, t);
  }

  /** From any reachable state, a crash followed by uninterrupted recovery brings the committed state back. */
  lemma RecoveryCompletes(s0: State, s: State) returns (t: State)
    requires Boots(s0) && Reaches(s0, s)
    ensures Reaches(DoCrash(s), t) && t.pc == Up && t.ops == map[] && t.layout == s.layout
    ensures t.layout.Valid() && |t.disk| == |t.base| == t.layout.nblocks && 0 <= s.mark <= |s.hist|
    ensures SameHome(t.layout, t.disk, Replay(t.base, s.hist[..s.mark])) && t.base == s.base
  {
    ReachableInv(s0, s);
    CrashKeeps(s);
    t := RecoveryRuns(DoCrash(s));
    assert t.hist[..t.mark] == t.hist == s.hist[..s.mark];
  }

  /** A recovery cut short after any number of installs is recovered to the same contents. */
  lemma RecoveryRestarts(l: Layout, d: seq<Block>, k: int)
    requires l.Valid() && |d| == l.nblocks && GoodHeader(l, d[l.start]) && 0 <= k <= Count(d[l.start])
    ensures var e := Installed(l, d, Targets(d[l.start]), k);
            && e[l.start] == d[l.start]
            && SameHome(l, Recovered(l, e), Recovered(l, d))
    ensures SameHome(l, Recovered(l, Recovered(l, d)), Recovered(l, d))
  {
    var ts := Targets(d[l.start]);
    var e, r := Installed(l, d, ts, k), Recovered(l, d);
    forall b | 0 <= b < |d|
      ensures b !in ts[..k] ==> e[b] == d[b]
      ensures forall i :: 0 <= i < k && ts[i] == b ==> e[b] == d[l.LogBlock(i)]
    {
      InstalledAt(l, d, ts, k, b);
    }
    assert l.start !in ts[..k];
    RecoveredHolds(l, d);
    forall i | 0 <= i < |ts|
      ensures e[l.LogBlock(i)] == r[ts[i]]
    {
      assert l.LogBlock(i) !in ts[..k];
    }
    forall b | l.Home(b) && b !in ts
      ensures e[b] == r[b]
    {
      assert b !in ts[..k];
    }
    HoldsRecovers(l, e, r);
    HoldsRecovers(l, r, r);
  }
}
