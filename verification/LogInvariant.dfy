/**
  What every step of the log protocol keeps.  Each clause names only the parts of the state it
  depends on.
*/
module LogInvariant {
  import opened Disk
  import opened LogProtocol

  // ---------------------------------------------------------------------------------------------
  // The invariant
  // ---------------------------------------------------------------------------------------------

  /** How many entries of lh have been copied home already. */
  function Done(pc: Pc, n: int): int
  {
    match pc
    case Install(t) => t
    case ClearHead => n
    case RecInstall(_) => n
    case RecClear => n
    case _ => 0
  }

  predicate CommitPc(pc: Pc)
  {
    pc.WriteLog? || pc.CommitHead? || pc.Install? || pc.ClearHead? || pc.Finish?
  }

  /** The header on disk names no blocks. */
  predicate QuietPc(pc: Pc)
  {
    pc == Up || pc.WriteLog? || pc == CommitHead || pc == Finish
  }

  /** The header on disk names exactly the blocks of lh. */
  predicate CommittedPc(pc: Pc)
  {
    pc.Install? || pc == ClearHead || pc.RecInstall? || pc == RecClear
  }

  ghost predicate Shape(s: State)
  {
    && s.layout.Valid()
    && |s.disk| == |s.base| == s.layout.nblocks
    && |s.lh| <= s.layout.Limit() && GoodTargets(s.layout, s.lh)
    && 0 <= s.mark <= |s.hist|
    && GoodHeader(s.layout, s.disk[s.layout.start])
  }

  /** A commit runs only while nothing is outstanding, and an idle system has an empty log. */
  ghost predicate PhaseOk(pc: Pc, committing: bool, ops: set<int>, n: int)
  {
    && (committing <==> CommitPc(pc))
    && (pc != Up ==> ops == {})
    && (pc.WriteLog? || pc.Install? || pc.RecInstall? ==> 0 <= pc.tail <= n)
    && (pc == Finish || pc == RecRead || (pc == Up && ops == {}) ==> n == 0)
  }

  /** Clean idle buffers equal the disk; a buffer is dirty only while its block awaits install. */
  ghost predicate Coherent(l: Layout, disk: seq<Block>, cache: map<int, Buf>, waiting: seq<int>, ops: set<int>)
    requires |disk| == l.nblocks
  {
    forall b :: b in cache ==>
      && 0 <= b < l.nblocks
      && (cache[b].holder.ByOp? ==> cache[b].holder.id in ops && l.Home(b))
      && (cache[b].dirty ==> b in waiting)
      && (!cache[b].dirty && !(cache[b].holder.ByOp? && cache[b].holder.touched) ==> cache[b].data == disk[b])
  }

  /** Every block that awaits install is pinned in the cache. */
  ghost predicate Pinned(cache: map<int, Buf>, waiting: seq<int>)
  {
    forall i :: 0 <= i < |waiting| ==> waiting[i] in cache && cache[waiting[i]].dirty
  }

  /** The committed contents `safe` can be rebuilt from `d`: logged blocks from the log, others in place. */
  ghost predicate Holds(l: Layout, d: seq<Block>, safe: seq<Block>)
    requires l.Valid() && |d| == |safe| == l.nblocks && GoodHeader(l, d[l.start])
  {
    var ts := Targets(d[l.start]);
    && (forall i :: 0 <= i < |ts| ==> d[l.LogBlock(i)] == safe[ts[i]])
    && (forall b :: l.Home(b) && b !in ts ==> d[b] == safe[b])
  }

  /** The first k log blocks hold what the cache holds for the blocks they stand for. */
  ghost predicate LogFilled(l: Layout, d: seq<Block>, cache: map<int, Buf>, lh: seq<int>, k: int)
    requires l.Valid() && |d| == l.nblocks && 0 <= k <= |lh| <= l.Limit() && GoodTargets(l, lh)
  {
    forall i :: 0 <= i < k ==> d[l.LogBlock(i)] == Look(cache, d, lh[i])
  }

  /** The first k logged blocks are back in their home places. */
  ghost predicate HomeFilled(l: Layout, d: seq<Block>, lh: seq<int>, k: int, safe: seq<Block>)
    requires |d| == |safe| == l.nblocks && 0 <= k <= |lh| && GoodTargets(l, lh)
  {
    forall i :: 0 <= i < k ==> d[lh[i]] == safe[lh[i]]
  }

  /** The cache over the disk shows exactly `now`. */
  ghost predicate Shows(l: Layout, d: seq<Block>, cache: map<int, Buf>, now: seq<Block>)
    requires |d| == |now| == l.nblocks
  {
    forall b :: l.Home(b) ==> Look(cache, d, b) == now[b]
  }

  function Waiting(s: State): seq<int>
  {
    var k := Done(s.pc, |s.lh|);
    if 0 <= k <= |s.lh| then s.lh[k..] else []
  }

  ghost predicate CacheOk(s: State)
    requires Shape(s)
  {
    && Coherent(s.layout, s.disk, s.cache, Waiting(s), s.ops.Keys)
    && Pinned(s.cache, Waiting(s))
  }

  /** How far commit or recovery has come. */
  ghost predicate Progress(s: State, safe: seq<Block>)
    requires Shape(s) && PhaseOk(s.pc, s.committing, s.ops.Keys, |s.lh|) && |safe| == |s.disk|
  {
    var l, d, k := s.layout, s.disk, |s.lh|;
    match s.pc
    case WriteLog(t) => LogFilled(l, d, s.cache, s.lh, t)
    case CommitHead => LogFilled(l, d, s.cache, s.lh, k)
    case Install(t) => HomeFilled(l, d, s.lh, t, safe)
    case RecInstall(t) => HomeFilled(l, d, s.lh, t, safe)
    case ClearHead => HomeFilled(l, d, s.lh, k, safe)
    case RecClear => HomeFilled(l, d, s.lh, k, safe)
    case _ => true
  }

  ghost predicate DiskOk(s: State)
    requires Shape(s) && PhaseOk(s.pc, s.committing, s.ops.Keys, |s.lh|)
  {
    var h := s.disk[s.layout.start];
    var safe := Replay(s.base, s.hist[..s.mark]);
    && Holds(s.layout, s.disk, safe)
    && (QuietPc(s.pc) ==> Count(h) == 0)
    && (CommittedPc(s.pc) ==> Targets(h) == s.lh)
    && Progress(s, safe)
  }

  /** The cache over the disk shows every write so far; the mark never splits an operation. */
  ghost predicate HistoryOk(s: State)
    requires Shape(s)
  {
    && OpenOps(s.hist) == s.ops.Keys
    && OpenOps(s.hist[..s.mark]) == {}
    && (s.pc == Finish || s.pc == RecRead || CommittedPc(s.pc) ==> s.mark == |s.hist|)
    && (s.pc == Up && s.ops.Keys == {} ==> s.mark == |s.hist|)
    && (Running(s) ==> Shows(s.layout, s.disk, s.cache, Replay(s.base, s.hist)))
  }

  ghost predicate Inv(s: State)
  {
    && Shape(s)
    && PhaseOk(s.pc, s.committing, s.ops.Keys, |s.lh|)
    && CacheOk(s)
    && DiskOk(s)
    && HistoryOk(s)
  }

  // ---------------------------------------------------------------------------------------------
  // Steps of file-system calls and readers
  // ---------------------------------------------------------------------------------------------

  lemma HistoryGrows(hist: seq<Event>, mark: int, e: Event)
    requires 0 <= mark <= |hist|
    ensures (hist + [e])[..mark] == hist[..mark]
    ensures (hist + [e])[..|hist|] == hist
  {
  }

  lemma EmptyMap<K, V>(m: map<K, V>)
    ensures |m| == 0 <==> m.Keys == {}
    ensures |m| == 0 <==> m == map[]
  {
    if |m| == 0 {
      assert |m.Keys| == 0;
      assert m == map[];
    }
  }

  lemma BeginKeeps(s: State, id: int)
    requires Inv(s) && s.pc == Up
    ensures Inv(DoBegin(s, id))
  {
    HistoryGrows(s.hist, s.mark, Begin(id));
    var t := DoBegin(s, id);
    assert t.ops.Keys == s.ops.Keys + {id};
    assert id in t.ops.Keys;
    assert Replay(t.base, t.hist) == Replay(s.base, s.hist);
  }

  /** A step that only moves blocks in and out of the cache or changes locks. */
  lemma CacheStep(s: State, t: State)
    requires Inv(s)
    requires t == s.(cache := t.cache)
    requires CacheOk(t)
    requires forall c :: 0 <= c < |s.disk| ==> Look(t.cache, s.disk, c) == Look(s.cache, s.disk, c)
    ensures Inv(t)
  {
  }

  lemma GetKeeps(s: State, b: int, h: Holder)
    requires Inv(s) && 0 <= b < s.layout.nblocks && Free(s, b)
    requires h == Reader || (h.ByOp? && !h.touched && h.id in s.ops && s.layout.Home(b))
    ensures Inv(Get(s, b, h))
  {
    CacheStep(s, Get(s, b, h));
  }

  lemma ReleaseKeeps(s: State, b: int)
    requires Inv(s) && b in s.cache
    requires s.cache[b].holder.ByOp? ==> !s.cache[b].holder.touched
    ensures Inv(SetHolder(s, b, Nobody))
  {
    ReleaseCache(s, SetHolder(s, b, Nobody), b);
    CacheStep(s, SetHolder(s, b, Nobody));
  }

  lemma ReleaseCache(s: State, t: State, b: int)
    requires Shape(s) && CacheOk(s) && b in s.cache && t == SetHolder(s, b, Nobody)
    requires s.cache[b].holder.ByOp? ==> !s.cache[b].holder.touched
    ensures Shape(t) && CacheOk(t)
  {
    assert Waiting(t) == Waiting(s);
  }

  lemma EvictKeeps(s: State, b: int)
    requires Inv(s) && b in s.cache && s.cache[b].holder == Nobody && !s.cache[b].dirty
    ensures Inv(s.(cache := s.cache - {b}))
  {
    CacheStep(s, s.(cache := s.cache - {b}));
  }

  lemma ModifyKeeps(s: State, id: int, b: int, data: Block)
    requires Inv(s) && s.pc == Up && id in s.ops && s.layout.Home(b) && b in s.cache
    ensures Inv(DoModify(s, id, b, data))
  {
    var t := DoModify(s, id, b, data);
    HistoryGrows(s.hist, s.mark, Write(id, b, data));
    assert Replay(t.base, t.hist) == Replay(s.base, s.hist)[b := data];
  }

  lemma LogWriteShape(s: State, id: int, b: int)
    requires Shape(s) && id in s.ops && s.layout.Home(b) && b in s.cache && |s.lh| < s.layout.Limit()
    ensures Shape(DoLogWrite(s, id, b)) && DoLogWrite(s, id, b).ops.Keys == s.ops.Keys
  {
    assert b !in s.lh ==> forall i :: 0 <= i < |s.lh| ==> s.lh[i] != b;
  }

  lemma LogWriteCache(s: State, id: int, b: int)
    requires Shape(s) && CacheOk(s)
    requires s.pc == Up && id in s.ops && s.layout.Home(b) && b in s.cache
    requires Shape(DoLogWrite(s, id, b))
    ensures CacheOk(DoLogWrite(s, id, b))
    ensures forall now | |now| == |s.disk| && Shows(s.layout, s.disk, s.cache, now) ::
              Shows(s.layout, s.disk, DoLogWrite(s, id, b).cache, now)
  {
    var t := DoLogWrite(s, id, b);
    assert t.ops.Keys == s.ops.Keys;
    assert Waiting(t) == t.lh && Waiting(s) == s.lh;
    assert b in t.lh;
  }

  lemma LogWriteDisk(s: State, id: int, b: int)
    requires Inv(s) && s.pc == Up && id in s.ops && b in s.cache && Shape(DoLogWrite(s, id, b))
    ensures PhaseOk(Up, s.committing, DoLogWrite(s, id, b).ops.Keys, |DoLogWrite(s, id, b).lh|)
      && DiskOk(DoLogWrite(s, id, b))
  {
    assert DoLogWrite(s, id, b).ops.Keys == s.ops.Keys;
  }

  lemma LogWriteKeeps(s: State, id: int, b: int)
    requires Inv(s) && s.pc == Up && id in s.ops && s.layout.Home(b) && b in s.cache
    requires |s.lh| < s.layout.Limit()
    ensures Inv(DoLogWrite(s, id, b))
  {
    var t := DoLogWrite(s, id, b);
    LogWriteShape(s, id, b);
    LogWriteCache(s, id, b);
    LogWriteDisk(s, id, b);
    assert HistoryOk(t);
  }

  /** Leaving keeps everything but the rule that an idle system has an empty log. */
  lemma LeaveKeeps(s: State, id: int)
    requires Inv(s) && s.pc == Up
    requires forall b :: b in s.cache ==> !HeldBy(s, id, b)
    ensures var m := Leave(s, id);
            && Shape(m) && CacheOk(m) && m.pc == Up
            && Holds(m.layout, m.disk, Replay(m.base, m.hist[..m.mark]))
            && Shows(m.layout, m.disk, m.cache, Replay(m.base, m.hist))
            && OpenOps(m.hist) == m.ops.Keys && OpenOps(m.hist[..m.mark]) == {}
  {
    var m := Leave(s, id);
    HistoryGrows(s.hist, s.mark, End(id));
    assert m.ops.Keys == s.ops.Keys - {id};
    forall b | b in s.cache && s.cache[b].holder.ByOp?
      ensures s.cache[b].holder.id in m.ops.Keys
    {
      assert !HeldBy(s, id, b);
    }
    assert Replay(m.base, m.hist) == Replay(s.base, s.hist);
  }

  /** With an empty log every cached home block equals the disk. */
  lemma EmptyLogHolds(m: State)
    requires Shape(m) && CacheOk(m) && m.pc == Up && m.ops.Keys == {} && m.lh == []
    requires Count(m.disk[m.layout.start]) == 0
    requires Shows(m.layout, m.disk, m.cache, Replay(m.base, m.hist))
    ensures Holds(m.layout, m.disk, Replay(m.base, m.hist))
  {
    assert forall b :: m.layout.Home(b) ==> Look(m.cache, m.disk, b) == m.disk[b];
  }

  lemma EndKeeps(s: State, id: int)
    requires Inv(s) && s.pc == Up
    requires forall b :: b in s.cache ==> !HeldBy(s, id, b)
    ensures Inv(Ended(Leave(s, id)))
  {
    var m := Leave(s, id);
    LeaveKeeps(s, id);
    EmptyMap(m.ops);
    assert m.hist[..|m.hist|] == m.hist;
    var t := Ended(m);
    assert Waiting(t) == Waiting(s);
    if |m.ops| == 0 && |m.lh| == 0 {
      EmptyLogHolds(m);
    }
  }

  lemma CrashKeeps(s: State)
    requires Inv(s)
    ensures Inv(DoCrash(s))
  {
    var t := DoCrash(s);
    assert t.hist[..t.mark] == s.hist[..s.mark] == t.hist;
  }

  // ---------------------------------------------------------------------------------------------
  // Commit and recovery, one block write at a time
  // ---------------------------------------------------------------------------------------------

  function Written(cache: map<int, Buf>, b: int, data: Block): map<int, Buf>
  {
    cache[b := Buf(data, false, Nobody)]
  }

  /** Writing a block that is not waiting in the cache keeps the cache coherent. */
  lemma WriteCoherent(l: Layout, d: seq<Block>, cache: map<int, Buf>, waiting: seq<int>, ops: set<int>,
                      b: int, data: Block)
    requires |d| == l.nblocks && 0 <= b < |d| && b !in waiting
    requires Coherent(l, d, cache, waiting, ops) && Pinned(cache, waiting)
    ensures Coherent(l, d[b := data], Written(cache, b, data), waiting, ops)
    ensures Pinned(Written(cache, b, data), waiting)
  {
  }

  lemma WriteLook(d: seq<Block>, cache: map<int, Buf>, b: int, data: Block)
    requires 0 <= b < |d|
    ensures forall c :: 0 <= c < |d| ==>
              Look(Written(cache, b, data), d[b := data], c) == if c == b then data else Look(cache, d, c)
  {
    forall c | 0 <= c < |d|
      ensures Look(Written(cache, b, data), d[b := data], c) == if c == b then data else Look(cache, d, c)
    {
    }
  }

  lemma HoldsAfterLogWrite(l: Layout, d: seq<Block>, safe: seq<Block>, b: int, data: Block)
    requires l.Valid() && |d| == |safe| == l.nblocks && GoodHeader(l, d[l.start]) && Holds(l, d, safe)
    requires Count(d[l.start]) == 0 && 0 <= b < l.nblocks && !l.Home(b) && b != l.start
    ensures Holds(l, d[b := data], safe)
  {
  }

  lemma HoldsAfterInstall(l: Layout, d: seq<Block>, safe: seq<Block>, k: int)
    requires l.Valid() && |d| == |safe| == l.nblocks && GoodHeader(l, d[l.start]) && Holds(l, d, safe)
    requires 0 <= k < Count(d[l.start])
    ensures var b := Targets(d[l.start])[k];
            && d[l.LogBlock(k)] == safe[b]
            && Holds(l, d[b := safe[b]], safe)
  {
  }

  /** Once every logged block is home, erasing the header loses nothing. */
  lemma HoldsAfterErase(l: Layout, d: seq<Block>, safe: seq<Block>, h: Block)
    requires l.Valid() && |d| == |safe| == l.nblocks && GoodHeader(l, d[l.start]) && Holds(l, d, safe)
    requires HomeFilled(l, d, Targets(d[l.start]), Count(d[l.start]), safe)
    requires IsHeader(h) && Targets(h) == []
    ensures Holds(l, d[l.start := h], safe)
    ensures forall b :: l.Home(b) ==> d[b] == safe[b]
  {
    forall b | l.Home(b)
      ensures d[b] == safe[b]
    {
      var ts := Targets(d[l.start]);
      if b in ts {
        var i :| 0 <= i < |ts| && ts[i] == b;
      }
    }
  }

  lemma CopyToLogFills(l: Layout, d: seq<Block>, cache: map<int, Buf>, lh: seq<int>, k: int)
    requires l.Valid() && |d| == l.nblocks && 0 <= k < |lh| <= l.Limit() && GoodTargets(l, lh)
    requires LogFilled(l, d, cache, lh, k)
    ensures var b, data := l.LogBlock(k), Look(cache, d, lh[k]);
            LogFilled(l, d[b := data], Written(cache, b, data), lh, k + 1)
  {
  }

  lemma CopyToLogKeeps(s: State, k: int)
    requires Inv(s) && s.pc == WriteLog(k) && CanCopy(s, k)
    ensures Inv(CopyToLog(s, k))
  {
    var l, b, data := s.layout, s.layout.LogBlock(k), View(s, s.lh[k]);
    var t := CopyToLog(s, k);
    assert !l.Home(b) && b != l.start && b !in s.lh;
    assert Waiting(s) == s.lh == Waiting(t);
    WriteCoherent(l, s.disk, s.cache, s.lh, s.ops.Keys, b, data);
    WriteLook(s.disk, s.cache, b, data);
    HoldsAfterLogWrite(l, s.disk, Replay(s.base, s.hist[..s.mark]), b, data);
    CopyToLogFills(l, s.disk, s.cache, s.lh, k);
    assert Shape(t) && CacheOk(t);
  }

  /** When the header is written, log and cache agree, so the header makes all of `now` permanent. */
  lemma HeadHolds(l: Layout, d: seq<Block>, cache: map<int, Buf>, lh: seq<int>, now: seq<Block>, h: Block)
    requires l.Valid() && |d| == |now| == l.nblocks && |lh| <= l.Limit() && GoodTargets(l, lh)
    requires IsHeader(h) && Targets(h) == lh
    requires LogFilled(l, d, cache, lh, |lh|) && Shows(l, d, cache, now)
    requires Coherent(l, d, cache, lh, {})
    ensures Holds(l, d[l.start := h], now)
  {
    forall b | l.Home(b) && b !in lh
      ensures d[b] == now[b]
    {
      assert Look(cache, d, b) == d[b];
    }
  }

  lemma WriteHeadKeeps(s: State)
    requires Inv(s) && s.pc == CommitHead && CanWriteHead(s)
    ensures Inv(WriteHead(s))
  {
    var l, t := s.layout, WriteHead(s);
    var h := WithTargets(View(s, l.start), s.lh);
    assert Waiting(s) == s.lh == Waiting(t);
    assert !l.Home(l.start) && l.start !in s.lh;
    WriteCoherent(l, s.disk, s.cache, s.lh, s.ops.Keys, l.start, h);
    WriteLook(s.disk, s.cache, l.start, h);
    HeadHolds(l, s.disk, s.cache, s.lh, Replay(s.base, s.hist), h);
    assert t.hist[..t.mark] == s.hist;
    assert Shape(t) && CacheOk(t);
  }

  /** Log blocks are never dirty, so the cache agrees with the disk about them. */
  lemma LogBlockLook(l: Layout, d: seq<Block>, cache: map<int, Buf>, waiting: seq<int>, ops: set<int>, b: int)
    requires |d| == l.nblocks && 0 <= b < |d| && !l.Home(b) && b !in waiting
    requires Coherent(l, d, cache, waiting, ops)
    ensures Look(cache, d, b) == d[b]
  {
  }

  /** The block copied home is the committed one, whether it is read from the cache or from the disk. */
  lemma CopyHomeValue(s: State, k: int, safe: seq<Block>)
    requires Shape(s) && CacheOk(s) && 0 <= k < |s.lh| && |safe| == |s.disk|
    requires Holds(s.layout, s.disk, safe) && Targets(s.disk[s.layout.start]) == s.lh
    ensures View(s, s.layout.LogBlock(k)) == safe[s.lh[k]]
  {
    var l := s.layout;
    assert l.LogBlock(k) !in s.lh;
    LogBlockLook(l, s.disk, s.cache, Waiting(s), s.ops.Keys, l.LogBlock(k));
    HoldsAfterInstall(l, s.disk, safe, k);
  }

  /** What CopyHome does to the disk, in commit and in recovery alike. */
  lemma CopyHomeDisk(s: State, t: State, k: int)
    requires Shape(s) && PhaseOk(s.pc, s.committing, s.ops.Keys, |s.lh|) && DiskOk(s)
    requires 0 <= k < |s.lh| && s.hist[..s.mark] == s.hist
    requires t == Put(s, s.lh[k], Replay(s.base, s.hist)[s.lh[k]]).(pc := t.pc)
    requires (s.pc == Install(k) && t.pc == Install(k + 1)) || (s.pc == RecInstall(k) && t.pc == RecInstall(k + 1))
    ensures Shape(t) && PhaseOk(t.pc, t.committing, t.ops.Keys, |t.lh|) && DiskOk(t)
  {
    var safe := Replay(s.base, s.hist);
    HoldsAfterInstall(s.layout, s.disk, safe, k);
    CopyHomeFills(s.layout, s.disk, s.lh, k, safe);
  }

  lemma CopyHomeFills(l: Layout, d: seq<Block>, lh: seq<int>, k: int, safe: seq<Block>)
    requires |d| == |safe| == l.nblocks && 0 <= k < |lh| && GoodTargets(l, lh)
    requires HomeFilled(l, d, lh, k, safe)
    ensures HomeFilled(l, d[lh[k] := safe[lh[k]]], lh, k + 1, safe)
  {
  }

  lemma UnpinCoherent(l: Layout, d: seq<Block>, cache: map<int, Buf>, lh: seq<int>, k: int, ops: set<int>, data: Block)
    requires |d| == l.nblocks && 0 <= k < |lh| && GoodTargets(l, lh)
    requires Coherent(l, d, cache, lh[k..], ops) && Pinned(cache, lh[k..])
    ensures Coherent(l, d[lh[k] := data], Written(cache, lh[k], data), lh[k + 1..], ops)
    ensures Pinned(Written(cache, lh[k], data), lh[k + 1..])
  {
    assert lh[k..] == [lh[k]] + lh[k + 1..];
    var rest := lh[k + 1..];
    forall i | 0 <= i < |rest|
      ensures rest[i] in cache && cache[rest[i]].dirty && rest[i] != lh[k]
    {
      assert lh[k..][i + 1] == rest[i] == lh[k + 1 + i];
    }
  }

  lemma InstallCache(s: State, t: State, k: int)
    requires Shape(s) && CacheOk(s) && s.pc == Install(k) && CanCopy(s, k) && Shape(t)
      && t == CopyHome(s, k, Install(k + 1))
    ensures CacheOk(t)
  {
    var b, data := s.lh[k], View(s, s.layout.LogBlock(k));
    assert Waiting(s) == s.lh[k..] && Waiting(t) == t.lh[k + 1..];
    UnpinCoherent(s.layout, s.disk, s.cache, s.lh, k, s.ops.Keys, data);
    assert t.disk == s.disk[b := data] && t.cache == Written(s.cache, b, data);
  }

  lemma WriteBackShows(l: Layout, d: seq<Block>, cache: map<int, Buf>, b: int, now: seq<Block>)
    requires |d| == |now| == l.nblocks && l.Home(b) && Shows(l, d, cache, now)
    ensures Shows(l, d[b := now[b]], Written(cache, b, now[b]), now)
  {
    WriteLook(d, cache, b, now[b]);
  }

  lemma InstallHistory(s: State, t: State, k: int)
    requires Shape(s) && HistoryOk(s) && s.pc == Install(k) && CanCopy(s, k) && t == CopyHome(s, k, Install(k + 1))
      && Shape(t)
    requires s.layout.Home(s.lh[k]) && View(s, s.layout.LogBlock(k)) == Replay(s.base, s.hist)[s.lh[k]]
    ensures HistoryOk(t)
  {
    WriteBackShows(s.layout, s.disk, s.cache, s.lh[k], Replay(s.base, s.hist));
  }

  lemma InstallKeeps(s: State, k: int)
    requires Inv(s) && s.pc == Install(k) && CanCopy(s, k)
    ensures Inv(CopyHome(s, k, Install(k + 1)))
  {
    var t := CopyHome(s, k, Install(k + 1));
    assert s.hist[..s.mark] == s.hist;
    CopyHomeValue(s, k, Replay(s.base, s.hist));
    CopyHomeDisk(s, t, k);
    assert s.layout.Home(s.lh[k]);
    InstallCache(s, t, k);
    InstallHistory(s, t, k);
  }

  lemma RecoverInstallKeeps(s: State, k: int)
    requires Inv(s) && s.pc == RecInstall(k) && CanCopy(s, k)
    ensures Inv(CopyHome(s, k, RecInstall(k + 1)))
  {
    var t, b := CopyHome(s, k, RecInstall(k + 1)), s.lh[k];
    assert s.hist[..s.mark] == s.hist;
    CopyHomeValue(s, k, Replay(s.base, s.hist));
    CopyHomeDisk(s, t, k);
    assert Waiting(s) == [] == Waiting(t);
    WriteCoherent(s.layout, s.disk, s.cache, [], s.ops.Keys, b, View(s, s.layout.LogBlock(k)));
    assert CacheOk(t);
  }

  lemma EraseDisk(s: State, t: State)
    requires Shape(s) && PhaseOk(s.pc, s.committing, s.ops.Keys, |s.lh|) && DiskOk(s)
    requires s.pc == ClearHead || s.pc == RecClear
    requires t.layout == s.layout && t.base == s.base && t.hist == s.hist && t.mark == s.mark
    requires |t.disk| == |s.disk|
    requires IsHeader(t.disk[s.layout.start]) && Targets(t.disk[s.layout.start]) == []
    requires t.disk == s.disk[s.layout.start := t.disk[s.layout.start]]
    requires t.pc == Finish || t.pc == Up
    requires Shape(t) && PhaseOk(t.pc, t.committing, t.ops.Keys, |t.lh|)
    ensures DiskOk(t)
    ensures forall b :: s.layout.Home(b) ==> t.disk[b] == Replay(s.base, s.hist[..s.mark])[b]
  {
    HoldsAfterErase(s.layout, s.disk, Replay(s.base, s.hist[..s.mark]), t.disk[s.layout.start]);
  }

  lemma EraseKeeps(s: State, pc: Pc)
    requires Inv(s) && CanWriteHead(s)
    requires (s.pc == ClearHead && pc == Finish) || (s.pc == RecClear && pc == Up)
    ensures Inv(EraseHead(s, pc))
  {
    var l, t := s.layout, EraseHead(s, pc);
    var h := WithTargets(View(s, l.start), []);
    assert s.hist[..s.mark] == s.hist;
    assert Waiting(s) == [] == Waiting(t);
    assert Shape(t);
    EraseDisk(s, t);
    EraseCache(s, t, h);
    EraseShows(l, t.disk, t.cache, Replay(s.base, s.hist));
    EraseHistory(s, t);
  }

  lemma EraseCache(s: State, t: State, h: Block)
    requires Shape(s) && CacheOk(s) && Shape(t) && Waiting(s) == [] == Waiting(t) && s.ops.Keys == t.ops.Keys == {}
    requires t.layout == s.layout && t.disk == Put(s, s.layout.start, h).disk
      && t.cache == Put(s, s.layout.start, h).cache
    ensures CacheOk(t) && Coherent(t.layout, t.disk, t.cache, [], {})
  {
    WriteCoherent(s.layout, s.disk, s.cache, [], {}, s.layout.start, h);
  }

  lemma EraseHistory(s: State, t: State)
    requires Shape(s) && HistoryOk(s) && Shape(t) && s.ops.Keys == t.ops.Keys == {} && s.mark == |s.hist|
    requires t.hist == s.hist && t.mark == s.mark && t.base == s.base && t.layout == s.layout
    requires Shows(t.layout, t.disk, t.cache, Replay(t.base, t.hist))
    ensures HistoryOk(t)
  {
  }

  lemma EraseShows(l: Layout, d: seq<Block>, cache: map<int, Buf>, safe: seq<Block>)
    requires |d| == |safe| == l.nblocks && Coherent(l, d, cache, [], {})
    requires forall b :: l.Home(b) ==> d[b] == safe[b]
    ensures Shows(l, d, cache, safe)
  {
  }

  lemma ReadHeadKeeps(s: State)
    requires Inv(s) && s.pc == RecRead && RecoverEnabled(s)
    ensures Inv(RecoverNext(s))
  {
    var t := RecoverNext(s);
    LogBlockLook(s.layout, s.disk, s.cache, Waiting(s), s.ops.Keys, s.layout.start);
    assert Waiting(s) == [] == Waiting(t);
  }

  lemma LogCopied(s: State)
    requires Inv(s) && s.pc == WriteLog(|s.lh|)
    ensures Inv(s.(pc := CommitHead))
  {
  }

  lemma HomeCopied(s: State)
    requires Inv(s) && s.pc == Install(|s.lh|)
    ensures Inv(s.(pc := ClearHead))
  {
  }

  lemma CommitDone(s: State)
    requires Inv(s) && s.pc == Finish
    ensures Inv(s.(pc := Up, committing := false))
  {
  }

  lemma CommitKeeps(s: State)
    requires Inv(s) && CommitEnabled(s)
    ensures Inv(CommitNext(s))
  {
    match s.pc
    case WriteLog(t) => if t < |s.lh| { CopyToLogKeeps(s, t); } else { LogCopied(s); }
    case CommitHead => WriteHeadKeeps(s);
    case Install(t) => if t < |s.lh| { InstallKeeps(s, t); } else { HomeCopied(s); }
    case ClearHead => EraseKeeps(s, Finish);
    case Finish => CommitDone(s);
    case _ =>
  }

  lemma RecoverCopied(s: State)
    requires Inv(s) && s.pc == RecInstall(|s.lh|)
    ensures Inv(s.(pc := RecClear))
  {
    var t := s.(pc := RecClear);
    assert Waiting(s) == [] == Waiting(t);
    assert CacheOk(t) && HistoryOk(t);
  }

  lemma RecoverInstallNext(s: State)
    requires Inv(s) && RecoverEnabled(s) && s.pc.RecInstall?
    ensures Inv(RecoverNext(s))
  {
    if s.pc.tail < |s.lh| {
      RecoverInstallKeeps(s, s.pc.tail);
    } else {
      RecoverCopied(s);
    }
  }

  lemma RecoverClearNext(s: State)
    requires Inv(s) && RecoverEnabled(s) && s.pc == RecClear
    ensures Inv(RecoverNext(s))
  {
    EraseKeeps(s, Up);
  }

  lemma RecoverKeeps(s: State)
    requires Inv(s) && RecoverEnabled(s)
    ensures Inv(RecoverNext(s))
  {
    match s.pc
    case RecRead => ReadHeadKeeps(s);
    case RecInstall(_) => RecoverInstallNext(s);
    case RecClear => RecoverClearNext(s);
    case _ =>
  }

  lemma StepKeeps(s: State, step: Step)
    requires Inv(s) && Enabled(s, step)
    ensures Inv(Next(s, step))
  {
    EmptyMap(s.ops);
    match step
    case BeginOp(id) => BeginKeeps(s, id);
    case OpRead(id, b) => GetKeeps(s, b, ByOp(id, false));
    case OpModify(id, b, data) => ModifyKeeps(s, id, b, data);
    case LogWrite(id, b) => LogWriteKeeps(s, id, b);
    case OpRelease(id, b) => ReleaseKeeps(s, b);
    case EndOp(id) => EndKeeps(s, id);
    case ReaderGet(b) => GetKeeps(s, b, Reader);
    case ReaderRelease(b) => ReleaseKeeps(s, b);
    case Evict(b) => EvictKeeps(s, b);
    case CommitStep => CommitKeeps(s);
    case Crash => CrashKeeps(s);
    case RecoverStep => RecoverKeeps(s);
  }
}
