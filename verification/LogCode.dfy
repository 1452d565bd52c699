/**
  The loops of log.c themselves: the in-memory header, the block copies of write_log and
  install_trans, the header reader and writer, commit, recovery and log_write's absorption scan.
  `seen` records the disk after every single block write, that is, everything a crash could leave.
*/
module LogCode {
  import opened Disk
  import opened LogProtocol
  import opened LogInvariant
  import opened LogTheorems

  class Log {
    const layout: Layout
    var disk: seq<Block>
    var cache: map<int, Buf>
    var n: int
    var block: array<int>
    var outstanding: int
    var committing: bool
    ghost var seen: seq<seq<Block>>

    ghost predicate Valid()
      reads this, block
    {
      && layout.Valid() && |disk| == layout.nblocks
      && block.Length == LOGSIZE && 0 <= n <= layout.Limit()
      && GoodTargets(layout, block[..n])
      && GoodHeader(layout, disk[layout.start])
    }

    /** Clean buffers equal the disk, and the blocks in `waiting` are pinned dirty. */
    ghost predicate CacheValid(waiting: seq<int>)
      reads this
      requires |disk| == layout.nblocks
    {
      Coherent(layout, disk, cache, waiting, {}) && Pinned(cache, waiting)
    }

    method Bread(b: int) returns (data: Block)
      requires 0 <= b < |disk|
      ensures data == Look(cache, disk, b)
    {
      data := if b in cache then cache[b].data else disk[b];
    }

    method Bwrite(b: int, data: Block)
      requires 0 <= b < |disk|
      modifies `disk, `cache, `seen
      ensures disk == old(disk)[b := data] && cache == Written(old(cache), b, data)
      ensures seen == old(seen) + [disk]
    {
      disk := disk[b := data];
      cache := cache[b := Buf(data, false, Nobody)];
      seen := seen + [disk];
    }

    /** log.c:176-190.  Only log blocks change, so every intermediate disk still holds `safe`. */
    method WriteLog(ghost safe: seq<Block>)
      requires Valid() && CacheValid(block[..n])
      requires |safe| == |disk| && Holds(layout, disk, safe) && Count(disk[layout.start]) == 0
      modifies `disk, `cache, `seen
      ensures Valid() && CacheValid(block[..n])
      ensures LogFilled(layout, disk, cache, block[..n], n)
      ensures forall b :: layout.Home(b) ==> Look(cache, disk, b) == Look(old(cache), old(disk), b)
      ensures disk[layout.start] == old(disk)[layout.start] && Holds(layout, disk, safe)
      ensures |old(seen)| <= |seen| && seen[..|old(seen)|] == old(seen)
      ensures AllLeave(layout, seen[|old(seen)|..], safe)
    {
      ghost var lh := block[..n];
      var tail := 0;
      while tail < n
        invariant 0 <= tail <= n
        invariant Valid() && CacheValid(lh) && lh == block[..n]
        invariant LogFilled(layout, disk, cache, lh, tail)
        invariant forall b :: layout.Home(b) ==> Look(cache, disk, b) == Look(old(cache), old(disk), b)
        invariant disk[layout.start] == old(disk)[layout.start] && Holds(layout, disk, safe)
        invariant |old(seen)| <= |seen| && seen[..|old(seen)|] == old(seen)
        invariant AllLeave(layout, seen[|old(seen)|..], safe)
      {
        var from := Bread(block[tail]);
        ghost var d, c := disk, cache;
        assert lh[tail] == block[tail];
        assert layout.LogBlock(tail) !in lh;
        HoldsAfterLogWrite(layout, d, safe, layout.LogBlock(tail), from);
        WriteCoherent(layout, d, c, lh, {}, layout.LogBlock(tail), from);
        WriteLook(d, c, layout.LogBlock(tail), from);
        CopyToLogFills(layout, d, c, lh, tail);
        ghost var was := seen;
        Bwrite(layout.LogBlock(tail), from);
        HoldsRecovers(layout, disk, safe);
        AllLeaveGrows(layout, was, |old(seen)|, disk, safe);
        tail := tail + 1;
      }
    }

    /** log.c:101-113, with its word-by-word copy of the block numbers. */
    method WriteHead(ghost waiting: seq<int>)
      requires Valid() && CacheValid(waiting) && layout.start !in waiting
      modifies `disk, `cache, `seen
      ensures |disk| == |old(disk)| && IsHeader(disk[layout.start]) && Targets(disk[layout.start]) == block[..n]
      ensures disk == old(disk)[layout.start := disk[layout.start]]
      ensures cache == Written(old(cache), layout.start, disk[layout.start])
      ensures seen == old(seen) + [disk]
    {
      var buf := Bread(layout.start);
      LogBlockLook(layout, disk, cache, waiting, {}, layout.start);
      var w := buf.w[0 := n];
      var i := 0;
      while i < n
        invariant 0 <= i <= n && |w| == WORDS && w[0] == n
        invariant w[1..1 + i] == block[..i]
      {
        w := w[1 + i := block[i]];
        assert w[1..1 + (i + 1)] == w[1..1 + i] + [block[i]];
        i := i + 1;
      }
      Bwrite(layout.start, Block(w));
    }

    /** log.c:75-80: one log block copied home. */
    method InstallOne(tail: int, ghost lh: seq<int>, ghost safe: seq<Block>, ghost booted: bool)
      requires 0 <= tail < |lh| && tail < block.Length && block[tail] == lh[tail]
      requires Installing(layout, disk, cache, lh, booted, tail, safe)
      modifies `disk, `cache, `seen
      ensures Installing(layout, disk, cache, lh, booted, tail + 1, safe)
      ensures disk[layout.start] == old(disk[layout.start])
      ensures seen == old(seen) + [disk] && Leaves(layout, disk, safe)
    {
      var lbuf := Bread(layout.LogBlock(tail));
      InstallStep(layout, disk, cache, lh, booted, tail, safe);
      Bwrite(block[tail], lbuf);
    }

    /** log.c:69-82.  Every intermediate disk still recovers to `safe`. */
    method InstallTrans(ghost safe: seq<Block>, ghost booted: bool)
      requires 0 <= n <= block.Length && Installing(layout, disk, cache, block[..n], booted, 0, safe)
      modifies `disk, `cache, `seen
      ensures Installing(layout, disk, cache, block[..n], booted, n, safe)
      ensures |old(seen)| <= |seen| && seen[..|old(seen)|] == old(seen)
      ensures AllLeave(layout, seen[|old(seen)|..], safe)
    {
      ghost var lh := block[..n];
      ghost var more: seq<seq<Block>> := [];
      var tail := 0;
      while tail < n
        invariant 0 <= tail <= n
        invariant Installing(layout, disk, cache, lh, booted, tail, safe)
        invariant seen == old(seen) + more && AllLeave(layout, more, safe)
      {
        InstallOne(tail, lh, safe, booted);
        Associative(old(seen), more, [disk]);
        AllLeaveGrows(layout, more, 0, disk, safe);
        more := more + [disk];
        tail := tail + 1;
      }
      assert seen[|old(seen)|..] == more;
    }

    /** log.lh.n = 0 followed by write_head, once every block is home (log.c:120-121, log.c:199-200). */
    method Erase(ghost safe: seq<Block>, ghost booted: bool)
      requires Valid() && Installing(layout, disk, cache, block[..n], booted, n, safe)
      modifies `disk, `cache, `seen, `n
      ensures Valid() && CacheValid([]) && n == 0 && Count(disk[layout.start]) == 0
      ensures |safe| == |disk| && SameHome(layout, disk, safe)
      ensures seen == old(seen) + [disk] && Leaves(layout, disk, safe)
    {
      ghost var d, c := disk, cache;
      assert Rest(block[..n], booted, n) == [];
      n := 0;
      WriteHead([]);
      HoldsAfterErase(layout, d, safe, disk[layout.start]);
      WriteCoherent(layout, d, c, [], {}, layout.start, disk[layout.start]);
      HoldsRecovers(layout, disk, safe);
    }

    /**
      log.c:192-202.  A crash after any of its block writes recovers to the contents before the
      transaction or to all of them: there is one write, the header's, at which it switches.
    */
    method Commit(ghost safe: seq<Block>, ghost now: seq<Block>)
      requires Valid() && CacheValid(block[..n]) && Count(disk[layout.start]) == 0
      requires |safe| == |now| == |disk| && Holds(layout, disk, safe) && Shows(layout, disk, cache, now)
      modifies `disk, `cache, `seen, `n
      ensures Valid() && CacheValid([]) && n == 0 && Count(disk[layout.start]) == 0
      ensures SameHome(layout, disk, now)
      ensures |old(seen)| <= |seen| && seen[..|old(seen)|] == old(seen)
      ensures exists k :: |old(seen)| <= k <= |seen| && Switches(layout, seen, |old(seen)|, k, safe, now)
    {
      ghost var first := |seen|;
      if n > 0 {
        WriteLog(safe);
        ghost var logged := seen;
        ghost var d, c, lh := disk, cache, block[..n];
        assert Shows(layout, d, c, now);
        WriteHead(lh);
        HeadHolds(layout, d, c, lh, now, disk[layout.start]);
        WriteCoherent(layout, d, c, lh, {}, layout.start, disk[layout.start]);
        HoldsRecovers(layout, disk, now);
        assert Rest(lh, false, 0) == lh;
        ghost var head := disk;
        InstallTrans(now, false);
        ghost var installed := seen;
        Erase(now, false);
        SwitchesAt(layout, first, logged, head, installed, disk, safe, now);
      } else {
        assert block[..n] == [];
        assert forall b :: layout.Home(b) ==> Look(cache, disk, b) == disk[b];
        assert Switches(layout, seen, first, first, safe, now);
      }
    }

    /** log.c:84-96. */
    method ReadHead()
      requires layout.Valid() && |disk| == layout.nblocks && GoodHeader(layout, disk[layout.start])
      requires block.Length == LOGSIZE && CacheValid([])
      modifies `n, block
      ensures Valid() && block[..n] == Targets(disk[layout.start])
    {
      var buf := Bread(layout.start);
      LogBlockLook(layout, disk, cache, [], {}, layout.start);
      n := buf.w[0];
      var i := 0;
      while i < n
        invariant 0 <= i <= n && n == Count(disk[layout.start])
        invariant block[..i] == disk[layout.start].w[1..1 + i]
      {
        block[i] := buf.w[1 + i];
        i := i + 1;
      }
    }

    /** log.c:115-122, run at boot on whatever a crash left. */
    method RecoverFromLog()
      requires layout.Valid() && |disk| == layout.nblocks && GoodHeader(layout, disk[layout.start])
      requires block.Length == LOGSIZE && cache == map[]
      modifies `disk, `cache, `seen, `n, block
      ensures Valid() && CacheValid([]) && n == 0 && Count(disk[layout.start]) == 0
      ensures |disk| == |old(disk)| && SameHome(layout, disk, Recovered(layout, old(disk)))
      ensures |old(seen)| <= |seen| && seen[..|old(seen)|] == old(seen)
      ensures AllLeave(layout, seen[|old(seen)|..], Recovered(layout, old(disk)))
    {
      ghost var safe := Recovered(layout, disk);
      RecoveredHolds(layout, disk);
      ReadHead();
      assert Rest(block[..n], true, 0) == [];
      InstallTrans(safe, true);
      ghost var installed := seen;
      Erase(safe, true);
      AllLeaveGrows(layout, installed, |old(seen)|, disk, safe);
    }

    /** log.c:53-66: boot on whatever a crash left.  No operation is outstanding. */
    constructor (l: Layout, image: seq<Block>)
      requires l.Valid() && |image| == l.nblocks && GoodHeader(l, image[l.start])
      ensures Valid() && CacheValid([]) && n == 0 && Count(disk[layout.start]) == 0 && layout == l && fresh(block)
      ensures |disk| == |image| && SameHome(l, disk, Recovered(l, image)) && AllLeave(l, seen, Recovered(l, image))
      ensures outstanding == 0 && !committing
    {
      layout, disk, cache, n, outstanding, committing := l, image, map[], 0, 0, false;
      block := new int[LOGSIZE];
      seen := [];
      new;
      RecoverFromLog();
      assert seen[0..] == seen;
    }

    /** The header and the counters are those of a state of the protocol. */
    ghost predicate Tracks(s: State)
      reads this, block
    {
      && 0 <= n <= block.Length && s.lh == block[..n]
      && s.committing == committing && |s.ops| == outstanding
    }

    /** log.c:126-142, one turn of the loop: operation id starts exactly if the protocol admits it. */
    method BeginOp(ghost s: State, ghost id: int) returns (slept: bool)
      requires Tracks(s) && id !in s.ops
      modifies `outstanding
      ensures slept <==> !Admits(s)
      ensures Tracks(if slept then s else DoBegin(s, id))
      ensures slept <==> committing || n + (old(outstanding) + 1) * 10 > 30
      ensures outstanding == if slept then old(outstanding) else old(outstanding) + 1
    {
      if committing {
        return true;
      }
      if n + (outstanding + 1) * MAXOPBLOCKS > LOGSIZE {
        return true;
      }
      outstanding := outstanding + 1;
      return false;
    }

    /**
      log.c:146-175 by a single process.  The last operation to end commits them all: a crash at any of its block
      writes leaves all or nothing of them.  Earlier ends write nothing.
    */
    method EndOp(ghost safe: seq<Block>, ghost now: seq<Block>) returns (panicked: bool)
      requires Valid() && CacheValid(block[..n]) && Count(disk[layout.start]) == 0 && outstanding >= 1
      requires |safe| == |now| == |disk| && Holds(layout, disk, safe) && Shows(layout, disk, cache, now)
      modifies `disk, `cache, `seen, `n, `outstanding, `committing
      ensures panicked <==> old(committing)
      ensures outstanding == old(outstanding) - 1
      ensures !panicked ==> Valid() && Count(disk[layout.start]) == 0 && !committing
      ensures panicked || outstanding > 0 ==>
        disk == old(disk) && cache == old(cache) && seen == old(seen) && n == old(n)
      ensures !panicked && outstanding == 0 ==>
        && n == 0 && CacheValid([]) && SameHome(layout, disk, now) && |old(seen)| <= |seen|
        && seen[..|old(seen)|] == old(seen)
        && exists k :: |old(seen)| <= k <= |seen| && Switches(layout, seen, |old(seen)|, k, safe, now)
    {
      outstanding := outstanding - 1;
      if committing {
        return true;
      }
      if outstanding == 0 {
        committing := true;
        Commit(safe, now);
        committing := false;
      }
      return false;
    }

    /** log.c:213-233: the absorption scan, then the append and the pin. */
    method LogWrite(b: int) returns (panicked: bool)
      requires Valid() && layout.Home(b) && b in cache
      modifies `n, `cache, block
      ensures Valid()
      ensures panicked <==> layout.Limit() <= old(n) || outstanding < 1
      ensures panicked ==> block[..n] == old(block[..n]) && cache == old(cache)
      ensures !panicked ==> block[..n] == Logged(old(block[..n]), b)
      ensures !panicked ==>
        b in block[..n] && block[..n] == old(block[..n]) + if b in old(block[..n]) then [] else [b]
      ensures !panicked ==> cache == old(cache)[b := old(cache)[b].(dirty := true)]
    {
      if n >= LOGSIZE || n >= layout.size - 1 {
        return true;
      }
      if outstanding < 1 {
        return true;
      }
      var i := 0;
      while i < n && block[i] != b
        invariant 0 <= i <= n && b !in block[..i]
      {
        i := i + 1;
      }
      ghost var was := block[..n];
      assert i < n ==> was[i] == b;
      block[i] := b;
      if i == n {
        n := n + 1;
        assert block[..n] == was + [b];
      } else {
        assert block[..n] == was;
      }
      cache := cache[b := cache[b].(dirty := true)];
      return false;
    }
  }

  /** Which blocks still wait to be installed: after a commit the log's blocks, after a boot none. */
  function Rest(lh: seq<int>, booted: bool, tail: int): seq<int>
    requires 0 <= tail <= |lh|
  {
    if booted then [] else lh[tail..]
  }

  /** The state of install_trans after k copies. */
  ghost predicate Installing(l: Layout, d: seq<Block>, c: map<int, Buf>, lh: seq<int>, booted: bool, k: int,
                             safe: seq<Block>)
  {
    && l.Valid() && |d| == |safe| == l.nblocks && GoodHeader(l, d[l.start]) && Targets(d[l.start]) == lh
    && 0 <= k <= |lh| && Holds(l, d, safe) && HomeFilled(l, d, lh, k, safe)
    && Coherent(l, d, c, Rest(lh, booted, k), {}) && Pinned(c, Rest(lh, booted, k))
  }

  /** One iteration of install_trans on values. */
  lemma InstallStep(l: Layout, d: seq<Block>, c: map<int, Buf>, lh: seq<int>, booted: bool, k: int, safe: seq<Block>)
    requires Installing(l, d, c, lh, booted, k, safe) && k < |lh|
    ensures l.Home(lh[k]) && Look(c, d, l.LogBlock(k)) == safe[lh[k]]
    ensures var b := lh[k];
            var e := d[b := safe[b]];
            Leaves(l, e, safe) && Installing(l, e, Written(c, b, safe[b]), lh, booted, k + 1, safe)
  {
    var b := lh[k];
    assert l.LogBlock(k) !in lh;
    LogBlockLook(l, d, c, Rest(lh, booted, k), {}, l.LogBlock(k));
    HoldsAfterInstall(l, d, safe, k);
    HoldsRecovers(l, d[b := safe[b]], safe);
    CopyHomeFills(l, d, lh, k, safe);
    if booted {
      WriteCoherent(l, d, c, [], {}, b, safe[b]);
    } else {
      UnpinCoherent(l, d, c, lh, k, {}, safe[b]);
    }
  }

  ghost predicate AllLeave(l: Layout, disks: seq<seq<Block>>, safe: seq<Block>)
  {
    forall i :: 0 <= i < |disks| ==> Leaves(l, disks[i], safe)
  }

  lemma AllLeaveGrows(l: Layout, seen: seq<seq<Block>>, from: int, d: seq<Block>, safe: seq<Block>)
    requires 0 <= from <= |seen| && AllLeave(l, seen[from..], safe) && Leaves(l, d, safe)
    ensures AllLeave(l, (seen + [d])[from..], safe) && (seen + [d])[..from] == seen[..from]
  {
    assert (seen + [d])[from..] == seen[from..] + [d];
  }

  lemma Associative<T>(a: seq<T>, b: seq<T>, c: seq<T>)
    ensures a + b + c == a + (b + c)
  {
  }

  /** Disks seen from `from` on recover to `before` up to position k and to `after` from there on. */
  ghost predicate Switches(l: Layout, seen: seq<seq<Block>>, from: int, k: int, before: seq<Block>, after: seq<Block>)
    requires 0 <= from <= k <= |seen|
  {
    AllLeave(l, seen[from..k], before) && AllLeave(l, seen[k..], after)
  }

  /** The disks of a commit: those of write_log, the header write, those of install_trans, the erasure. */
  lemma SwitchesAt(l: Layout, first: int, logged: seq<seq<Block>>, head: seq<Block>,
                   installed: seq<seq<Block>>, last: seq<Block>, before: seq<Block>, after: seq<Block>)
    requires 0 <= first <= |logged| && AllLeave(l, logged[first..], before)
    requires |logged| + 1 <= |installed| && installed[..|logged| + 1] == logged + [head]
    requires Leaves(l, head, after) && AllLeave(l, installed[|logged| + 1..], after) && Leaves(l, last, after)
    ensures (installed + [last])[..first] == logged[..first]
    ensures Switches(l, installed + [last], first, |logged|, before, after)
  {
    var seen := installed + [last];
    assert seen[..|logged| + 1] == logged + [head];
    assert seen[first..|logged|] == logged[first..];
    assert seen[|logged|..] == [head] + installed[|logged| + 1..] + [last] by {
      assert seen[|logged|] == (logged + [head])[|logged|];
    }
    assert seen[..first] == (logged + [head])[..first];
  }

  /** Recovering `d` gives the home contents `safe`. */
  ghost predicate Leaves(l: Layout, d: seq<Block>, safe: seq<Block>)
  {
    && l.Valid() && |d| == |safe| == l.nblocks && GoodHeader(l, d[l.start])
    && SameHome(l, Recovered(l, d), safe)
  }
}
