/** Which blocks a change touches, and that all of them have been passed to log_write. */
module Logging {
  import opened Bitmap
  import opened Inodes

  /** Block b is as it was, or has been logged. */
  predicate DataLogged(f: Fs, g: Fs, logged: set<int>, b: int)
  {
    0 <= b < |f.data| && b < |g.data| ==> g.data[b] == f.data[b] || b in logged
  }

  /** Bitmap block k, which is block start + k of the disk, is as it was, or has been logged. */
  predicate MarkLogged(start: int, f: Fs, g: Fs, logged: set<int>, k: int)
  {
    0 <= k < |f.bitmap| && k < |g.bitmap| ==> g.bitmap[k] == f.bitmap[k] || start + k in logged
  }

  /** Every data and bitmap block that differs between f and g has been logged. */
  ghost predicate Covers(start: int, f: Fs, g: Fs, logged: set<int>)
  {
    && |g.data| == |f.data| && |g.bitmap| == |f.bitmap|
    && (forall b :: DataLogged(f, g, logged, b)) && (forall k :: MarkLogged(start, f, g, logged, k))
  }

  /** Inode j on disk is as it was, or its inode block has been logged. */
  predicate InodeLogged(start: int, per: int, was: seq<Inode>, now: seq<Inode>, logged: set<int>, j: int)
    requires per != 0
  {
    0 <= j < |was| && j < |now| ==> now[j] == was[j] || start + j / per in logged
  }

  lemma CoversSame(start: int, f: Fs, g: Fs, logged: set<int>)
    requires g.data == f.data && g.bitmap == f.bitmap
    ensures Covers(start, f, g, logged)
  {
  }

  lemma CoversTrans(start: int, f: Fs, g: Fs, h: Fs, first: set<int>, logged: set<int>)
    requires Covers(start, f, g, first) && Covers(start, g, h, logged) && first <= logged
    ensures Covers(start, f, h, logged)
  {
    forall b
      ensures DataLogged(f, h, logged, b)
    {
      assert DataLogged(f, g, first, b) && DataLogged(g, h, logged, b);
    }
    forall k
      ensures MarkLogged(start, f, h, logged, k)
    {
      assert MarkLogged(start, f, g, first, k) && MarkLogged(start, g, h, logged, k);
    }
  }

  /** balloc changes the bitmap block of b, and b itself. */
  lemma CoversAlloc(start: int, f: Fs, b: int, logged: set<int>)
    requires 0 <= b < |f.data| && b in logged && start + BlockOf(b) in logged
    ensures Covers(start, f, Alloc(f, b), logged)
  {
    var g := Alloc(f, b);
    forall k
      ensures MarkLogged(start, f, g, logged, k)
    {
    }
  }

  /** Writing a block that is logged. */
  lemma CoversWrite(start: int, f: Fs, b: int, x: seq<int>, logged: set<int>)
    requires 0 <= b < |f.data| && b in logged
    ensures Covers(start, f, f.(data := f.data[b := x]), logged)
  {
  }

  /** bfree changes the bitmap block of b. */
  lemma CoversClear(start: int, f: Fs, b: int, logged: set<int>)
    requires start + BlockOf(b) in logged
    ensures Covers(start, f, f.(bitmap := ClearBit(f.bitmap, b)), logged)
  {
  }

  /** The inodes in memory do not count. */
  lemma CoversInodes(start: int, f: Fs, g: Fs, h: Fs, logged: set<int>)
    requires Covers(start, f, g, logged) && h.data == g.data && h.bitmap == g.bitmap
    ensures Covers(start, f, h, logged)
  {
    CoversSame(start, g, h, logged);
    CoversTrans(start, f, g, h, logged, logged);
  }

  // ---------------------------------------------------------------------------------------------
  // Several transactions
  // ---------------------------------------------------------------------------------------------

  /** A transaction: the file system before and after, and the blocks passed to log_write. */
  datatype Trans = Trans(before: Fs, after: Fs, logged: set<int>)

  /** Transactions one after the other, each of which has logged all that it changed. */
  ghost predicate Chained(start: int, ts: seq<Trans>, f: Fs, g: Fs)
    decreases |ts|
  {
    if ts == [] then g == f
    else
      var n := |ts| - 1;
      && Chained(start, ts[..n], f, ts[n].before) && ts[n].after == g
      && Covers(start, ts[n].before, g, ts[n].logged)
  }

  lemma ChainMore(start: int, ts: seq<Trans>, f: Fs, g: Fs, h: Fs, logged: set<int>)
    requires Chained(start, ts, f, g) && Covers(start, g, h, logged)
    ensures Chained(start, ts + [Trans(g, h, logged)], f, h)
  {
    var more := ts + [Trans(g, h, logged)];
    assert more[..|more| - 1] == ts && more[|more| - 1] == Trans(g, h, logged);
  }
}
