/**
  One iteration of writei on values, and what a whole write does to the file, to the other files, to the
  block map, to the addresses that must reach the disk inode, and to the log.
*/
module Writing {
  import opened Words
  import opened Inodes
  import opened Files

  /** bmap takes f to e, then the bytes s are patched in at position off (fs.c:499-502). */
  ghost predicate Wrote(f: Fs, e: Fs, g: Fs, owner: map<int, Slot>, i: int, off: int, s: seq<int>)
  {
    var bn := off / BSIZE;
    var b := Ref(e, i, SlotOf(bn));
    && 0 <= i < |f.inodes| && 0 <= off && bn < MAXFILE && off % BSIZE + |s| <= BSIZE
    && Extended(f, e, i, NewSlots(f, i, bn)) && Own(e, owner, -1, 0)
    && 0 < b < e.size && |e.data[b]| == BSIZE && g == WriteBlock(e, b, Patch(e.data[b], off % BSIZE, s))
  }

  lemma WroteOwn(f: Fs, e: Fs, g: Fs, owner: map<int, Slot>, i: int, off: int, s: seq<int>)
    requires Wrote(f, e, g, owner, i, off, s)
    ensures Own(g, owner, -1, 0) && SameMeta(f, g, i) && g.inodes == e.inodes
    ensures forall j, m :: Ref(g, j, m) == Ref(e, j, m)
    ensures Ref(e, i, SlotOf(off / BSIZE)) in owner
    ensures owner[Ref(e, i, SlotOf(off / BSIZE))] == Slot(i, SlotOf(off / BSIZE))
  {
    var b := Ref(e, i, SlotOf(off / BSIZE));
    assert SlotOk(e, owner, i, SlotOf(off / BSIZE));
    WriteBlockKeeps(e, owner, b, Patch(e.data[b], off % BSIZE, s));
  }

  /** The bytes land where they should. */
  lemma WroteReads(f: Fs, e: Fs, g: Fs, owner: map<int, Slot>, i: int, off: int, s: seq<int>, c: seq<int>)
    requires Wrote(f, e, g, owner, i, off, s) && Reads(f, i, c) && off <= |c| <= MAXFILE * BSIZE
    ensures Reads(g, i, Splice(c, off, s))
  {
    ExtendedReads(f, e, i, NewSlots(f, i, off / BSIZE), i, c);
    PatchSplices(e, owner, i, c, off, s);
  }

  // ---------------------------------------------------------------------------------------------
  // Other files
  // ---------------------------------------------------------------------------------------------

  predicate OtherSame(f: Fs, g: Fs, i: int, j: int, m: int)
  {
    var b := Ref(f, j, m);
    j != i ==>
      Ref(g, j, m) == b && (m != NDIRECT && b != 0 ==> 0 < b < |f.data| && b < |g.data| && g.data[b] == f.data[b])
  }

  /** Every slot of every other inode names the same block with the same bytes. */
  ghost predicate OthersSame(f: Fs, g: Fs, i: int)
  {
    forall j, m :: 0 <= j < |f.inodes| && 0 <= m < SLOTS ==> OtherSame(f, g, i, j, m)
  }

  lemma WroteOthers(f: Fs, e: Fs, g: Fs, owner: map<int, Slot>, i: int, off: int, s: seq<int>)
    requires Wrote(f, e, g, owner, i, off, s)
    ensures OthersSame(f, g, i)
  {
    WroteOwn(f, e, g, owner, i, off, s);
    forall j, m | 0 <= j < |f.inodes| && 0 <= m < SLOTS
      ensures OtherSame(f, g, i, j, m)
    {
      assert Kept(f, e, j, m);
      assert Untouched(f, e, i, NewSlots(f, i, off / BSIZE), j, m);
      assert SlotOk(e, owner, j, m);
    }
  }

  lemma OthersTrans(f: Fs, g: Fs, h: Fs, i: int)
    requires OthersSame(f, g, i) && OthersSame(g, h, i) && |f.inodes| == |g.inodes|
    ensures OthersSame(f, h, i)
  {
    forall j, m | 0 <= j < |f.inodes| && 0 <= m < SLOTS
      ensures OtherSame(f, h, i, j, m)
    {
      assert OtherSame(f, g, i, j, m) && OtherSame(g, h, i, j, m);
    }
  }

  /** So the other files keep their bytes and their maps. */
  lemma OthersRead(f: Fs, g: Fs, i: int, j: int, c: seq<int>)
    requires OthersSame(f, g, i) && |f.data| == |g.data| && 0 <= j < |f.inodes| && j != i && |c| <= MAXFILE * BSIZE
      && Reads(f, j, c)
    ensures Reads(g, j, c)
  {
    forall pos | 0 <= pos < |c|
      ensures ByteIs(g, j, c, pos)
    {
      assert ByteIs(f, j, c, pos);
      assert OtherSame(f, g, i, j, SlotOf(pos / BSIZE));
    }
  }

  lemma OthersMapped(f: Fs, g: Fs, i: int, j: int, nb: int)
    requires OthersSame(f, g, i) && 0 <= j < |f.inodes| && j != i && MappedTo(f, j, nb) && |f.inodes| == |g.inodes|
    requires |f.inodes[j].addrs| == |g.inodes[j].addrs| == NDIRECT + 1
    ensures MappedTo(g, j, nb)
  {
    forall bn | 0 <= bn < MAXFILE
      ensures MapOk(g, j, nb, bn)
    {
      assert MapOk(f, j, nb, bn);
      assert OtherSame(f, g, i, j, SlotOf(bn));
    }
    assert OtherSame(f, g, i, j, NDIRECT);
  }

  // ---------------------------------------------------------------------------------------------
  // The block map of a file without holes
  // ---------------------------------------------------------------------------------------------

  function Max(a: int, b: int): int
  {
    if a < b then b else a
  }

  /** How many blocks are allocated when a file grows from `from` to `to` blocks: the new ones, and the indirect one. */
  function Allocs(from: int, to: int): int
  {
    to - from + if from <= NDIRECT < to then 1 else 0
  }

  lemma WroteMap(f: Fs, e: Fs, g: Fs, owner: map<int, Slot>, i: int, off: int, s: seq<int>, nb: int)
    requires Wrote(f, e, g, owner, i, off, s) && MappedTo(f, i, nb) && off / BSIZE <= nb
      && |f.inodes[i].addrs| == NDIRECT + 1
    ensures MappedTo(g, i, Max(nb, off / BSIZE + 1))
    ensures |NewSlots(f, i, off / BSIZE)| == Allocs(nb, Max(nb, off / BSIZE + 1))
    ensures off / BSIZE < nb ==> NewSlots(f, i, off / BSIZE) == {}
  {
    var bn := off / BSIZE;
    WroteOwn(f, e, g, owner, i, off, s);
    assert MapOk(f, i, nb, bn);
    var news := NewSlots(f, i, bn);
    if bn == nb {
      assert Untouched(f, e, i, news, i, NDIRECT);
      assert news == if bn == NDIRECT then {NDIRECT, SlotOf(bn)} else {SlotOf(bn)};
      assert Fresh(e, i, SlotOf(bn)) && (bn == NDIRECT ==> Fresh(e, i, NDIRECT));
      Grows(f, e, i, nb, news);
    } else {
      assert news == {};
      forall k | 0 <= k < MAXFILE
        ensures MapOk(e, i, nb, k)
      {
        assert MapOk(f, i, nb, k);
        assert Untouched(f, e, i, news, i, SlotOf(k));
      }
      assert Untouched(f, e, i, news, i, NDIRECT);
    }
    SameRefsMapped(e, g, i, Max(nb, bn + 1));
  }

  lemma SameRefsMapped(e: Fs, g: Fs, i: int, nb: int)
    requires MappedTo(e, i, nb) && g.inodes == e.inodes && forall j, m :: Ref(g, j, m) == Ref(e, j, m)
    ensures MappedTo(g, i, nb)
  {
    forall bn | 0 <= bn < MAXFILE
      ensures MapOk(g, i, nb, bn)
    {
      assert MapOk(e, i, nb, bn);
    }
  }

  // ---------------------------------------------------------------------------------------------
  // Which writes change an address in the inode itself
  // ---------------------------------------------------------------------------------------------

  /** The address in the inode through which block bn is reached is there. */
  predicate TopOk(f: Fs, i: int, bn: int)
  {
    Ref(f, i, if bn < NDIRECT then bn else NDIRECT) != 0
  }

  ghost predicate TopRange(f: Fs, i: int, lo: int, hi: int)
  {
    forall bn :: lo <= bn < hi ==> TopOk(f, i, bn)
  }

  lemma WroteTop(f: Fs, e: Fs, g: Fs, owner: map<int, Slot>, i: int, off: int, s: seq<int>)
    requires Wrote(f, e, g, owner, i, off, s) && |f.inodes[i].addrs| == NDIRECT + 1
    ensures g.inodes == f.inodes <==> TopOk(f, i, off / BSIZE)
  {
    var bn := off / BSIZE;
    WroteOwn(f, e, g, owner, i, off, s);
    var top := if bn < NDIRECT then bn else NDIRECT;
    if TopOk(f, i, bn) {
      forall m | 0 <= m <= NDIRECT
        ensures e.inodes[i].addrs[m] == f.inodes[i].addrs[m]
      {
        assert Untouched(f, e, i, NewSlots(f, i, bn), i, m);
      }
      assert e.inodes[i].addrs == f.inodes[i].addrs;
      assert e.inodes == f.inodes;
    } else {
      assert top in NewSlots(f, i, bn);
      assert Fresh(e, i, top);
    }
  }

  // ---------------------------------------------------------------------------------------------
  // A whole write
  // ---------------------------------------------------------------------------------------------

  /** The blocks a write of n bytes at off has reached. */
  function Reached(off: int, n: int): int
  {
    if n == 0 then off / BSIZE else Blocks(off + n)
  }

  /** After writing s at off: the bytes, the frame, and exactly when an address in the inode has changed. */
  ghost predicate Progress(f: Fs, g: Fs, i: int, c: seq<int>, off: int, s: seq<int>)
    requires 0 <= off <= |c|
  {
    && SameMeta(f, g, i) && |g.data| == |f.data| && OthersSame(f, g, i)
    && Reads(g, i, Splice(c, off, s))
    && (g.inodes == f.inodes <==> TopRange(f, i, off / BSIZE, Reached(off, |s|)))
  }

  lemma ReachedNext(off: int, n: int, m: int)
    requires 0 <= off && 0 <= n && 0 < m && (off + n) % BSIZE + m <= BSIZE && (n == 0 || (off + n) % BSIZE == 0)
    ensures Reached(off, n) == (off + n) / BSIZE && Reached(off, n + m) == (off + n) / BSIZE + 1
  {
  }

  lemma TopRangeNext(f: Fs, i: int, lo: int, hi: int)
    requires lo <= hi
    ensures TopRange(f, i, lo, hi + 1) <==> TopRange(f, i, lo, hi) && TopOk(f, i, hi)
  {
    if TopRange(f, i, lo, hi) && TopOk(f, i, hi) {
      forall bn | lo <= bn < hi + 1
        ensures TopOk(f, i, bn)
      {
      }
    }
  }

  lemma TopSame(f: Fs, g: Fs, i: int, bn: int)
    requires g.inodes == f.inodes && 0 <= bn
    ensures TopOk(g, i, bn) <==> TopOk(f, i, bn)
  {
  }

  lemma SameMetaTrans(f: Fs, g: Fs, h: Fs, i: int)
    requires SameMeta(f, g, i) && SameMeta(g, h, i)
    ensures SameMeta(f, h, i)
  {
  }

  /** An address that has been filled is never emptied again. */
  lemma ChangedStays(f: Fs, g: Fs, e: Fs, h: Fs, owner: map<int, Slot>, i: int, off: int, t: seq<int>)
    requires Wrote(g, e, h, owner, i, off, t) && SameMeta(f, g, i)
      && |f.inodes[i].addrs| == |g.inodes[i].addrs| == NDIRECT + 1
    requires forall m :: 0 <= m <= NDIRECT && f.inodes[i].addrs[m] != 0 ==> g.inodes[i].addrs[m] == f.inodes[i].addrs[m]
    ensures |h.inodes[i].addrs| == NDIRECT + 1
    ensures forall m :: 0 <= m <= NDIRECT && f.inodes[i].addrs[m] != 0 ==> h.inodes[i].addrs[m] == f.inodes[i].addrs[m]
    ensures g.inodes != f.inodes ==> h.inodes != f.inodes
  {
    WroteOwn(g, e, h, owner, i, off, t);
    forall m | 0 <= m <= NDIRECT && g.inodes[i].addrs[m] != 0
      ensures h.inodes[i].addrs[m] == g.inodes[i].addrs[m]
    {
      assert Kept(g, e, i, m);
    }
    if g.inodes != f.inodes {
      assert g.inodes[i].addrs == f.inodes[i].addrs ==> g.inodes == f.inodes;
      var m :| 0 <= m <= NDIRECT && g.inodes[i].addrs[m] != f.inodes[i].addrs[m];
      assert f.inodes[i].addrs[m] == 0 && h.inodes[i].addrs[m] != 0;
    }
  }

  /** Filled addresses of inode i stay as they are. */
  ghost predicate TopKept(f: Fs, g: Fs, i: int)
  {
    && 0 <= i < |f.inodes| && |g.inodes| == |f.inodes| && |f.inodes[i].addrs| == |g.inodes[i].addrs| == NDIRECT + 1
    && forall m :: 0 <= m <= NDIRECT && f.inodes[i].addrs[m] != 0 ==> g.inodes[i].addrs[m] == f.inodes[i].addrs[m]
  }

  lemma ProgressStep(f: Fs, g: Fs, e: Fs, h: Fs, owner: map<int, Slot>, i: int, c: seq<int>, off: int, s: seq<int>,
                     at: int, t: seq<int>)
    requires 0 <= off <= |c| && Progress(f, g, i, c, off, s) && TopKept(f, g, i) && at == off + |s|
    requires Wrote(g, e, h, owner, i, at, t) && t != [] && (s == [] || at % BSIZE == 0)
    requires |Splice(c, off, s)| <= MAXFILE * BSIZE
    ensures Progress(f, h, i, c, off, s + t) && TopKept(f, h, i)
  {
    WroteOwn(g, e, h, owner, i, at, t);
    SameMetaTrans(f, g, h, i);
    WroteOthers(g, e, h, owner, i, at, t);
    OthersTrans(f, g, h, i);
    WroteReads(g, e, h, owner, i, at, t, Splice(c, off, s));
    SpliceTwice(c, off, s, t);
    ReachedNext(off, |s|, |t|);
    TopRangeNext(f, i, off / BSIZE, at / BSIZE);
    WroteTop(g, e, h, owner, i, at, t);
    ChangedStays(f, g, e, h, owner, i, at, t);
    if g.inodes == f.inodes {
      TopSame(f, g, i, at / BSIZE);
    }
  }

  lemma ProgressStart(f: Fs, owner: map<int, Slot>, i: int, c: seq<int>, off: int)
    requires Own(f, owner, -1, 0) && 0 <= i < |f.inodes| && Reads(f, i, c) && 0 <= off <= |c|
    ensures Progress(f, f, i, c, off, []) && TopKept(f, f, i)
  {
    assert Splice(c, off, []) == c;
    forall j, m | 0 <= j < |f.inodes| && 0 <= m < SLOTS
      ensures OtherSame(f, f, i, j, m)
    {
      assert SlotOk(f, owner, j, m);
    }
  }

  // ---------------------------------------------------------------------------------------------
  // What a write logs
  // ---------------------------------------------------------------------------------------------

  /** Bitmap blocks logged when a file grows from nb to `to` blocks; `single` if the disk has only one. */
  function MarkCost(nb: int, to: int, single: bool): int
  {
    if single then (if nb < to then 1 else 0) else Allocs(nb, to)
  }

  /** The indirect block is logged when one of its entries is filled. */
  function IndirectCost(nb: int, to: int): int
  {
    if nb < to && NDIRECT < to then 1 else 0
  }

  /** How many distinct blocks one writei logs at most: data, bitmap, indirect and inode blocks. */
  function WriteCost(size: int, off: int, n: int, single: bool): int
  {
    var nb := Blocks(size);
    var to := Max(nb, Reached(off, n));
    Reached(off, n) - off / BSIZE + MarkCost(nb, to, single) + IndirectCost(nb, to)
      + (if n > 0 && off + n > size then 1 else 0)
  }

  /** filewrite's chunk (file.c:133): every transaction logs at most MAXOPBLOCKS = 10 blocks. */
  lemma ChunkFits(size: int, off: int, n: int)
    requires 0 <= off <= size && 0 <= n <= 3 * BSIZE
    ensures WriteCost(size, off, n, false) <= 10
  {
  }

  const SINGLE_BITMAP_BLOCKS: int := 7

  /** With a single bitmap block, as on mkfs's disk, a chunk logs at most seven blocks. */
  lemma ChunkOneBitmapBlock(size: int, off: int, n: int)
    requires 0 <= off <= size && 0 <= n <= 3 * BSIZE
    ensures WriteCost(size, off, n, true) <= SINGLE_BITMAP_BLOCKS
  {
  }

  /**
    The blocks `all` logged by a write that has reached blocks lo .. hi-1 of a file that had nb blocks.
    `one` is the only bitmap block of the disk, if there is only one.
  */
  ghost predicate CostOk(g: Fs, i: int, nb: int, lo: int, hi: int, one: set<int>, all: set<int>)
  {
    var to := Max(nb, hi);
    && MappedTo(g, i, to)
    && |all| <= hi - lo + MarkCost(nb, to, one != {}) + IndirectCost(nb, to)
    && (nb < to ==> one <= all) && (nb < to && NDIRECT < to ==> Indirect(g, i) in all)
  }

  /** What a chunk does to the map of a file without holes. */
  ghost predicate ChunkMaps(f: Fs, g: Fs, i: int, bn: int, to: int, news: set<int>)
  {
    && bn <= to && MappedTo(g, i, Max(to, bn + 1)) && |news| == Allocs(to, Max(to, bn + 1)) && (bn < to ==> news == {})
    && (Indirect(f, i) != 0 ==> Indirect(g, i) == Indirect(f, i))
  }

  lemma WroteChunkMaps(f: Fs, e: Fs, g: Fs, owner: map<int, Slot>, i: int, off: int, t: seq<int>, to: int)
    requires Wrote(f, e, g, owner, i, off, t) && MappedTo(f, i, to) && off / BSIZE <= to
      && |f.inodes[i].addrs| == NDIRECT + 1
    ensures ChunkMaps(f, g, i, off / BSIZE, to, NewSlots(f, i, off / BSIZE)) && Indirect(g, i) == Indirect(e, i)
  {
    WroteMap(f, e, g, owner, i, off, t, to);
    WroteOwn(f, e, g, owner, i, off, t);
    assert Kept(f, e, i, NDIRECT);
  }

  /** The blocks one chunk logs: bitmap blocks, the data block, and the indirect block if an entry was filled. */
  function ChunkLog(marks: set<int>, b: int, news: set<int>, bn: int, ind: int): set<int>
  {
    marks + {b} + if news != {} && bn >= NDIRECT then {ind} else {}
  }

  /** The bitmap blocks of a chunk: one per allocation, or the only one there is. */
  ghost predicate MarksOk(marks: set<int>, news: set<int>, one: set<int>)
  {
    |marks| <= |news| && |one| <= 1 && (one != {} ==> marks <= one) && (news == {} ==> marks == {})
      && (one != {} && news != {} ==> marks == one)
  }

  lemma OneMark(mark: int, k: int, one: set<int>)
    requires one == {} || one == {mark}
    ensures MarksOk({mark}, {k}, one)
  {
  }

  /** Two allocations mark at most two bitmap blocks. */
  lemma BothMarks(first: set<int>, second: set<int>, a: set<int>, b: set<int>, news: set<int>, one: set<int>)
    requires MarksOk(first, a, one) && MarksOk(second, b, one) && news == a + b && |news| == |a| + |b|
    ensures MarksOk(first + second, news, one)
  {
    UnionSize(first, second);
  }

  lemma UnionSize(a: set<int>, b: set<int>)
    ensures |a + b| <= |a| + |b|
  {
    assert a + b == a + (b - a) && |a + (b - a)| == |a| + |b - a|;
    SubsetSize(b - a, b);
  }

  lemma SubsetSize(a: set<int>, b: set<int>)
    requires a <= b
    ensures |a| <= |b|
  {
    assert b == a + (b - a);
  }

  lemma CostStep(f: Fs, g: Fs, i: int, nb: int, lo: int, bn: int, news: set<int>, one: set<int>, all: set<int>,
                 marks: set<int>, b: int)
    requires CostOk(f, i, nb, lo, bn, one, all) && 0 <= nb
    requires ChunkMaps(f, g, i, bn, Max(nb, bn), news) && MarksOk(marks, news, one)
    ensures CostOk(g, i, nb, lo, bn + 1, one, all + ChunkLog(marks, b, news, bn, Indirect(g, i)))
  {
    var all' := all + ChunkLog(marks, b, news, bn, Indirect(g, i));
    if bn < nb {
      assert all' == all + {b};
      UnionSize(all, {b});
    } else if bn < NDIRECT {
      assert all' == (all + marks) + {b};
      UnionSize(all + marks, {b});
      MarkSize(all, marks, one, nb < bn);
    } else {
      assert all' == (all + marks) + {b, Indirect(g, i)};
      assert bn > nb && bn > NDIRECT ==> all' == (all + marks) + {b};
      UnionSize(all + marks, {b});
      UnionSize(all + marks, {b, Indirect(g, i)});
      MarkSize(all, marks, one, nb < bn);
    }
  }

  lemma MarkSize(all: set<int>, marks: set<int>, one: set<int>, there: bool)
    requires there ==> one <= all
    requires one != {} ==> marks <= one && |one| <= 1
    ensures |all + marks| <= |all| + if one != {} then (if there then 0 else 1) else |marks|
  {
    UnionSize(all, marks);
    if one != {} {
      SubsetSize(marks, one);
      if there {
        assert all + marks == all;
      }
    }
  }

  /** If the file had no holes, the blocks logged so far are within the bound. */
  ghost predicate Bounded(f: Fs, g: Fs, i: int, len: int, off: int, n: int, one: set<int>, all: set<int>)
  {
    MappedTo(f, i, Blocks(len)) ==> CostOk(g, i, Blocks(len), off / BSIZE, Reached(off, n), one, all)
  }

  lemma BoundedStart(f: Fs, i: int, len: int, off: int, one: set<int>)
    requires 0 <= off <= len
    ensures Bounded(f, f, i, len, off, 0, one, {})
  {
  }

  lemma CostNext(g: Fs, e: Fs, h: Fs, owner: map<int, Slot>, i: int, nb: int, lo: int, bn: int, off: int, t: seq<int>,
                 one: set<int>, all: set<int>, marks: set<int>, chunk: set<int>)
    requires CostOk(g, i, nb, lo, bn, one, all) && 0 <= nb && bn == off / BSIZE
    requires Wrote(g, e, h, owner, i, off, t) && |g.inodes[i].addrs| == NDIRECT + 1
    requires MarksOk(marks, NewSlots(g, i, bn), one)
    requires chunk == ChunkLog(marks, Ref(e, i, SlotOf(bn)), NewSlots(g, i, bn), bn, Indirect(e, i))
    ensures CostOk(h, i, nb, lo, bn + 1, one, all + chunk)
  {
    WroteChunkMaps(g, e, h, owner, i, off, t, Max(nb, bn));
    CostStep(g, h, i, nb, lo, bn, NewSlots(g, i, bn), one, all, marks, Ref(e, i, SlotOf(bn)));
  }

  lemma BoundedStep(f: Fs, g: Fs, e: Fs, h: Fs, owner: map<int, Slot>, i: int, len: int, off: int, n: int, at: int,
                    t: seq<int>,
                    one: set<int>, all: set<int>, marks: set<int>, chunk: set<int>)
    requires 0 <= off && 0 <= n && 0 <= len && Bounded(f, g, i, len, off, n, one, all) && at == off + n
    requires Wrote(g, e, h, owner, i, at, t) && t != [] && (n == 0 || at % BSIZE == 0)
    requires |g.inodes[i].addrs| == NDIRECT + 1 && MarksOk(marks, NewSlots(g, i, at / BSIZE), one)
    requires var bn := at / BSIZE;
             chunk == ChunkLog(marks, Ref(e, i, SlotOf(bn)), NewSlots(g, i, bn), bn, Indirect(e, i))
    ensures Bounded(f, h, i, len, off, n + |t|, one, all + chunk)
  {
    if MappedTo(f, i, Blocks(len)) {
      ReachedNext(off, n, |t|);
      CostNext(g, e, h, owner, i, Blocks(len), off / BSIZE, at / BSIZE, at, t, one, all, marks, chunk);
    }
  }

  /** Everything that writei's loop keeps, after it has written s at off. */
  ghost predicate LoopState(f: Fs, g: Fs, i: int, c: seq<int>, off: int, s: seq<int>, one: set<int>, all: set<int>)
  {
    && 0 <= off <= |c| <= MAXFILE * BSIZE && Progress(f, g, i, c, off, s) && TopKept(f, g, i)
    && Bounded(f, g, i, |c|, off, |s|, one, all)
  }

  lemma LoopStart(f: Fs, owner: map<int, Slot>, i: int, c: seq<int>, off: int, one: set<int>)
    requires Own(f, owner, -1, 0) && 0 <= i < |f.inodes| && Reads(f, i, c) && 0 <= off <= |c| <= MAXFILE * BSIZE
    ensures LoopState(f, f, i, c, off, [], one, {})
  {
    ProgressStart(f, owner, i, c, off);
    BoundedStart(f, i, |c|, off, one);
  }

  /** One iteration of writei's loop as a step of the whole write. */
  lemma LoopStep(f: Fs, g: Fs, e: Fs, h: Fs, owner: map<int, Slot>, i: int, c: seq<int>, off: int,
                 s: seq<int>, at: int, t: seq<int>, one: set<int>, all: set<int>, marks: set<int>, chunk: set<int>)
    requires LoopState(f, g, i, c, off, s, one, all) && at == off + |s|
      && MarksOk(marks, NewSlots(g, i, at / BSIZE), one)
    requires Wrote(g, e, h, owner, i, at, t) && t != [] && (s == [] || at % BSIZE == 0) && at + |t| <= MAXFILE * BSIZE
    requires var bn := at / BSIZE;
             chunk == ChunkLog(marks, Ref(e, i, SlotOf(bn)), NewSlots(g, i, bn), bn, Indirect(e, i))
    ensures LoopState(f, h, i, c, off, s + t, one, all + chunk)
  {
    BoundedStep(f, g, e, h, owner, i, |c|, off, |s|, at, t, one, all, marks, chunk);
    assert |s + t| == |s| + |t| && |Splice(c, off, s)| <= MAXFILE * BSIZE;
    ProgressStep(f, g, e, h, owner, i, c, off, s, at, t);
  }

  lemma SliceGrows(src: seq<int>, tot: int, m: int)
    requires 0 <= tot && 0 <= m && tot + m <= |src|
    ensures src[..tot] + src[tot..tot + m] == src[..tot + m]
  {
  }

  /** Each iteration but the last ends at a block boundary. */
  lemma NextOffset(off: int, left: int)
    requires 0 <= off && 0 < left
    ensures var m := if left < BSIZE - off % BSIZE then left else BSIZE - off % BSIZE;
            0 < m <= left && off % BSIZE + m <= BSIZE && (m == left || (off + m) % BSIZE == 0)
  {
  }

  // ---------------------------------------------------------------------------------------------
  // The size field
  // ---------------------------------------------------------------------------------------------

  ghost function Resize(f: Fs, i: int, n: int): Fs
    requires 0 <= i < |f.inodes|
  {
    f.(inodes := f.inodes[i := f.inodes[i].(size := n)])
  }

  /** No block moves when only the size changes. */
  lemma ResizeKeeps(f: Fs, owner: map<int, Slot>, i: int, n: int)
    requires Own(f, owner, -1, 0) && 0 <= i < |f.inodes|
    ensures Own(Resize(f, i, n), owner, -1, 0)
    ensures forall j, m :: Ref(Resize(f, i, n), j, m) == Ref(f, j, m)
  {
    var g := Resize(f, i, n);
    forall j, m | 0 <= j < |g.inodes| && 0 <= m < SLOTS && !Given(-1, 0, j, m)
      ensures SlotOk(g, owner, j, m)
    {
      assert SlotOk(f, owner, j, m);
    }
    forall b | b in owner
      ensures OwnedOk(g, owner, -1, 0, b)
    {
      assert OwnedOk(f, owner, -1, 0, b);
    }
    forall b | 0 <= b < g.size
      ensures BitOk(g, owner, b)
    {
      assert BitOk(f, owner, b);
    }
  }

  /** Same blocks, same bytes: contents, maps and the frame carry over. */
  lemma SameRefs(f: Fs, g: Fs, i: int, c: seq<int>)
    requires g.data == f.data && forall j, m :: Ref(g, j, m) == Ref(f, j, m)
    requires Reads(f, i, c)
    ensures Reads(g, i, c)
  {
    forall pos | 0 <= pos < |c|
      ensures ByteIs(g, i, c, pos)
    {
      assert ByteIs(f, i, c, pos);
    }
  }

  lemma ResizeMapped(f: Fs, i: int, n: int, j: int, nb: int)
    requires 0 <= i < |f.inodes| && MappedTo(f, j, nb) && forall k, m :: Ref(Resize(f, i, n), k, m) == Ref(f, k, m)
    ensures MappedTo(Resize(f, i, n), j, nb)
  {
    var g := Resize(f, i, n);
    forall bn | 0 <= bn < MAXFILE
      ensures MapOk(g, j, nb, bn)
    {
      assert MapOk(f, j, nb, bn);
    }
    assert Ref(g, j, NDIRECT) == Ref(f, j, NDIRECT);
  }

  lemma OthersResize(f: Fs, g: Fs, h: Fs, i: int)
    requires OthersSame(f, g, i) && h.data == g.data && forall k, m :: Ref(h, k, m) == Ref(g, k, m)
    ensures OthersSame(f, h, i)
  {
    forall j, m | 0 <= j < |f.inodes| && 0 <= m < SLOTS
      ensures OtherSame(f, h, i, j, m)
    {
      assert OtherSame(f, g, i, j, m);
    }
  }

  // ---------------------------------------------------------------------------------------------
  // The end of writei
  // ---------------------------------------------------------------------------------------------

  /** Within the size of a file without holes every block, and so every address leading to it, is there. */
  lemma NoHolesTop(f: Fs, i: int, len: int, off: int, n: int)
    requires 0 <= off && 0 <= n && off + n <= len <= MAXFILE * BSIZE && MappedTo(f, i, Blocks(len))
    requires 0 <= i < |f.inodes| && |f.inodes[i].addrs| == NDIRECT + 1
    ensures TopRange(f, i, off / BSIZE, Reached(off, n))
  {
    forall bn | off / BSIZE <= bn < Reached(off, n)
      ensures TopOk(f, i, bn)
    {
      assert bn < Blocks(len);
      assert MapOk(f, i, Blocks(len), bn);
    }
  }

  lemma ReachedSize(len: int, off: int, n: int)
    requires 0 <= off <= len && 0 <= n
    ensures Max(Blocks(len), Reached(off, n)) == Blocks(Max(len, off + n))
  {
  }

  /** The result of writei: bytes, size, frame, and what has reached the disk inode. */
  ghost predicate FileWritten(f: Fs, g: Fs, i: int, c: seq<int>, off: int, src: seq<int>)
    requires 0 <= off <= |c|
  {
    && |g.inodes| == |f.inodes| && 0 <= i < |f.inodes|
    && Reads(g, i, Splice(c, off, src)) && g.inodes[i].size == |Splice(c, off, src)|
    && g.inodes[i].kind == f.inodes[i].kind && g.inodes[i].nlink == f.inodes[i].nlink
    && OthersSame(f, g, i) && forall j :: 0 <= j < |f.inodes| && j != i ==> g.inodes[j] == f.inodes[j]
  }

  lemma WrittenResize(f: Fs, h: Fs, owner: map<int, Slot>, i: int, c: seq<int>, off: int, src: seq<int>)
    requires 0 <= off <= |c| && Progress(f, h, i, c, off, src) && Own(h, owner, -1, 0)
    ensures Own(Resize(h, i, |Splice(c, off, src)|), owner, -1, 0)
    ensures FileWritten(f, Resize(h, i, |Splice(c, off, src)|), i, c, off, src)
  {
    var d := Splice(c, off, src);
    var g := Resize(h, i, |d|);
    ResizeKeeps(h, owner, i, |d|);
    SameRefs(h, g, i, d);
    OthersResize(f, h, g, i);
  }

  lemma WrittenMapped(f: Fs, h: Fs, i: int, len: int, off: int, n: int, one: set<int>, all: set<int>, size: int)
    requires 0 <= off <= len && 0 <= n && Bounded(f, h, i, len, off, n, one, all) && MappedTo(f, i, Blocks(len))
    requires 0 <= i < |h.inodes| && size == Max(len, off + n)
    ensures MappedTo(Resize(h, i, size), i, Blocks(size))
    ensures |all| + (if n > 0 && off + n > len then 1 else 0) <= WriteCost(len, off, n, one != {})
  {
    ReachedSize(len, off, n);
    assert forall k, m :: Ref(Resize(h, i, size), k, m) == Ref(h, k, m);
    ResizeMapped(h, i, size, i, Blocks(size));
  }

  // ---------------------------------------------------------------------------------------------
  // Several writes in a row, and reading back
  // ---------------------------------------------------------------------------------------------

  /** What filewrite has done: s is written at off, or nothing because off lies beyond the end. */
  ghost predicate Partial(f: Fs, g: Fs, i: int, c: seq<int>, off: int, s: seq<int>)
  {
    0 <= off && if off <= |c| then FileWritten(f, g, i, c, off, s) else s == [] && g == f
  }

  lemma PartialStart(f: Fs, owner: map<int, Slot>, i: int, c: seq<int>, off: int)
    requires Own(f, owner, -1, 0) && 0 <= i < |f.inodes| && Reads(f, i, c) && f.inodes[i].size == |c| && 0 <= off
    ensures Partial(f, f, i, c, off, []) && Grown(c, off, []) == c
  {
    if off <= |c| {
      assert Splice(c, off, []) == c;
      forall j, m | 0 <= j < |f.inodes| && 0 <= m < SLOTS
        ensures OtherSame(f, f, i, j, m)
      {
        assert SlotOk(f, owner, j, m);
      }
    }
  }

  /** The bytes of the file then. */
  function Grown(c: seq<int>, off: int, s: seq<int>): seq<int>
  {
    if 0 <= off <= |c| then Splice(c, off, s) else c
  }

  lemma GrownNext(f: Fs, g: Fs, h: Fs, i: int, c: seq<int>, off: int, s: seq<int>, t: seq<int>)
    requires 0 <= off <= |c| && FileWritten(f, g, i, c, off, s)
    requires off + |s| <= |Grown(c, off, s)| && FileWritten(g, h, i, Grown(c, off, s), off + |s|, t)
    ensures Partial(f, h, i, c, off, s + t)
  {
    SpliceTwice(c, off, s, t);
    OthersTrans(f, g, h, i);
  }

  /** filewrite has written s at off. */
  ghost predicate FileState(f: Fs, g: Fs, i: int, c: seq<int>, off: int, s: seq<int>)
  {
    && 0 <= i < |g.inodes| && Partial(f, g, i, c, off, s)
    && Reads(g, i, Grown(c, off, s)) && g.inodes[i].size == |Grown(c, off, s)|
    && (s != [] ==> off <= |c| && off + |s| <= MAXFILE * BSIZE)
  }

  lemma GrownSize(c: seq<int>, off: int, s: seq<int>)
    requires 0 <= off
    ensures off <= |c| ==> off + |s| <= |Grown(c, off, s)|
    ensures off > |c| ==> Grown(c, off, s) == c
  {
  }

  /** It goes on by one transaction. */
  lemma FileNext(f: Fs, g: Fs, h: Fs, i: int, c: seq<int>, off: int, s: seq<int>, t: seq<int>)
    requires FileState(f, g, i, c, off, s) && off + |s| + |t| <= MAXFILE * BSIZE
    requires off + |s| <= |Grown(c, off, s)| && FileWritten(g, h, i, Grown(c, off, s), off + |s|, t)
    ensures FileState(f, h, i, c, off, s + t)
  {
    GrownNext(f, g, h, i, c, off, s, t);
  }

  /** The bytes of one block that readi copies out are the bytes of the file. */
  lemma BlockBytes(fs: Fs, i: int, c: seq<int>, off: int, m: int)
    requires Reads(fs, i, c) && 0 <= off && 0 <= m && off + m <= |c| && off % BSIZE + m <= BSIZE
    requires 0 < Ref(fs, i, SlotOf(off / BSIZE)) < |fs.data| && |fs.data[Ref(fs, i, SlotOf(off / BSIZE))]| == BSIZE
    ensures fs.data[Ref(fs, i, SlotOf(off / BSIZE))][off % BSIZE..off % BSIZE + m] == c[off..off + m]
  {
    var x := fs.data[Ref(fs, i, SlotOf(off / BSIZE))];
    var got, want := x[off % BSIZE..off % BSIZE + m], c[off..off + m];
    forall k | 0 <= k < m
      ensures got[k] == want[k]
    {
      DivideBlock(off, off + k, m);
      assert ByteIs(fs, i, c, off + k);
    }
  }

  // ---------------------------------------------------------------------------------------------
  // The hole mkfs can leave
  // ---------------------------------------------------------------------------------------------

  /**
    mkfs rounds the root directory's size (mkfs.c:160-161): no hole appears exactly if the entries do not end on a
    block boundary.
  */
  lemma RootSize(len: int)
    requires 0 <= len
    ensures Blocks((len / BSIZE + 1) * BSIZE) == Blocks(len) <==> len % BSIZE != 0
  {
    assert len == len / BSIZE * BSIZE + len % BSIZE;
  }

  /**
    A write into the hole behind the nb mapped blocks changes an address of the inode, so without growth it never
    reaches the disk inode.
  */
  lemma HoleBreaksWriteThrough(f: Fs, i: int, nb: int, off: int, n: int)
    requires MappedTo(f, i, nb) && nb <= NDIRECT && 0 <= off && 0 < n && off / BSIZE == nb
    ensures !TopRange(f, i, off / BSIZE, Reached(off, n))
  {
    assert MapOk(f, i, nb, nb);
    assert !TopOk(f, i, nb);
  }

  /** The write lies within one of the blocks that the inode itself names. */
  predicate OneDirect(off: int, n: int)
  {
    0 <= off && off / BSIZE < NDIRECT && off % BSIZE + n <= BSIZE
  }

  /** The guards of writei, in 32-bit arithmetic (fs.c:493-496). */
  predicate Refuses(len: int, off: int, n: int)
  {
    off > len || off + n >= UINT || off + n > MAXFILE * BSIZE
  }
}
