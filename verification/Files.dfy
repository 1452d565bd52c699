/**
  Files as byte sequences: what bmap's allocations and writei's block writes do to the bytes of every
  file, and how many blocks a file of a given length has.
*/
module Files {
  import opened Words
  import opened Bitmap
  import opened Inodes

  /** The number of blocks that hold len bytes. */
  function Blocks(len: int): int
  {
    (len + BSIZE - 1) / BSIZE
  }

  /** Byte pos of inode i, wherever its block is. */
  function Byte(fs: Fs, i: int, pos: int): int
  {
    var b := Ref(fs, i, SlotOf(pos / BSIZE));
    if 0 < b < |fs.data| && 0 <= pos % BSIZE < |fs.data[b]| then fs.data[b][pos % BSIZE] else 0
  }

  predicate ByteIs(fs: Fs, i: int, c: seq<int>, pos: int)
    requires 0 <= pos < |c|
  {
    Byte(fs, i, pos) == c[pos]
  }

  /** The first |c| bytes of inode i are c. */
  ghost predicate Reads(fs: Fs, i: int, c: seq<int>)
  {
    forall pos :: 0 <= pos < |c| ==> ByteIs(fs, i, c, pos)
  }

  predicate MapOk(fs: Fs, i: int, nb: int, bn: int)
  {
    Ref(fs, i, SlotOf(bn)) != 0 <==> bn < nb
  }

  /** Inode i has exactly its first nb blocks, without holes, and an indirect block exactly if it needs one. */
  ghost predicate MappedTo(fs: Fs, i: int, nb: int)
  {
    && 0 <= nb <= MAXFILE
    && (forall bn :: 0 <= bn < MAXFILE ==> MapOk(fs, i, nb, bn))
    && (Indirect(fs, i) != 0 <==> nb > NDIRECT)
  }

  /** The invariant readi and writei rely on (and mkfs can break, see HoleBreaksWriteThrough). */
  ghost predicate NoHoles(fs: Fs, i: int)
  {
    0 <= i < |fs.inodes| && 0 <= fs.inodes[i].size <= MAXFILE * BSIZE && MappedTo(fs, i, Blocks(fs.inodes[i].size))
  }

  // ---------------------------------------------------------------------------------------------
  // Frames: what a step leaves alone
  // ---------------------------------------------------------------------------------------------

  /** Slot m of inode j still names the same block, with the same bytes if it is a data block. */
  predicate Kept(f: Fs, g: Fs, j: int, m: int)
  {
    var b := Ref(f, j, m);
    b != 0 ==> Ref(g, j, m) == b && (m != NDIRECT ==> 0 < b < |f.data| && b < |g.data| && g.data[b] == f.data[b])
  }

  /** Nothing that any slot named is lost or changed. */
  ghost predicate AllKept(f: Fs, g: Fs)
  {
    |g.data| == |f.data| && forall j, m :: 0 <= j < |f.inodes| && 0 <= m < SLOTS ==> Kept(f, g, j, m)
  }

  /** Slots of inode i other than those in `news`, and all slots of other inodes, are as before. */
  predicate Untouched(f: Fs, g: Fs, i: int, news: set<int>, j: int, m: int)
  {
    (j == i && m in news) || Ref(g, j, m) == Ref(f, j, m)
  }

  ghost predicate OnlyNew(f: Fs, g: Fs, i: int, news: set<int>)
  {
    forall j, m :: 0 <= j < |f.inodes| && 0 <= m < SLOTS ==> Untouched(f, g, i, news, j, m)
  }

  /** Only the addresses of inode i may differ. */
  ghost predicate SameMeta(f: Fs, g: Fs, i: int)
  {
    && g.size == f.size && g.nmeta == f.nmeta && |g.inodes| == |f.inodes| && 0 <= i < |f.inodes|
    && (forall j :: 0 <= j < |f.inodes| && j != i ==> g.inodes[j] == f.inodes[j])
    && g.inodes[i] == f.inodes[i].(addrs := g.inodes[i].addrs)
  }

  /** Filling empty slots with zero blocks changes no byte of any file. */
  lemma ExtendedReads(f: Fs, g: Fs, i: int, news: set<int>, j: int, c: seq<int>)
    requires Extended(f, g, i, news) && 0 <= j < |f.inodes| && |c| <= MAXFILE * BSIZE && Reads(f, j, c)
    ensures Reads(g, j, c)
  {
    forall pos | 0 <= pos < |c|
      ensures ByteIs(g, j, c, pos)
    {
      var m := SlotOf(pos / BSIZE);
      assert ByteIs(f, j, c, pos);
      assert Kept(f, g, j, m);
      assert Untouched(f, g, i, news, j, m);
      assert j == i && m in news ==> Fresh(g, i, m);
    }
  }

  lemma KeptTrans(f: Fs, g: Fs, h: Fs)
    requires AllKept(f, g) && AllKept(g, h) && |f.inodes| == |g.inodes|
    ensures AllKept(f, h)
  {
    forall j, m | 0 <= j < |f.inodes| && 0 <= m < SLOTS
      ensures Kept(f, h, j, m)
    {
      assert Kept(f, g, j, m) && Kept(g, h, j, m);
    }
  }

  lemma KeptSelf(f: Fs, owner: map<int, Slot>)
    requires Own(f, owner, -1, 0)
    ensures AllKept(f, f)
  {
    forall j, m | 0 <= j < |f.inodes| && 0 <= m < SLOTS
      ensures Kept(f, f, j, m)
    {
      assert SlotOk(f, owner, j, m);
    }
  }

  /** Attaching a fresh block changes no block that any slot named, except by filling the indirect entry. */
  lemma AttachFrame(fs: Fs, owner: map<int, Slot>, i: int, k: int, b: int)
    requires Own(fs, owner, -1, 0) && Open(fs, i, k) && 0 <= b < fs.size && !Bit(fs.bitmap, b)
    ensures k > NDIRECT ==> 0 <= Indirect(fs, i) < fs.size
    ensures var g := Attach(fs, i, k, b);
            AllKept(fs, g) && OnlyNew(fs, g, i, {k}) && SameMeta(fs, g, i) && Ref(g, i, k) == b && Fresh(g, i, k)
  {
    FreshBlock(fs, owner, b);
    IndirectOwned(fs, owner, -1, 0, i);
    var g := Attach(fs, i, k, b);
    forall j, m | 0 <= j < |fs.inodes| && 0 <= m < SLOTS
      ensures Kept(fs, g, j, m) && Untouched(fs, g, i, {k}, j, m)
    {
      AttachRef(fs, owner, i, k, b, j, m);
      assert SlotOk(fs, owner, j, m);
    }
    AttachRef(fs, owner, i, k, b, i, k);
  }

  // ---------------------------------------------------------------------------------------------
  // Growing a file by one block
  // ---------------------------------------------------------------------------------------------

  /** The next block of a file without holes. */
  lemma Grows(f: Fs, g: Fs, i: int, nb: int, news: set<int>)
    requires MappedTo(f, i, nb) && nb < MAXFILE && 0 <= i < |f.inodes| && OnlyNew(f, g, i, news)
    requires news == {SlotOf(nb)} || (nb == NDIRECT && news == {NDIRECT, SlotOf(nb)})
    requires Ref(g, i, SlotOf(nb)) != 0 && |g.inodes| == |f.inodes|
    requires nb == NDIRECT ==> Ref(g, i, NDIRECT) != 0
    requires |f.inodes[i].addrs| == |g.inodes[i].addrs| == NDIRECT + 1
    ensures MappedTo(g, i, nb + 1)
  {
    var more := nb + 1;
    forall bn | 0 <= bn < MAXFILE
      ensures MapOk(g, i, more, bn)
    {
      assert MapOk(f, i, nb, bn);
      assert Untouched(f, g, i, news, i, SlotOf(bn));
    }
    assert Untouched(f, g, i, news, i, NDIRECT);
  }

  // ---------------------------------------------------------------------------------------------
  // Writing bytes
  // ---------------------------------------------------------------------------------------------

  /** c with src laid over it from position off on, extending it if need be. */
  function Splice(c: seq<int>, off: int, src: seq<int>): (r: seq<int>)
    requires 0 <= off <= |c|
    ensures |r| == if off + |src| > |c| then off + |src| else |c|
  {
    c[..off] + src + (if off + |src| < |c| then c[off + |src|..] else [])
  }

  lemma SpliceAt(c: seq<int>, off: int, src: seq<int>, pos: int)
    requires 0 <= off <= |c| && 0 <= pos < |Splice(c, off, src)|
    ensures off <= pos < off + |src| ==> Splice(c, off, src)[pos] == src[pos - off]
    ensures !(off <= pos < off + |src|) ==> pos < |c| && Splice(c, off, src)[pos] == c[pos]
  {
  }

  /** Splicing in two adjacent pieces is splicing their concatenation. */
  lemma SpliceTwice(c: seq<int>, off: int, s: seq<int>, t: seq<int>)
    requires 0 <= off <= |c|
    ensures off + |s| <= |Splice(c, off, s)| && Splice(Splice(c, off, s), off + |s|, t) == Splice(c, off, s + t)
  {
    var a, b := Splice(Splice(c, off, s), off + |s|, t), Splice(c, off, s + t);
    assert |a| == |b|;
    forall pos | 0 <= pos < |a|
      ensures a[pos] == b[pos]
    {
      SpliceAt(Splice(c, off, s), off + |s|, t, pos);
      SpliceAt(c, off, s + t, pos);
      if pos < |Splice(c, off, s)| { SpliceAt(c, off, s, pos); }
    }
  }

  /** The block with bytes at .. at+|s| replaced (fs.c:501). */
  function Patch(x: seq<int>, at: int, s: seq<int>): (r: seq<int>)
    requires 0 <= at && at + |s| <= |x|
    ensures |r| == |x|
  {
    x[..at] + s + x[at + |s|..]
  }

  lemma DivideBlock(off: int, pos: int, m: int)
    requires 0 <= off && 0 <= pos && 0 <= m && off % BSIZE + m <= BSIZE && pos / BSIZE == off / BSIZE
    ensures off <= pos < off + m <==> off % BSIZE <= pos % BSIZE < off % BSIZE + m
    ensures pos - off == pos % BSIZE - off % BSIZE
  {
  }

  lemma SameBlock(off: int, pos: int, m: int)
    requires 0 <= off <= pos < off + m && off % BSIZE + m <= BSIZE
    ensures pos / BSIZE == off / BSIZE
  {
  }

  /** Patching the mapped block that holds position off splices the bytes into the file. */
  lemma PatchSplices(fs: Fs, owner: map<int, Slot>, i: int, c: seq<int>, off: int, s: seq<int>)
    requires Own(fs, owner, -1, 0) && 0 <= i < |fs.inodes| && Reads(fs, i, c) && |c| <= MAXFILE * BSIZE
    requires 0 <= off <= |c| && off % BSIZE + |s| <= BSIZE && off / BSIZE < MAXFILE
      && Ref(fs, i, SlotOf(off / BSIZE)) != 0
    ensures var b := Ref(fs, i, SlotOf(off / BSIZE));
            && fs.nmeta <= b < fs.size && b in owner && owner[b] == Slot(i, SlotOf(off / BSIZE))
            && |fs.data[b]| == BSIZE
            && Reads(WriteBlock(fs, b, Patch(fs.data[b], off % BSIZE, s)), i, Splice(c, off, s))
  {
    var b := Ref(fs, i, SlotOf(off / BSIZE));
    assert SlotOk(fs, owner, i, SlotOf(off / BSIZE));
    var x := Patch(fs.data[b], off % BSIZE, s);
    var g, d := WriteBlock(fs, b, x), Splice(c, off, s);
    WriteBlockKeeps(fs, owner, b, x);
    forall pos | 0 <= pos < |d|
      ensures ByteIs(g, i, d, pos)
    {
      SpliceAt(c, off, s, pos);
      if pos / BSIZE == off / BSIZE {
        DivideBlock(off, pos, |s|);
        if pos < |c| { assert ByteIs(fs, i, c, pos); }
      } else {
        assert !(off <= pos < off + |s|) by { if off <= pos < off + |s| { SameBlock(off, pos, |s|); } }
        assert ByteIs(fs, i, c, pos);
        assert SlotOk(fs, owner, i, SlotOf(pos / BSIZE));
      }
    }
  }

  // ---------------------------------------------------------------------------------------------
  // bmap as one step
  // ---------------------------------------------------------------------------------------------

  /** The slots bmap fills for block bn of inode i. */
  function NewSlots(f: Fs, i: int, bn: int): set<int>
  {
    (if Ref(f, i, SlotOf(bn)) == 0 then {SlotOf(bn)} else {})
    + (if bn >= NDIRECT && Indirect(f, i) == 0 then {NDIRECT} else {})
  }

  /** Slot m of inode i names a block, an empty one if it is a data block. */
  predicate Fresh(g: Fs, i: int, m: int)
  {
    Ref(g, i, m) != 0 && (m != NDIRECT ==> 0 < Ref(g, i, m) < |g.data| && g.data[Ref(g, i, m)] == ZeroBlock())
  }

  /** g is f with the slots `news` of inode i, empty before, filled by fresh blocks. */
  ghost predicate Extended(f: Fs, g: Fs, i: int, news: set<int>)
  {
    && AllKept(f, g) && SameMeta(f, g, i) && OnlyNew(f, g, i, news)
    && forall m :: m in news ==> 0 <= m < SLOTS && Ref(f, i, m) == 0 && Fresh(g, i, m)
  }

  lemma ExtendedTwice(f: Fs, g: Fs, h: Fs, i: int, a: set<int>, b: set<int>)
    requires Extended(f, g, i, a) && Extended(g, h, i, b)
    ensures Extended(f, h, i, a + b)
  {
    KeptTrans(f, g, h);
    forall j, m | 0 <= j < |f.inodes| && 0 <= m < SLOTS
      ensures Untouched(f, h, i, a + b, j, m)
    {
      assert Untouched(f, g, i, a, j, m) && Untouched(g, h, i, b, j, m);
    }
    forall m | m in a + b
      ensures Ref(f, i, m) == 0 && Fresh(h, i, m)
    {
      if m in a {
        assert Fresh(g, i, m) && Kept(g, h, i, m);
      } else {
        assert Untouched(f, g, i, a, i, m);
      }
    }
  }

  lemma ExtendedSelf(f: Fs, owner: map<int, Slot>, i: int)
    requires Own(f, owner, -1, 0) && 0 <= i < |f.inodes|
    ensures Extended(f, f, i, {})
  {
    KeptSelf(f, owner);
  }

  /** The one slot, or none, that a single allocation fills. */
  function NewSlot(f: Fs, i: int, k: int): set<int>
  {
    if Ref(f, i, k) == 0 then {k} else {}
  }

  /** Allocating a block for an open slot is filling that one slot. */
  lemma AttachWhole(f: Fs, owner: map<int, Slot>, i: int, k: int, b: int, g: Fs, own: map<int, Slot>)
    requires Own(f, owner, -1, 0) && Open(f, i, k) && 0 <= b < f.size && !Bit(f.bitmap, b)
    requires (k > NDIRECT ==> 0 <= Indirect(f, i) < f.size) && g == Attach(f, i, k, b) && own == owner[b := Slot(i, k)]
    ensures Own(g, own, -1, 0) && b != 0 && Ref(g, i, k) == b
    ensures NewSlot(f, i, k) == {k} && Extended(f, g, i, {k})
  {
    FreshBlock(f, owner, b);
    AttachKeeps(f, owner, i, k, b);
    AttachFrame(f, owner, i, k, b);
  }

  /** Filling the indirect address and then the entry is filling bmap's new slots. */
  lemma TwoNewSlots(f: Fs, g: Fs, h: Fs, i: int, bn: int)
    requires NDIRECT <= bn < MAXFILE && 0 <= i < |f.inodes| && |f.inodes[i].addrs| == NDIRECT + 1
    requires Extended(f, g, i, NewSlot(f, i, NDIRECT)) && Extended(g, h, i, NewSlot(g, i, SlotOf(bn)))
    ensures Ref(g, i, SlotOf(bn)) == Ref(f, i, SlotOf(bn))
    ensures Extended(f, h, i, NewSlots(f, i, bn))
    ensures NewSlots(f, i, bn) == NewSlot(f, i, NDIRECT) + NewSlot(g, i, SlotOf(bn))
    ensures |NewSlots(f, i, bn)| == |NewSlot(f, i, NDIRECT)| + |NewSlot(g, i, SlotOf(bn))|
  {
    assert Untouched(f, g, i, NewSlot(f, i, NDIRECT), i, SlotOf(bn));
    ExtendedTwice(f, g, h, i, NewSlot(f, i, NDIRECT), NewSlot(g, i, SlotOf(bn)));
    assert NewSlots(f, i, bn) == NewSlot(f, i, NDIRECT) + NewSlot(g, i, SlotOf(bn));
  }
}
