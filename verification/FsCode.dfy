/** balloc, bfree, bmap, itrunc, iupdate, readi, writei and get_fs_stats of fs.c, updating the disk in place. */
module FsCode {
  import opened Words
  import opened Bitmap
  import opened Inodes
  import opened Files
  import opened Writing
  import opened FileRuns
  import opened Logging

  const IPB: int := 8

  class FileSystem {
    const size: int
    const nmeta: int
    const bmapstart: int
    const inodestart: int
    var bitmap: Bits
    var data: seq<seq<int>>
    /** What a locked, valid in-memory inode holds, and the copies in the inode blocks. */
    var inodes: seq<Inode>
    var dinodes: seq<Inode>
    ghost var owner: map<int, Slot>
    /** The blocks passed to log_write. */
    ghost var logged: set<int>

    ghost function Now(): Fs
      reads this
    {
      Fs(size, nmeta, bitmap, inodes, data)
    }

    ghost predicate Valid()
      reads this
    {
      Own(Now(), owner, -1, 0) && |dinodes| == |inodes|
    }

    /** The only bitmap block, if all bits fit in one. */
    ghost function One(): set<int>
    {
      if size <= BPB then {bmapstart} else {}
    }

    /** Every data and bitmap block changed since f, when `before` was logged, has been passed to log_write. */
    ghost predicate Recorded(f: Fs, before: set<int>)
      reads this
    {
      before <= logged && Covers(bmapstart, f, Now(), logged)
    }

    /** So has the inode block of every inode on disk that has changed. */
    ghost predicate InodesRecorded(was: seq<Inode>)
      reads this
    {
      |dinodes| == |was| && forall j :: InodeLogged(inodestart, IPB, was, dinodes, logged, j)
    }

    /** After a transaction on a file without holes: few blocks logged, no holes, and the inode on disk as in memory. */
    ghost predicate Sound(i: int, same: bool)
      reads this
    {
      |logged| <= Heaviest() && NoHoles(Now(), i) && (same ==> dinodes == inodes)
    }

    /**
      If the file had no holes: at most `top` blocks logged at a time, no holes now, and the inode on disk as in
      memory.
    */
    ghost predicate Careful(f: Fs, i: int, same: bool, top: int)
      reads this
    {
      NoHoles(f, i) ==> top <= Heaviest() && NoHoles(Now(), i) && (same ==> dinodes == inodes)
    }

    /** MAXOPBLOCKS; with a single bitmap block, as on mkfs's disk, even less. */
    ghost function Heaviest(): int
    {
      if One() != {} then SINGLE_BITMAP_BLOCKS else 10
    }

    /**
      A fresh disk as mkfs lays it out before it adds files: the bits of the metadata blocks are set one by
      one (mkfs.c:237-251), and no inode has blocks.
    */
    constructor (blocks: int, meta: int, ninodes: int, start: int, bstart: int)
      requires 0 < meta <= blocks < UINT && 0 <= ninodes
      ensures Valid() && size == blocks && nmeta == meta && |inodes| == ninodes && owner == map[] && logged == {}
      ensures dinodes == inodes && FilesAre(Now(), seq(ninodes, _ => []))
    {
      size, nmeta, bmapstart, inodestart := blocks, meta, bstart, start;
      bitmap := seq(blocks / BPB + 1, _ => seq(BSIZE, _ => 0));
      data := seq(blocks, _ => ZeroBlock());
      inodes := seq(ninodes, _ => Inode(0, 0, 0, seq(NDIRECT + 1, _ => 0)));
      dinodes := seq(ninodes, _ => Inode(0, 0, 0, seq(NDIRECT + 1, _ => 0)));
      owner, logged := map[], {};
      new;
      ghost var d, n := data, inodes;
      BlankBitmap(bitmap, blocks);
      var i := 0;
      while i < meta
        invariant 0 <= i <= meta && Roomy(bitmap, blocks) && data == d && inodes == n && dinodes == n
          && owner == map[] && logged == {}
        invariant forall c :: 0 <= c < blocks ==> (Bit(bitmap, c) <==> c < i)
      {
        ghost var was := bitmap;
        RoomFor(bitmap, size, i);
        PlaceOf(i, i);
        bitmap := SetAt(bitmap, i / BPB, i % BPB / 8, i % 8);
        forall c | 0 <= c < blocks
          ensures Bit(bitmap, c) <==> c < i + 1
        {
          SetBitSets(was, blocks, i, c);
        }
        SetBitSets(was, blocks, i, i);
        i := i + 1;
      }
      BlankOwned(Now());
    }

    /** fs.c:56-78.  The lowest free block, marked and zeroed; panics exactly when there is none. */
    method Balloc() returns (b: int, panicked: bool, ghost mark: int)
      requires Valid()
      modifies `bitmap, `data, `logged
      ensures panicked <==> forall c :: 0 <= c < size ==> Bit(old(bitmap), c)
      ensures panicked ==> Now() == old(Now())
      ensures !panicked ==> 0 <= b < size && !Bit(old(bitmap), b) && forall c :: 0 <= c < b ==> Bit(old(bitmap), c)
      ensures !panicked ==> Now() == Alloc(old(Now()), b)
      ensures !panicked ==>
        logged == old(logged) + {mark, b} && mark == bmapstart + b / BPB && (One() != {} ==> One() == {mark})
      ensures !panicked ==> Recorded(old(Now()), old(logged))
    {
      var found;
      found, b := FindFree(bitmap, size);
      if !found {
        return 0, true, 0;
      }
      RoomFor(bitmap, size, b);
      PlaceOf(b, b);
      var x := bitmap[b / BPB][b % BPB / 8] | Mask(b % 8);
      bitmap := bitmap[b / BPB := bitmap[b / BPB][b % BPB / 8 := x]];
      data := data[b := ZeroBlock()];
      mark := bmapstart + b / BPB;
      logged := logged + {mark, b};
      CoversAlloc(bmapstart, old(Now()), b, logged);
      return b, false, mark;
    }

    /** A new block for ip->addrs[k] (fs.c:380, fs.c:388). */
    method AllocAddr(i: int, k: int) returns (addr: int, panicked: bool, ghost mark: int)
      requires Valid() && Open(Now(), i, k) && k <= NDIRECT
      modifies `bitmap, `data, `logged, `inodes, `owner
      ensures panicked ==> forall c :: 0 <= c < size ==> Bit(bitmap, c)
      ensures panicked ==> bitmap == old(bitmap)
      ensures !panicked ==> Valid() && addr != 0 && addr == Ref(Now(), i, k) && Extended(old(Now()), Now(), i, {k})
      ensures !panicked ==> logged == old(logged) + {mark, addr} && MarksOk({mark}, {k}, One())
      ensures !panicked ==> Recorded(old(Now()), old(logged))
    {
      ghost var f, own := Now(), owner;
      addr, panicked, mark := Balloc();
      if panicked {
        return;
      }
      ghost var g := Now();
      inodes := inodes[i := inodes[i].(addrs := inodes[i].addrs[k := addr])];
      owner := owner[addr := Slot(i, k)];
      CoversInodes(bmapstart, f, g, Now(), logged);
      AttachWhole(f, own, i, k, addr, Now(), owner);
      OneMark(mark, k, One());
    }

    /** The pattern "if the address is 0, balloc one" for ip->addrs[k] (fs.c:379-380, fs.c:387-388). */
    method AddrOrAlloc(i: int, k: int) returns (addr: int, panicked: bool, ghost marks: set<int>)
      requires Valid() && 0 <= i < |inodes| && 0 <= k <= NDIRECT
      modifies `bitmap, `data, `logged, `inodes, `owner
      ensures panicked ==> forall c :: 0 <= c < size ==> Bit(bitmap, c)
      ensures panicked ==> bitmap == old(bitmap)
      ensures !panicked ==> Valid() && addr != 0 && addr == Ref(Now(), i, k)
      ensures !panicked ==> Extended(old(Now()), Now(), i, NewSlot(old(Now()), i, k))
      ensures !panicked ==> logged == old(logged) + marks + (if Ref(old(Now()), i, k) == 0 then {addr} else {})
      ensures !panicked ==> MarksOk(marks, NewSlot(old(Now()), i, k), One())
      ensures Ref(old(Now()), i, k) != 0 ==> !panicked && Now() == old(Now())
      ensures !panicked ==> Recorded(old(Now()), old(logged))
    {
      panicked, marks := false, {};
      addr := inodes[i].addrs[k];
      if addr == 0 {
        ghost var mark;
        addr, panicked, mark := AllocAddr(i, k);
        marks := {mark};
      } else {
        ExtendedSelf(Now(), owner, i);
        CoversSame(bmapstart, Now(), Now(), logged);
      }
    }

    /** A new block for the word of the indirect block that is slot k (fs.c:392-393). */
    method AllocEntry(i: int, k: int) returns (addr: int, panicked: bool, ghost mark: int)
      requires Valid() && Open(Now(), i, k) && NDIRECT < k
      modifies `bitmap, `data, `logged, `owner
      ensures panicked ==> forall c :: 0 <= c < size ==> Bit(bitmap, c)
      ensures !panicked ==> Valid() && addr != 0 && addr == Ref(Now(), i, k) && Extended(old(Now()), Now(), i, {k})
      ensures !panicked ==> logged == old(logged) + {mark, addr} + {Indirect(Now(), i)} && MarksOk({mark}, {k}, One())
      ensures !panicked ==> Recorded(old(Now()), old(logged))
    {
      ghost var f, own := Now(), owner;
      IndirectOwned(f, owner, -1, 0, i);
      var ind := inodes[i].addrs[NDIRECT];
      addr, panicked, mark := Balloc();
      if panicked {
        return;
      }
      assert addr != ind by {
        FreshBlock(f, own, addr);
      }
      ghost var g, first := Now(), logged;
      data := data[ind := SetWord(data[ind], k - NDIRECT - 1, addr)];
      owner := owner[addr := Slot(i, k)];
      logged := logged + {ind};
      CoversWrite(bmapstart, g, ind, data[ind], logged);
      CoversTrans(bmapstart, f, g, Now(), first, logged);
      AttachWhole(f, own, i, k, addr, Now(), owner);
      OneMark(mark, k, One());
    }

    /** The same pattern for an indirect entry (fs.c:389-395). */
    method EntryOrAlloc(i: int, k: int) returns (addr: int, panicked: bool, ghost marks: set<int>)
      requires Valid() && 0 <= i < |inodes| && NDIRECT < k < SLOTS && Indirect(Now(), i) != 0
      modifies `bitmap, `data, `logged, `owner
      ensures panicked ==> forall c :: 0 <= c < size ==> Bit(bitmap, c)
      ensures !panicked ==> Valid() && addr != 0 && addr == Ref(Now(), i, k)
      ensures !panicked ==> Extended(old(Now()), Now(), i, NewSlot(old(Now()), i, k))
      ensures !panicked ==>
        logged == old(logged) + marks + (if Ref(old(Now()), i, k) == 0 then {addr, Indirect(Now(), i)} else {})
      ensures !panicked ==> MarksOk(marks, NewSlot(old(Now()), i, k), One())
      ensures Ref(old(Now()), i, k) != 0 ==> !panicked && Now() == old(Now())
      ensures !panicked ==> Recorded(old(Now()), old(logged))
    {
      panicked, marks := false, {};
      IndirectOwned(Now(), owner, -1, 0, i);
      addr := Word(data[inodes[i].addrs[NDIRECT]], k - NDIRECT - 1);
      if addr == 0 {
        ghost var mark;
        addr, panicked, mark := AllocEntry(i, k);
        marks := {mark};
      } else {
        ExtendedSelf(Now(), owner, i);
        CoversSame(bmapstart, Now(), Now(), logged);
      }
    }

    /** fs.c:372-400. */
    method Bmap(i: int, bn: int) returns (addr: int, panicked: bool, ghost marks: set<int>)
      requires Valid() && 0 <= i < |inodes| && 0 <= bn
      modifies `bitmap, `data, `logged, `inodes, `owner
      ensures panicked ==> bn >= MAXFILE || forall c :: 0 <= c < size ==> Bit(bitmap, c)
      ensures panicked && bn < NDIRECT ==> bitmap == old(bitmap)
      ensures !panicked ==> bn < MAXFILE && Valid() && addr != 0 && addr == Ref(Now(), i, SlotOf(bn))
      ensures !panicked ==> Extended(old(Now()), Now(), i, NewSlots(old(Now()), i, bn))
      ensures !panicked ==>
        logged <= old(logged) + marks
                  + (if Ref(old(Now()), i, SlotOf(bn)) != 0 then {}
                     else if bn < NDIRECT then {addr} else {addr, Indirect(Now(), i)})
      ensures !panicked ==> MarksOk(marks, NewSlots(old(Now()), i, bn), One())
      ensures bn < MAXFILE && Ref(old(Now()), i, SlotOf(bn)) != 0 ==>
        !panicked && Now() == old(Now()) && logged == old(logged)
      ensures !panicked ==> Recorded(old(Now()), old(logged))
    {
      if bn < NDIRECT {
        assert NewSlots(Now(), i, bn) == NewSlot(Now(), i, bn);
        addr, panicked, marks := AddrOrAlloc(i, bn);
      } else if bn < MAXFILE {
        addr, panicked, marks := BmapIndirect(i, bn);
      } else {
        return 0, true, {};
      }
    }

    /** fs.c:385-397: the indirect block first, then its entry. */
    method BmapIndirect(i: int, bn: int) returns (addr: int, panicked: bool, ghost marks: set<int>)
      requires Valid() && 0 <= i < |inodes| && NDIRECT <= bn < MAXFILE
      modifies `bitmap, `data, `logged, `inodes, `owner
      ensures panicked ==> forall c :: 0 <= c < size ==> Bit(bitmap, c)
      ensures !panicked ==> Valid() && addr != 0 && addr == Ref(Now(), i, SlotOf(bn))
      ensures !panicked ==> Extended(old(Now()), Now(), i, NewSlots(old(Now()), i, bn))
      ensures !panicked ==>
        logged <= old(logged) + marks + (if Ref(old(Now()), i, SlotOf(bn)) == 0 then {addr, Indirect(Now(), i)} else {})
      ensures !panicked ==> MarksOk(marks, NewSlots(old(Now()), i, bn), One())
      ensures Ref(old(Now()), i, SlotOf(bn)) != 0 ==> !panicked && Now() == old(Now()) && logged == old(logged)
      ensures !panicked ==> Recorded(old(Now()), old(logged))
    {
      ghost var f := Now();
      var ind; ghost var first; ghost var second;
      ind, panicked, first := AddrOrAlloc(i, NDIRECT);
      if panicked {
        return 0, true, {};
      }
      ghost var g, before := Now(), logged;
      var k := SlotOf(bn);
      addr, panicked, second := EntryOrAlloc(i, k);
      assert Untouched(f, g, i, NewSlot(f, i, NDIRECT), i, k);
      if panicked {
        return 0, true, {};
      }
      ghost var h := Now();
      CoversTrans(bmapstart, f, g, h, before, logged);
      TwoNewSlots(f, g, h, i, bn);
      assert ind == Indirect(h, i) by {
        assert Kept(g, h, i, NDIRECT);
      }
      BothMarks(first, second, NewSlot(f, i, NDIRECT), NewSlot(g, i, k), NewSlots(f, i, bn), One());
      marks := first + second;
    }

    /** One iteration of writei's loop: bmap, patch, log_write (fs.c:499-503). */
    method WriteChunk(i: int, off: int, s: seq<int>) returns (panicked: bool, ghost e: Fs, ghost marks: set<int>)
      requires Valid() && 0 <= i < |inodes| && 0 <= off && off / BSIZE < MAXFILE && off % BSIZE + |s| <= BSIZE
      modifies `bitmap, `data, `logged, `inodes, `owner
      ensures panicked ==> forall c :: 0 <= c < size ==> Bit(bitmap, c)
      ensures panicked && off / BSIZE < NDIRECT ==> bitmap == old(bitmap)
      ensures !panicked ==> Valid() && Wrote(old(Now()), e, Now(), owner, i, off, s)
      ensures !panicked ==> MarksOk(marks, NewSlots(old(Now()), i, off / BSIZE), One())
      ensures !panicked ==>
        logged <= old(logged) + ChunkLog(marks, Ref(e, i, SlotOf(off / BSIZE)), NewSlots(old(Now()), i, off / BSIZE),
                                         off / BSIZE, Indirect(e, i))
      ensures !panicked ==> Recorded(old(Now()), old(logged))
    {
      var b;
      b, panicked, marks := Bmap(i, off / BSIZE);
      e := Now();
      if panicked {
        return;
      }
      assert SlotOk(e, owner, i, SlotOf(off / BSIZE));
      ghost var before := logged;
      data := data[b := Patch(data[b], off % BSIZE, s)];
      assert Wrote(old(Now()), e, Now(), owner, i, off, s);
      WroteOwn(old(Now()), e, Now(), owner, i, off, s);
      logged := logged + {b};
      CoversWrite(bmapstart, e, b, data[b], logged);
      CoversTrans(bmapstart, old(Now()), e, Now(), before, logged);
    }

    /** The same iteration, as a step of the whole write. */
    method WriteStep(i: int, off: int, t: seq<int>, ghost f: Fs, ghost c: seq<int>, ghost off0: int, ghost s: seq<int>,
                     ghost all: set<int>)
      returns (panicked: bool, ghost chunk: set<int>)
      requires Valid() && 0 <= i < |inodes| && LoopState(f, Now(), i, c, off0, s, One(), all)
      requires off == off0 + |s| && t != [] && off % BSIZE + |t| <= BSIZE && (s == [] || off % BSIZE == 0)
        && off + |t| <= MAXFILE * BSIZE
      modifies `bitmap, `data, `logged, `inodes, `owner
      ensures panicked ==> forall c :: 0 <= c < size ==> Bit(bitmap, c)
      ensures panicked && off / BSIZE < NDIRECT ==> bitmap == old(bitmap)
      ensures !panicked ==> Valid() && |inodes| == |old(inodes)| && logged <= old(logged) + chunk
      ensures !panicked ==> LoopState(f, Now(), i, c, off0, s + t, One(), all + chunk)
      ensures !panicked ==> Recorded(old(Now()), old(logged))
    {
      ghost var g := Now();
      ghost var e; ghost var marks;
      panicked, e, marks := WriteChunk(i, off, t);
      if panicked {
        return true, {};
      }
      chunk := ChunkLog(marks, Ref(e, i, SlotOf(off / BSIZE)), NewSlots(g, i, off / BSIZE), off / BSIZE,
                        Indirect(e, i));
      LoopStep(f, g, e, Now(), owner, i, c, off0, s, off, t, One(), all, marks, chunk);
    }

    /** writei's loop (fs.c:498-504). */
    method WriteLoop(i: int, src: seq<int>, off0: int, ghost c: seq<int>)
      returns (off: int, panicked: bool, ghost all: set<int>)
      requires Valid() && 0 <= i < |inodes| && 0 <= off0 <= |c| <= MAXFILE * BSIZE && off0 + |src| <= MAXFILE * BSIZE
      requires Reads(Now(), i, c)
      modifies `bitmap, `data, `logged, `inodes, `owner
      ensures panicked ==> forall c :: 0 <= c < size ==> Bit(bitmap, c)
      ensures panicked && OneDirect(off0, |src|) ==> bitmap == old(bitmap)
      ensures !panicked ==> off == off0 + |src| && Valid() && LoopState(old(Now()), Now(), i, c, off0, src, One(), all)
      ensures !panicked ==> logged <= old(logged) + all
      ensures !panicked ==> Recorded(old(Now()), old(logged))
    {
      ghost var f := Now();
      var tot, n := 0, |src|;
      off, panicked, all := off0, false, {};
      LoopStart(f, owner, i, c, off0, One());
      CoversSame(bmapstart, f, f, logged);
      ghost var done, cur := src[..0], f;
      while tot < n
        invariant 0 <= tot <= n && done == src[..tot] && off == off0 + tot && !panicked && 0 <= i < |inodes|
        invariant tot == 0 || off % BSIZE == 0 || tot == n
        invariant OneDirect(off0, n) ==> tot == n || (tot == 0 && bitmap == old(bitmap))
        invariant Valid() && cur == Now() && LoopState(f, cur, i, c, off0, done, One(), all)
          && logged <= old(logged) + all
        invariant Recorded(f, old(logged))
      {
        NextOffset(off, n - tot);
        var m := if n - tot < BSIZE - off % BSIZE then n - tot else BSIZE - off % BSIZE;
        var t := src[tot..tot + m];
        ghost var chunk;
        ghost var before := logged;
        panicked, chunk := WriteStep(i, off, t, f, c, off0, done, all);
        if panicked {
          return;
        }
        CoversTrans(bmapstart, f, cur, Now(), before, logged);
        SliceGrows(src, tot, m);
        all, done, cur := all + chunk, done + t, Now();
        tot, off := tot + m, off + m;
      }
      assert done == src;
    }

    /** fs.c:220-236: the in-memory inode is copied to its inode block. */
    method Iupdate(i: int)
      requires 0 <= i < |inodes| && |dinodes| == |inodes|
      modifies `dinodes, `logged
      ensures dinodes == old(dinodes)[i := inodes[i]] && logged == old(logged) + {inodestart + i / IPB}
    {
      dinodes := dinodes[i := inodes[i]];
      logged := logged + {inodestart + i / IPB};
    }

    /**
      fs.c:481-511.  writei splices src into the file's bytes and touches no other file.  The in-memory
      inode still equals the disk inode afterwards exactly if the file grew or no address in the inode had
      to be filled; a file without holes never needs one unless it grows, stays without holes, and logs at
      most WriteCost blocks.
    */
    method Writei(i: int, src: seq<int>, off0: int, ghost c: seq<int>)
      returns (r: int, panicked: bool, ghost blocks: set<int>)
      requires Valid() && 0 <= i < |inodes| && 0 <= off0 < UINT && |src| < UINT
      requires |c| == inodes[i].size && |c| <= MAXFILE * BSIZE && Reads(Now(), i, c)
      modifies `bitmap, `data, `logged, `inodes, `dinodes, `owner
      ensures Refuses(|c|, off0, |src|) ==> r == -1 && !panicked && unchanged(this)
      ensures panicked ==> forall c :: 0 <= c < size ==> Bit(bitmap, c)
      ensures panicked && OneDirect(off0, |src|) ==> bitmap == old(bitmap)
      ensures !Refuses(|c|, off0, |src|) && !panicked ==>
        r == |src| && Valid() && FileWritten(old(Now()), Now(), i, c, off0, src)
      ensures !Refuses(|c|, off0, |src|) && !panicked && old(dinodes) == old(inodes) ==>
        (dinodes == inodes <==> off0 + |src| > |c| || TopRange(old(Now()), i, off0 / BSIZE, Reached(off0, |src|)))
      ensures !Refuses(|c|, off0, |src|) && !panicked && MappedTo(old(Now()), i, Blocks(|c|)) ==>
        MappedTo(Now(), i, Blocks(inodes[i].size)) && logged <= old(logged) + blocks
        && |blocks| <= WriteCost(|c|, off0, |src|, One() != {})
      ensures !Refuses(|c|, off0, |src|) && !panicked && MappedTo(old(Now()), i, Blocks(|c|)) ==>
        (old(dinodes) == old(inodes) ==> dinodes == inodes)
      ensures !panicked ==> Recorded(old(Now()), old(logged)) && InodesRecorded(old(dinodes))
    {
      var n := |src|;
      blocks := {};
      CoversSame(bmapstart, Now(), Now(), logged);
      if off0 > inodes[i].size || (off0 + n) % UINT < off0 {
        return -1, false, {};
      }
      if (off0 + n) % UINT > MAXFILE * BSIZE {
        return -1, false, {};
      }
      ghost var f := Now();
      var off;
      off, panicked, blocks := WriteLoop(i, src, off0, c);
      if panicked {
        return 0, true, {};
      }
      ghost var h, before := Now(), logged;
      WrittenResize(f, h, owner, i, c, off0, src);
      if MappedTo(f, i, Blocks(|c|)) {
        WrittenMapped(f, h, i, |c|, off0, n, One(), blocks, |Splice(c, off0, src)|);
      }
      UnionSize(blocks, {inodestart + i / IPB});
      var grew := GrowSize(i, off, n);
      assert Now() == Resize(h, i, |Splice(c, off0, src)|);
      CoversSame(bmapstart, h, Now(), logged);
      CoversTrans(bmapstart, f, h, Now(), before, logged);
      if grew {
        blocks := blocks + {inodestart + i / IPB};
      } else if MappedTo(f, i, Blocks(|c|)) {
        NoHolesTop(f, i, |c|, off0, n);
      }
      return n, false, blocks;
    }

    /** fs.c:506-509. */
    method GrowSize(i: int, off: int, n: int) returns (grew: bool)
      requires 0 <= i < |inodes| && |dinodes| == |inodes|
      modifies `inodes, `dinodes, `logged
      ensures grew <==> n > 0 && off > old(inodes)[i].size
      ensures inodes == if grew then old(inodes)[i := old(inodes)[i].(size := off)] else old(inodes)
      ensures dinodes == if grew then old(dinodes)[i := inodes[i]] else old(dinodes)
      ensures logged == if grew then old(logged) + {inodestart + i / IPB} else old(logged)
    {
      grew := n > 0 && off > inodes[i].size;
      if grew {
        inodes := inodes[i := inodes[i].(size := off)];
        Iupdate(i);
      }
    }

    /** One transaction of filewrite: at most three blocks of data, so at most ten logged blocks (file.c:140-145). */
    method WriteTransaction(i: int, s: seq<int>, off: int, ghost c: seq<int>) returns (r: int, panicked: bool)
      requires Valid() && 0 <= i < |inodes| && 0 <= off < UINT && |s| <= 3 * BSIZE
      requires |c| == inodes[i].size && |c| <= MAXFILE * BSIZE && Reads(Now(), i, c)
      modifies `bitmap, `data, `logged, `inodes, `dinodes, `owner
      ensures panicked ==> forall c :: 0 <= c < size ==> Bit(bitmap, c)
      ensures !panicked ==> Valid() && (NoHoles(old(Now()), i) ==> Sound(i, old(dinodes) == old(inodes)))
      ensures Refuses(|c|, off, |s|) ==> r == -1 && !panicked && Now() == old(Now())
      ensures !Refuses(|c|, off, |s|) && !panicked ==> r == |s| && FileWritten(old(Now()), Now(), i, c, off, s)
      ensures !panicked ==> Recorded(old(Now()), {}) && InodesRecorded(old(dinodes))
    {
      logged := {};
      ghost var blocks;
      r, panicked, blocks := Writei(i, s, off, c);
      if !panicked && !Refuses(|c|, off, |s|) && NoHoles(old(Now()), i) {
        SubsetSize(logged, blocks);
        ChunkFits(|c|, off, |s|);
        ChunkOneBitmapBlock(|c|, off, |s|);
      }
    }

    /** One transaction as a step of the whole write. */
    method WriteNext(i: int, t: seq<int>, off: int, ghost f: Fs, ghost c: seq<int>, ghost off0: int, ghost s: seq<int>,
                     ghost same: bool, ghost top: int)
      returns (r: int, panicked: bool, ghost top': int)
      requires Valid() && |c| <= MAXFILE * BSIZE && 0 < |t| <= 3 * BSIZE && off0 < UINT && off == off0 + |s|
      requires FileState(f, Now(), i, c, off0, s) && Careful(f, i, same, top)
      modifies `bitmap, `data, `logged, `inodes, `dinodes, `owner
      ensures panicked ==> forall c :: 0 <= c < size ==> Bit(bitmap, c)
      ensures top' >= top && (NoHoles(f, i) ==> top' <= Heaviest())
      ensures !panicked ==> Valid() && Careful(f, i, same, top') && top' >= |logged|
      ensures !panicked ==> Covers(bmapstart, old(Now()), Now(), logged)
      ensures !panicked && r < 0 ==> Now() == old(Now()) && (off0 > |c| || off + |t| > MAXFILE * BSIZE)
      ensures !panicked && r >= 0 ==> r == |t| && FileState(f, Now(), i, c, off0, s + t)
    {
      ghost var g, d := Now(), Grown(c, off0, s);
      GrownSize(c, off0, s);
      top' := top;
      r, panicked := WriteTransaction(i, t, off, d);
      if panicked {
        return;
      }
      if |logged| > top {
        top' := |logged|;
      }
      if r < 0 {
        return;
      }
      ghost var h := Now();
      assert FileWritten(g, h, i, d, off, t);
      FileNext(f, g, h, i, c, off0, s, t);
    }

    /**
      file.c:117-155 on an inode.  The write is cut into transactions of at most three blocks.  All of src is
      written exactly if it fits; otherwise -1 is returned although a prefix may have been written, and the next
      chunk is the one writei refuses.  In a file without holes each transaction logs at most MAXOPBLOCKS blocks, and
      the inode on disk stays up to date.
    */
    method Filewrite(i: int, src: seq<int>, off0: int, ghost c: seq<int>)
      returns (r: int, off: int, panicked: bool, ghost heaviest: int, ghost done: seq<int>, ghost ts: seq<Trans>)
      requires Valid() && 0 <= i < |inodes| && 0 <= off0 < UINT && |src| < UINT / 2
      requires |c| == inodes[i].size && |c| <= MAXFILE * BSIZE && Reads(Now(), i, c)
      modifies `bitmap, `data, `logged, `inodes, `dinodes, `owner
      ensures panicked ==> forall c :: 0 <= c < size ==> Bit(bitmap, c)
      ensures NoHoles(old(Now()), i) ==> heaviest <= Heaviest()
      ensures !panicked ==> Chained(bmapstart, ts, old(Now()), Now())
      ensures !panicked ==> Careful(old(Now()), i, old(dinodes) == old(inodes), heaviest)
      ensures !panicked ==> Valid() && done <= src && off == off0 + |done|
      ensures !panicked ==> Partial(old(Now()), Now(), i, c, off0, done)
      ensures !panicked ==> r == if done == src then |src| else -1
      ensures !panicked && src != [] ==> (done == src <==> off0 <= |c| && off0 + |src| <= MAXFILE * BSIZE)
    {
      var w, n := 0, |src|;
      heaviest, off, done, ts := 0, off0, [], [];
      var max := (10 - 1 - 1 - 2) / 2 * 512;
      ghost var f, cur, same := Now(), Now(), dinodes == inodes;
      PartialStart(f, owner, i, c, off0);
      while w < n
        invariant 0 <= w <= n && off == off0 + w && done == src[..w]
        invariant Valid() && cur == Now() && FileState(f, cur, i, c, off0, done)
        invariant Careful(f, i, same, heaviest) && Chained(bmapstart, ts, f, cur)
      {
        var n1 := if n - w > max then max else n - w;
        var t := src[w..w + n1];
        r, panicked, heaviest := WriteNext(i, t, off, f, c, off0, done, same, heaviest);
        if panicked {
          return;
        }
        ChainMore(bmapstart, ts, f, cur, Now(), logged);
        ts := ts + [Trans(cur, Now(), logged)];
        if r < 0 {
          return -1, off, false, heaviest, done, ts;
        }
        SliceGrows(src, w, n1);
        w, off, done, cur := w + r, off + r, done + t, Now();
      }
      return n, off, false, heaviest, done, ts;
    }

    /** One iteration of readi's loop (fs.c:469-473). */
    method ReadStep(i: int, off: int, m: int, ghost c: seq<int>, ghost f: Fs, ghost some: set<int>,
                    ghost before: set<int>)
      returns (bytes: seq<int>, panicked: bool, ghost news: set<int>)
      requires Valid() && 0 <= i < |inodes| && 0 <= off && 0 < m && off % BSIZE + m <= BSIZE
        && off + m <= |c| <= MAXFILE * BSIZE
      requires Extended(f, Now(), i, some) && Reads(Now(), i, c) && Recorded(f, before)
      modifies `bitmap, `data, `logged, `inodes, `owner
      ensures panicked ==> forall c :: 0 <= c < size ==> Bit(bitmap, c)
      ensures !panicked ==> Valid() && Extended(f, Now(), i, news) && Reads(Now(), i, c) && bytes == c[off..off + m]
      ensures MappedTo(old(Now()), i, Blocks(|c|)) ==> !panicked && Now() == old(Now()) && logged == old(logged)
      ensures !panicked ==> Recorded(f, before)
    {
      ghost var g := Now();
      if MappedTo(g, i, Blocks(|c|)) {
        assert MapOk(g, i, Blocks(|c|), off / BSIZE);
      }
      var b; ghost var marks;
      ghost var first := logged;
      b, panicked, marks := Bmap(i, off / BSIZE);
      if panicked {
        return [], true, {};
      }
      CoversTrans(bmapstart, f, g, Now(), first, logged);
      ghost var h, filled := Now(), NewSlots(g, i, off / BSIZE);
      assert SlotOk(h, owner, i, SlotOf(off / BSIZE));
      ExtendedReads(g, h, i, filled, i, c);
      ExtendedTwice(f, g, h, i, some, filled);
      BlockBytes(h, i, c, off, m);
      return data[b][off % BSIZE..off % BSIZE + m], false, some + filled;
    }

    /**
      fs.c:452-476.  readi returns the bytes of the file from off on, cut at its end.  Only in a file with
      holes does it change anything: the holes it passes are filled with zero blocks, and no byte changes.
    */
    method Readi(i: int, off0: int, n0: int, ghost c: seq<int>)
      returns (r: int, dst: seq<int>, panicked: bool, ghost news: set<int>)
      requires Valid() && 0 <= i < |inodes| && 0 <= off0 < UINT && 0 <= n0 < UINT
      requires |c| == inodes[i].size && |c| <= MAXFILE * BSIZE && Reads(Now(), i, c)
      modifies `bitmap, `data, `logged, `inodes, `owner
      ensures panicked ==> forall c :: 0 <= c < size ==> Bit(bitmap, c)
      ensures off0 > |c| || off0 + n0 >= UINT ==> r == -1 && !panicked && unchanged(this)
      ensures !(off0 > |c| || off0 + n0 >= UINT) && !panicked ==>
        dst == c[off0..if off0 + n0 > |c| then |c| else off0 + n0] && r == |dst|
      ensures !panicked ==> Valid() && Extended(old(Now()), Now(), i, news) && Reads(Now(), i, c)
      ensures MappedTo(old(Now()), i, Blocks(|c|)) ==> !panicked && Now() == old(Now()) && logged == old(logged)
      ensures !panicked ==> Recorded(old(Now()), old(logged))
    {
      ghost var f := Now();
      dst, panicked, news := [], false, {};
      ExtendedSelf(f, owner, i);
      CoversSame(bmapstart, f, f, logged);
      if off0 > inodes[i].size || (off0 + n0) % UINT < off0 {
        return -1, [], false, {};
      }
      var n := if (off0 + n0) % UINT > inodes[i].size then inodes[i].size - off0 else n0;
      var tot, off := 0, off0;
      while tot < n
        invariant 0 <= tot <= n && off == off0 + tot && !panicked && dst == c[off0..off] && 0 <= i < |inodes|
        invariant Valid() && Extended(f, Now(), i, news) && Reads(Now(), i, c) && Recorded(f, old(logged))
        invariant MappedTo(f, i, Blocks(|c|)) ==> Now() == f && logged == old(logged)
      {
        NextOffset(off, n - tot);
        var m := if n - tot < BSIZE - off % BSIZE then n - tot else BSIZE - off % BSIZE;
        var bytes;
        bytes, panicked, news := ReadStep(i, off, m, c, f, news, old(logged));
        if panicked {
          return 0, [], true, {};
        }
        dst := dst + bytes;
        tot, off := tot + m, off + m;
      }
      return n, dst, false, news;
    }

    /** fs.c:81-95.  Panics exactly when the block is already free. */
    method Bfree(b: int) returns (panicked: bool)
      requires Roomy(bitmap, size) && 0 <= b < size
      modifies `bitmap, `logged
      ensures panicked <==> !Bit(old(bitmap), b)
      ensures bitmap == if panicked then old(bitmap) else ClearBit(old(bitmap), b)
      ensures !panicked ==> Recorded(old(Now()), old(logged))
    {
      RoomFor(bitmap, size, b);
      PlaceOf(b, b);
      BitInBlock(b);
      var block, bi := b / BPB, b % BPB;
      if !Has(bitmap[block][bi / 8], bi % 8) {
        return true;
      }
      bitmap := ClearAt(bitmap, block, bi / 8, bi % 8);
      logged := logged + {bmapstart + b / BPB};
      CoversClear(bmapstart, old(Now()), b, logged);
      return false;
    }

    /** Give back the block of ip->addrs[k] (fs.c:416-418). */
    method FreeAddr(i: int, k: int, ghost f: Fs, ghost before: set<int>) returns (panicked: bool)
      requires Valid() && 0 <= i < |inodes| && 0 <= k < NDIRECT && inodes[i].addrs[k] != 0 && Recorded(f, before)
      modifies `bitmap, `logged, `inodes, `owner
      ensures !panicked && Valid() && owner == old(owner) - {old(inodes)[i].addrs[k]} && Recorded(f, before)
      ensures inodes == old(inodes)[i := old(inodes)[i].(addrs := old(inodes)[i].addrs[k := 0])]
    {
      ghost var g, first := Now(), logged;
      var b := inodes[i].addrs[k];
      FreeDirect(g, owner, i, k);
      panicked := Bfree(b);
      ghost var h := Now();
      inodes := inodes[i := inodes[i].(addrs := inodes[i].addrs[k := 0])];
      owner := owner - {b};
      assert Now() == SetAddr(Release(g, b), i, k, 0);
      CoversTrans(bmapstart, f, g, h, first, logged);
      CoversInodes(bmapstart, f, h, Now(), logged);
    }

    /** fs.c:414-419. */
    method TruncDirect(i: int) returns (panicked: bool)
      requires Valid() && 0 <= i < |inodes|
      modifies `bitmap, `logged, `inodes, `owner
      ensures !panicked && Valid() && owner == Without(old(owner), i, NDIRECT, 0)
      ensures inodes == old(inodes)[i := old(inodes)[i].(addrs := inodes[i].addrs)]
      ensures inodes[i].addrs == seq(NDIRECT, _ => 0) + [old(inodes)[i].addrs[NDIRECT]]
      ensures !panicked ==> Recorded(old(Now()), old(logged))
    {
      var k := 0;
      ghost var was := inodes[i];
      panicked := false;
      NoneCut(Now(), owner, i);
      CoversSame(bmapstart, Now(), Now(), logged);
      while k < NDIRECT
        invariant 0 <= k <= NDIRECT && !panicked && Valid() && owner == Without(old(owner), i, k, 0)
        invariant Recorded(old(Now()), old(logged))
        invariant inodes == old(inodes)[i := was.(addrs := inodes[i].addrs)]
        invariant forall m :: 0 <= m <= NDIRECT ==> inodes[i].addrs[m] == if m < k then 0 else was.addrs[m]
      {
        ghost var f := Now();
        NoneGiven(f, owner, i);
        WithoutNext(f, old(owner), i, k, 0, k, Without(old(owner), i, k + 1, 0));
        if inodes[i].addrs[k] != 0 {
          panicked := FreeAddr(i, k, old(Now()), old(logged));
        }
        k := k + 1;
      }
    }

    /** Give back block b, of which `was` is the state and `before` were the logged blocks at the start. */
    method FreeBlock(b: int, ghost was: Fs, ghost before: set<int>) returns (panicked: bool)
      requires Roomy(bitmap, size) && 0 <= b < size && Bit(bitmap, b) && Recorded(was, before)
      modifies `bitmap, `logged, `owner
      ensures !panicked && Now() == Release(old(Now()), b) && owner == old(owner) - {b} && Recorded(was, before)
    {
      ghost var g, first := Now(), logged;
      panicked := Bfree(b);
      owner := owner - {b};
      CoversTrans(bmapstart, was, g, Now(), first, logged);
    }

    /** fs.c:421-431. */
    method TruncIndirect(i: int, ghost first: map<int, Slot>) returns (panicked: bool)
      requires Valid() && 0 <= i < |inodes| && owner == Without(first, i, NDIRECT, 0) && inodes[i].addrs[NDIRECT] != 0
      modifies `bitmap, `logged, `inodes, `owner
      ensures !panicked && Valid() && owner == Without(first, i, NDIRECT + 1, NINDIRECT)
      ensures inodes == old(inodes)[i := old(inodes)[i].(addrs := old(inodes)[i].addrs[NDIRECT := 0])]
      ensures !panicked ==> Recorded(old(Now()), old(logged))
    {
      var ind := inodes[i].addrs[NDIRECT];
      IndirectOwned(Now(), owner, -1, 0, i);
      NoneGiven(Now(), owner, i);
      CoversSame(bmapstart, Now(), Now(), logged);
      var j := 0;
      panicked := false;
      while j < NINDIRECT
        invariant Recorded(old(Now()), old(logged))
        invariant 0 <= j <= NINDIRECT && !panicked && inodes == old(inodes) && |dinodes| == |inodes|
        invariant Own(Now(), owner, i, j) && owner == Without(first, i, NDIRECT, j)
      {
        ghost var f := Now();
        FreeEntry(f, owner, i, j);
        WithoutNext(f, first, i, NDIRECT, j, NDIRECT + 1 + j, Without(first, i, NDIRECT, j + 1));
        var b := Word(data[ind], j);
        if b != 0 {
          panicked := FreeBlock(b, old(Now()), old(logged));
        }
        j := j + 1;
      }
      ghost var g := Now();
      FreeIndirect(g, owner, i);
      WithoutNext(g, first, i, NDIRECT, NINDIRECT, NDIRECT, Without(first, i, NDIRECT + 1, NINDIRECT));
      panicked := FreeBlock(ind, old(Now()), old(logged));
      ghost var h := Now();
      inodes := inodes[i := inodes[i].(addrs := inodes[i].addrs[NDIRECT := 0])];
      assert Now() == SetAddr(Release(g, ind), i, NDIRECT, 0);
      CoversInodes(bmapstart, old(Now()), h, Now(), logged);
    }

    /**
      fs.c:408-435.  itrunc never meets a free block; afterwards exactly the blocks of the other inodes
      are owned, and the other files are untouched.
    */
    method Itrunc(i: int) returns (panicked: bool)
      requires Valid() && 0 <= i < |inodes|
      modifies `bitmap, `logged, `inodes, `dinodes, `owner
      ensures !panicked && Valid() && owner == Disowned(old(owner), i)
      ensures inodes == old(inodes)[i := old(inodes)[i].(size := 0, addrs := seq(NDIRECT + 1, _ => 0))]
      ensures dinodes == old(dinodes)[i := inodes[i]] && InodesRecorded(old(dinodes))
      ensures NoHoles(Now(), i)
      ensures !panicked ==> Recorded(old(Now()), old(logged))
    {
      ghost var f := Now();
      panicked := TruncDirect(i);
      if inodes[i].addrs[NDIRECT] != 0 {
        AllCut(f, old(owner), i, NDIRECT + 1, NINDIRECT);
        ghost var d, first := Now(), logged;
        panicked := TruncIndirect(i, old(owner));
        CoversTrans(bmapstart, f, d, Now(), first, logged);
      } else {
        AllCut(f, old(owner), i, NDIRECT, 0);
      }
      ghost var g := Now();
      assert inodes[i].addrs == seq(NDIRECT + 1, _ => 0);
      inodes := inodes[i := inodes[i].(size := 0)];
      ResizeKeeps(g, owner, i, 0);
      assert Now() == Resize(g, i, 0);
      ghost var first := logged;
      Iupdate(i);
      CoversSame(bmapstart, g, Now(), logged);
      CoversTrans(bmapstart, f, g, Now(), first, logged);
    }

    /** fs.c:672-707.  The bitmap scan counts exactly the blocks that are neither metadata nor in a file. */
    method GetFsStats() returns (files: int, dirs: int, inuse: int, free: int)
      requires Valid()
      ensures files == |OfKind(dinodes, T_FILE, |dinodes|)| && dirs == |OfKind(dinodes, T_DIR, |dinodes|)|
      ensures |dinodes| > 0 ==> inuse == |dinodes| - 1 - |OfKind(dinodes, 0, |dinodes|)|
      ensures free == size - nmeta - |owner|
    {
      files, dirs, inuse := 0, 0, 0;
      var i := 1;
      while i < |dinodes|
        invariant 1 <= i && (|dinodes| > 0 ==> i <= |dinodes|) && inuse == i - 1 - |OfKind(dinodes, 0, i)|
        invariant files == |OfKind(dinodes, T_FILE, i)| && dirs == |OfKind(dinodes, T_DIR, i)|
      {
        OfKindNext(dinodes, 0, i);
        OfKindNext(dinodes, T_FILE, i);
        OfKindNext(dinodes, T_DIR, i);
        if dinodes[i].kind != 0 {
          inuse := inuse + 1;
          if dinodes[i].kind == T_FILE {
            files := files + 1;
          } else if dinodes[i].kind == T_DIR {
            dirs := dirs + 1;
          }
        }
        i := i + 1;
      }
      free := CountFree(bitmap, size);
      FreeIsUnowned(Now(), owner);
    }

    /** One call, on a file system whose files are `files`. */
    method Perform(c: Call, ghost files: Contents) returns (a: Answer, panicked: bool)
      requires Valid() && FilesAre(Now(), files) && dinodes == inodes && InRange(|inodes|, c)
      modifies `bitmap, `data, `logged, `inodes, `dinodes, `owner
      ensures panicked ==> forall b :: 0 <= b < size ==> Bit(bitmap, b)
      ensures !panicked ==> Valid() && FilesAre(Now(), After(files, c)) && dinodes == inodes && a == Says(files, c)
    {
      ghost var f := Now();
      assert FileIs(f, c.i, files[c.i]);
      match c
      case WriteAt(i, off, src) =>
        var r; ghost var blocks;
        r, panicked, blocks := Writei(i, src, off, files[i]);
        a := Answer(r, []);
        if !panicked && !Refuses(|files[i]|, off, |src|) {
          WriteFiles(f, Now(), files, i, off, src);
        }
      case ReadAt(i, off, n) =>
        var r, bytes; ghost var news;
        r, bytes, panicked, news := Readi(i, off, n, files[i]);
        a := Answer(r, if r < 0 then [] else bytes);
      case Truncate(i) =>
        panicked := Itrunc(i);
        TruncFiles(f, Now(), files, i);
        a := Answer(0, []);
    }

    /**
      Every run of reads, writes and truncations answers, and leaves behind, exactly what byte sequences
      would: the block layer refines the abstract file system, unless the disk fills up.
    */
    method Run(calls: seq<Call>, ghost files: Contents) returns (answers: seq<Answer>, panicked: bool)
      requires Valid() && FilesAre(Now(), files) && dinodes == inodes && AllInRange(|inodes|, calls)
      modifies `bitmap, `data, `logged, `inodes, `dinodes, `owner
      ensures panicked ==> forall b :: 0 <= b < size ==> Bit(bitmap, b)
      ensures !panicked ==>
        Valid() && FilesAre(Now(), AfterAll(files, calls)) && dinodes == inodes && answers == SaysAll(files, calls)
    {
      answers, panicked := [], false;
      ghost var now, done := files, calls[..0];
      var k := 0;
      while k < |calls|
        invariant 0 <= k <= |calls| && !panicked && done == calls[..k] && AllInRange(|files|, done)
          && |inodes| == |files|
        invariant Valid() && FilesAre(Now(), now) && dinodes == inodes && now == AfterAll(files, done)
          && answers == SaysAll(files, done)
      {
        var a;
        a, panicked := Perform(calls[k], now);
        if panicked {
          return;
        }
        ghost var more := calls[..k + 1];
        assert more[..k] == done && more[k] == calls[k];
        now, done, answers := After(now, calls[k]), more, answers + [a];
        k := k + 1;
      }
      assert done == calls;
    }
  }

  lemma BlankBitmap(m: Bits, size: int)
    requires 0 <= size && m == seq(size / BPB + 1, _ => seq(BSIZE, _ => 0))
    ensures Roomy(m, size) && forall c :: 0 <= c < size ==> !Bit(m, c)
  {
    assert size <= (size / BPB + 1) * BPB;
    forall c | 0 <= c < size
      ensures !Bit(m, c)
    {
      PlaceOf(c, c);
      RoomFor(m, size, c);
      assert m[BlockOf(c)][ByteOf(c)] == 0;
    }
  }

  /** A disk without files, with exactly the metadata marked: nothing is owned and every file is empty. */
  lemma BlankOwned(fs: Fs)
    requires Shape(fs) && (forall c :: 0 <= c < fs.size ==> (Bit(fs.bitmap, c) <==> c < fs.nmeta))
    requires forall i :: 0 <= i < |fs.inodes| ==> fs.inodes[i] == Inode(0, 0, 0, seq(NDIRECT + 1, _ => 0))
    ensures Own(fs, map[], -1, 0) && FilesAre(fs, seq(|fs.inodes|, _ => []))
  {
    forall i, k | 0 <= i < |fs.inodes| && 0 <= k < SLOTS
      ensures SlotOk(fs, map[], i, k)
    {
    }
    forall c | 0 <= c < fs.size
      ensures BitOk(fs, map[], c)
    {
    }
    var files := seq(|fs.inodes|, _ => []);
    forall j | 0 <= j < |files|
      ensures FileIs(fs, j, files[j])
    {
      forall bn | 0 <= bn < MAXFILE
        ensures MapOk(fs, j, 0, bn)
      {
      }
    }
  }

  const T_DIR: int := 1
  const T_FILE: int := 2

  /** The inodes 1 .. n-1 of a given kind. */
  ghost function OfKind(inodes: seq<Inode>, kind: int, n: int): set<int>
  {
    set i | 1 <= i < n && i < |inodes| && inodes[i].kind == kind
  }

  lemma OfKindNext(inodes: seq<Inode>, kind: int, n: int)
    requires 1 <= n < |inodes|
    ensures |OfKind(inodes, kind, n + 1)| == |OfKind(inodes, kind, n)| + if inodes[n].kind == kind then 1 else 0
  {
    if inodes[n].kind == kind {
      assert OfKind(inodes, kind, n + 1) == OfKind(inodes, kind, n) + {n};
    } else {
      assert OfKind(inodes, kind, n + 1) == OfKind(inodes, kind, n);
    }
  }
}
