/** The disk that mkfs makes: its log is large enough for filewrite, and a full root directory leaves a hole in it. */
module FsStart {
  import opened Words
  import opened Bitmap
  import opened Inodes
  import opened Files
  import opened Writing
  import opened FileRuns
  import opened FsCode
  import Disk
  import Log = LogProtocol
  import LogTheorems
  import LogSpace

  /** mkfs.c:23-30, param.h:12-14, fs.h:8: block counts of the parts of the disk. */
  const FSSIZE: int := 1000
  const NINODES: int := 200
  const INODESTART: int := 2 + 30
  const BMAPSTART: int := INODESTART + NINODES / 8 + 1
  const NMETA: int := BMAPSTART + 1

  /**
    If every operation on mkfs's disk logs no more blocks than a transaction of filewrite does there, log_write never
    panics.
  */
  lemma FilewriteFitsLog(fs: FileSystem, s: Log.State)
    requires fs.size == FSSIZE && LogTheorems.Boots(s) && s.layout == Disk.MKFS_LAYOUT && s.opBound == fs.Heaviest()
    ensures forall t :: LogTheorems.Reaches(s, t) && t.ops != map[] ==> !Log.LogWritePanics(t)
  {
    LogSpace.MkfsLogSpace(s);
  }

  // ---------------------------------------------------------------------------------------------
  // The hole
  // ---------------------------------------------------------------------------------------------

  function Zeros(n: nat): seq<int>
  {
    seq(n, _ => 0)
  }

  /** A root directory with a single block, and its size rounded up: the second block is a hole. */
  lemma RootHole(f: Fs, b: int)
    requires Own(f, map[], -1, 0) && 1 < |f.inodes| && FileIs(f, 1, []) && 0 <= b < f.size && !Bit(f.bitmap, b)
    ensures Open(f, 1, 0)
    ensures var g := Resize(Attach(f, 1, 0, b), 1, 2 * BSIZE);
            Own(g, map[b := Slot(1, 0)], -1, 0) && MappedTo(g, 1, 1) && Reads(g, 1, Zeros(2 * BSIZE))
  {
    assert MapOk(f, 1, 0, 0);
    var own := map[b := Slot(1, 0)];
    var e := Attach(f, 1, 0, b);
    AttachWhole(f, map[], 1, 0, b, e, own);
    ResizeKeeps(e, own, 1, 2 * BSIZE);
    var g := Resize(e, 1, 2 * BSIZE);
    forall bn | 0 <= bn < MAXFILE
      ensures MapOk(g, 1, 1, bn)
    {
      assert MapOk(f, 1, 0, bn);
      AttachRef(f, map[], 1, 0, b, 1, SlotOf(bn));
    }
    AttachRef(f, map[], 1, 0, b, 1, NDIRECT);
    assert g.data[b] == ZeroBlock();
    forall pos | 0 <= pos < 2 * BSIZE
      ensures ByteIs(g, 1, Zeros(2 * BSIZE), pos)
    {
      assert MapOk(g, 1, 1, pos / BSIZE);
    }
  }

  /** The root with one block full of entries, and its size rounded up (mkfs.c:117-163). */
  method MakeRoot() returns (fs: FileSystem)
    ensures fresh(fs) && fs.Valid() && fs.dinodes == fs.inodes && fs.size == FSSIZE && |fs.inodes| == NINODES
    ensures fs.inodes[1].size == 2 * BSIZE && MappedTo(fs.Now(), 1, 1) && Reads(fs.Now(), 1, Zeros(2 * BSIZE))
    ensures !Bit(fs.bitmap, FSSIZE - 1)
  {
    fs := new FileSystem(FSSIZE, NMETA, NINODES, INODESTART, BMAPSTART);
    ghost var f := fs.Now();
    ghost var files: Contents :| FilesAre(f, files) && files == seq(NINODES, _ => []);
    assert files[1] == [] && FileIs(f, 1, files[1]);
    assert BitOk(f, fs.owner, NMETA) && BitOk(f, fs.owner, FSSIZE - 1);
    var b, panicked; ghost var mark;
    b, panicked, mark := fs.Balloc();
    RootHole(f, b);
    SetBitSets(f.bitmap, FSSIZE, b, FSSIZE - 1);
    fs.inodes := fs.inodes[1 := fs.inodes[1].(addrs := fs.inodes[1].addrs[0 := b], size := 2 * BSIZE)];
    fs.dinodes := fs.inodes;
    fs.owner := map[b := Slot(1, 0)];
    assert fs.Now() == Resize(Attach(f, 1, 0, b), 1, 2 * BSIZE);
  }

  /**
    The first entry written behind the full block: writei succeeds, and the inode on disk does not get the new
    address.
  */
  method LostAddress(entry: seq<int>) returns (fs: FileSystem, r: int, panicked: bool)
    requires |entry| == 16
    ensures !panicked && r == 16 && fs.Valid() && fs.dinodes != fs.inodes
  {
    fs := MakeRoot();
    ghost var f := fs.Now();
    HoleBreaksWriteThrough(f, 1, 1, BSIZE, 16);
    ghost var blocks;
    r, panicked, blocks := fs.Writei(1, entry, BSIZE, Zeros(2 * BSIZE));
  }
}
