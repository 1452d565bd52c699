/**
  The block layer of fs.c: which disk blocks belong to which inode.  Every inode has 141 slots that can
  name a block: its 12 direct addresses, its indirect address, and the 128 words of the indirect block.
*/
module Inodes {
  import opened Bitmap
  import opened Words

  const NDIRECT: int := 12
  const NINDIRECT: int := 128
  const MAXFILE: int := NDIRECT + NINDIRECT
  const SLOTS: int := 1 + MAXFILE
  const UINT: int := 0x1_0000_0000

  /** type, nlink, size and the 13 addresses of a dinode (fs.h:29-36). */
  datatype Inode = Inode(kind: int, nlink: int, size: int, addrs: seq<int>)

  datatype Slot = Slot(i: int, k: int)

  /** Blocks 0 .. nmeta-1 are boot block, superblock, log, inodes and bitmap; `data` holds all blocks. */
  datatype Fs = Fs(size: int, nmeta: int, bitmap: Bits, inodes: seq<Inode>, data: seq<seq<int>>)

  ghost predicate Shape(fs: Fs)
  {
    && 0 < fs.nmeta <= fs.size < UINT && Roomy(fs.bitmap, fs.size) && |fs.data| == fs.size
    && (forall b :: 0 <= b < fs.size ==> |fs.data[b]| == BSIZE)
    && (forall i :: 0 <= i < |fs.inodes| ==> |fs.inodes[i].addrs| == NDIRECT + 1)
  }

  /** The address of inode i's indirect block, 0 if there is none. */
  function Indirect(fs: Fs, i: int): int
  {
    if 0 <= i < |fs.inodes| && |fs.inodes[i].addrs| == NDIRECT + 1 then fs.inodes[i].addrs[NDIRECT] else 0
  }

  /** The block that slot k of inode i names, 0 if none. */
  function Ref(fs: Fs, i: int, k: int): int
  {
    if !(0 <= i < |fs.inodes| && |fs.inodes[i].addrs| == NDIRECT + 1 && 0 <= k < SLOTS) then 0
    else if k <= NDIRECT then fs.inodes[i].addrs[k]
    else if 0 < Indirect(fs, i) < |fs.data| then Word(fs.data[Indirect(fs, i)], k - NDIRECT - 1)
    else 0
  }

  /** The slot of the bn-th block of a file. */
  function SlotOf(bn: int): int
  {
    if bn < NDIRECT then bn else bn + 1
  }

  /** The indirect entries of inode x below n, whose blocks a truncation has already given back. */
  predicate Given(x: int, n: int, i: int, k: int)
  {
    i == x && NDIRECT < k <= NDIRECT + n
  }

  predicate SlotOk(fs: Fs, owner: map<int, Slot>, i: int, k: int)
  {
    var r := Ref(fs, i, k);
    r == 0 || (fs.nmeta <= r < fs.size && r in owner && owner[r] == Slot(i, k))
  }

  predicate OwnedOk(fs: Fs, owner: map<int, Slot>, x: int, n: int, b: int)
    requires b in owner
  {
    && fs.nmeta <= b < fs.size && 0 <= owner[b].i < |fs.inodes| && 0 <= owner[b].k < SLOTS
    && Ref(fs, owner[b].i, owner[b].k) == b && !Given(x, n, owner[b].i, owner[b].k)
  }

  predicate BitOk(fs: Fs, owner: map<int, Slot>, b: int)
  {
    Bit(fs.bitmap, b) <==> b < fs.nmeta || b in owner
  }

  /**
    Unique ownership: a block is marked in use exactly if it is metadata or some slot names it, and then
    exactly one slot names it.  The entries Given(x, n) are exempt.
  */
  ghost predicate Own(fs: Fs, owner: map<int, Slot>, x: int, n: int)
  {
    && Shape(fs)
    && (forall i, k :: 0 <= i < |fs.inodes| && 0 <= k < SLOTS && !Given(x, n, i, k) ==> SlotOk(fs, owner, i, k))
    && (forall b :: b in owner ==> OwnedOk(fs, owner, x, n, b))
    && (forall b :: 0 <= b < fs.size ==> BitOk(fs, owner, b))
  }

  // ---------------------------------------------------------------------------------------------
  // Allocating a block and hanging it into a slot
  // ---------------------------------------------------------------------------------------------

  /** balloc's effect: the bit is set and the block zeroed (fs.c:68-71). */
  ghost function Alloc(fs: Fs, b: int): Fs
    requires 0 <= b < |fs.data|
  {
    fs.(bitmap := SetBit(fs.bitmap, b), data := fs.data[b := ZeroBlock()])
  }

  function SetAddr(fs: Fs, i: int, k: int, b: int): Fs
    requires 0 <= i < |fs.inodes| && 0 <= k < |fs.inodes[i].addrs|
  {
    fs.(inodes := fs.inodes[i := fs.inodes[i].(addrs := fs.inodes[i].addrs[k := b])])
  }

  function SetEntry(fs: Fs, ind: int, j: int, b: int): Fs
    requires 0 <= ind < |fs.data| && |fs.data[ind]| == BSIZE && 0 <= j < NINDIRECT
  {
    fs.(data := fs.data[ind := SetWord(fs.data[ind], j, b)])
  }

  /** A slot that can be given a block: the indirect entries need an indirect block. */
  ghost predicate Open(fs: Fs, i: int, k: int)
  {
    0 <= i < |fs.inodes| && 0 <= k < SLOTS && Ref(fs, i, k) == 0 && (k > NDIRECT ==> Indirect(fs, i) != 0)
  }

  ghost function Attach(fs: Fs, i: int, k: int, b: int): Fs
    requires Shape(fs) && Open(fs, i, k) && 0 <= b < fs.size && (k > NDIRECT ==> 0 <= Indirect(fs, i) < fs.size)
  {
    if k <= NDIRECT then SetAddr(Alloc(fs, b), i, k, b)
    else if |Alloc(fs, b).data[Indirect(fs, i)]| == BSIZE
      then SetEntry(Alloc(fs, b), Indirect(fs, i), k - NDIRECT - 1, b)
    else fs
  }

  /** The indirect block of an inode belongs to its slot 12, so no other slot and no free block is that block. */
  lemma IndirectOwned(fs: Fs, owner: map<int, Slot>, x: int, n: int, i: int)
    requires Own(fs, owner, x, n) && 0 <= i < |fs.inodes|
    ensures var ind := Indirect(fs, i);
            ind == 0 || (fs.nmeta <= ind < fs.size && ind in owner && owner[ind] == Slot(i, NDIRECT))
  {
    assert SlotOk(fs, owner, i, NDIRECT);
  }

  lemma FreshBlock(fs: Fs, owner: map<int, Slot>, b: int)
    requires Own(fs, owner, -1, 0) && 0 <= b < fs.size && !Bit(fs.bitmap, b)
    ensures fs.nmeta <= b && b !in owner
  {
    assert BitOk(fs, owner, b);
  }

  lemma AttachRef(fs: Fs, owner: map<int, Slot>, i: int, k: int, b: int, j: int, m: int)
    requires Own(fs, owner, -1, 0) && Open(fs, i, k) && 0 <= b < fs.size && !Bit(fs.bitmap, b)
    requires 0 <= j < |fs.inodes| && 0 <= m < SLOTS
    ensures k > NDIRECT ==> 0 <= Indirect(fs, i) < fs.size
    ensures Ref(Attach(fs, i, k, b), j, m) == if j == i && m == k then b else Ref(fs, j, m)
  {
    FreshBlock(fs, owner, b);
    IndirectOwned(fs, owner, -1, 0, i);
    IndirectOwned(fs, owner, -1, 0, j);
    ZeroWord(m - NDIRECT - 1);
    if k > NDIRECT && m > NDIRECT {
      WordSet(fs.data[Indirect(fs, i)], k - NDIRECT - 1, b, m - NDIRECT - 1);
    }
  }

  lemma AttachShape(fs: Fs, i: int, k: int, b: int)
    requires Shape(fs) && Open(fs, i, k) && 0 <= b < fs.size && (k > NDIRECT ==> 0 <= Indirect(fs, i) < fs.size)
    ensures Shape(Attach(fs, i, k, b))
  {
    SetBitSets(fs.bitmap, fs.size, b, b);
  }

  /** Allocating a free block for an open slot keeps unique ownership. */
  lemma AttachKeeps(fs: Fs, owner: map<int, Slot>, i: int, k: int, b: int)
    requires Own(fs, owner, -1, 0) && Open(fs, i, k) && 0 <= b < fs.size && !Bit(fs.bitmap, b)
    ensures k > NDIRECT ==> 0 <= Indirect(fs, i) < fs.size
    ensures Own(Attach(fs, i, k, b), owner[b := Slot(i, k)], -1, 0)
  {
    FreshBlock(fs, owner, b);
    IndirectOwned(fs, owner, -1, 0, i);
    AttachShape(fs, i, k, b);
    var g, own := Attach(fs, i, k, b), owner[b := Slot(i, k)];
    forall j, m | 0 <= j < |g.inodes| && 0 <= m < SLOTS && !Given(-1, 0, j, m)
      ensures SlotOk(g, own, j, m)
    {
      AttachRef(fs, owner, i, k, b, j, m);
      assert SlotOk(fs, owner, j, m);
    }
    forall c | c in own
      ensures OwnedOk(g, own, -1, 0, c)
    {
      if c != b {
        assert OwnedOk(fs, owner, -1, 0, c);
      }
      AttachRef(fs, owner, i, k, b, own[c].i, own[c].k);
    }
    forall c | 0 <= c < g.size
      ensures BitOk(g, own, c)
    {
      SetBitSets(fs.bitmap, fs.size, b, c);
      assert BitOk(fs, owner, c);
    }
  }

  // ---------------------------------------------------------------------------------------------
  // Writing a data block
  // ---------------------------------------------------------------------------------------------

  ghost function WriteBlock(fs: Fs, b: int, x: seq<int>): Fs
    requires 0 <= b < |fs.data|
  {
    fs.(data := fs.data[b := x])
  }

  /** A block that holds data, not addresses, can be overwritten without changing any slot. */
  lemma WriteBlockKeeps(fs: Fs, owner: map<int, Slot>, b: int, x: seq<int>)
    requires Own(fs, owner, -1, 0) && b in owner && owner[b].k != NDIRECT && |x| == BSIZE
    ensures 0 <= b < fs.size && Own(WriteBlock(fs, b, x), owner, -1, 0)
    ensures forall j, m :: Ref(WriteBlock(fs, b, x), j, m) == Ref(fs, j, m)
  {
    assert OwnedOk(fs, owner, -1, 0, b);
    var g := WriteBlock(fs, b, x);
    forall j, m
      ensures Ref(g, j, m) == Ref(fs, j, m)
    {
      if 0 <= j < |fs.inodes| {
        IndirectOwned(fs, owner, -1, 0, j);
      }
    }
    forall j, m | 0 <= j < |g.inodes| && 0 <= m < SLOTS && !Given(-1, 0, j, m)
      ensures SlotOk(g, owner, j, m)
    {
      assert SlotOk(fs, owner, j, m);
    }
    forall c | c in owner
      ensures OwnedOk(g, owner, -1, 0, c)
    {
      assert OwnedOk(fs, owner, -1, 0, c);
    }
    forall c | 0 <= c < g.size
      ensures BitOk(g, owner, c)
    {
      assert BitOk(fs, owner, c);
    }
  }

  // ---------------------------------------------------------------------------------------------
  // Giving blocks back
  // ---------------------------------------------------------------------------------------------

  ghost function Release(fs: Fs, b: int): Fs
  {
    fs.(bitmap := ClearBit(fs.bitmap, b))
  }

  /** bfree of a block no slot needs any more: the bit and the owner go together. */
  lemma ReleaseKeeps(fs: Fs, owner: map<int, Slot>, x: int, n: int, b: int)
    requires Shape(fs) && fs.nmeta <= b < fs.size && b in owner
    requires forall i, k :: 0 <= i < |fs.inodes| && 0 <= k < SLOTS && !Given(x, n, i, k) ==>
               SlotOk(fs, owner, i, k) && Ref(fs, i, k) != b
    requires forall c :: c in owner && c != b ==> OwnedOk(fs, owner, x, n, c)
    requires forall c :: 0 <= c < fs.size ==> BitOk(fs, owner, c)
    ensures Bit(fs.bitmap, b)
    ensures Own(Release(fs, b), owner - {b}, x, n)
  {
    assert BitOk(fs, owner, b);
    ClearBitClears(fs.bitmap, fs.size, b, b);
    var g, own := Release(fs, b), owner - {b};
    forall i, k | 0 <= i < |g.inodes| && 0 <= k < SLOTS && !Given(x, n, i, k)
      ensures SlotOk(g, own, i, k)
    {
      assert SlotOk(fs, owner, i, k);
    }
    forall c | c in own
      ensures OwnedOk(g, own, x, n, c)
    {
      assert OwnedOk(fs, owner, x, n, c);
    }
    forall c | 0 <= c < g.size
      ensures BitOk(g, own, c)
    {
      ClearBitClears(fs.bitmap, fs.size, b, c);
      assert BitOk(fs, owner, c);
    }
  }

  /** itrunc's step for a direct address: bfree, then clear it (fs.c:414-419). */
  lemma FreeDirect(fs: Fs, owner: map<int, Slot>, i: int, k: int)
    requires Own(fs, owner, -1, 0) && 0 <= i < |fs.inodes| && 0 <= k < NDIRECT && Ref(fs, i, k) != 0
    ensures var b := Ref(fs, i, k);
            fs.nmeta <= b < fs.size && Bit(fs.bitmap, b) && Own(SetAddr(Release(fs, b), i, k, 0), owner - {b}, -1, 0)
    ensures forall j, m :: Ref(SetAddr(fs, i, k, 0), j, m) == if j == i && m == k then 0 else Ref(fs, j, m)
  {
    var b := Ref(fs, i, k);
    assert SlotOk(fs, owner, i, k);
    var g := SetAddr(fs, i, k, 0);
    assert Release(g, b) == SetAddr(Release(fs, b), i, k, 0);
    forall j, m | 0 <= j < |g.inodes| && 0 <= m < SLOTS && !Given(-1, 0, j, m)
      ensures SlotOk(g, owner, j, m) && Ref(g, j, m) != b
    {
      assert SlotOk(fs, owner, j, m);
    }
    forall c | c in owner && c != b
      ensures OwnedOk(g, owner, -1, 0, c)
    {
      assert OwnedOk(fs, owner, -1, 0, c);
    }
    forall c | 0 <= c < g.size
      ensures BitOk(g, owner, c)
    {
      assert BitOk(fs, owner, c);
    }
    ReleaseKeeps(g, owner, -1, 0, b);
  }

  /** itrunc's step for an indirect entry: bfree only, the entry stays in the doomed indirect block (fs.c:424-427). */
  lemma FreeEntry(fs: Fs, owner: map<int, Slot>, i: int, n: int)
    requires Own(fs, owner, i, n) && 0 <= i < |fs.inodes| && 0 <= n < NINDIRECT
    ensures var b := Ref(fs, i, NDIRECT + 1 + n);
            if b == 0 then Own(fs, owner, i, n + 1)
            else fs.nmeta <= b < fs.size && Bit(fs.bitmap, b) && Own(Release(fs, b), owner - {b}, i, n + 1)
  {
    var b := Ref(fs, i, NDIRECT + 1 + n);
    assert SlotOk(fs, owner, i, NDIRECT + 1 + n);
    forall j, m | 0 <= j < |fs.inodes| && 0 <= m < SLOTS && !Given(i, n + 1, j, m)
      ensures SlotOk(fs, owner, j, m) && (b != 0 ==> Ref(fs, j, m) != b)
    {
      assert SlotOk(fs, owner, j, m);
    }
    forall c | c in owner && c != b
      ensures OwnedOk(fs, owner, i, n + 1, c)
    {
      assert OwnedOk(fs, owner, i, n, c);
    }
    if b != 0 {
      ReleaseKeeps(fs, owner, i, n + 1, b);
    } else {
      forall c | c in owner
        ensures c != b
      {
        assert OwnedOk(fs, owner, i, n, c);
      }
    }
  }

  /** itrunc's last step: the indirect block itself (fs.c:429-430). */
  lemma FreeIndirect(fs: Fs, owner: map<int, Slot>, i: int)
    requires Own(fs, owner, i, NINDIRECT) && 0 <= i < |fs.inodes| && Indirect(fs, i) != 0
    ensures var b := Indirect(fs, i);
            && fs.nmeta <= b < fs.size && Bit(fs.bitmap, b)
            && Own(SetAddr(Release(fs, b), i, NDIRECT, 0), owner - {b}, -1, 0)
  {
    var b := Indirect(fs, i);
    IndirectOwned(fs, owner, i, NINDIRECT, i);
    var g := SetAddr(fs, i, NDIRECT, 0);
    assert Release(g, b) == SetAddr(Release(fs, b), i, NDIRECT, 0);
    forall j, m | 0 <= j < |g.inodes| && 0 <= m < SLOTS && !Given(-1, 0, j, m)
      ensures SlotOk(g, owner, j, m) && Ref(g, j, m) != b
    {
      assert !Given(i, NINDIRECT, j, m) ==> SlotOk(fs, owner, j, m);
    }
    forall c | c in owner && c != b
      ensures OwnedOk(g, owner, -1, 0, c)
    {
      assert OwnedOk(fs, owner, i, NINDIRECT, c);
    }
    forall c | 0 <= c < g.size
      ensures BitOk(g, owner, c)
    {
      assert BitOk(fs, owner, c);
    }
    ReleaseKeeps(g, owner, -1, 0, b);
  }

  lemma NoneGiven(fs: Fs, owner: map<int, Slot>, i: int)
    requires Own(fs, owner, -1, 0)
    ensures Own(fs, owner, i, 0)
  {
    forall b | b in owner
      ensures OwnedOk(fs, owner, i, 0, b)
    {
      assert OwnedOk(fs, owner, -1, 0, b);
    }
  }

  // ---------------------------------------------------------------------------------------------
  // Truncation: which owners are left
  // ---------------------------------------------------------------------------------------------

  /** Truncation of inode i has freed its direct slots below k and its first n indirect entries. */
  predicate Cut(s: Slot, i: int, k: int, n: int)
  {
    s.i == i && (s.k < k || NDIRECT < s.k <= NDIRECT + n)
  }

  /** The owners that are left then. */
  ghost function Without(owner: map<int, Slot>, i: int, k: int, n: int): map<int, Slot>
  {
    map b | b in owner && !Cut(owner[b], i, k, n) :: owner[b]
  }

  lemma NoneCut(fs: Fs, owner: map<int, Slot>, i: int)
    requires Own(fs, owner, -1, 0)
    ensures Without(owner, i, 0, 0) == owner
  {
    forall b | b in owner
      ensures !Cut(owner[b], i, 0, 0)
    {
      assert OwnedOk(fs, owner, -1, 0, b);
    }
  }

  /** Cutting one more slot drops the block it names, if any. */
  lemma WithoutNext(fs: Fs, owner: map<int, Slot>, i: int, k: int, n: int, slot: int, more: map<int, Slot>)
    requires 0 <= i < |fs.inodes| && Own(fs, Without(owner, i, k, n), i, n)
    requires (0 <= k < NDIRECT && n == 0 && slot == k && more == Without(owner, i, k + 1, 0))
             || (k == NDIRECT && 0 <= n < NINDIRECT && slot == NDIRECT + 1 + n && more == Without(owner, i, k, n + 1))
             || (k == NDIRECT && n == NINDIRECT && slot == NDIRECT && more == Without(owner, i, k + 1, n))
    ensures more == if Ref(fs, i, slot) == 0 then Without(owner, i, k, n)
      else Without(owner, i, k, n) - {Ref(fs, i, slot)}
  {
    var w, r := Without(owner, i, k, n), Ref(fs, i, slot);
    assert SlotOk(fs, w, i, slot);
    forall b | b in w
      ensures w[b] == Slot(i, slot) <==> b == r
    {
      assert OwnedOk(fs, w, i, n, b);
    }
    forall b | b in w
      ensures b in more <==> w[b] != Slot(i, slot)
    {
    }
    assert forall b :: b in more ==> b in w;
  }

  /** The owners without any slot of inode i. */
  ghost function Disowned(owner: map<int, Slot>, i: int): map<int, Slot>
  {
    map b | b in owner && owner[b].i != i :: owner[b]
  }

  /** After all slots were cut, or if there is no indirect block after the direct ones, nothing of i is left. */
  lemma AllCut(fs: Fs, owner: map<int, Slot>, i: int, k: int, n: int)
    requires Own(fs, owner, -1, 0) && 0 <= i < |fs.inodes|
    requires (k == NDIRECT + 1 && n == NINDIRECT) || (k == NDIRECT && n == 0 && Indirect(fs, i) == 0)
    ensures Without(owner, i, k, n) == Disowned(owner, i)
  {
    forall b | b in owner
      ensures owner[b].i == i <==> Cut(owner[b], i, k, n)
    {
      assert OwnedOk(fs, owner, -1, 0, b);
    }
  }

  ghost function OwnedBelow(owner: map<int, Slot>, n: int): set<int>
  {
    set b | b in owner && b < n
  }

  /** The number of clear bits below n: neither metadata nor owned. */
  lemma {:induction false} CountOwned(fs: Fs, owner: map<int, Slot>, n: int)
    requires 0 <= n <= fs.size && 0 <= fs.nmeta && (forall b :: b in owner ==> fs.nmeta <= b)
    requires forall b :: 0 <= b < fs.size ==> BitOk(fs, owner, b)
    ensures FreeBelow(fs.bitmap, n) == n - (if n < fs.nmeta then n else fs.nmeta) - |OwnedBelow(owner, n)|
  {
    if n == 0 {
      assert OwnedBelow(owner, 0) == {};
    } else {
      CountOwned(fs, owner, n - 1);
      assert BitOk(fs, owner, n - 1);
      if n - 1 in owner {
        assert OwnedBelow(owner, n) == OwnedBelow(owner, n - 1) + {n - 1};
      } else {
        assert OwnedBelow(owner, n) == OwnedBelow(owner, n - 1);
      }
    }
  }

  /** get_fs_stats' free count is the disk size less metadata and owned blocks. */
  lemma FreeIsUnowned(fs: Fs, owner: map<int, Slot>)
    requires Own(fs, owner, -1, 0)
    ensures FreeBelow(fs.bitmap, fs.size) == fs.size - fs.nmeta - |owner|
  {
    forall b | b in owner
      ensures fs.nmeta <= b && b in OwnedBelow(owner, fs.size)
    {
      assert OwnedOk(fs, owner, -1, 0, b);
    }
    assert OwnedBelow(owner, fs.size) == owner.Keys;
    CountOwned(fs, owner, fs.size);
  }
}
