/**
  What each step of bio.c does to the buffers, the disk and the references, and that it does the same to the
  specification.
*/
module BufSteps {
  import opened BufCache

  /** c may take the place of buffer b: the same block. */
  predicate Same(bufs: seq<Buf>, b: int, c: Buf)
  {
    0 <= b < |bufs| && c.dev == bufs[b].dev && c.block == bufs[b].block
  }

  lemma SameCaches(bufs: seq<Buf>, b: int, c: Buf)
    requires Same(bufs, b, c)
    ensures forall i, k :: Caches(bufs[b := c], i, k) <==> Caches(bufs, i, k)
  {
  }

  lemma TouchCache(bufs: seq<Buf>, disk: Disk, b: int, c: Buf, disk': Disk)
    requires CacheOk(bufs, disk) && Same(bufs, b, c) && |disk'| == |disk| && BufOk(bufs[b := c], disk', b)
    ensures CacheOk(bufs[b := c], disk')
  {
    var bufs' := bufs[b := c];
    forall i | 0 <= i < |bufs'|
      ensures BufOk(bufs', disk', i)
    {
      assert BufOk(bufs, disk, i);
    }
    forall i, j | 0 <= i < |bufs'| && 0 <= j < |bufs'|
      ensures Distinct(bufs', i, j)
    {
      assert Distinct(bufs, i, j);
    }
  }

  lemma TouchPins(bufs: seq<Buf>, b: int, c: Buf, pinned: set<int>)
    requires Same(bufs, b, c) && c.dirty == bufs[b].dirty && PinsOk(bufs, pinned)
    ensures PinsOk(bufs[b := c], pinned)
  {
    SameCaches(bufs, b, c);
    var bufs' := bufs[b := c];
    forall k
      ensures PinOk(bufs', pinned, k)
    {
      assert PinOk(bufs, pinned, k);
      if i :| Caches(bufs, i, k) && bufs[i].dirty {
        assert Caches(bufs', i, k) && bufs'[i].dirty;
      }
    }
  }

  lemma TouchView(bufs: seq<Buf>, disk: Disk, b: int, c: Buf, blocks: Disk)
    requires Same(bufs, b, c) && c.valid == bufs[b].valid && (c.valid ==> c.data == bufs[b].data)
      && View(bufs, disk, blocks)
    ensures View(bufs[b := c], disk, blocks)
  {
    SameCaches(bufs, b, c);
    forall k | 0 <= k < |disk|
      ensures Shows(bufs[b := c], disk, k, blocks[k])
    {
      assert Shows(bufs, disk, k, blocks[k]);
    }
  }

  lemma TouchOpens(bufs: seq<Buf>, hs: Handles, open: map<int, Open>, b: int, c: Buf)
    requires Same(bufs, b, c) && OpensOk(bufs, hs, open)
    ensures OpensOk(bufs[b := c], hs, open)
  {
    var bufs' := bufs[b := c];
    forall h
      ensures OpenOk(bufs', hs, open, h)
    {
      assert OpenOk(bufs, hs, open, h);
    }
  }

  /** The references stay, and so do the lock and the count of the buffer. */
  lemma TouchHandles(bufs: seq<Buf>, hs: Handles, b: int, c: Buf)
    requires Same(bufs, b, c) && c.owner == bufs[b].owner && c.ref == bufs[b].ref && c.valid && HandlesOk(bufs, hs)
    ensures HandlesOk(bufs[b := c], hs)
  {
    var bufs' := bufs[b := c];
    forall h
      ensures HandleOk(bufs', hs, h)
    {
      assert HandleOk(bufs, hs, h);
    }
    forall i | 0 <= i < |bufs'|
      ensures OwnerOk(bufs', hs, i) && RefOk(bufs', hs, i)
    {
      assert OwnerOk(bufs, hs, i) && RefOk(bufs, hs, i);
    }
  }

  lemma TouchClean(bufs: seq<Buf>, disk: Disk, b: int, c: Buf)
    requires 0 <= b < |bufs| && Clean(bufs, disk) && CleanOk(bufs[b := c], disk, b)
    ensures Clean(bufs[b := c], disk)
  {
    var bufs' := bufs[b := c];
    forall i | 0 <= i < |bufs'|
      ensures CleanOk(bufs', disk, i)
    {
      assert CleanOk(bufs, disk, i);
    }
  }

  /** Empty buffers over a disk. */
  lemma FreshCore(bufs: seq<Buf>, disk: Disk)
    requires forall i :: 0 <= i < |bufs| ==> bufs[i] == Buf(0, 0, false, false, NONE, 0, [])
    ensures Core(bufs, disk, map[], Spec(disk, disk, {}, map[])) && Clean(bufs, disk)
  {
    forall b | 0 <= b < |bufs|
      ensures RefOk(bufs, map[], b)
    {
      assert Users(map[], b) == {};
    }
  }

  /** A new reference that waits does not hold the block. */
  lemma HeldSame(sp: Spec, h: int, k: int)
    requires Enabled(sp, h, Get(k))
    ensures HeldBlock(After(sp, h, Get(k)), k) <==> HeldBlock(sp, k)
  {
    var t := After(sp, h, Get(k));
    if g :| g in sp.open && sp.open[g].k == k && sp.open[g].stage == Holding {
      assert g in t.open && t.open[g] == sp.open[g];
    }
  }

  // ---------------------------------------------------------------------------------------------
  // Users
  // ---------------------------------------------------------------------------------------------

  lemma UsersAdd(hs: Handles, h: int, b: int, i: int)
    requires h !in hs
    ensures |Users(hs[h := Handle(b, Waiting)], i)| == |Users(hs, i)| + if i == b then 1 else 0
  {
    var hs' := hs[h := Handle(b, Waiting)];
    assert Users(hs', i) == if i == b then Users(hs, i) + {h} else Users(hs, i);
  }

  lemma UsersDrop(hs: Handles, h: int, i: int)
    requires h in hs
    ensures |Users(hs - {h}, i)| == |Users(hs, i)| - if i == hs[h].b then 1 else 0
  {
    assert Users(hs - {h}, i) == if i == hs[h].b then Users(hs, i) - {h} else Users(hs, i);
    assert i == hs[h].b ==> h in Users(hs, i);
  }

  lemma UsersStage(hs: Handles, h: int, st: Stage, i: int)
    requires h in hs
    ensures Users(hs[h := Handle(hs[h].b, st)], i) == Users(hs, i)
  {
  }

  /** A buffer with a reference count of zero has no references, and nobody holds its lock. */
  lemma NoUsers(bufs: seq<Buf>, hs: Handles, b: int)
    requires HandlesOk(bufs, hs) && 0 <= b < |bufs| && bufs[b].ref == 0
    ensures bufs[b].owner == NONE && forall h :: h in hs ==> hs[h].b != b
  {
    assert RefOk(bufs, hs, b) && OwnerOk(bufs, hs, b);
    forall h | h in hs
      ensures hs[h].b != b
    {
      assert hs[h].b == b ==> h in Users(hs, b);
    }
  }

  // ---------------------------------------------------------------------------------------------
  // bget
  // ---------------------------------------------------------------------------------------------

  /** Somebody else's reference to a buffer that caches the block already. */
  lemma HitKeeps(bufs: seq<Buf>, disk: Disk, hs: Handles, sp: Spec, h: int, k: int, b: int)
    requires Core(bufs, disk, hs, sp) && Enabled(sp, h, Get(k)) && Caches(bufs, b, k)
    ensures Core(bufs[b := bufs[b].(ref := bufs[b].ref + 1)], disk, hs[h := Handle(b, Waiting)], After(sp, h, Get(k)))
    ensures Clean(bufs, disk) ==> Clean(bufs[b := bufs[b].(ref := bufs[b].ref + 1)], disk)
  {
    var c := bufs[b].(ref := bufs[b].ref + 1);
    assert BufOk(bufs, disk, b);
    TouchCache(bufs, disk, b, c, disk);
    TouchView(bufs, disk, b, c, sp.blocks);
    TouchPins(bufs, b, c, sp.pinned);
    HitHandles(bufs, hs, sp.open, h, k, b);
    if Clean(bufs, disk) {
      assert CleanOk(bufs, disk, b);
      TouchClean(bufs, disk, b, c);
    }
  }

  lemma HitHandles(bufs: seq<Buf>, hs: Handles, open: map<int, Open>, h: int, k: int, b: int)
    requires HandlesOk(bufs, hs) && Caches(bufs, b, k) && h >= 0 && h !in open && OpensOk(bufs, hs, open)
    ensures var bufs', hs' := bufs[b := bufs[b].(ref := bufs[b].ref + 1)], hs[h := Handle(b, Waiting)];
            HandlesOk(bufs', hs') && OpensOk(bufs', hs', open[h := Open(k, Waiting)])
  {
    var bufs', hs', open' := bufs[b := bufs[b].(ref := bufs[b].ref + 1)], hs[h := Handle(b, Waiting)],
      open[h := Open(k, Waiting)];
    assert OpenOk(bufs, hs, open, h) && OwnerOk(bufs, hs, b);
    forall g
      ensures HandleOk(bufs', hs', g) && OpenOk(bufs', hs', open', g)
    {
      assert HandleOk(bufs, hs, g) && OpenOk(bufs, hs, open, g);
    }
    forall i | 0 <= i < |bufs'|
      ensures OwnerOk(bufs', hs', i) && RefOk(bufs', hs', i)
    {
      assert OwnerOk(bufs, hs, i) && RefOk(bufs, hs, i);
      UsersAdd(hs, h, b, i);
    }
  }

  /** Taking an idle buffer for another block loses nothing. */
  lemma MissKeeps(bufs: seq<Buf>, disk: Disk, hs: Handles, sp: Spec, h: int, k: int, b: int, bufs': seq<Buf>)
    requires Core(bufs, disk, hs, sp) && Clean(bufs, disk) && Enabled(sp, h, Get(k)) && 0 <= b < |bufs| && Idle(bufs[b])
    requires (forall i :: !Caches(bufs, i, k))
      && bufs' == bufs[b := Buf(ROOTDEV, k, false, false, bufs[b].owner, 1, bufs[b].data)]
    ensures Core(bufs', disk, hs[h := Handle(b, Waiting)], After(sp, h, Get(k))) && Clean(bufs', disk)
  {
    NoUsers(bufs, hs, b);
    MissCache(bufs, disk, b, k, bufs');
    MissView(bufs, disk, sp.blocks, b, k, bufs');
    MissHandles(bufs, hs, sp.open, h, k, b, bufs');
    forall m
      ensures PinOk(bufs', sp.pinned, m)
    {
      assert PinOk(bufs, sp.pinned, m);
      if i :| Caches(bufs, i, m) && bufs[i].dirty {
        assert Caches(bufs', i, m) && bufs'[i].dirty;
      }
      if i :| Caches(bufs', i, m) && bufs'[i].dirty {
        assert Caches(bufs, i, m) && bufs[i].dirty;
      }
    }
    TouchClean(bufs, disk, b, bufs'[b]);
  }

  lemma MissCache(bufs: seq<Buf>, disk: Disk, b: int, k: int, bufs': seq<Buf>)
    requires CacheOk(bufs, disk) && 0 <= b < |bufs| && 0 <= k < |disk| && forall i :: !Caches(bufs, i, k)
    requires bufs' == bufs[b := Buf(ROOTDEV, k, false, false, bufs[b].owner, 1, bufs[b].data)]
    ensures CacheOk(bufs', disk)
  {
    forall i | 0 <= i < |bufs'|
      ensures BufOk(bufs', disk, i)
    {
      assert BufOk(bufs, disk, i);
    }
    forall i, j | 0 <= i < |bufs'| && 0 <= j < |bufs'|
      ensures Distinct(bufs', i, j)
    {
      assert Distinct(bufs, i, j) && !Caches(bufs, i, k) && !Caches(bufs, j, k);
    }
  }

  lemma MissView(bufs: seq<Buf>, disk: Disk, blocks: Disk, b: int, k: int, bufs': seq<Buf>)
    requires CacheOk(bufs, disk) && View(bufs, disk, blocks) && 0 <= b < |bufs| && !bufs[b].dirty
      && bufs[b].owner == NONE && CleanOk(bufs, disk, b)
    requires (forall i :: !Caches(bufs, i, k))
      && bufs' == bufs[b := Buf(ROOTDEV, k, false, false, NONE, 1, bufs[b].data)]
    ensures View(bufs', disk, blocks)
  {
    assert BufOk(bufs, disk, b);
    forall m | 0 <= m < |disk|
      ensures Shows(bufs', disk, m, blocks[m])
    {
      assert Shows(bufs, disk, m, blocks[m]);
      forall i | Caches(bufs', i, m) && bufs'[i].valid
        ensures bufs'[i].data == blocks[m]
      {
        assert Caches(bufs, i, m);
      }
      if forall i :: Caches(bufs', i, m) ==> !bufs'[i].valid {
        assert Caches(bufs, b, m) && bufs[b].valid ==> bufs[b].data == blocks[m] && disk[m] == blocks[m];
        assert forall i :: Caches(bufs, i, m) && i != b ==> Caches(bufs', i, m);
        assert disk[m] == blocks[m];
      }
    }
  }

  lemma MissHandles(bufs: seq<Buf>, hs: Handles, open: map<int, Open>, h: int, k: int, b: int, bufs': seq<Buf>)
    requires HandlesOk(bufs, hs) && 0 <= b < |bufs| && bufs[b].ref == 0 && bufs[b].owner == NONE && h >= 0 && h !in open
    requires (forall g :: g in hs ==> hs[g].b != b) && OpensOk(bufs, hs, open)
    requires bufs' == bufs[b := Buf(ROOTDEV, k, false, false, NONE, 1, bufs[b].data)]
    ensures var hs' := hs[h := Handle(b, Waiting)];
            HandlesOk(bufs', hs') && OpensOk(bufs', hs', open[h := Open(k, Waiting)])
  {
    var hs', open' := hs[h := Handle(b, Waiting)], open[h := Open(k, Waiting)];
    assert OpenOk(bufs, hs, open, h);
    forall g
      ensures HandleOk(bufs', hs', g) && OpenOk(bufs', hs', open', g)
    {
      assert HandleOk(bufs, hs, g) && OpenOk(bufs, hs, open, g);
    }
    forall i | 0 <= i < |bufs'|
      ensures OwnerOk(bufs', hs', i) && RefOk(bufs', hs', i)
    {
      assert OwnerOk(bufs, hs, i) && RefOk(bufs, hs, i);
      UsersAdd(hs, h, b, i);
    }
  }

  // ---------------------------------------------------------------------------------------------
  // The rest of bread
  // ---------------------------------------------------------------------------------------------

  /** Changing the lock of b and the stage of its reference h. */
  lemma StageHandles(bufs: seq<Buf>, hs: Handles, open: map<int, Open>, h: int, st: Stage, c: Buf)
    requires HandlesOk(bufs, hs) && OpensOk(bufs, hs, open) && h in hs && Same(bufs, hs[h].b, c)
      && c.ref == bufs[hs[h].b].ref
    requires if st == Holding then bufs[hs[h].b].owner == NONE && c.owner == h && c.valid
             else bufs[hs[h].b].owner == h && c.owner == NONE
    ensures var bufs', hs' := bufs[hs[h].b := c], hs[h := Handle(hs[h].b, st)];
            HandlesOk(bufs', hs') && h in open && OpensOk(bufs', hs', open[h := open[h].(stage := st)])
  {
    assert HandleOk(bufs, hs, h) && OpenOk(bufs, hs, open, h);
    var b := hs[h].b;
    var bufs', hs', open' := bufs[b := c], hs[h := Handle(b, st)], open[h := open[h].(stage := st)];
    forall g
      ensures HandleOk(bufs', hs', g) && OpenOk(bufs', hs', open', g)
    {
      assert HandleOk(bufs, hs, g) && OpenOk(bufs, hs, open, g);
    }
    forall i | 0 <= i < |bufs'|
      ensures OwnerOk(bufs', hs', i) && RefOk(bufs', hs', i)
    {
      assert OwnerOk(bufs, hs, i) && RefOk(bufs, hs, i);
      UsersStage(hs, h, st, i);
    }
  }

  /** The buffer with its lock taken, and filled from the disk if it was not valid. */
  function Entered(bufs: seq<Buf>, disk: Disk, b: int, h: int): Buf
    requires 0 <= b < |bufs| && 0 <= bufs[b].block < |disk|
  {
    bufs[b].(owner := h, valid := true, data := if bufs[b].valid then bufs[b].data else disk[bufs[b].block])
  }

  lemma EnterView(bufs: seq<Buf>, disk: Disk, blocks: Disk, b: int, k: int, h: int)
    requires CacheOk(bufs, disk) && View(bufs, disk, blocks) && Caches(bufs, b, k) && 0 <= k < |disk|
    ensures View(bufs[b := Entered(bufs, disk, b, h)], disk, blocks) && Entered(bufs, disk, b, h).data == blocks[k]
  {
    var c := Entered(bufs, disk, b, h);
    var bufs' := bufs[b := c];
    SameCaches(bufs, b, c);
    assert Shows(bufs, disk, k, blocks[k]);
    forall i | Caches(bufs, i, k)
      ensures i == b
    {
      assert Distinct(bufs, i, b);
    }
    forall m | 0 <= m < |disk|
      ensures Shows(bufs', disk, m, blocks[m])
    {
      assert Shows(bufs, disk, m, blocks[m]);
    }
  }

  /** A block is held exactly if its buffer is locked. */
  lemma FreeBuffer(bufs: seq<Buf>, disk: Disk, hs: Handles, sp: Spec, h: int)
    requires Core(bufs, disk, hs, sp) && h in sp.open
    ensures h in hs && 0 <= hs[h].b < |bufs| && Caches(bufs, hs[h].b, sp.open[h].k) && 0 <= sp.open[h].k < |disk|
    ensures HeldBlock(sp, sp.open[h].k) <==> bufs[hs[h].b].owner != NONE
    ensures Holds(sp, h) <==> bufs[hs[h].b].owner == h
    ensures Holds(sp, h) ==> bufs[hs[h].b].valid
  {
    assert OpenOk(bufs, hs, sp.open, h) && HandleOk(bufs, hs, h);
    var b, k := hs[h].b, sp.open[h].k;
    assert BufOk(bufs, disk, b) && OwnerOk(bufs, hs, b);
    if bufs[b].owner != NONE {
      var g := bufs[b].owner;
      assert HandleOk(bufs, hs, g) && OpenOk(bufs, hs, sp.open, g);
    }
    forall g | g in sp.open && sp.open[g].k == k && sp.open[g].stage == Holding
      ensures bufs[b].owner == g && g != NONE
    {
      assert HandleOk(bufs, hs, g) && OpenOk(bufs, hs, sp.open, g);
      assert Distinct(bufs, b, hs[g].b);
    }
  }

  /** bread gets the lock: it sees the contents of the block. */
  lemma EnterKeeps(bufs: seq<Buf>, disk: Disk, hs: Handles, sp: Spec, h: int)
    requires Core(bufs, disk, hs, sp) && Clean(bufs, disk) && Enabled(sp, h, Enter(h))
    ensures h in hs && 0 <= hs[h].b < |bufs| && 0 <= bufs[hs[h].b].block < |disk|
    ensures var c := Entered(bufs, disk, hs[h].b, h);
            && Core(bufs[hs[h].b := c], disk, hs[h := Handle(hs[h].b, Holding)], After(sp, h, Enter(h)))
            && Clean(bufs[hs[h].b := c], disk) && c.data == sp.blocks[sp.open[h].k]
  {
    FreeBuffer(bufs, disk, hs, sp, h);
    assert HandleOk(bufs, hs, h);
    var b, k := hs[h].b, sp.open[h].k;
    var c := Entered(bufs, disk, b, h);
    assert BufOk(bufs, disk, b);
    TouchCache(bufs, disk, b, c, disk);
    EnterView(bufs, disk, sp.blocks, b, k, h);
    TouchPins(bufs, b, c, sp.pinned);
    StageHandles(bufs, hs, sp.open, h, Holding, c);
    TouchClean(bufs, disk, b, c);
  }

  // ---------------------------------------------------------------------------------------------
  // What a holder does
  // ---------------------------------------------------------------------------------------------

  lemma ModifyKeeps(bufs: seq<Buf>, disk: Disk, hs: Handles, sp: Spec, h: int, x: seq<int>)
    requires Core(bufs, disk, hs, sp) && Clean(bufs, disk) && Enabled(sp, h, Modify(h, x))
    ensures h in hs && 0 <= hs[h].b < |bufs|
    ensures var bufs' := bufs[hs[h].b := bufs[hs[h].b].(data := x)];
            Core(bufs', disk, hs, After(sp, h, Modify(h, x))) && Clean(bufs', disk)
  {
    FreeBuffer(bufs, disk, hs, sp, h);
    assert HandleOk(bufs, hs, h);
    var b, k := hs[h].b, sp.open[h].k;
    var c := bufs[b].(data := x);
    assert BufOk(bufs, disk, b);
    TouchCache(bufs, disk, b, c, disk);
    ModifyView(bufs, disk, sp.blocks, b, k, x);
    TouchPins(bufs, b, c, sp.pinned);
    TouchHandles(bufs, hs, b, c);
    TouchOpens(bufs, hs, sp.open, b, c);
    TouchClean(bufs, disk, b, c);
  }

  lemma ModifyView(bufs: seq<Buf>, disk: Disk, blocks: Disk, b: int, k: int, x: seq<int>)
    requires CacheOk(bufs, disk) && View(bufs, disk, blocks) && Caches(bufs, b, k) && 0 <= k < |disk| && bufs[b].valid
    ensures View(bufs[b := bufs[b].(data := x)], disk, blocks[k := x])
  {
    var c := bufs[b].(data := x);
    var bufs', blocks' := bufs[b := c], blocks[k := x];
    SameCaches(bufs, b, c);
    forall m | 0 <= m < |disk|
      ensures Shows(bufs', disk, m, blocks'[m])
    {
      assert Shows(bufs, disk, m, blocks[m]);
      forall i | Caches(bufs, i, k)
        ensures i == b
      {
        assert Distinct(bufs, i, b);
      }
    }
  }

  lemma WriteKeeps(bufs: seq<Buf>, disk: Disk, hs: Handles, sp: Spec, h: int)
    requires Core(bufs, disk, hs, sp) && Clean(bufs, disk) && Enabled(sp, h, Write(h))
    ensures h in hs && 0 <= hs[h].b < |bufs| && 0 <= bufs[hs[h].b].block < |disk|
    ensures var b := hs[h].b;
            var bufs', disk' := bufs[b := bufs[b].(dirty := false)], disk[bufs[b].block := bufs[b].data];
            Core(bufs', disk', hs, After(sp, h, Write(h))) && Clean(bufs', disk')
  {
    FreeBuffer(bufs, disk, hs, sp, h);
    assert HandleOk(bufs, hs, h);
    var b, k := hs[h].b, sp.open[h].k;
    var c := bufs[b].(dirty := false);
    var bufs', disk' := bufs[b := c], disk[k := bufs[b].data];
    assert BufOk(bufs, disk, b);
    TouchCache(bufs, disk, b, c, disk');
    WriteView(bufs, disk, sp.blocks, b, k);
    WritePins(bufs, disk, b, k, sp.pinned);
    TouchHandles(bufs, hs, b, c);
    TouchOpens(bufs, hs, sp.open, b, c);
    forall i | 0 <= i < |bufs'|
      ensures CleanOk(bufs', disk', i)
    {
      assert CleanOk(bufs, disk, i) && Distinct(bufs, i, b) && BufOk(bufs, disk, i);
    }
  }

  lemma WriteView(bufs: seq<Buf>, disk: Disk, blocks: Disk, b: int, k: int)
    requires CacheOk(bufs, disk) && View(bufs, disk, blocks) && Caches(bufs, b, k) && 0 <= k < |disk| && bufs[b].valid
    ensures View(bufs[b := bufs[b].(dirty := false)], disk[k := bufs[b].data], blocks) && bufs[b].data == blocks[k]
  {
    var c := bufs[b].(dirty := false);
    var bufs', disk' := bufs[b := c], disk[k := bufs[b].data];
    SameCaches(bufs, b, c);
    assert Shows(bufs, disk, k, blocks[k]);
    forall m | 0 <= m < |disk'|
      ensures Shows(bufs', disk', m, blocks[m])
    {
      assert Shows(bufs, disk, m, blocks[m]);
      assert Caches(bufs', b, k) && bufs'[b].valid;
    }
  }

  lemma WritePins(bufs: seq<Buf>, disk: Disk, b: int, k: int, pinned: set<int>)
    requires CacheOk(bufs, disk) && PinsOk(bufs, pinned) && Caches(bufs, b, k)
    ensures PinsOk(bufs[b := bufs[b].(dirty := false)], pinned - {k})
  {
    var c := bufs[b].(dirty := false);
    var bufs', pinned' := bufs[b := c], pinned - {k};
    SameCaches(bufs, b, c);
    forall m
      ensures PinOk(bufs', pinned', m)
    {
      assert PinOk(bufs, pinned, m);
      forall i | Caches(bufs, i, k)
        ensures i == b
      {
        assert Distinct(bufs, i, b);
      }
      if i :| Caches(bufs, i, m) && bufs[i].dirty {
        assert m != k ==> Caches(bufs', i, m) && bufs'[i].dirty;
      }
      if i :| Caches(bufs', i, m) && bufs'[i].dirty {
        assert Caches(bufs, i, m) && bufs[i].dirty && i != b;
      }
    }
  }

  lemma PinKeeps(bufs: seq<Buf>, disk: Disk, hs: Handles, sp: Spec, h: int)
    requires Core(bufs, disk, hs, sp) && Clean(bufs, disk) && Enabled(sp, h, Pin(h))
    ensures h in hs && 0 <= hs[h].b < |bufs|
    ensures var bufs' := bufs[hs[h].b := bufs[hs[h].b].(dirty := true)];
            Core(bufs', disk, hs, After(sp, h, Pin(h))) && Clean(bufs', disk)
  {
    FreeBuffer(bufs, disk, hs, sp, h);
    assert HandleOk(bufs, hs, h);
    var b, k := hs[h].b, sp.open[h].k;
    var c := bufs[b].(dirty := true);
    assert BufOk(bufs, disk, b);
    TouchCache(bufs, disk, b, c, disk);
    TouchView(bufs, disk, b, c, sp.blocks);
    PinPins(bufs, b, k, sp.pinned);
    TouchHandles(bufs, hs, b, c);
    TouchOpens(bufs, hs, sp.open, b, c);
    TouchClean(bufs, disk, b, c);
  }

  lemma PinPins(bufs: seq<Buf>, b: int, k: int, pinned: set<int>)
    requires PinsOk(bufs, pinned) && Caches(bufs, b, k)
    ensures PinsOk(bufs[b := bufs[b].(dirty := true)], pinned + {k})
  {
    var c := bufs[b].(dirty := true);
    var bufs', pinned' := bufs[b := c], pinned + {k};
    SameCaches(bufs, b, c);
    assert Caches(bufs', b, k) && bufs'[b].dirty;
    forall m
      ensures PinOk(bufs', pinned', m)
    {
      assert PinOk(bufs, pinned, m);
      if i :| Caches(bufs, i, m) && bufs[i].dirty {
        assert Caches(bufs', i, m) && bufs'[i].dirty;
      }
      if i :| Caches(bufs', i, m) && bufs'[i].dirty {
        assert Caches(bufs, i, m);
      }
    }
  }

  // ---------------------------------------------------------------------------------------------
  // brelse
  // ---------------------------------------------------------------------------------------------

  /** Letting go of the lock: nothing is lost if and only if the contents have been written or pinned. */
  lemma LeaveKeeps(bufs: seq<Buf>, disk: Disk, hs: Handles, sp: Spec, h: int)
    requires Core(bufs, disk, hs, sp) && Clean(bufs, disk) && InRange(sp, h) && Holds(sp, h)
    ensures h in hs && 0 <= hs[h].b < |bufs|
    ensures var bufs' := bufs[hs[h].b := bufs[hs[h].b].(owner := NONE)];
            && Core(bufs', disk, hs[h := Handle(hs[h].b, Leaving)],
                    sp.(open := sp.open[h := sp.open[h].(stage := Leaving)]))
            && (Clean(bufs', disk) <==> Saved(sp, sp.open[h].k))
  {
    FreeBuffer(bufs, disk, hs, sp, h);
    assert HandleOk(bufs, hs, h);
    var b, k := hs[h].b, sp.open[h].k;
    var c := bufs[b].(owner := NONE);
    var bufs' := bufs[b := c];
    assert BufOk(bufs, disk, b);
    TouchCache(bufs, disk, b, c, disk);
    TouchView(bufs, disk, b, c, sp.blocks);
    TouchPins(bufs, b, c, sp.pinned);
    StageHandles(bufs, hs, sp.open, h, Leaving, c);
    LeaveClean(bufs, disk, sp, b, k);
  }

  lemma LeaveClean(bufs: seq<Buf>, disk: Disk, sp: Spec, b: int, k: int)
    requires CacheOk(bufs, disk) && Clean(bufs, disk) && View(bufs, disk, sp.blocks) && sp.durable == disk
      && PinsOk(bufs, sp.pinned)
    requires Caches(bufs, b, k) && bufs[b].valid && 0 <= k < |disk|
    ensures Clean(bufs[b := bufs[b].(owner := NONE)], disk) <==> Saved(sp, k)
  {
    var c := bufs[b].(owner := NONE);
    var bufs' := bufs[b := c];
    assert Shows(bufs, disk, k, sp.blocks[k]) && PinOk(bufs, sp.pinned, k);
    forall i | Caches(bufs, i, k)
      ensures i == b
    {
      assert Distinct(bufs, i, b);
    }
    if Saved(sp, k) {
      TouchClean(bufs, disk, b, c);
    } else {
      assert !CleanOk(bufs', disk, b);
    }
  }

  /** Giving up the reference. */
  lemma UnrefKeeps(bufs: seq<Buf>, disk: Disk, hs: Handles, sp: Spec, h: int)
    requires Core(bufs, disk, hs, sp) && Enabled(sp, h, Unref(h))
    ensures h in hs && 0 <= hs[h].b < |bufs| && bufs[hs[h].b].ref > 0
    ensures var bufs' := bufs[hs[h].b := bufs[hs[h].b].(ref := bufs[hs[h].b].ref - 1)];
            && Core(bufs', disk, hs - {h}, After(sp, h, Unref(h))) && (Clean(bufs', disk) <==> Clean(bufs, disk))
  {
    FreeBuffer(bufs, disk, hs, sp, h);
    var b := hs[h].b;
    UsersDrop(hs, h, b);
    assert OpenOk(bufs, hs, sp.open, h);
    assert RefOk(bufs, hs, b) && h in Users(hs, b) && BufOk(bufs, disk, b);
    var c := bufs[b].(ref := bufs[b].ref - 1);
    TouchCache(bufs, disk, b, c, disk);
    TouchView(bufs, disk, b, c, sp.blocks);
    TouchPins(bufs, b, c, sp.pinned);
    UnrefHandles(bufs, hs, sp.open, h);
    SameClean(bufs, disk, b, c);
  }

  lemma SameClean(bufs: seq<Buf>, disk: Disk, b: int, c: Buf)
    requires 0 <= b < |bufs| && c == bufs[b].(ref := c.ref)
    ensures Clean(bufs[b := c], disk) <==> Clean(bufs, disk)
  {
    var bufs' := bufs[b := c];
    if Clean(bufs, disk) {
      assert CleanOk(bufs, disk, b);
      TouchClean(bufs, disk, b, c);
    }
    if Clean(bufs', disk) {
      assert CleanOk(bufs', disk, b) && bufs'[b := bufs[b]] == bufs;
      TouchClean(bufs', disk, b, bufs[b]);
    }
  }

  lemma UnrefHandles(bufs: seq<Buf>, hs: Handles, open: map<int, Open>, h: int)
    requires HandlesOk(bufs, hs) && OpensOk(bufs, hs, open) && h in hs && 0 <= hs[h].b < |bufs|
      && hs[h].stage == Leaving
    ensures var bufs' := bufs[hs[h].b := bufs[hs[h].b].(ref := bufs[hs[h].b].ref - 1)];
            HandlesOk(bufs', hs - {h}) && OpensOk(bufs', hs - {h}, open - {h})
  {
    var b := hs[h].b;
    var bufs', hs', open' := bufs[b := bufs[b].(ref := bufs[b].ref - 1)], hs - {h}, open - {h};
    assert HandleOk(bufs, hs, h);
    forall g
      ensures HandleOk(bufs', hs', g) && OpenOk(bufs', hs', open', g)
    {
      assert HandleOk(bufs, hs, g) && OpenOk(bufs, hs, open, g);
    }
    forall i | 0 <= i < |bufs'|
      ensures OwnerOk(bufs', hs', i) && RefOk(bufs', hs', i)
    {
      assert OwnerOk(bufs, hs, i) && RefOk(bufs, hs, i);
      UsersDrop(hs, h, i);
    }
  }

  // ---------------------------------------------------------------------------------------------
  // When bget finds no buffer
  // ---------------------------------------------------------------------------------------------

  ghost function BusyBufs(bufs: seq<Buf>): (r: set<int>)
    ensures forall i :: i in r <==> 0 <= i < |bufs| && !Idle(bufs[i])
  {
    set i | 0 <= i < |bufs| && !Idle(bufs[i])
  }

  lemma Empty(s: set<int>)
    requires forall i :: i !in s
    ensures |s| == 0
  {
    forall i | i in s
      ensures false
    {
    }
    assert s == {};
  }

  /** As many blocks as buffers, if each buffer of the set has a block of the other set, and no two the same. */
  lemma {:induction false} OneToOne(bufs: seq<Buf>, a: set<int>, r: set<int>)
    requires forall i :: i in a ==> 0 <= i < |bufs| && bufs[i].block in r
    requires forall i, j :: i in a && j in a && i != j ==> bufs[i].block != bufs[j].block
    requires forall k :: k in r ==> exists i :: i in a && bufs[i].block == k
    ensures |a| == |r|
    decreases |a|
  {
    if i :| i in a {
      var k := bufs[i].block;
      forall m | m in r - {k}
        ensures exists j :: j in a - {i} && bufs[j].block == m
      {
        var j :| j in a && bufs[j].block == m;
        assert j in a - {i};
      }
      OneToOne(bufs, a - {i}, r - {k});
    } else {
      Empty(a);
      Empty(r);
    }
  }

  /** A buffer is in use exactly if its block is open or pinned. */
  lemma BusyBlock(bufs: seq<Buf>, disk: Disk, hs: Handles, sp: Spec, i: int)
    requires Core(bufs, disk, hs, sp) && 0 <= i < |bufs| && !Idle(bufs[i])
    ensures bufs[i].dev == ROOTDEV && bufs[i].block in Busy(sp)
  {
    assert BufOk(bufs, disk, i) && RefOk(bufs, hs, i);
    if bufs[i].dirty {
      assert Caches(bufs, i, bufs[i].block) && PinOk(bufs, sp.pinned, bufs[i].block);
    } else if h :| h in Users(hs, i) {
      assert HandleOk(bufs, hs, h) && OpenOk(bufs, hs, sp.open, h);
    } else {
      Empty(Users(hs, i));
    }
  }

  lemma BlockBusy(bufs: seq<Buf>, disk: Disk, hs: Handles, sp: Spec, k: int) returns (i: int)
    requires Core(bufs, disk, hs, sp) && k in Busy(sp)
    ensures Caches(bufs, i, k) && !Idle(bufs[i])
  {
    assert PinOk(bufs, sp.pinned, k);
    if k in sp.pinned {
      i :| Caches(bufs, i, k) && bufs[i].dirty;
    } else {
      var h :| h in sp.open && sp.open[h].k == k;
      FreeBuffer(bufs, disk, hs, sp, h);
      i := hs[h].b;
      assert h in Users(hs, i) && RefOk(bufs, hs, i);
    }
  }

  lemma BusyCount(bufs: seq<Buf>, disk: Disk, hs: Handles, sp: Spec)
    requires Core(bufs, disk, hs, sp)
    ensures |BusyBufs(bufs)| == |Busy(sp)|
  {
    forall i | i in BusyBufs(bufs)
      ensures bufs[i].block in Busy(sp) && bufs[i].dev == ROOTDEV
    {
      BusyBlock(bufs, disk, hs, sp, i);
    }
    forall i, j | i in BusyBufs(bufs) && j in BusyBufs(bufs) && i != j
      ensures bufs[i].block != bufs[j].block
    {
      assert Distinct(bufs, i, j);
    }
    forall k | k in Busy(sp)
      ensures exists i :: i in BusyBufs(bufs) && bufs[i].block == k
    {
      var i := BlockBusy(bufs, disk, hs, sp, k);
      assert i in BusyBufs(bufs);
    }
    OneToOne(bufs, BusyBufs(bufs), Busy(sp));
  }

  lemma {:induction false} Interval(n: int) returns (s: set<int>)
    requires 0 <= n
    ensures |s| == n && forall i :: i in s <==> 0 <= i < n
  {
    if n == 0 {
      s := {};
    } else {
      s := Interval(n - 1);
      s := s + {n - 1};
    }
  }

  /** There is no buffer for block k exactly if as many other blocks as there are buffers are open or pinned. */
  lemma NoBuffer(bufs: seq<Buf>, disk: Disk, hs: Handles, sp: Spec, k: int)
    requires Core(bufs, disk, hs, sp)
    ensures (forall i :: !Caches(bufs, i, k)) && (forall i :: 0 <= i < |bufs| ==> !Idle(bufs[i]))
      <==> |Busy(sp)| == |bufs| && k !in Busy(sp)
  {
    BusyCount(bufs, disk, hs, sp);
    var all := Interval(|bufs|);
    if k in Busy(sp) {
      var i := BlockBusy(bufs, disk, hs, sp, k);
    } else if forall i :: 0 <= i < |bufs| ==> !Idle(bufs[i]) {
      forall i
        ensures i in BusyBufs(bufs) <==> i in all
      {
      }
      SameSets(BusyBufs(bufs), all);
      forall i
        ensures !Caches(bufs, i, k)
      {
        if Caches(bufs, i, k) {
          BusyBlock(bufs, disk, hs, sp, i);
        }
      }
    } else {
      var i :| 0 <= i < |bufs| && Idle(bufs[i]);
      Fewer(BusyBufs(bufs), all, i);
    }
  }

  lemma SameSets(a: set<int>, b: set<int>)
    requires forall i :: i in a <==> i in b
    ensures |a| == |b|
  {
    Subset(a, b);
    Subset(b, a);
  }

  lemma Fewer(a: set<int>, b: set<int>, x: int)
    requires (forall i :: i in a ==> i in b) && x in b && x !in a
    ensures |a| < |b|
  {
    Subset(a, b - {x});
  }

  lemma {:induction false} Subset(a: set<int>, b: set<int>)
    requires forall i :: i in a ==> i in b
    ensures |a| <= |b|
    decreases |a|
  {
    if i :| i in a {
      Subset(a - {i}, b - {i});
    } else {
      Empty(a);
    }
  }
}
