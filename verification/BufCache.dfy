/**
  What the buffer cache means: a plain array of blocks, what of it is on the disk already, and who has which block
  open.  A reference to a buffer waits for the buffer's sleep-lock, holds it, or has let go of it and is about to go.
*/
module BufCache {
  const ROOTDEV: int := 1
  /** Nobody holds the sleep-lock. */
  const NONE: int := -1

  type Disk = seq<seq<int>>

  /** owner: the reference that holds the buffer's sleep-lock (lk->locked and lk->pid). */
  datatype Buf = Buf(dev: int, block: int, valid: bool, dirty: bool, owner: int, ref: int, data: seq<int>)

  datatype Stage = Waiting | Holding | Leaving

  /** A reference to buffer b. */
  datatype Handle = Handle(b: int, stage: Stage)

  type Handles = map<int, Handle>

  // ---------------------------------------------------------------------------------------------
  // The specification: an uncached disk with pending writes
  // ---------------------------------------------------------------------------------------------

  datatype Open = Open(k: int, stage: Stage)

  /** blocks: what each block contains; durable: what is on the disk; pinned: blocks kept by log_write. */
  datatype Spec = Spec(blocks: Disk, durable: Disk, pinned: set<int>, open: map<int, Open>)

  datatype Step =
    | Get(k: int)                     // bread has got a reference to the buffer of block k
    | Enter(h: int)                   // bread has got its sleep-lock, and returns the contents
    | Modify(h: int, x: seq<int>)     // the holder changes the contents
    | Write(h: int)                   // bwrite
    | Pin(h: int)                     // log_write
    | Leave(h: int)                   // brelse has let go of the sleep-lock
    | Unref(h: int)                   // brelse has given up the reference

  predicate Holds(sp: Spec, h: int)
  {
    h in sp.open && sp.open[h].stage == Holding
  }

  predicate HeldBlock(sp: Spec, k: int)
  {
    exists h :: h in sp.open && sp.open[h].k == k && sp.open[h].stage == Holding
  }

  predicate InRange(sp: Spec, h: int)
  {
    h in sp.open && 0 <= sp.open[h].k < |sp.blocks| == |sp.durable|
  }

  /** Nothing would be lost if the buffer of block k were given up. */
  predicate Saved(sp: Spec, k: int)
  {
    0 <= k < |sp.blocks| == |sp.durable| && (k in sp.pinned || sp.blocks[k] == sp.durable[k])
  }

  /** The callers' side of the protocol; a holder who changed the contents writes or pins them before it lets go. */
  predicate Enabled(sp: Spec, h: int, e: Step)
  {
    match e
    case Get(k) => 0 <= k < |sp.blocks| && h !in sp.open && h >= 0
    case Enter(g) => InRange(sp, g) && sp.open[g].stage == Waiting && !HeldBlock(sp, sp.open[g].k)
    case Modify(g, _) => InRange(sp, g) && Holds(sp, g)
    case Write(g) => InRange(sp, g) && Holds(sp, g)
    case Pin(g) => InRange(sp, g) && Holds(sp, g)
    case Leave(g) => InRange(sp, g) && Holds(sp, g) && Saved(sp, sp.open[g].k)
    case Unref(g) => g in sp.open && sp.open[g].stage == Leaving
  }

  /** A step that is not enabled is left out; h names the reference that Get makes. */
  function After(sp: Spec, h: int, e: Step): Spec
  {
    if !Enabled(sp, h, e) then sp
    else match e
      case Get(k) => sp.(open := sp.open[h := Open(k, Waiting)])
      case Enter(g) => sp.(open := sp.open[g := sp.open[g].(stage := Holding)])
      case Modify(g, x) => sp.(blocks := sp.blocks[sp.open[g].k := x])
      case Write(g) => sp.(durable := sp.durable[sp.open[g].k := sp.blocks[sp.open[g].k]],
                           pinned := sp.pinned - {sp.open[g].k})
      case Pin(g) => sp.(pinned := sp.pinned + {sp.open[g].k})
      case Leave(g) => sp.(open := sp.open[g := sp.open[g].(stage := Leaving)])
      case Unref(g) => sp.(open := sp.open - {g})
  }

  datatype Answer = Nothing | Contents(x: seq<int>)

  /** bread answers with the contents of the block. */
  function Says(sp: Spec, h: int, e: Step): Answer
  {
    if e.Enter? && Enabled(sp, h, e) then Contents(sp.blocks[sp.open[e.h].k]) else Nothing
  }

  /** The references that the steps make are numbered by the steps. */
  function AfterAll(sp: Spec, es: seq<Step>): Spec
  {
    if es == [] then sp else After(AfterAll(sp, es[..|es| - 1]), |es| - 1, es[|es| - 1])
  }

  function SaysAll(sp: Spec, es: seq<Step>): seq<Answer>
  {
    if es == [] then []
    else SaysAll(sp, es[..|es| - 1]) + [Says(AfterAll(sp, es[..|es| - 1]), |es| - 1, es[|es| - 1])]
  }

  lemma OneMore(sp: Spec, es: seq<Step>, i: int)
    requires 0 <= i < |es|
    ensures AfterAll(sp, es[..i + 1]) == After(AfterAll(sp, es[..i]), i, es[i])
    ensures SaysAll(sp, es[..i + 1]) == SaysAll(sp, es[..i]) + [Says(AfterAll(sp, es[..i]), i, es[i])]
  {
    var more := es[..i + 1];
    assert more[..|more| - 1] == es[..i] && more[|more| - 1] == es[i];
  }

  /** The number of a step is a new name for a reference, so that Get is enabled for every block. */
  lemma {:induction false} NewNumber(sp: Spec, es: seq<Step>, g: int)
    requires sp.open == map[] && g in AfterAll(sp, es).open
    ensures 0 <= g < |es|
  {
    if es != [] {
      var front := es[..|es| - 1];
      if g in AfterAll(sp, front).open {
        NewNumber(sp, front, g);
      }
    }
  }

  /** In every run, what is not on the disk yet is pinned or in the hands of a holder. */
  lemma {:induction false} PendingIsKept(sp: Spec, es: seq<Step>, k: int)
    requires |sp.blocks| == |sp.durable| && 0 <= k < |sp.blocks| && (Saved(sp, k) || HeldBlock(sp, k))
    ensures var t := AfterAll(sp, es);
            |t.blocks| == |t.durable| == |sp.blocks| && (Saved(t, k) || HeldBlock(t, k))
  {
    if es != [] {
      var front, h, e := es[..|es| - 1], |es| - 1, es[|es| - 1];
      PendingIsKept(sp, front, k);
      StepKeepsPending(AfterAll(sp, front), h, e, k);
    }
  }

  lemma StepKeepsPending(sp: Spec, h: int, e: Step, k: int)
    requires |sp.blocks| == |sp.durable| && 0 <= k < |sp.blocks| && (Saved(sp, k) || HeldBlock(sp, k))
    ensures var t := After(sp, h, e);
            |t.blocks| == |t.durable| == |sp.blocks| && (Saved(t, k) || HeldBlock(t, k))
  {
    var t := After(sp, h, e);
    if Enabled(sp, h, e) && HeldBlock(sp, k) {
      var g :| g in sp.open && sp.open[g].k == k && sp.open[g].stage == Holding;
      assert !(e.Leave? && e.h == g) ==> g in t.open && t.open[g].k == k && t.open[g].stage == Holding;
    }
    if Enabled(sp, h, e) && e.Modify? && sp.open[e.h].k == k {
      assert e.h in t.open && t.open[e.h].k == k && t.open[e.h].stage == Holding;
    }
  }

  /** Step m of the run is taken, and it modifies or writes block k. */
  predicate WorksOn(sp: Spec, es: seq<Step>, m: int, k: int)
    requires 0 <= m < |es|
  {
    var t := AfterAll(sp, es[..m]);
    (es[m].Modify? || es[m].Write?) && Enabled(t, m, es[m]) && t.open[es[m].h].k == k
  }

  /** A block contains what was put there last, whoever did it. */
  lemma {:induction false} LastModify(sp: Spec, es: seq<Step>, i: int, k: int)
    requires 0 <= i < |es| && es[i].Modify? && WorksOn(sp, es, i, k)
    requires forall m :: i < m < |es| && es[m].Modify? ==> !WorksOn(sp, es, m, k)
    ensures var t := AfterAll(sp, es);
            0 <= k < |t.blocks| && t.blocks[k] == es[i].x
    decreases |es|
  {
    var n := |es| - 1;
    var front := es[..n];
    if i < n {
      forall m | i <= m < n
        ensures WorksOn(sp, front, m, k) == WorksOn(sp, es, m, k)
      {
        assert front[..m] == es[..m];
      }
      LastModify(sp, front, i, k);
      assert es[n].Modify? ==> !WorksOn(sp, es, n, k);
    }
  }

  /** The disk holds what the block contained when it was written last. */
  lemma {:induction false} LastWrite(sp: Spec, es: seq<Step>, i: int, k: int)
    requires 0 <= i < |es| && es[i].Write? && WorksOn(sp, es, i, k)
    requires forall m :: i < m < |es| && es[m].Write? ==> !WorksOn(sp, es, m, k)
    ensures var t, u := AfterAll(sp, es), AfterAll(sp, es[..i]);
            0 <= k < |t.durable| && k < |u.blocks| && t.durable[k] == u.blocks[k]
    decreases |es|
  {
    var n := |es| - 1;
    var front := es[..n];
    if i < n {
      forall m | i <= m < n
        ensures WorksOn(sp, front, m, k) == WorksOn(sp, es, m, k)
      {
        assert front[..m] == es[..m];
      }
      LastWrite(sp, front, i, k);
      assert front[..i] == es[..i];
      assert es[n].Write? ==> !WorksOn(sp, es, n, k);
    }
  }

  /** Blocks that somebody has open or that are pinned: their buffers cannot be reused. */
  ghost function Busy(sp: Spec): (r: set<int>)
    ensures forall k :: k in r <==> k in sp.pinned || exists h :: h in sp.open && sp.open[h].k == k
  {
    sp.pinned + set h | h in sp.open :: sp.open[h].k
  }

  // ---------------------------------------------------------------------------------------------
  // The buffers
  // ---------------------------------------------------------------------------------------------

  predicate Caches(bufs: seq<Buf>, i: int, k: int)
  {
    0 <= i < |bufs| && bufs[i].dev == ROOTDEV && bufs[i].block == k
  }

  /** Reading block k yields x: from its buffer if that is valid, else from the disk. */
  ghost predicate Shows(bufs: seq<Buf>, disk: Disk, k: int, x: seq<int>)
  {
    && 0 <= k < |disk|
    && (forall i :: Caches(bufs, i, k) && bufs[i].valid ==> bufs[i].data == x)
    && ((forall i :: Caches(bufs, i, k) ==> !bufs[i].valid) ==> disk[k] == x)
  }

  predicate BufOk(bufs: seq<Buf>, disk: Disk, i: int)
    requires 0 <= i < |bufs|
  {
    var b := bufs[i];
    b.ref >= 0 && (b.dirty ==> b.valid) && (b.valid ==> b.dev == ROOTDEV)
      && (b.dev == ROOTDEV ==> 0 <= b.block < |disk|)
  }

  predicate Distinct(bufs: seq<Buf>, i: int, j: int)
    requires 0 <= i < |bufs| && 0 <= j < |bufs|
  {
    i != j && bufs[i].dev == ROOTDEV && bufs[j].dev == ROOTDEV ==> bufs[i].block != bufs[j].block
  }

  /** At most one buffer per block. */
  ghost predicate CacheOk(bufs: seq<Buf>, disk: Disk)
  {
    && (forall i :: 0 <= i < |bufs| ==> BufOk(bufs, disk, i))
    && (forall i, j :: 0 <= i < |bufs| && 0 <= j < |bufs| ==> Distinct(bufs, i, j))
  }

  /** A valid buffer that nobody has locked and that is not dirty equals the disk. */
  predicate CleanOk(bufs: seq<Buf>, disk: Disk, i: int)
    requires 0 <= i < |bufs|
  {
    var b := bufs[i];
    b.valid && !b.dirty && b.owner == NONE ==> 0 <= b.block < |disk| && b.data == disk[b.block]
  }

  ghost predicate Clean(bufs: seq<Buf>, disk: Disk)
  {
    forall i :: 0 <= i < |bufs| ==> CleanOk(bufs, disk, i)
  }

  /** Every block shows exactly one content. */
  lemma ShowsOne(bufs: seq<Buf>, disk: Disk, k: int) returns (x: seq<int>)
    requires CacheOk(bufs, disk) && 0 <= k < |disk|
    ensures Shows(bufs, disk, k, x) && forall y :: Shows(bufs, disk, k, y) ==> y == x
  {
    if i :| Caches(bufs, i, k) && bufs[i].valid {
      x := bufs[i].data;
      forall j | Caches(bufs, j, k)
        ensures j == i
      {
        assert Distinct(bufs, i, j);
      }
    } else {
      x := disk[k];
    }
  }

  /** A buffer that nobody uses and that holds no pending write. */
  predicate Idle(b: Buf)
  {
    b.ref == 0 && !b.dirty
  }

  // ---------------------------------------------------------------------------------------------
  // References
  // ---------------------------------------------------------------------------------------------

  ghost function Users(hs: Handles, b: int): set<int>
  {
    set h | h in hs && hs[h].b == b
  }

  predicate HandleOk(bufs: seq<Buf>, hs: Handles, h: int)
  {
    h in hs ==>
      && h != NONE && 0 <= hs[h].b < |bufs| && bufs[hs[h].b].dev == ROOTDEV
      && (hs[h].stage == Holding <==> bufs[hs[h].b].owner == h) && (hs[h].stage == Holding ==> bufs[hs[h].b].valid)
  }

  predicate OwnerOk(bufs: seq<Buf>, hs: Handles, b: int)
    requires 0 <= b < |bufs|
  {
    bufs[b].owner != NONE ==> bufs[b].owner in hs && hs[bufs[b].owner].b == b
  }

  ghost predicate RefOk(bufs: seq<Buf>, hs: Handles, b: int)
    requires 0 <= b < |bufs|
  {
    bufs[b].ref == |Users(hs, b)|
  }

  ghost predicate HandlesOk(bufs: seq<Buf>, hs: Handles)
  {
    && (forall h :: HandleOk(bufs, hs, h))
    && (forall b :: 0 <= b < |bufs| ==> OwnerOk(bufs, hs, b))
    && (forall b :: 0 <= b < |bufs| ==> RefOk(bufs, hs, b))
  }

  // ---------------------------------------------------------------------------------------------
  // The cache stands for the specification
  // ---------------------------------------------------------------------------------------------

  ghost predicate View(bufs: seq<Buf>, disk: Disk, blocks: Disk)
  {
    |blocks| == |disk| && forall k :: 0 <= k < |disk| ==> Shows(bufs, disk, k, blocks[k])
  }

  ghost predicate PinOk(bufs: seq<Buf>, pinned: set<int>, k: int)
  {
    k in pinned <==> exists i :: Caches(bufs, i, k) && bufs[i].dirty
  }

  predicate OpenOk(bufs: seq<Buf>, hs: Handles, open: map<int, Open>, h: int)
  {
    && (h in hs <==> h in open)
    && (h in hs ==> 0 <= hs[h].b < |bufs| && open[h] == Open(bufs[hs[h].b].block, hs[h].stage))
  }

  ghost predicate PinsOk(bufs: seq<Buf>, pinned: set<int>)
  {
    forall k :: PinOk(bufs, pinned, k)
  }

  ghost predicate OpensOk(bufs: seq<Buf>, hs: Handles, open: map<int, Open>)
  {
    forall h :: OpenOk(bufs, hs, open, h)
  }

  ghost predicate Stands(bufs: seq<Buf>, disk: Disk, hs: Handles, sp: Spec)
  {
    && View(bufs, disk, sp.blocks) && sp.durable == disk
    && PinsOk(bufs, sp.pinned) && OpensOk(bufs, hs, sp.open)
  }

  ghost predicate Core(bufs: seq<Buf>, disk: Disk, hs: Handles, sp: Spec)
  {
    CacheOk(bufs, disk) && HandlesOk(bufs, hs) && Stands(bufs, disk, hs, sp)
  }
}
