/**
  bget, bread, bwrite and brelse of bio.c over the in-memory disk of memide.c.  A method is what happens between two
  points where other processes may come in: under bcache.lock, or by the holder of a buffer's sleep-lock.  h names a
  reference to a buffer, from bget to the end of brelse.
*/
module BioCode {
  import opened BufRing
  import opened BufCache
  import opened BufSteps

  class Bcache {
    /** NBUF. */
    const n: int
    var next: seq<int>
    var prev: seq<int>
    var bufs: seq<Buf>
    var disk: Disk
    ghost var order: seq<int>
    /** The buffers whose last reference was given up, in order. */
    ghost var released: seq<int>
    ghost var handles: Handles
    ghost var spec: Spec

    ghost predicate Linked()
      reads this
    {
      Ring(next, prev, order, n) && |bufs| == n && (forall b :: 0 <= b < n ==> b in order) && ByRelease(order, released)
    }

    /** All but that clean unlocked buffers equal the disk. */
    ghost predicate Whole()
      reads this
    {
      Linked() && Core(bufs, disk, handles, spec)
    }

    ghost predicate Valid()
      reads this
    {
      Whole() && Clean(bufs, disk)
    }

    /** The four assignments that put b behind the head. */
    method PushFront(b: int)
      requires Ring(next, prev, order, n) && 0 <= b < n && b !in order
      modifies `next, `prev, `order
      ensures Ring(next, prev, order, n) && order == [b] + old(order)
    {
      ghost var nx, pv := next, prev;
      assert LinkOk(next, prev, order, n, -1);
      next := next[b := next[n]];
      prev := prev[b := n];
      prev := prev[next[n] := b];
      next := next[n := b];
      Push(nx, pv, order, n, b, next, prev);
      order := [b] + order;
    }

    /** The unlinking and the relinking of brelse (bio.c:132-137). */
    method MoveFront(b: int, ghost pos: int)
      requires Ring(next, prev, order, n) && 0 <= pos < |order| && order[pos] == b
      modifies `next, `prev, `order
      ensures Ring(next, prev, order, n) && order == [b] + Without(old(order), pos)
    {
      ghost var nx, pv := next, prev;
      assert LinkOk(next, prev, order, n, pos - 1) && LinkOk(next, prev, order, n, pos);
      prev := prev[next[b] := prev[b]];
      next := next[prev[b] := next[b]];
      Unlink(nx, pv, order, n, pos, next, prev);
      order := Without(order, pos);
      PushFront(b);
    }

    /** b has been released last. */
    method Release(b: int)
      requires Linked() && 0 <= b < n
      modifies `next, `prev, `order, `released
      ensures Linked() && released == old(released) + [b]
    {
      assert b in order;
      ghost var pos :| 0 <= pos < |order| && order[pos] == b;
      ReleaseFront(order, released, pos);
      SameMembers(order, pos);
      MoveFront(b, pos);
      released := released + [b];
    }

    /** bio.c:38-56. */
    constructor (count: int, image: Disk)
      requires 0 <= count
      ensures Valid() && n == count && disk == image && released == [] && fresh(this)
      ensures spec == Spec(image, image, {}, map[])
    {
      n := count;
      next := seq(count + 1, _ => count);
      prev := seq(count + 1, _ => count);
      bufs := seq(count, _ => Buf(0, 0, false, false, NONE, 0, []));
      disk := image;
      order, released, handles, spec := [], [], map[], Spec(image, image, {}, map[]);
      new;
      var b := 0;
      assert LinkOk(next, prev, order, n, -1);
      while b < n
        invariant 0 <= b <= n && Ring(next, prev, order, n) && ByRelease(order, []) && released == []
        invariant forall i :: 0 <= i < n ==> (i in order <==> i < b)
        invariant bufs == seq(n, _ => Buf(0, 0, false, false, NONE, 0, [])) && disk == image
        invariant handles == map[] && spec == Spec(image, image, {}, map[])
      {
        assert forall i :: 0 <= i < |order| ==> order[i] in order;
        PushByNumber(order, b);
        PushFront(b);
        b := b + 1;
      }
      FreshCore(bufs, disk);
    }

    /** The first loop of bget: along next (bio.c:69-76). */
    method Lookup(k: int) returns (b: int)
      requires Linked()
      ensures b == n ==> forall i :: !Caches(bufs, i, k)
      ensures b != n ==> Caches(bufs, b, k)
    {
      ghost var i := 0;
      assert LinkOk(next, prev, order, n, -1);
      b := next[n];
      while b != n
        invariant 0 <= i <= |order| && b == At(order, n, i)
        invariant forall j :: 0 <= j < i ==> !Caches(bufs, order[j], k)
        decreases |order| - i
      {
        if bufs[b].dev == ROOTDEV && bufs[b].block == k {
          return;
        }
        assert LinkOk(next, prev, order, n, i);
        b := next[b];
        i := i + 1;
      }
      forall c
        ensures !Caches(bufs, c, k)
      {
        if 0 <= c < n {
          assert c in order;
          var j :| 0 <= j < |order| && order[j] == c;
        }
      }
    }

    /** The second loop of bget: along prev, to the idle buffer released longest ago (bio.c:81-91). */
    method FindIdle() returns (b: int)
      requires Linked()
      ensures b == n ==> forall i :: 0 <= i < n ==> !Idle(bufs[i])
      ensures b != n ==> 0 <= b < n && Idle(bufs[b])
      ensures b != n ==> forall i :: 0 <= i < n && i != b && Idle(bufs[i]) ==> Later(released, i, b)
    {
      ghost var pos := |order| - 1;
      assert LinkOk(next, prev, order, n, |order| - 1);
      b := prev[n];
      while b != n
        invariant -1 <= pos < |order| && b == At(order, n, pos)
        invariant forall j :: pos < j < |order| ==> !Idle(bufs[order[j]])
        decreases pos
      {
        if bufs[b].ref == 0 && !bufs[b].dirty {
          forall i | 0 <= i < n && i != b && Idle(bufs[i])
            ensures Later(released, i, b)
          {
            assert i in order;
            var j :| 0 <= j < |order| && order[j] == i;
          }
          return;
        }
        assert LinkOk(next, prev, order, n, pos - 1);
        b := prev[b];
        pos := pos - 1;
      }
      forall c | 0 <= c < n
        ensures !Idle(bufs[c])
      {
        assert c in order;
        var j :| 0 <= j < |order| && order[j] == c;
      }
    }

    /**
      bio.c:61-93, up to acquiresleep.  A reference to the buffer that caches the block, or else to the idle one
      released longest ago.  Panics exactly if NBUF other blocks are open or pinned.
    */
    method Bget(k: int, h: int) returns (b: int, panicked: bool)
      requires Valid() && Enabled(spec, h, Get(k))
      modifies `bufs, `handles, `spec
      ensures panicked <==> |Busy(old(spec))| == n && k !in Busy(old(spec))
      ensures panicked ==> unchanged(this)
      ensures !panicked ==>
        Valid() && spec == After(old(spec), h, Get(k)) && handles == old(handles)[h := Handle(b, Waiting)]
      ensures !panicked && !Caches(old(bufs), b, k) ==>
        0 <= b < n == |old(bufs)| && Idle(old(bufs)[b])
          && forall i :: 0 <= i < n && i != b && Idle(old(bufs)[i]) ==> Later(released, i, b)
    {
      NoBuffer(bufs, disk, handles, spec, k);
      b := Lookup(k);
      if b != n {
        HitKeeps(bufs, disk, handles, spec, h, k, b);
        bufs := bufs[b := bufs[b].(ref := bufs[b].ref + 1)];
        handles, spec := handles[h := Handle(b, Waiting)], After(spec, h, Get(k));
        return b, false;
      }
      b := FindIdle();
      if b == n {
        return n, true;
      }
      ghost var was := bufs;
      bufs := bufs[b := Buf(ROOTDEV, k, false, false, bufs[b].owner, 1, bufs[b].data)];
      MissKeeps(was, disk, handles, spec, h, k, b, bufs);
      handles, spec := handles[h := Handle(b, Waiting)], After(spec, h, Get(k));
      return b, false;
    }

    /** memide.c:38-60, for the holder h of b's lock, or for one who does not hold it. */
    method Iderw(b: int, h: int) returns (panicked: bool)
      requires 0 <= b < |bufs|
      modifies `bufs, `disk
      ensures panicked <==> var c := old(bufs)[b];
                            c.owner != h || (c.valid && !c.dirty) || c.dev != ROOTDEV || !(0 <= c.block < |old(disk)|)
      ensures panicked ==> unchanged(this)
      ensures !panicked && old(bufs)[b].dirty ==>
        disk == old(disk)[old(bufs)[b].block := old(bufs)[b].data]
          && bufs == old(bufs)[b := old(bufs)[b].(dirty := false, valid := true)]
      ensures !panicked && !old(bufs)[b].dirty ==>
        disk == old(disk) && bufs == old(bufs)[b := old(bufs)[b].(valid := true, data := disk[old(bufs)[b].block])]
    {
      var k := bufs[b].block;
      if bufs[b].owner != h || (bufs[b].valid && !bufs[b].dirty) || bufs[b].dev != ROOTDEV || !(0 <= k < |disk|) {
        return true;
      }
      if bufs[b].dirty {
        bufs := bufs[b := bufs[b].(dirty := false)];
        disk := disk[k := bufs[b].data];
      } else {
        bufs := bufs[b := bufs[b].(data := disk[k])];
      }
      bufs := bufs[b := bufs[b].(valid := true)];
      return false;
    }

    /**
      The rest of bread, when acquiresleep has found the lock free (bio.c:70-75, 96-106): the contents of the
      block.
    */
    method EnterBuffer(b: int, h: int) returns (panicked: bool)
      requires Valid() && Enabled(spec, h, Enter(h)) && h in handles && handles[h].b == b
      modifies `bufs, `disk, `handles, `spec
      ensures !panicked && Valid() && spec == After(old(spec), h, Enter(h)) && disk == old(disk)
      ensures handles == old(handles)[h := Handle(b, Holding)]
      ensures 0 <= b < n && bufs[b].data == spec.blocks[spec.open[h].k]
    {
      panicked := false;
      EnterKeeps(bufs, disk, handles, spec, h);
      FreeBuffer(bufs, disk, handles, spec, h);
      ghost var c := Entered(bufs, disk, b, h);
      assert BufOk(bufs, disk, b);
      bufs := bufs[b := bufs[b].(owner := h)];
      if !bufs[b].valid {
        panicked := Iderw(b, h);
      }
      assert bufs == old(bufs)[b := c];
      handles, spec := handles[h := Handle(b, Holding)], After(spec, h, Enter(h));
    }

    /** bio.c:96-106.  bread gets the contents of the block, or sleeps until its holder lets go. */
    method Bread(k: int, h: int) returns (b: int, slept: bool, panicked: bool)
      requires Valid() && Enabled(spec, h, Get(k))
      modifies `bufs, `disk, `handles, `spec
      ensures disk == old(disk)
      ensures panicked <==> |Busy(old(spec))| == n && k !in Busy(old(spec))
      ensures !panicked ==> Valid() && (slept <==> HeldBlock(old(spec), k)) && h in handles && handles[h].b == b
      ensures !panicked && slept ==> spec == After(old(spec), h, Get(k))
      ensures !panicked && !slept ==>
        && spec == After(After(old(spec), h, Get(k)), h, Enter(h)) && Holds(spec, h)
        && 0 <= b < n && bufs[b].owner == h && bufs[b].data == old(spec).blocks[k]
    {
      slept := false;
      b, panicked := Bget(k, h);
      if panicked {
        return;
      }
      FreeBuffer(bufs, disk, handles, spec, h);
      HeldSame(old(spec), h, k);
      if bufs[b].owner != NONE {
        slept := true;
        return;
      }
      panicked := EnterBuffer(b, h);
      FreeBuffer(bufs, disk, handles, spec, h);
    }

    /** The holder changes b->data: its block now contains x, and all others are as before. */
    method ModifyBuffer(b: int, h: int, x: seq<int>)
      requires Valid() && Enabled(spec, h, Modify(h, x)) && h in handles && handles[h].b == b
      modifies `bufs, `spec
      ensures Valid() && spec == After(old(spec), h, Modify(h, x))
    {
      ModifyKeeps(bufs, disk, handles, spec, h, x);
      bufs := bufs[b := bufs[b].(data := x)];
      spec := After(spec, h, Modify(h, x));
    }

    /** bio.c:109-116.  The disk gets the contents; panics exactly if h does not hold the lock. */
    method Bwrite(b: int, h: int) returns (panicked: bool)
      requires Valid() && h in handles && handles[h].b == b
      modifies `bufs, `disk, `spec
      ensures panicked <==> !Holds(old(spec), h)
      ensures panicked ==> unchanged(this)
      ensures !panicked ==> Valid() && Enabled(old(spec), h, Write(h)) && spec == After(old(spec), h, Write(h))
    {
      assert OpenOk(bufs, handles, spec.open, h);
      FreeBuffer(bufs, disk, handles, spec, h);
      if bufs[b].owner != h {
        return true;
      }
      WriteKeeps(bufs, disk, handles, spec, h);
      bufs := bufs[b := bufs[b].(dirty := true)];
      panicked := Iderw(b, h);
      assert bufs == old(bufs)[b := old(bufs)[b].(dirty := false)];
      spec := After(spec, h, Write(h));
    }

    /** What log_write does to pin a buffer (log.c:231). */
    method PinBuffer(b: int, h: int)
      requires Valid() && Enabled(spec, h, Pin(h)) && h in handles && handles[h].b == b
      modifies `bufs, `spec
      ensures Valid() && spec == After(old(spec), h, Pin(h))
    {
      PinKeeps(bufs, disk, handles, spec, h);
      bufs := bufs[b := bufs[b].(dirty := true)];
      spec := After(spec, h, Pin(h));
    }

    /**
      releasesleep in brelse (bio.c:122-125); panics exactly if h does not hold the lock.  What was changed is safe
      if and only if it has been written or pinned before.
    */
    method LeaveBuffer(b: int, h: int) returns (panicked: bool)
      requires Valid() && h in handles && handles[h].b == b
      modifies `bufs, `handles, `spec
      ensures panicked <==> !Holds(old(spec), h)
      ensures panicked ==> unchanged(this)
      ensures !panicked ==>
        Whole() && spec == old(spec).(open := old(spec).open[h := old(spec).open[h].(stage := Leaving)])
      ensures !panicked ==>
        (Valid() <==> Saved(old(spec), old(spec).open[h].k)) && handles == old(handles)[h := Handle(b, Leaving)]
    {
      assert OpenOk(bufs, handles, spec.open, h);
      FreeBuffer(bufs, disk, handles, spec, h);
      if bufs[b].owner != h {
        return true;
      }
      LeaveKeeps(bufs, disk, handles, spec, h);
      bufs := bufs[b := bufs[b].(owner := NONE)];
      handles := handles[h := Handle(b, Leaving)];
      spec := spec.(open := spec.open[h := spec.open[h].(stage := Leaving)]);
      return false;
    }

    /** The end of brelse, under bcache.lock (bio.c:127-139); a buffer nobody uses any more goes to the front. */
    method UnrefBuffer(b: int, h: int)
      requires Whole() && Enabled(spec, h, Unref(h)) && h in handles && handles[h].b == b
      modifies `bufs, `next, `prev, `order, `released, `handles, `spec
      ensures Whole() && spec == After(old(spec), h, Unref(h)) && (Valid() <==> old(Valid()))
        && handles == old(handles) - {h}
      ensures 0 <= b < |old(bufs)| && released == if old(bufs)[b].ref == 1 then old(released) + [b] else old(released)
    {
      UnrefKeeps(bufs, disk, handles, spec, h);
      bufs := bufs[b := bufs[b].(ref := bufs[b].ref - 1)];
      handles, spec := handles - {h}, After(spec, h, Unref(h));
      if bufs[b].ref == 0 {
        Release(b);
      }
    }

    /** bio.c:120-141. */
    method Brelse(b: int, h: int) returns (panicked: bool)
      requires Valid() && h in handles && handles[h].b == b
      modifies `bufs, `next, `prev, `order, `released, `handles, `spec
      ensures panicked <==> !Holds(old(spec), h)
      ensures panicked ==> unchanged(this)
      ensures !panicked ==> Whole() && h in old(spec).open && spec == old(spec).(open := old(spec).open - {h})
      ensures !panicked ==> (Valid() <==> Saved(old(spec), old(spec).open[h].k))
    {
      panicked := LeaveBuffer(b, h);
      if !panicked {
        UnrefBuffer(b, h);
        assert spec.open == old(spec).open - {h};
      }
    }

    /** A step of the holder of b, or the end of brelse. */
    method Act(e: Step, b: int)
      requires Valid() && !e.Get? && !e.Enter? && Enabled(spec, e.h, e) && e.h in handles && handles[e.h].b == b
      modifies `bufs, `disk, `next, `prev, `order, `released, `handles, `spec
      ensures Valid() && spec == After(old(spec), e.h, e)
      ensures forall h :: h in handles ==> h in old(handles) && handles[h].b == old(handles)[h].b
    {
      var panicked;
      match e {
        case Modify(h, x) => ModifyBuffer(b, h, x);
        case Write(h) => panicked := Bwrite(b, h);
        case Pin(h) => PinBuffer(b, h);
        case Leave(h) => panicked := LeaveBuffer(b, h);
        case Unref(h) => UnrefBuffer(b, h);
      }
    }

    /** One step, if the specification enables it; `at` is where each caller keeps the buffer that bread gave it. */
    method Perform(e: Step, h: int, sp: Spec, at: map<int, int>) returns (a: Answer, at': map<int, int>, panicked: bool)
      requires Valid() && sp == spec && Kept(at, handles)
      modifies `bufs, `disk, `next, `prev, `order, `released, `handles, `spec
      ensures panicked <==> NoRoom(sp, n, h, e)
      ensures !panicked ==> Valid() && spec == After(sp, h, e) && a == Says(sp, h, e) && Kept(at', handles)
    {
      a, at', panicked := Nothing, at, false;
      if !Enabled(sp, h, e) {
        return;
      }
      if e.Get? {
        var b;
        b, panicked := Bget(e.k, h);
        at' := at[h := b];
        return;
      }
      assert OpenOk(bufs, handles, spec.open, e.h);
      if e.Enter? {
        panicked := EnterBuffer(at[e.h], e.h);
        a := Contents(bufs[at[e.h]].data);
      } else {
        Act(e, at[e.h]);
      }
    }

    /**
      The cache refines an uncached disk with pending writes: in every interleaving of the steps of any number of
      callers who write or pin what they change, bread answers with the contents of the block, the disk is what the
      specification says is durable, and unlocked clean buffers equal it.  It stops only where bget panics.
    */
    method Run(es: seq<Step>, sp0: Spec) returns (answers: seq<Answer>, panicked: bool)
      requires Valid() && sp0 == spec && spec.open == map[]
      modifies `bufs, `disk, `next, `prev, `order, `released, `handles, `spec
      ensures |answers| <= |es| && answers == SaysAll(sp0, es[..|answers|])
      ensures !panicked ==> |answers| == |es| && Valid() && spec == AfterAll(sp0, es) && disk == spec.durable
      ensures panicked ==> |answers| < |es| && NoRoom(AfterAll(sp0, es[..|answers|]), n, |answers|, es[|answers|])
    {
      var sp, at: map<int, int> := sp0, map[];
      answers, panicked := [], false;
      forall h
        ensures h !in handles
      {
        assert OpenOk(bufs, handles, spec.open, h);
      }
      for i := 0 to |es|
        invariant !panicked && Valid() && sp == spec == AfterAll(sp0, es[..i]) && Kept(at, handles)
        invariant |answers| == i && answers == SaysAll(sp0, es[..i])
      {
        OneMore(sp0, es, i);
        var a;
        a, at, panicked := Perform(es[i], i, sp, at);
        if panicked {
          return;
        }
        sp := After(sp, i, es[i]);
        answers := answers + [a];
      }
      assert es[..|es|] == es;
    }
  }

  /** Every reference knows its buffer. */
  ghost predicate Kept(at: map<int, int>, hs: Handles)
  {
    forall h :: h in hs ==> h in at && at[h] == hs[h].b
  }

  /** bget has no buffer: NBUF other blocks are open or pinned. */
  ghost predicate NoRoom(sp: Spec, n: int, h: int, e: Step)
  {
    e.Get? && Enabled(sp, h, e) && |Busy(sp)| == n && e.k !in Busy(sp)
  }
}
