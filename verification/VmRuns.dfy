/**
  Several address spaces at once: every frame in use belongs to one of them, and each has the kernel's half and
  exactly the user pages below its size, all open to the user but the guard page under the stack.
*/
module VmRuns {
  import opened Frames
  import opened Spaces

  /** guard: the page that exec made inaccessible below the stack, or -1 if it is gone. */
  datatype Shape = Shape(sz: int, guard: int)

  /** The page directory of a process, and its address space. */
  datatype Process = Process(d: int, shape: Shape)

  datatype Call =
    | Spawn(tops: seq<int>)   // exec: the ends of the segments, in turn, and then a guard page and the stack
    | Grow(k: int, n: int)    // growproc of process k
    | Fork(k: int)
    | Exit(k: int)

  // ---------------------------------------------------------------------------------------------
  // The sizes that the calls ask for
  // ---------------------------------------------------------------------------------------------

  function Shapes(procs: seq<Process>): seq<Shape>
  {
    seq(|procs|, i requires 0 <= i < |procs| => procs[i].shape)
  }

  lemma ShapesAdd(procs: seq<Process>, p: Process)
    ensures Shapes(procs + [p]) == Shapes(procs) + [p.shape]
  {
  }

  lemma ShapesSet(procs: seq<Process>, k: int, p: Process)
    requires 0 <= k < |procs|
    ensures Shapes(procs[k := p]) == Shapes(procs)[k := p.shape]
    ensures p.shape == procs[k].shape ==> Shapes(procs[k := p]) == Shapes(procs)
  {
  }

  lemma ShapesDrop(procs: seq<Process>, k: int)
    requires 0 <= k < |procs|
    ensures Shapes(procs[..k] + procs[k + 1..]) == Shapes(procs)[..k] + Shapes(procs)[k + 1..]
  {
  }

  /** growproc asks for sz + n bytes; beyond the user's half, and below or at nothing, the size stays. */
  function Resized(sz: int, n: int): int
  {
    if 0 < sz + n < KERNBASE then sz + n else sz
  }

  function Reshaped(q: Shape, n: int): Shape
  {
    Shape(Resized(q.sz, n), Kept(q.guard, Up(Resized(q.sz, n))))
  }

  /** The size after growing to each of the sizes: allocuvm never shrinks. */
  function Top(tops: seq<int>): int
  {
    if tops == [] then 0
    else
      var t, last := Top(tops[..|tops| - 1]), tops[|tops| - 1];
      if last < t then t else last
  }

  predicate Uints(tops: seq<int>)
  {
    forall i :: 0 <= i < |tops| ==> 0 <= tops[i] < UINT
  }

  /** Segments that exec accepts: none beyond the user's half, and not nothing to begin with. */
  predicate Loads(tops: seq<int>)
  {
    (tops != [] ==> 0 < tops[0]) && forall i :: 0 <= i < |tops| ==> 0 <= tops[i] < KERNBASE
  }

  /** The stack takes the two pages above the last segment. */
  function WithStack(sz: int): Shape
  {
    Shape((Up(sz) + 2) * PGSIZE, Up(sz))
  }

  predicate Fits(tops: seq<int>)
  {
    Loads(tops) && WithStack(Top(tops)).sz < KERNBASE
  }

  lemma LoadsMore(tops: seq<int>, i: int)
    requires 0 <= i < |tops| && Loads(tops[..i])
    ensures Loads(tops[..i + 1]) <==> 0 <= tops[i] < KERNBASE && (i == 0 ==> 0 < tops[i])
    ensures !Loads(tops[..i + 1]) ==> !Loads(tops)
  {
    var less, more := tops[..i], tops[..i + 1];
    assert more == less + [tops[i]];
  }

  lemma TopMore(tops: seq<int>, i: int)
    requires 0 <= i < |tops|
    ensures Top(tops[..i + 1]) == if tops[i] < Top(tops[..i]) then Top(tops[..i]) else tops[i]
  {
    var more := tops[..i + 1];
    assert more[..|more| - 1] == tops[..i];
  }

  lemma {:induction false} TopBelow(tops: seq<int>)
    requires forall i :: 0 <= i < |tops| ==> 0 <= tops[i] < KERNBASE
    ensures 0 <= Top(tops) < KERNBASE
  {
    if tops != [] {
      TopBelow(tops[..|tops| - 1]);
    }
  }

  function After(shapes: seq<Shape>, c: Call): seq<Shape>
  {
    match c
    case Spawn(tops) => if Fits(tops) then shapes + [WithStack(Top(tops))] else shapes
    case Grow(k, n) =>
      if 0 <= k < |shapes| && -KERNBASE <= n < KERNBASE && shapes[k].sz + n != 0 then
        shapes[k := Reshaped(shapes[k], n)]
      else shapes
    case Fork(k) => if 0 <= k < |shapes| then shapes + [shapes[k]] else shapes
    case Exit(k) => if 0 <= k < |shapes| then shapes[..k] + shapes[k + 1..] else shapes
  }

  /** All calls, without those that failed. */
  function AfterAll(calls: seq<Call>, oks: seq<bool>): seq<Shape>
    requires |oks| == |calls|
  {
    if calls == [] then []
    else
      var n := |calls| - 1;
      var shapes := AfterAll(calls[..n], oks[..n]);
      if oks[n] then After(shapes, calls[n]) else shapes
  }

  function Failures(oks: seq<bool>): int
  {
    if oks == [] then 0 else Failures(oks[..|oks| - 1]) + if oks[|oks| - 1] then 0 else 1
  }

  lemma AfterMore(calls: seq<Call>, i: int, oks: seq<bool>, ok: bool)
    requires 0 <= i < |calls| && |oks| == i
    ensures var shapes := AfterAll(calls[..i], oks);
            AfterAll(calls[..i + 1], oks + [ok]) == if ok then After(shapes, calls[i]) else shapes
    ensures Failures(oks + [ok]) == Failures(oks) + if ok then 0 else 1
  {
    var more, done := oks + [ok], calls[..i + 1];
    assert more[..i] == oks && done[..i] == calls[..i];
    LastCall(done, more, i);
  }

  lemma LastCall(calls: seq<Call>, oks: seq<bool>, n: int)
    requires |oks| == |calls| == n + 1 && 0 <= n
    ensures AfterAll(calls, oks) == if oks[n] then After(AfterAll(calls[..n], oks[..n]), calls[n])
      else AfterAll(calls[..n], oks[..n])
  {
  }

  ghost predicate SpaceOk(m: Mem, own: Owners, data: int, p: Process)
  {
    var Shape(sz, guard) := p.shape;
    IsDir(own, p.d) && 0 <= sz < KERNBASE && -1 <= guard < Up(sz) && Exact(m, p.d, data, Up(sz), guard)
  }

  predicate Apart(procs: seq<Process>, i: int, j: int)
    requires 0 <= i < |procs| && 0 <= j < |procs|
  {
    i != j ==> procs[i].d != procs[j].d
  }

  /** The frame belongs to a process of the list. */
  ghost predicate Accounted(o: Owner, procs: seq<Process>)
  {
    exists k :: 0 <= k < |procs| && Of(o, procs[k].d)
  }

  ghost predicate AllSpaces(m: Mem, own: Owners, data: int, procs: seq<Process>)
  {
    && (forall k :: 0 <= k < |procs| ==> SpaceOk(m, own, data, procs[k]))
    && (forall i, j :: 0 <= i < |procs| && 0 <= j < |procs| ==> Apart(procs, i, j))
    && (forall f :: f in own ==> Accounted(own[f], procs))
  }

  lemma OthersExact(m: Mem, own: Owners, n: Mem, own': Owners, d: int, data: int, p: Process)
    requires Own(m, own) && p.d != d && Others(m, own, n, own', d) && SpaceOk(m, own, data, p)
    ensures SpaceOk(n, own', data, p)
  {
    OthersPages(m, own, n, own', d, p.d, 0, 0);
    forall i, j | USER <= i < ENTRIES && 0 <= j < ENTRIES
      ensures KernelLeaf(n, p.d, data, i, j)
    {
      OthersPages(m, own, n, own', d, p.d, i, j);
      assert KernelLeaf(m, p.d, data, i, j);
    }
    forall i, j | 0 <= i < USER && 0 <= j < ENTRIES
      ensures ExactAt(n, p.d, Up(p.shape.sz), p.shape.guard, i, j)
    {
      OthersPages(m, own, n, own', d, p.d, i, j);
      assert ExactAt(m, p.d, Up(p.shape.sz), p.shape.guard, i, j);
    }
  }

  /** Process k has changed, the others have not. */
  lemma SpaceChanged(m: Mem, own: Owners, data: int, procs: seq<Process>, k: int, n: Mem, own': Owners, p: Process)
    requires Own(m, own) && AllSpaces(m, own, data, procs) && 0 <= k < |procs| && p.d == procs[k].d
    requires Others(m, own, n, own', p.d) && SpaceOk(n, own', data, p)
    ensures AllSpaces(n, own', data, procs[k := p])
  {
    var now := procs[k := p];
    forall i | 0 <= i < |now|
      ensures SpaceOk(n, own', data, now[i])
    {
      assert SpaceOk(m, own, data, procs[i]) && Apart(procs, i, k);
      if i != k {
        OthersExact(m, own, n, own', p.d, data, procs[i]);
      }
    }
    forall i, j | 0 <= i < |now| && 0 <= j < |now|
      ensures Apart(now, i, j)
    {
      assert Apart(procs, i, j);
    }
    forall f | f in own'
      ensures Accounted(own'[f], now)
    {
      assert SameAt(m, own, n, own', p.d, f);
      if Of(own'[f], p.d) {
        assert Of(own'[f], now[k].d);
      } else {
        assert Accounted(own[f], procs);
        var i :| 0 <= i < |procs| && Of(own[f], procs[i].d);
        assert Of(own'[f], now[i].d);
      }
    }
  }

  /** A process with a new page directory has come. */
  lemma SpaceAdded(m: Mem, own: Owners, data: int, procs: seq<Process>, n: Mem, own': Owners, p: Process)
    requires Own(m, own) && AllSpaces(m, own, data, procs) && p.d !in own && Others(m, own, n, own', p.d)
      && SpaceOk(n, own', data, p)
    ensures AllSpaces(n, own', data, procs + [p])
  {
    var now := procs + [p];
    forall i | 0 <= i < |now|
      ensures SpaceOk(n, own', data, now[i])
    {
      if i < |procs| {
        assert SpaceOk(m, own, data, procs[i]);
        OthersExact(m, own, n, own', p.d, data, procs[i]);
      }
    }
    forall i, j | 0 <= i < |now| && 0 <= j < |now|
      ensures Apart(now, i, j)
    {
      if i < |procs| && j < |procs| {
        assert Apart(procs, i, j);
      } else {
        assert i < |procs| ==> SpaceOk(m, own, data, procs[i]);
        assert j < |procs| ==> SpaceOk(m, own, data, procs[j]);
      }
    }
    forall f | f in own'
      ensures Accounted(own'[f], now)
    {
      assert SameAt(m, own, n, own', p.d, f);
      if Of(own'[f], p.d) {
        assert Of(own'[f], now[|procs|].d);
      } else {
        assert Accounted(own[f], procs);
        var i :| 0 <= i < |procs| && Of(own[f], procs[i].d);
        assert Of(own'[f], now[i].d);
      }
    }
  }

  /** A process has gone with everything it owned. */
  lemma SpaceGone(m: Mem, own: Owners, data: int, procs: seq<Process>, k: int, n: Mem, own': Owners)
    requires Own(m, own) && AllSpaces(m, own, data, procs) && 0 <= k < |procs|
    requires Others(m, own, n, own', procs[k].d) && own' == Rest(own, procs[k].d)
    ensures AllSpaces(n, own', data, procs[..k] + procs[k + 1..])
  {
    var now, d := procs[..k] + procs[k + 1..], procs[k].d;
    forall i | 0 <= i < |now|
      ensures SpaceOk(n, own', data, now[i])
    {
      var j := if i < k then i else i + 1;
      assert SpaceOk(m, own, data, procs[j]) && Apart(procs, j, k);
      OthersExact(m, own, n, own', d, data, procs[j]);
    }
    forall i, j | 0 <= i < |now| && 0 <= j < |now|
      ensures Apart(now, i, j)
    {
      assert Apart(procs, if i < k then i else i + 1, if j < k then j else j + 1);
    }
    forall f | f in own'
      ensures Accounted(own'[f], now)
    {
      assert Accounted(own[f], procs);
      var i :| 0 <= i < |procs| && Of(own[f], procs[i].d);
      assert i != k;
      assert Of(own'[f], now[if i < k then i else i - 1].d);
    }
  }

  /** Nothing changed that anybody owns. */
  lemma SpacesSame(m: Mem, own: Owners, data: int, procs: seq<Process>, n: Mem)
    requires Own(m, own) && AllSpaces(m, own, data, procs) && |n| == |m|
      && forall f :: f in own ==> 0 <= f < |m| && n[f] == m[f]
    ensures AllSpaces(n, own, data, procs)
  {
    forall f
      ensures SameAt(m, own, n, own, -1, f)
    {
    }
    forall i | 0 <= i < |procs|
      ensures SpaceOk(n, own, data, procs[i])
    {
      assert SpaceOk(m, own, data, procs[i]);
      assert DirOk(m, own, procs[i].d);
      OthersExact(m, own, n, own, -1, data, procs[i]);
    }
  }

  // ---------------------------------------------------------------------------------------------
  // What user code can reach
  // ---------------------------------------------------------------------------------------------

  function PageAt(m: Mem, d: int, pg: int): Pte
  {
    Leaf(m, d, pg / ENTRIES, pg % ENTRIES)
  }

  /** The hardware lets user code read page pg: both levels of the page table allow it. */
  predicate UserReads(m: Mem, d: int, pg: int)
  {
    var t, e := Entry(m, d, pg / ENTRIES), PageAt(m, d, pg);
    t.p && UserMay(t.flags) && e.p && UserMay(e.flags)
  }

  predicate UserWrites(m: Mem, d: int, pg: int)
  {
    UserReads(m, d, pg) && Writable(Entry(m, d, pg / ENTRIES).flags) && Writable(PageAt(m, d, pg).flags)
  }

  /** User code reads and writes exactly its pages below the size, without the guard page, and none of the kernel's. */
  lemma UserReach(m: Mem, own: Owners, data: int, procs: seq<Process>, k: int, pg: int)
    requires Own(m, own) && AllSpaces(m, own, data, procs) && 0 <= k < |procs| && 0 <= pg < ENTRIES * ENTRIES
    ensures UserReads(m, procs[k].d, pg) <==> pg < Up(procs[k].shape.sz) && pg != procs[k].shape.guard
    ensures UserWrites(m, procs[k].d, pg) <==> UserReads(m, procs[k].d, pg)
  {
    var d, sz := procs[k].d, procs[k].shape.sz;
    var i, j := pg / ENTRIES, pg % ENTRIES;
    PageIndex(pg, i, j);
    assert SpaceOk(m, own, data, procs[k]);
    assert TabOk(m, own, d, i);
    PageBelow(pg, sz);
    if i < USER {
      assert ExactAt(m, d, Up(sz), procs[k].shape.guard, i, j);
    } else {
      assert KernelLeaf(m, d, data, i, j);
    }
  }

  /** What one process reaches is data in a frame above the kernel that no other process, or other page, reaches. */
  lemma UserApart(m: Mem, free: seq<int>, own: Owners, lo: int, data: int, procs: seq<Process>, k: int, a: int,
                  l: int, b: int)
    requires Own(m, own) && FreeOk(m, free, own, lo) && AllSpaces(m, own, data, procs)
    requires 0 <= k < |procs| && 0 <= l < |procs| && 0 <= a < ENTRIES * ENTRIES && 0 <= b < ENTRIES * ENTRIES
    requires UserReads(m, procs[k].d, a) && UserReads(m, procs[l].d, b) && (k != l || a != b)
    ensures var f := PageAt(m, procs[k].d, a).f;
            lo <= f < |m| && m[f].Data? && f !in free && f != PageAt(m, procs[l].d, b).f
  {
    UserReach(m, own, data, procs, k, a);
    UserReach(m, own, data, procs, l, b);
    assert SpaceOk(m, own, data, procs[k]) && SpaceOk(m, own, data, procs[l]) && Apart(procs, k, l);
    PageBelow(a, procs[k].shape.sz);
    PageBelow(b, procs[l].shape.sz);
    assert LeafOk(m, own, procs[k].d, a / ENTRIES, a % ENTRIES);
    assert LeafOk(m, own, procs[l].d, b / ENTRIES, b % ENTRIES);
    assert !InList(free, PageAt(m, procs[k].d, a).f);
  }

  /** Without processes every frame is free. */
  lemma NoneLeft(m: Mem, free: seq<int>, own: Owners, lo: int, data: int, f: int)
    requires FreeOk(m, free, own, lo) && AllSpaces(m, own, data, []) && lo <= f < |m|
    ensures f in free
  {
    assert f in own ==> Accounted(own[f], []);
    assert InList(free, f);
  }
}
