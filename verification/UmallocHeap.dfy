/** free, morecore and malloc of umalloc.c, writing block headers in place. */
module UmallocHeap {
  import opened Umalloc
  import opened UmallocFree
  import opened UmallocBreak

  /** bp's size and link after the first if of free (umalloc.c:33-37). */
  function SizeUp(ptr: map<int, int>, size: map<int, int>, p: int, b: int): int
    requires p in ptr && b in size && ptr[p] in size
  {
    if b + size[b] == ptr[p] then size[b] + size[ptr[p]] else size[b]
  }

  function LinkUp(ptr: map<int, int>, size: map<int, int>, p: int, b: int): int
    requires p in ptr && b in size && ptr[p] in ptr
  {
    if b + size[b] == ptr[p] then ptr[ptr[p]] else ptr[p]
  }

  /** The headers after the second if (umalloc.c:38-42). */
  function SizeDown(size: map<int, int>, p: int, b: int, n: int): map<int, int>
    requires p in size
  {
    if p + size[p] == b then size[b := n][p := size[p] + n] else size[b := n]
  }

  function LinkDown(ptr: map<int, int>, size: map<int, int>, p: int, b: int, up: int): map<int, int>
    requires p in size
  {
    if p + size[p] == b then ptr[b := up][p := up] else ptr[b := up][p := b]
  }

  /** The headers free reads are there, and its two tests are the tests for touching. */
  ghost predicate Readable(h: Chain, p: int, b: int)
  {
    p in h.ptr && p in h.size && b in h.size && h.ptr[p] in h.ptr && h.ptr[p] in h.size && p != b && h.ptr[p] != b
  }

  lemma NextTouches(base: int, h: Chain, live: map<int, int>, core: set<int>, t: int, b: int)
    requires HeapOk(base, h, live, core) && b in live && t == Below(h.list, b)
    ensures Readable(h, h.list[t], b)
    ensures b + h.size[b] == h.ptr[h.list[t]] <==> Touch(Link(h, t, b), t + 1)
    ensures t + 1 < |h.list| ==> h.list[t + 1] == h.ptr[h.list[t]] && h.list[t + 1] != h.list[t]
  {
    Between(base, h, live, t, b);
    InsertedAt(h.list, t, b);
    var n := Next(t, |h.list|);
    assert LinkOk(h.list, h.ptr, t) && LinkOk(h.list, h.ptr, n);
    if t + 1 < |h.list| {
      assert GapOk(h.list, h.size, {}, t);
      assert LinkOk(Link(h, t, b).list, Link(h, t, b).ptr, t + 2) by { LinkKeeps(base, h, live, core, t, b); }
    }
  }

  /** The first if of free computes the chain with the next block absorbed. */
  lemma NextResult(h: Chain, t: int, b: int) returns (g: Chain)
    requires 0 <= t < |h.list| && Readable(h, h.list[t], b)
    requires b + h.size[b] == h.ptr[h.list[t]] <==> Touch(Link(h, t, b), t + 1)
    requires t + 1 < |h.list| ==> h.list[t + 1] == h.ptr[h.list[t]] && h.list[t + 1] != h.list[t]
    ensures AfterNext(h, t, b, g)
    ensures g.size == h.size[b := SizeUp(h.ptr, h.size, h.list[t], b)]
    ensures g.ptr == h.ptr[b := LinkUp(h.ptr, h.size, h.list[t], b)][h.list[t] := b]
  {
    var l := Link(h, t, b);
    InsertedAt(h.list, t, b);
    if Touch(l, t + 1) {
      g := Join(l, t + 1);
      assert l.list[t + 2] == h.list[t + 1];
      assert g.ptr == h.ptr[b := h.ptr[h.list[t + 1]]][h.list[t] := b];
    } else {
      g := l;
      assert h.size[b := h.size[b]] == h.size;
    }
  }

  /** The second if of free computes the chain with bp absorbed into the previous block. */
  lemma PrevResult(g: Chain, size: map<int, int>, ptr: map<int, int>, t: int, b: int, n: int, up: int)
    returns (f: Chain)
    requires 0 <= t && t + 1 < |g.list| && g.list[t + 1] == b && g.list[t] in size && b != g.list[t]
    requires g.size == size[b := n] && g.ptr == ptr[b := up][g.list[t] := b]
    ensures f == if Touch(g, t) then Join(g, t) else g
    ensures f.size == SizeDown(size, g.list[t], b, n) && f.ptr == LinkDown(ptr, size, g.list[t], b, up)
  {
    f := if Touch(g, t) then Join(g, t) else g;
    assert Touch(g, t) <==> g.list[t] + size[g.list[t]] == b;
    if Touch(g, t) {
      assert g.ptr[g.list[t] := up] == ptr[b := up][g.list[t] := up];
    }
  }

  /** What free's header writes make of the heap. */
  lemma FreeResult(base: int, h: Chain, live: map<int, int>, core: set<int>, t: int, b: int) returns (f: Chain)
    requires HeapOk(base, h, live, core) && b in live && t == Below(h.list, b) && Readable(h, h.list[t], b)
    ensures HeapOk(base, f, live - {b}, core) && h.list[t] in f.list && Contains(f, b, live[b])
    ensures f.size == SizeDown(h.size, h.list[t], b, SizeUp(h.ptr, h.size, h.list[t], b))
    ensures f.ptr == LinkDown(h.ptr, h.size, h.list[t], b, LinkUp(h.ptr, h.size, h.list[t], b))
  {
    NextTouches(base, h, live, core, t, b);
    var g := NextResult(h, t, b);
    assert t + 1 < |g.list| && g.list[t] == h.list[t] && g.list[t + 1] == b && live[b] <= g.size[b] by {
      NextAt(h, t, b, g);
    }
    f := PrevResult(g, h.size, h.ptr, t, b, SizeUp(h.ptr, h.size, h.list[t], b), LinkUp(h.ptr, h.size, h.list[t], b));
    assert Loose(base, g, live - {b}, core, {t}) by { NextKeeps(base, h, live, core, t, b, g); }
    PrevKeeps(base, g, live - {b}, core, t, b, f);
    ContainsLess(f, b, g.size[b], live[b]);
    assert f.list[t] == h.list[t];
  }

  /** Where free's search stops and what its writes make of the heap. */
  lemma FreePlan(base: int, h: Chain, live: map<int, int>, core: set<int>, b: int) returns (t: int, f: Chain)
    requires HeapOk(base, h, live, core) && b in live
    ensures 0 <= t < |h.list| && Ring(h.list, h.ptr) && Readable(h, h.list[t], b)
    ensures forall i :: 0 <= i < |h.list| ==> StopsOnlyAt(h, b, t, i)
    ensures HeapOk(base, f, live - {b}, core) && h.list[t] in f.list && Contains(f, b, live[b])
    ensures f.size == SizeDown(h.size, h.list[t], b, SizeUp(h.ptr, h.size, h.list[t], b))
    ensures f.ptr == LinkDown(h.ptr, h.size, h.list[t], b, LinkUp(h.ptr, h.size, h.list[t], b))
  {
    t := Below(h.list, b);
    assert Readable(h, h.list[t], b) by { NextTouches(base, h, live, core, t, b); }
    forall i | 0 <= i < |h.list|
      ensures StopsOnlyAt(h, b, t, i)
    {
      StopsAtBelow(base, h, live, core, b, i);
    }
    f := FreeResult(base, h, live, core, t, b);
  }

  predicate StopsOnlyAt(h: Chain, b: int, t: int, i: int)
    requires 0 <= i < |h.list|
  {
    h.list[i] in h.ptr && (Stops(h.list[i], h.ptr[h.list[i]], b) <==> i == t)
  }

  lemma ContainsLess(f: Chain, b: int, n: int, m: int)
    requires Contains(f, b, n) && m <= n
    ensures Contains(f, b, m)
  {
    var i :| 0 <= i < |f.list| && Holds(f, i, b, n);
    assert Holds(f, i, b, m);
  }

  lemma AddedDropped(live: map<int, int>, hp: int, nu: int)
    requires hp !in live
    ensures live[hp := nu] - {hp} == live
  {
  }

  class Heap {
    const base: int
    var freep: Address
    var ptr: map<int, int>
    var size: map<int, int>
    ghost var list: seq<int>
    ghost var live: map<int, int>
    /** The units of all blocks, and the units that sbrk has granted. */
    ghost var core: set<int>
    ghost var obtained: set<int>

    ghost predicate Valid()
      reads this
    {
      if freep.Null? then list == [] && live == map[] && core == {}
      else HeapOk(base, Chain(list, ptr, size), live, core) && freep.addr in list
    }

    constructor (b: int)
      ensures Valid() && base == b && live == map[] && core == obtained == {} && freep == Null
    {
      base := b;
      freep := Null;
      ptr, size := map[], map[];
      list, live, core, obtained := [], map[], {}, {};
    }

    /** umalloc.c:30-32.  The search for the block's place, at most one lap. */
    method Search(bp: int, ghost t: int) returns (p: int)
      requires freep.At? && freep.addr in list && Ring(list, ptr) && 0 <= t < |list|
      requires forall i :: 0 <= i < |list| ==> StopsOnlyAt(Chain(list, ptr, size), bp, t, i)
      ensures p == list[t]
    {
      p := freep.addr;
      ghost var i :| 0 <= i < |list| && list[i] == p;
      ghost var h := Chain(list, ptr, size);
      assert StopsOnlyAt(h, bp, t, i);
      while !(bp > p && bp < ptr[p])
        invariant 0 <= i < |list| && p == list[i] && StopsOnlyAt(h, bp, t, i)
        decreases Dist(i, t, |list|)
      {
        if p >= ptr[p] && (bp > p || bp < ptr[p]) {
          break;
        }
        assert LinkOk(list, ptr, i);
        p := ptr[p];
        i := Next(i, |list|);
        assert StopsOnlyAt(h, bp, t, i);
      }
    }

    /** umalloc.c:33-42.  The header writes of free. */
    method Splice(p: int, bp: int)
      requires Readable(Chain(list, ptr, size), p, bp)
      modifies `ptr, `size
      ensures size == SizeDown(old(size), p, bp, SizeUp(old(ptr), old(size), p, bp))
      ensures ptr == LinkDown(old(ptr), old(size), p, bp, LinkUp(old(ptr), old(size), p, bp))
    {
      if bp + size[bp] == ptr[p] {
        size := size[bp := size[bp] + size[ptr[p]]];
        ptr := ptr[bp := ptr[ptr[p]]];
      } else {
        ptr := ptr[bp := ptr[p]];
      }
      if p + size[p] == bp {
        size := size[p := size[p] + size[bp]];
        ptr := ptr[p := ptr[bp]];
      } else {
        ptr := ptr[p := bp];
      }
    }

    /** umalloc.c:24-44.  The block leaves `live`; together with Valid this fixes the new free list. */
    method Free(ap: int)
      requires freep.At? && Valid() && ap - 1 in live
      modifies this
      ensures freep.At? && Valid()
      ensures live == old(live) - {ap - 1} && core == old(core) && obtained == old(obtained)
      ensures Contains(Chain(list, ptr, size), ap - 1, old(live[ap - 1]))
    {
      var bp := ap - 1;
      ghost var t, f := FreePlan(base, Chain(list, ptr, size), live, core, bp);
      var p := Search(bp, t);
      Splice(p, bp);
      freep := At(p);
      list, live := f.list, live - {bp};
      assert Chain(list, ptr, size) == f;
    }

    /** The header of the block that sbrk's answer is taken for (umalloc.c:57-58). */
    method AddBlock(hp: int, nu: int)
      requires freep.At? && Valid() && base < hp && 1 <= nu && Under(core, hp)
      modifies `size, `live, `core
      ensures freep.At? && Valid() && hp !in old(live) && live == old(live)[hp := nu]
      ensures core == old(core) + Range(hp, nu)
    {
      GrantKeeps(base, Chain(list, ptr, size), live, core, hp, nu);
      size := size[hp := nu];
      live := live[hp := nu];
      core := core + Range(hp, nu);
    }

    /** The block is freed into the list (umalloc.c:57-59). */
    method FreeBlock(hp: int, nu: int)
      requires freep.At? && Valid() && base < hp && 1 <= nu && Under(core, hp)
      modifies this
      ensures freep.At? && Valid() && live == old(live)
      ensures core == old(core) + Range(hp, nu) && obtained == old(obtained)
      ensures Contains(Chain(list, ptr, size), hp, nu)
    {
      AddBlock(hp, nu);
      AddedDropped(old(live), hp, nu);
      Free(hp + 1);
    }

    /**
      umalloc.c:46-61, in a process of size sz units; `memory` says whether the kernel has the frames.  What sbrk
      answers becomes one block, which is freed into the list.  The units of the blocks are memory that the process has
      if and only if sbrk was asked for a positive number, or there are none.
    */
    method MoreCore(nunits: int, sz: int, memory: bool) returns (r: Address)
      requires freep.At? && Valid() && core == obtained && 1 <= nunits && nunits * HEADER <= WRAP
      requires 0 <= base < sz && InHalf(sz) && Under(core, sz)
      modifies this
      ensures freep.At? && Valid() && live == old(live)
      ensures obtained == Obtained(old(obtained), sz, Asked(Grown(nunits)), memory)
      ensures Answer(sz, Asked(Grown(nunits)), memory).Null? ==>
                r == Null && core == old(core) && Chain(list, ptr, size) == old(Chain(list, ptr, size))
      ensures Answer(sz, Asked(Grown(nunits)), memory).At? ==>
                && r == freep && core == old(core) + Range(sz, Grown(nunits))
                && Contains(Chain(list, ptr, size), sz, nunits)
      ensures core == obtained <==> Backed(old(core), sz, Grown(nunits), memory)
    {
      var nu := if nunits < MORE then MORE else nunits;
      var grant := Answer(sz, Asked(nu), memory);
      ObtainedIff(core, sz, nu, memory);
      obtained := Obtained(obtained, sz, Asked(nu), memory);
      if grant.Null? {
        return Null;
      }
      FreeBlock(grant.addr, nu);
      ContainsLess(Chain(list, ptr, size), grant.addr, nu, nunits);
      r := freep;
    }

    /** umalloc.c:76-83.  Takes nunits from the block at p, whose predecessor is prevp. */
    method Carve(p: int, prevp: int, nunits: int, ghost i: int) returns (q: int)
      requires freep.At? && Valid() && 1 <= nunits && 1 <= i < |list| && p == list[i] && prevp == list[i - 1]
      requires nunits <= size[p]
      modifies this
      ensures freep == At(prevp) && Valid() && core == old(core) && obtained == old(obtained)
      ensures q !in old(live) && live == old(live)[q := nunits]
    {
      ghost var h := Chain(list, ptr, size);
      if size[p] == nunits {
        UnlinkKeeps(base, h, live, core, i);
        MergedAt(list, i - 1);
        ptr := ptr[prevp := ptr[p]];
        list := Merged(list, i - 1);
        assert list[i - 1] == prevp;
        q := p;
      } else {
        SplitKeeps(base, h, live, core, i, nunits);
        size := size[p := size[p] - nunits];
        q := p + size[p];
        size := size[q := nunits];
      }
      live := live[q := nunits];
      freep := At(prevp);
    }

    /** malloc's first call sets up the empty list of just the base block (umalloc.c:70-73). */
    method Init()
      requires Valid()
      modifies this
      ensures freep.At? && Valid() && live == old(live) && core == old(core) && obtained == old(obtained)
      ensures old(freep).At? ==> unchanged(this)
    {
      if freep.Null? {
        ptr, freep := ptr[base := base], At(base);
        size := size[base := 0];
        list := [base];
        assert LinkOk(list, ptr, 0);
        assert forall u :: !InFree(list, size, u) && !InLive(live, u);
      }
    }

    /** umalloc.c:74-86.  One lap of the list from the block after freep, to the first block that fits. */
    method Lap(nunits: int) returns (found: bool, p: int, prevp: int, ghost i: int)
      requires freep.At? && freep.addr in list && 1 <= nunits
      requires Sized(base, list, size) && Spaced(list, size, {}) && Ring(list, ptr)
      ensures found ==> 1 <= i < |list| && p == list[i] && prevp == list[i - 1] && nunits <= size[p]
      ensures !found ==> forall j :: 0 <= j < |list| ==> list[j] in size && size[list[j]] < nunits
      ensures !found ==> !Fits(Chain(list, ptr, size), nunits)
    {
      ghost var h := Chain(list, ptr, size);
      ghost var f :| 0 <= f < |list| && list[f] == freep.addr;
      ghost var k := f;
      prevp := freep.addr;
      assert LinkOk(list, ptr, f);
      p := ptr[prevp];
      i := Next(f, |list|);
      LapBegins(h, f, nunits);
      while size[p] < nunits && p != freep.addr
        invariant 0 <= k < |list| && i == Next(k, |list|) && p == list[i] && prevp == list[k]
        invariant AllSkipped(h, f, i, nunits)
        decreases Dist(i, f, |list|)
      {
        LapGoesOn(h, f, i, nunits);
        assert LinkOk(list, ptr, i);
        prevp, k := p, i;
        p := ptr[p];
        i := Next(i, |list|);
      }
      found := size[p] >= nunits;
      if !found {
        LapDone(h, f, i, nunits);
      }
    }

    /** A lap, and the block carved from what it finds (umalloc.c:74-84). */
    method TryAlloc(nunits: int) returns (r: Address)
      requires freep.At? && Valid() && 1 <= nunits
      modifies this
      ensures freep.At? && Valid() && core == old(core) && obtained == old(obtained)
      ensures r.Null? ==> unchanged(this) && !Fits(Chain(list, ptr, size), nunits)
      ensures r.At? ==> r.addr - 1 !in old(live) && live == old(live)[r.addr - 1 := nunits]
    {
      var found, p, prevp; ghost var i;
      found, p, prevp, i := Lap(nunits);
      if !found {
        return Null;
      }
      var q := Carve(p, prevp, nunits, i);
      return At(q + 1);
    }

    /**
      umalloc.c:63-90, in a process of size sz units, which lies above all it has got from sbrk; `memory` says whether
      the kernel has the frames if morecore asks for more.  The block returned is new and nothing else moves; malloc
      fails only if no free block fits and sbrk refuses; it asks at most once.  All blocks are made of memory that the
      process has, as before, if and only if malloc did not ask sbrk for a number of bytes that is no positive int, or
      there are no blocks and sbrk refuses.
    */
    method Malloc(nbytes: int, sz: int, memory: bool) returns (r: Address, asked: bool)
      requires Valid() && core == obtained && 0 <= nbytes < WRAP && 0 <= base < sz && InHalf(sz) && Under(core, sz)
      modifies this
      ensures freep.At? && Valid()
      ensures r.Null? ==> asked && Reply(nbytes, sz, memory).Null? && live == old(live)
      ensures r.Null? ==> !Fits(Chain(list, ptr, size), Units(nbytes))
      ensures r.At? ==> r.addr - 1 !in old(live) && live == old(live)[r.addr - 1 := Units(nbytes)]
      ensures asked && old(freep).At? ==> !old(Fits(Chain(list, ptr, size), Units(nbytes)))
      ensures core == if asked && Reply(nbytes, sz, memory).At? then old(core) + Range(sz, Grown(Units(nbytes)))
        else old(core)
      ensures obtained == if asked then Obtained(old(obtained), sz, Asked(Grown(Units(nbytes))), memory)
        else old(obtained)
      ensures core == obtained <==> !asked || nbytes <= WRAP / 2 - 2 * HEADER || nbytes > WRAP - HEADER
                                    || (Reply(nbytes, sz, memory).Null? && old(core) == {})
    {
      UnitsSuffice(nbytes);
      AskedExactly(nbytes);
      var nunits := Units(nbytes);
      Init();
      asked := false;
      while true
        invariant freep.At? && Valid() && live == old(live)
        invariant asked ==> Reply(nbytes, sz, memory).At? && Fits(Chain(list, ptr, size), nunits)
        invariant old(freep).At? ==>
            if asked then !old(Fits(Chain(list, ptr, size), Units(nbytes)))
              else Chain(list, ptr, size) == old(Chain(list, ptr, size))
        invariant core == if asked then old(core) + Range(sz, Grown(nunits)) else old(core)
        invariant obtained == if asked then Obtained(old(obtained), sz, Asked(Grown(nunits)), memory) else old(obtained)
        invariant core == obtained <==> !asked || Backed(old(core), sz, Grown(nunits), memory)
        decreases !asked
      {
        r := TryAlloc(nunits);
        if r.At? {
          return;
        }
        assert !asked;
        asked := true;
        var more := MoreCore(nunits, sz, memory);
        if more.Null? {
          return Null, asked;
        }
        ContainsFits(Chain(list, ptr, size), sz, nunits);
      }
    }
  }

  /** Block j lies before index i on the lap from f, and then it is too small. */
  predicate Skipped(list: seq<int>, size: map<int, int>, f: int, i: int, n: int, j: int)
    requires 0 <= j < |list|
  {
    Dist(j, f, |list|) > Dist(i, f, |list|) ==> list[j] in size && size[list[j]] < n
  }

  ghost predicate AllSkipped(h: Chain, f: int, i: int, n: int)
  {
    forall j :: 0 <= j < |h.list| ==> Skipped(h.list, h.size, f, i, n, j)
  }

  lemma LapBegins(h: Chain, f: int, n: int)
    requires 0 <= f < |h.list|
    ensures AllSkipped(h, f, Next(f, |h.list|), n)
  {
  }

  lemma LapGoesOn(h: Chain, f: int, i: int, n: int)
    requires 0 <= f < |h.list| && 0 <= i < |h.list| && i != f && AllSkipped(h, f, i, n)
    requires h.list[i] in h.size && h.size[h.list[i]] < n
    ensures AllSkipped(h, f, Next(i, |h.list|), n)
    ensures Dist(Next(i, |h.list|), f, |h.list|) == Dist(i, f, |h.list|) - 1
  {
    forall j | 0 <= j < |h.list|
      ensures Skipped(h.list, h.size, f, Next(i, |h.list|), n, j)
    {
      assert Skipped(h.list, h.size, f, i, n, j);
    }
  }

  /** When the lap is over without a fit, no block fits. */
  lemma LapDone(h: Chain, f: int, i: int, n: int)
    requires Spaced(h.list, h.size, {}) && 0 <= f < |h.list| && 0 <= i < |h.list| && h.list[i] == h.list[f]
    requires AllSkipped(h, f, i, n) && h.list[i] in h.size && h.size[h.list[i]] < n
    ensures !Fits(h, n)
    ensures forall j :: 0 <= j < |h.list| ==> h.list[j] in h.size && h.size[h.list[j]] < n
  {
    SortedOnlyAt(h.list, h.size, {}, f);
    forall j | 0 <= j < |h.list|
      ensures h.list[j] in h.size && h.size[h.list[j]] < n
    {
      assert Skipped(h.list, h.size, f, i, n, j);
    }
  }

  lemma ContainsFits(h: Chain, b: int, n: int)
    requires Contains(h, b, n)
    ensures Fits(h, n)
  {
    var i :| 0 <= i < |h.list| && Holds(h, i, b, n);
  }

  ghost predicate Fits(h: Chain, n: int)
  {
    exists k :: 0 <= k < |h.list| && h.list[k] in h.size && n <= h.size[h.list[k]]
  }

  /** A block of units never obtained before overlaps neither a free nor a live block. */
  lemma GrantClear(base: int, h: Chain, live: map<int, int>, core: set<int>, g: int, n: int)
    requires HeapOk(base, h, live, core) && base < g && 1 <= n && forall u :: g <= u < g + n ==> u !in core
    ensures forall i :: 0 <= i < |h.list| ==> h.list[i] != g && ClearAt(h.list, h.size, i, g, n)
    ensures forall a :: a in live ==> a != g && (a < g ==> a + live[a] <= g) && (g < a ==> g + n <= a)
  {
    forall i | 0 <= i < |h.list|
      ensures h.list[i] != g && ClearAt(h.list, h.size, i, g, n)
    {
      if i > 0 {
        assert Covers(h.list, h.size, i, h.list[i]);
        assert h.list[i] in core;
        assert !InFree(h.list, h.size, g);
        assert !Covers(h.list, h.size, i, g);
      }
    }
    forall a | a in live
      ensures a != g && (a < g ==> a + live[a] <= g) && (g < a ==> g + n <= a)
    {
      assert InLive(live, a);
      assert !InLive(live, g);
    }
  }

  lemma GrantCovers(h: Chain, live: map<int, int>, core: set<int>, g: int, n: int)
    requires Conserved(h.list, h.size, live, core) && g !in live && 1 <= n
    requires forall i :: 0 <= i < |h.list| ==> h.list[i] != g
    ensures Conserved(h.list, h.size[g := n], live[g := n], core + Range(g, n))
  {
    var s, v := h.size[g := n], live[g := n];
    forall u
      ensures u in core + Range(g, n) <==> InFree(h.list, s, u) || InLive(v, u)
    {
      if InFree(h.list, h.size, u) {
        var i :| 0 <= i < |h.list| && Covers(h.list, h.size, i, u);
        assert Covers(h.list, s, i, u);
      }
      if InLive(live, u) {
        var a :| a in live && a <= u < a + live[a];
        assert a in v && v[a] == live[a];
      }
      if u in Range(g, n) {
        assert g in v;
      }
      if InFree(h.list, s, u) {
        var i :| 0 <= i < |h.list| && Covers(h.list, s, i, u);
        assert Covers(h.list, h.size, i, u);
      }
      if InLive(v, u) {
        var a :| a in v && a <= u < a + v[a];
        assert a == g || a in live;
      }
    }
  }

  /** New units form a block that touches nothing known. */
  lemma GrantKeeps(base: int, h: Chain, live: map<int, int>, core: set<int>, g: int, n: int)
    requires HeapOk(base, h, live, core) && base < g && 1 <= n && forall u :: g <= u < g + n ==> u !in core
    ensures g !in live
    ensures HeapOk(base, Chain(h.list, h.ptr, h.size[g := n]), live[g := n], core + Range(g, n))
  {
    var s, v := h.size[g := n], live[g := n];
    GrantClear(base, h, live, core, g, n);
    assert Spaced(h.list, s, {}) by {
      forall i | 0 <= i < |h.list| - 1
        ensures GapOk(h.list, s, {}, i)
      {
        assert GapOk(h.list, h.size, {}, i);
      }
    }
    assert Apart(h.list, s, v) by {
      forall i, a | 0 <= i < |h.list| && a in v
        ensures ClearAt(h.list, s, i, a, v[a])
      {
        assert ClearAt(h.list, h.size, i, a, v[a]);
      }
    }
    GrantCovers(h, live, core, g, n);
  }
}
