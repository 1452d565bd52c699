/** Whole runs of malloc and free: which blocks are live, and that these and the granted memory fix the free list. */
module UmallocRuns {
  import opened Umalloc
  import opened UmallocBreak
  import opened UmallocHeap
  import opened UmallocUnique

  datatype Call =
    | Allocate(nbytes: int, memory: bool)   // malloc; `memory`: the kernel has the frames if sbrk asks for more
    | Release(k: int)                       // free of what the k-th call returned
    | Extend(n: int)                        // the program's own sbrk, by n units

  /** Arguments as the C types allow them. */
  ghost predicate Typed(calls: seq<Call>)
  {
    forall i :: 0 <= i < |calls| ==> calls[i].Allocate? ==> 0 <= calls[i].nbytes < WRAP
  }

  /** free is given the address of a live block. */
  predicate Frees(live: map<int, int>, results: seq<Address>, k: int)
  {
    0 <= k < |results| && results[k].At? && results[k].addr - 1 in live
  }

  /** The live blocks and their sizes, by what the calls returned. */
  function LiveAfter(calls: seq<Call>, results: seq<Address>): map<int, int>
    requires |calls| == |results|
  {
    if calls == [] then map[]
    else
      var n := |calls| - 1;
      LiveNext(LiveAfter(calls[..n], results[..n]), calls[n], results[..n], results[n])
  }

  function LiveNext(live: map<int, int>, c: Call, before: seq<Address>, r: Address): map<int, int>
  {
    match c
    case Allocate(nbytes, _) => if r.At? then live[r.addr - 1 := Units(nbytes)] else live
    case Release(k) => if Frees(live, before, k) then live - {before[k].addr - 1} else live
    case Extend(_) => live
  }

  lemma OneMore(calls: seq<Call>, results: seq<Address>, r: Address)
    requires |results| < |calls|
    ensures LiveAfter(calls[..|results| + 1], results + [r])
            == LiveNext(LiveAfter(calls[..|results|], results), calls[|results|], results, r)
  {
    var i := |results|;
    var done, more := calls[..i + 1], results + [r];
    assert done[..i] == calls[..i] && more[..i] == results;
  }

  /** No malloc returned a block that was live. */
  ghost predicate AllNew(calls: seq<Call>, results: seq<Address>)
  {
    |results| <= |calls| && forall i :: 0 <= i < |results| ==> NewAt(calls, results, i)
  }

  predicate NewAt(calls: seq<Call>, results: seq<Address>, i: int)
    requires 0 <= i < |results| <= |calls|
  {
    calls[i].Allocate? && results[i].At? ==> results[i].addr - 1 !in LiveAfter(calls[..i], results[..i])
  }

  /** Only the results before and at i matter. */
  lemma NewSame(calls: seq<Call>, results: seq<Address>, more: seq<Address>, i: int)
    requires 0 <= i < |results| <= |more| <= |calls| && more[..i] == results[..i] && more[i] == results[i]
    ensures NewAt(calls, more, i) <==> NewAt(calls, results, i)
  {
  }

  lemma NewLast(calls: seq<Call>, results: seq<Address>, more: seq<Address>, r: Address)
    requires |results| < |calls| && |more| == |results| + 1 && more[..|results|] == results && more[|results|] == r
    requires calls[|results|].Allocate? && r.At? ==> r.addr - 1 !in LiveAfter(calls[..|results|], results)
    ensures NewAt(calls, more, |results|)
  {
  }

  lemma NewMore(calls: seq<Call>, results: seq<Address>, r: Address)
    requires AllNew(calls, results) && |results| < |calls|
    requires calls[|results|].Allocate? && r.At? ==> r.addr - 1 !in LiveAfter(calls[..|results|], results)
    ensures AllNew(calls, results + [r])
  {
    var more := results + [r];
    NewLast(calls, results, more, r);
    forall i | 0 <= i < |more|
      ensures NewAt(calls, more, i)
    {
      if i < |results| {
        assert NewAt(calls, results, i) && more[..i] == results[..i];
        NewSame(calls, results, more, i);
      }
    }
  }

  /** The requests for which sbrk is not asked for a positive number. */
  predicate TooBig(c: Call)
  {
    c.Allocate? && WRAP / 2 - 2 * HEADER < c.nbytes <= WRAP - HEADER
  }

  /** The only free list there can be. */
  ghost predicate Determined(base: int, h: Chain, live: map<int, int>, core: set<int>)
  {
    forall g :: HeapOk(base, g, live, core) ==> g.list == h.list && forall a :: a in g.list ==> SameHeader(g, h, a)
  }

  lemma IsDetermined(base: int, h: Chain, live: map<int, int>, core: set<int>)
    requires HeapOk(base, h, live, core)
    ensures Determined(base, h, live, core)
  {
    forall g | HeapOk(base, g, live, core)
      ensures g.list == h.list && forall a :: a in g.list ==> SameHeader(g, h, a)
    {
      FreeListUnique(base, g, h, live, core);
    }
  }

  /** The size of the process after malloc: still above all blocks, if they are made of memory that it has. */
  lemma SizeNext(core: set<int>, sz: int, nbytes: int, memory: bool, claimed: set<int>)
    requires 0 <= nbytes < WRAP && 0 < sz && InHalf(sz) && Under(core, sz)
    requires claimed == Obtained(core, sz, Asked(Grown(Units(nbytes))), memory)
    requires !TooBig(Allocate(nbytes, memory)) || Reply(nbytes, sz, memory).Null?
    ensures var b := NextBreak(sz, Asked(Grown(Units(nbytes))), memory);
            sz <= b && InHalf(b) && Under(claimed, b)
  {
    UnitsSuffice(nbytes);
    AskedExactly(nbytes);
    BelowNext(core, sz, Asked(Grown(Units(nbytes))), memory);
  }

  /**
    malloc in a process of size sz; sz' is its size afterwards.  It is over when sbrk was not asked for a positive
    number.
  */
  method AllocateNext(heap: Heap, nbytes: int, memory: bool, sz: int) returns (r: Address, sz': int, over: bool)
    requires Ready(heap, sz) && 0 <= nbytes < WRAP
    modifies heap
    ensures heap.Valid() && heap.live == if r.At? then old(heap.live)[r.addr - 1 := Units(nbytes)] else old(heap.live)
    ensures r.At? ==> r.addr - 1 !in old(heap.live)
    ensures if over then TooBig(Allocate(nbytes, memory)) && Lost(heap) else Ready(heap, sz')
  {
    var asked;
    r, asked := heap.Malloc(nbytes, sz, memory);
    sz', over := sz, asked && TooBig(Allocate(nbytes, memory));
    if asked && !over {
      sz' := NextBreak(sz, Asked(Grown(Units(nbytes))), memory);
      SizeNext(old(heap.obtained), sz, nbytes, memory, heap.core);
    }
  }

  /** Blocks are not made of memory that the process has, unless it has none and there are no blocks. */
  ghost predicate Lost(heap: Heap)
    reads heap
  {
    heap.core != heap.obtained || heap.core == {}
  }

  /** All blocks are made of memory that the process has, and lie below its size. */
  ghost predicate Ready(heap: Heap, sz: int)
    reads heap
  {
    heap.Valid() && heap.core == heap.obtained && 0 <= heap.base < sz && InHalf(sz) && Under(heap.core, sz)
  }

  /** A call, in a process of size sz, of which `live` are the live blocks. */
  method Perform(heap: Heap, c: Call, results: seq<Address>, sz: int, live: map<int, int>)
    returns (r: Address, sz': int, over: bool)
    requires Ready(heap, sz) && heap.live == live && (c.Allocate? ==> 0 <= c.nbytes < WRAP)
    modifies heap
    ensures heap.Valid() && heap.live == LiveNext(live, c, results, r)
    ensures c.Allocate? && r.At? ==> r.addr - 1 !in live
    ensures if over then TooBig(c) && Lost(heap) else Ready(heap, sz')
  {
    r, sz', over := Null, sz, false;
    match c {
      case Allocate(nbytes, memory) =>
        r, sz', over := AllocateNext(heap, nbytes, memory, sz);
      case Release(k) =>
        if Frees(live, results, k) {
          heap.Free(results[k].addr);
        }
      case Extend(n) =>
        if 0 <= n && InHalf(sz + n) {
          sz' := sz + n;
        }
    }
  }

  /**
    In every run of malloc, free and sbrk from a fresh heap: the live blocks are exactly those that malloc returned and
    nobody freed, none of them was returned while it was live, and they and the granted memory fix the free list.  It
    stops only when malloc has asked sbrk for a number that is not positive.
  */
  method Run(heap: Heap, calls: seq<Call>, start: int) returns (results: seq<Address>, over: bool)
    requires Ready(heap, start) && heap.live == map[] && Typed(calls)
    modifies heap
    ensures |results| <= |calls| && AllNew(calls, results)
    ensures heap.Valid() && heap.live == LiveAfter(calls[..|results|], results)
    ensures heap.freep.At? ==> Determined(heap.base, Chain(heap.list, heap.ptr, heap.size), heap.live, heap.core)
    ensures if over then 0 < |results| && TooBig(calls[|results| - 1]) && Lost(heap)
            else |results| == |calls| && heap.core == heap.obtained
  {
    results, over := [], false;
    var sz, live: map<int, int> := start, map[];
    while |results| < |calls| && !over
      invariant |results| <= |calls| && AllNew(calls, results)
      invariant heap.Valid() && heap.live == live == LiveAfter(calls[..|results|], results)
      invariant if over then 0 < |results| && TooBig(calls[|results| - 1]) && Lost(heap) else Ready(heap, sz)
      decreases |calls| - |results|
    {
      var c, r := calls[|results|], Null;
      r, sz, over := Perform(heap, c, results, sz, live);
      OneMore(calls, results, r);
      NewMore(calls, results, r);
      live := LiveNext(live, c, results, r);
      results := results + [r];
    }
    if heap.freep.At? {
      IsDetermined(heap.base, Chain(heap.list, heap.ptr, heap.size), heap.live, heap.core);
    }
  }
}
