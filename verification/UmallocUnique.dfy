/**
  The heap invariant leaves no freedom: for given live blocks and obtained units there is exactly one
  free list.  So free and malloc, which are specified through the invariant, are fully specified.
*/
module UmallocUnique {
  import opened Umalloc
  import opened UmallocFree

  lemma FreeIsNotLive(base: int, h: Chain, live: map<int, int>, core: set<int>, u: int)
    requires HeapOk(base, h, live, core)
    ensures InFree(h.list, h.size, u) <==> u in core && !InLive(live, u)
  {
    forall i, a | 0 <= i < |h.list| && a in live && a <= u < a + live[a]
      ensures !Covers(h.list, h.size, i, u)
    {
      assert ClearAt(h.list, h.size, i, a, live[a]);
    }
  }

  lemma SameFree(base: int, g: Chain, h: Chain, live: map<int, int>, core: set<int>, u: int)
    requires HeapOk(base, g, live, core) && HeapOk(base, h, live, core)
    ensures InFree(g.list, g.size, u) <==> InFree(h.list, h.size, u)
  {
    FreeIsNotLive(base, g, live, core, u);
    FreeIsNotLive(base, h, live, core, u);
  }

  /** The units just before and just after a free block are not free. */
  lemma Edges(base: int, h: Chain, live: map<int, int>, core: set<int>, i: int)
    requires HeapOk(base, h, live, core) && 1 <= i < |h.list|
    ensures Covers(h.list, h.size, i, h.list[i])
    ensures !InFree(h.list, h.size, h.list[i] - 1) && !InFree(h.list, h.size, h.list[i] + h.size[h.list[i]])
  {
    var before, after := h.list[i] - 1, h.list[i] + h.size[h.list[i]];
    forall j | 0 <= j < |h.list|
      ensures !Covers(h.list, h.size, j, before) && !Covers(h.list, h.size, j, after)
    {
      if j < i {
        Sorted(h.list, h.size, {}, j, i);
      } else if i < j {
        Sorted(h.list, h.size, {}, i, j);
      }
    }
  }

  /** Every free block of one heap is a free block of the other, with the same size. */
  lemma SameBlock(base: int, g: Chain, h: Chain, live: map<int, int>, core: set<int>, i: int)
    requires HeapOk(base, g, live, core) && HeapOk(base, h, live, core) && 0 <= i < |g.list|
    ensures g.list[i] in h.list && g.list[i] in h.size && h.size[g.list[i]] == g.size[g.list[i]]
  {
    if i == 0 {
      assert h.list[0] == base;
    } else {
      var u, n := g.list[i], g.size[g.list[i]];
      Edges(base, g, live, core, i);
      assert InFree(g.list, g.size, u);
      SameFree(base, g, h, live, core, u);
      SameFree(base, g, h, live, core, u - 1);
      var j :| 0 <= j < |h.list| && Covers(h.list, h.size, j, u);
      assert !Covers(h.list, h.size, j, u - 1);
      assert h.list[j] == u;
      Edges(base, h, live, core, j);
      var m := h.size[u];
      SameFree(base, g, h, live, core, u + n);
      assert !Covers(h.list, h.size, j, u + n);
      SameFree(base, g, h, live, core, u + m);
      assert !Covers(g.list, g.size, i, u + m);
    }
  }

  lemma {:induction false} SameOrder(base: int, g: Chain, h: Chain, live: map<int, int>, core: set<int>, i: int)
    requires HeapOk(base, g, live, core) && HeapOk(base, h, live, core) && 0 <= i < |g.list| && i < |h.list|
    ensures g.list[..i + 1] == h.list[..i + 1]
    decreases i
  {
    if i > 0 {
      SameOrder(base, g, h, live, core, i - 1);
      SameBlock(base, g, h, live, core, i);
      SameBlock(base, h, g, live, core, i);
      NotEarlier(g, h, i);
      NotEarlier(h, g, i);
      assert g.list[..i + 1] == g.list[..i] + [g.list[i]];
      assert h.list[..i + 1] == h.list[..i] + [h.list[i]];
    }
  }

  /** If the lists agree before i and g's i-th block occurs in h, it is not below h's i-th. */
  lemma NotEarlier(g: Chain, h: Chain, i: int)
    requires Spaced(g.list, g.size, {}) && Spaced(h.list, h.size, {}) && 0 <= i < |g.list| && i < |h.list|
    requires g.list[..i] == h.list[..i] && g.list[i] in h.list
    ensures h.list[i] <= g.list[i]
  {
    var j :| 0 <= j < |h.list| && h.list[j] == g.list[i];
    if j < i {
      assert g.list[..i][j] == h.list[..i][j];
      Sorted(g.list, g.size, {}, j, i);
      assert false;
    } else {
      SortedLe(h.list, h.size, i, j);
    }
  }

  lemma NotLonger(base: int, g: Chain, h: Chain, live: map<int, int>, core: set<int>)
    requires HeapOk(base, g, live, core) && HeapOk(base, h, live, core)
    ensures |g.list| <= |h.list|
  {
    if |h.list| < |g.list| {
      var n := |h.list|;
      SameBlock(base, g, h, live, core, n);
      var j :| 0 <= j < |h.list| && h.list[j] == g.list[n];
      SameOrder(base, g, h, live, core, n - 1);
      assert g.list[..n][j] == h.list[..n][j];
      Sorted(g.list, g.size, {}, j, n);
      assert false;
    }
  }

  predicate SameHeader(g: Chain, h: Chain, a: int)
  {
    a in g.size && a in h.size && g.size[a] == h.size[a] && a in g.ptr && a in h.ptr && g.ptr[a] == h.ptr[a]
  }

  /** There is only one free list for given live blocks and obtained units. */
  lemma FreeListUnique(base: int, g: Chain, h: Chain, live: map<int, int>, core: set<int>)
    requires HeapOk(base, g, live, core) && HeapOk(base, h, live, core)
    ensures g.list == h.list
    ensures forall a :: a in g.list ==> SameHeader(g, h, a)
  {
    NotLonger(base, g, h, live, core);
    NotLonger(base, h, g, live, core);
    var n := |g.list|;
    SameOrder(base, g, h, live, core, n - 1);
    assert g.list[..n] == g.list && h.list[..n] == h.list;
    forall a | a in g.list
      ensures SameHeader(g, h, a)
    {
      var i :| 0 <= i < |g.list| && g.list[i] == a;
      SameBlock(base, g, h, live, core, i);
      assert LinkOk(g.list, g.ptr, i) && LinkOk(h.list, h.ptr, i);
    }
  }
}
