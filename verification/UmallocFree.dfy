/** What free and malloc do to the chain of free blocks, on values. */
module UmallocFree {
  import opened Umalloc

  // ---------------------------------------------------------------------------------------------
  // free
  // ---------------------------------------------------------------------------------------------

  /** The loop and break conditions of free's search (umalloc.c:30-32). */
  predicate Stops(p: int, next: int, b: int)
  {
    (b > p && b < next) || (p >= next && (b > p || b < next))
  }

  /** A live block lies wholly between its list neighbours. */
  lemma Between(base: int, h: Chain, live: map<int, int>, t: int, b: int)
    requires Sized(base, h.list, h.size) && Spaced(h.list, h.size, {}) && LiveOk(base, live, h.size)
    requires Apart(h.list, h.size, live) && b in live && t == Below(h.list, b)
    ensures h.list[t] < b && h.list[t] + h.size[h.list[t]] <= b
    ensures t + 1 < |h.list| ==> b + h.size[b] <= h.list[t + 1]
    ensures b !in h.list
  {
    assert ClearAt(h.list, h.size, t, b, live[b]);
    if t + 1 < |h.list| {
      assert ClearAt(h.list, h.size, t + 1, b, live[b]);
    }
    forall i | 0 <= i < |h.list|
      ensures h.list[i] != b
    {
      assert ClearAt(h.list, h.size, i, b, live[b]);
    }
  }

  lemma StopsAt(h: Chain, b: int, t: int, i: int)
    requires |h.list| >= 1 && Spaced(h.list, h.size, {}) && Ring(h.list, h.ptr) && 0 <= i < |h.list|
    requires 0 <= t < |h.list| && h.list[t] < b && (t + 1 < |h.list| ==> b < h.list[t + 1])
    ensures h.list[i] in h.ptr && (Stops(h.list[i], h.ptr[h.list[i]], b) <==> i == t)
  {
    assert LinkOk(h.list, h.ptr, i);
    assert i + 1 < |h.list| ==> GapOk(h.list, h.size, {}, i);
    var list, next := h.list, h.ptr[h.list[i]];
    SortedLe(list, h.size, 0, i);
    SortedLe(list, h.size, 0, t);
    if i < t {
      SortedLe(list, h.size, i + 1, t);
    } else if i > t {
      SortedLe(list, h.size, t + 1, i);
    }
  }

  /** The search stops exactly at the last free block below b, so it ends within one lap. */
  lemma StopsAtBelow(base: int, h: Chain, live: map<int, int>, core: set<int>, b: int, i: int)
    requires HeapOk(base, h, live, core) && b in live && 0 <= i < |h.list|
    ensures h.list[i] in h.ptr && (Stops(h.list[i], h.ptr[h.list[i]], b) <==> i == Below(h.list, b))
  {
    Between(base, h, live, Below(h.list, b), b);
    StopsAt(h, b, Below(h.list, b), i);
  }

  lemma SortedLe(list: seq<int>, size: map<int, int>, i: int, j: int)
    requires Spaced(list, size, {}) && 0 <= i <= j < |list|
    ensures list[i] <= list[j]
  {
    if i < j { Sorted(list, size, {}, i, j); }
  }

  /** b linked in behind index t. */
  ghost function Link(h: Chain, t: int, b: int): Chain
    requires 0 <= t < |h.list| && h.list[t] in h.ptr
  {
    Chain(Inserted(h.list, t, b), h.ptr[b := h.ptr[h.list[t]]][h.list[t] := b], h.size)
  }

  predicate Touch(h: Chain, k: int)
  {
    && 0 <= k < |h.list| - 1 && h.list[k] in h.size && h.list[k + 1] in h.size && h.list[k + 1] in h.ptr
    && h.list[k] + h.size[h.list[k]] == h.list[k + 1]
  }

  /** Blocks k and k+1 joined. */
  ghost function Join(h: Chain, k: int): Chain
    requires Touch(h, k)
  {
    Chain(Merged(h.list, k), h.ptr[h.list[k] := h.ptr[h.list[k + 1]]], MergedSize(h.list, h.size, k))
  }

  lemma LinkKeeps(base: int, h: Chain, live: map<int, int>, core: set<int>, t: int, b: int)
    requires HeapOk(base, h, live, core) && b in live && t == Below(h.list, b)
    ensures h.list[t] in h.ptr && Loose(base, Link(h, t, b), live - {b}, core, {t, t + 1})
  {
    assert LinkOk(h.list, h.ptr, t);
    Between(base, h, live, t, b);
    InsertSpaced(base, h.list, h.size, t, b);
    InsertApart(h.list, h.size, live, t, b);
    InsertCovers(h.list, h.size, live, core, t, b);
    SortedOnlyAt(h.list, h.size, {}, t);
    RingInsert(h.list, h.ptr, t, b);
  }

  /** Writing the header of a free block changes no live block. */
  lemma LiveUnaffected(base: int, list: seq<int>, size: map<int, int>, live: map<int, int>, k: int, n: int)
    requires LiveOk(base, live, size) && 0 <= k < |list| && Apart(list, size, live)
    ensures LiveOk(base, live, size[list[k] := n])
  {
    forall a | a in live
      ensures a != list[k]
    {
      assert ClearAt(list, size, k, a, live[a]);
    }
  }

  lemma JoinKeeps(base: int, h: Chain, live: map<int, int>, core: set<int>, loose: set<int>, k: int)
    requires Loose(base, h, live, core, loose) && Touch(h, k) && (loose == {k - 1, k} || loose == {k})
    ensures Loose(base, Join(h, k), live, core, loose - {k})
  {
    SortedOnlyAt(h.list, h.size, loose, k);
    MergeSpaced(base, h.list, h.size, loose, k);
    MergeApart(h.list, h.size, live, k);
    MergeCovers(h.list, h.size, live, core, k);
    RingMerge(h.list, h.ptr, k);
    LiveUnaffected(base, h.list, h.size, live, k, h.size[h.list[k]] + h.size[h.list[k + 1]]);
  }

  lemma Tightens(base: int, h: Chain, live: map<int, int>, core: set<int>, loose: set<int>, k: int)
    requires Loose(base, h, live, core, loose) && !Touch(h, k)
    ensures Loose(base, h, live, core, loose - {k})
  {
    forall i | 0 <= i < |h.list| - 1
      ensures GapOk(h.list, h.size, loose - {k}, i)
    {
      assert GapOk(h.list, h.size, loose, i);
      assert LinkOk(h.list, h.ptr, i + 1);
    }
  }

  /** Some free block covers the n units from b. */
  ghost predicate Contains(h: Chain, b: int, n: int)
  {
    exists i :: 0 <= i < |h.list| && Holds(h, i, b, n)
  }

  predicate Holds(h: Chain, i: int, b: int, n: int)
    requires 0 <= i < |h.list|
  {
    h.list[i] in h.size && h.list[i] <= b && b + n <= h.list[i] + h.size[h.list[i]]
  }

  /** The chain after the first join of free: bp has absorbed the next block if it touched (umalloc.c:33-37). */
  ghost predicate AfterNext(h: Chain, t: int, b: int, g: Chain)
    requires 0 <= t < |h.list| && h.list[t] in h.ptr
  {
    var l := Link(h, t, b);
    g == if Touch(l, t + 1) then Join(l, t + 1) else l
  }

  lemma NextKeeps(base: int, h: Chain, live: map<int, int>, core: set<int>, t: int, b: int, g: Chain)
    requires HeapOk(base, h, live, core) && b in live && t == Below(h.list, b)
    requires h.list[t] in h.ptr && AfterNext(h, t, b, g)
    ensures Loose(base, g, live - {b}, core, {t})
  {
    LinkKeeps(base, h, live, core, t, b);
    JoinIfTouch(base, Link(h, t, b), live - {b}, core, {t, t + 1}, t + 1, g);
    assert {t, t + 1} - {t + 1} == {t};
  }

  lemma JoinIfTouch(base: int, h: Chain, live: map<int, int>, core: set<int>, loose: set<int>, k: int, g: Chain)
    requires Loose(base, h, live, core, loose) && (loose == {k - 1, k} || loose == {k})
    requires g == if Touch(h, k) then Join(h, k) else h
    ensures Loose(base, g, live, core, loose - {k})
  {
    if Touch(h, k) {
      JoinKeeps(base, h, live, core, loose, k);
    } else {
      Tightens(base, h, live, core, loose, k);
    }
  }

  lemma NextAt(h: Chain, t: int, b: int, g: Chain)
    requires 0 <= t < |h.list| && h.list[t] in h.ptr && b in h.size && AfterNext(h, t, b, g)
    requires forall i :: 0 <= i < |h.list| ==> h.list[i] in h.size && 0 <= h.size[h.list[i]]
    ensures t + 1 < |g.list| && g.list[t] == h.list[t] && g.list[t + 1] == b && b in g.size && h.size[b] <= g.size[b]
  {
    var l := Link(h, t, b);
    InsertedAt(h.list, t, b);
    if Touch(l, t + 1) {
      MergedAt(l.list, t + 1);
      assert l.list[t + 2] == h.list[t + 1];
    }
  }

  /** free on values: the chain after its second join, with the freed units in one free block. */
  lemma PrevKeeps(base: int, g: Chain, live: map<int, int>, core: set<int>, t: int, b: int, f: Chain)
    requires Loose(base, g, live, core, {t}) && 0 <= t && t + 1 < |g.list| && g.list[t + 1] == b
    requires f == if Touch(g, t) then Join(g, t) else g
    ensures HeapOk(base, f, live, core) && t < |f.list| && f.list[t] == g.list[t]
    ensures b in g.size && Contains(f, b, g.size[b])
  {
    assert {t} - {t} == {};
    JoinIfTouch(base, g, live, core, {t}, t, f);
    if Touch(g, t) {
      MergedAt(g.list, t);
      assert Holds(f, t, b, g.size[b]);
    } else {
      assert Holds(f, t + 1, b, g.size[b]);
    }
  }

  // ---------------------------------------------------------------------------------------------
  // malloc
  // ---------------------------------------------------------------------------------------------

  /** A fitting block p = list[k] leaves the list and becomes live (umalloc.c:76-77). */
  ghost function Unlink(h: Chain, k: int): Chain
    requires 1 <= k < |h.list| && h.list[k] in h.ptr
  {
    Chain(Merged(h.list, k - 1), h.ptr[h.list[k - 1] := h.ptr[h.list[k]]], h.size)
  }

  lemma UnlinkSpaced(base: int, list: seq<int>, size: map<int, int>, k: int)
    requires Sized(base, list, size) && Spaced(list, size, {}) && 1 <= k < |list|
    ensures Sized(base, Merged(list, k - 1), size) && Spaced(Merged(list, k - 1), size, {})
  {
    MergedAt(list, k - 1);
    var l := Merged(list, k - 1);
    forall i | 1 <= i < |l|
      ensures l[i] in size && size[l[i]] >= 1
    {
      if i >= k { assert l[i] == list[i + 1]; }
    }
    forall i | 0 <= i < |l| - 1
      ensures GapOk(l, size, {}, i)
    {
      assert GapOk(list, size, {}, if i < k then i else i + 1);
      if i == k - 1 { assert GapOk(list, size, {}, k); }
    }
  }

  lemma UnlinkApart(base: int, list: seq<int>, size: map<int, int>, live: map<int, int>, k: int)
    requires Sized(base, list, size) && Spaced(list, size, {}) && Apart(list, size, live) && 1 <= k < |list|
    requires forall a :: a in live ==> 1 <= live[a]
    ensures list[k] !in live && Apart(Merged(list, k - 1), size, live[list[k] := size[list[k]]])
  {
    MergedAt(list, k - 1);
    var l, v := Merged(list, k - 1), live[list[k] := size[list[k]]];
    forall a | a in live
      ensures a != list[k]
    {
      assert ClearAt(list, size, k, a, live[a]);
    }
    forall i, a | 0 <= i < |l| && a in v
      ensures ClearAt(l, size, i, a, v[a])
    {
      var j := if i < k then i else i + 1;
      assert l[i] == list[j];
      if a == list[k] {
        if j < k { Sorted(list, size, {}, j, k); } else { Sorted(list, size, {}, k, j); }
      } else {
        assert ClearAt(list, size, j, a, live[a]);
      }
    }
  }

  lemma UnlinkCovers(list: seq<int>, size: map<int, int>, live: map<int, int>, core: set<int>, k: int)
    requires 1 <= k < |list| && list[k] in size && list[k] !in live && Conserved(list, size, live, core)
    ensures Conserved(Merged(list, k - 1), size, live[list[k] := size[list[k]]], core)
  {
    MergedAt(list, k - 1);
    var l, v := Merged(list, k - 1), live[list[k] := size[list[k]]];
    forall u
      ensures InFree(list, size, u) || InLive(live, u) <==> InFree(l, size, u) || InLive(v, u)
    {
      if InFree(list, size, u) {
        var i :| 0 <= i < |list| && Covers(list, size, i, u);
        if i == k {
          assert list[k] in v;
        } else {
          assert Covers(l, size, if i < k then i else i - 1, u);
        }
      }
      if InLive(live, u) {
        var a :| a in live && a <= u < a + live[a];
        assert a in v && v[a] == live[a];
      }
      if InFree(l, size, u) {
        var i :| 0 <= i < |l| && Covers(l, size, i, u);
        assert Covers(list, size, if i < k then i else i + 1, u);
      }
      if InLive(v, u) {
        var a :| a in v && a <= u < a + v[a];
        if a == list[k] {
          assert Covers(list, size, k, u);
        } else {
          assert a in live;
        }
      }
    }
  }

  lemma UnlinkLive(base: int, list: seq<int>, size: map<int, int>, live: map<int, int>, k: int)
    requires Sized(base, list, size) && Spaced(list, size, {}) && LiveOk(base, live, size)
    requires Apart(list, size, live) && 1 <= k < |list|
    ensures LiveOk(base, live[list[k] := size[list[k]]], size)
  {
    Sorted(list, size, {}, 0, k);
    forall a | a in live && a != list[k]
      ensures a < list[k] ==> a + live[a] <= list[k]
      ensures list[k] < a ==> list[k] + size[list[k]] <= a
    {
      assert ClearAt(list, size, k, a, live[a]);
    }
  }

  lemma UnlinkShape(base: int, h: Chain, k: int)
    requires Sized(base, h.list, h.size) && Spaced(h.list, h.size, {}) && Ring(h.list, h.ptr) && 1 <= k < |h.list|
    ensures h.list[k] in h.ptr
    ensures var g := Unlink(h, k); Sized(base, g.list, g.size) && Spaced(g.list, g.size, {}) && Ring(g.list, g.ptr)
  {
    assert LinkOk(h.list, h.ptr, k);
    var g := Unlink(h, k);
    assert Sized(base, g.list, g.size) && Spaced(g.list, g.size, {}) by { UnlinkSpaced(base, h.list, h.size, k); }
    assert Ring(g.list, g.ptr) by {
      SortedOnlyAt(h.list, h.size, {}, k - 1);
      RingMerge(h.list, h.ptr, k - 1);
    }
  }

  lemma UnlinkKeeps(base: int, h: Chain, live: map<int, int>, core: set<int>, k: int)
    requires HeapOk(base, h, live, core) && 1 <= k < |h.list|
    ensures h.list[k] !in live && h.list[k] in h.ptr
    ensures HeapOk(base, Unlink(h, k), live[h.list[k] := h.size[h.list[k]]], core)
  {
    UnlinkShape(base, h, k);
    var g, v := Unlink(h, k), live[h.list[k] := h.size[h.list[k]]];
    assert h.list[k] !in live && Apart(g.list, g.size, v) by { UnlinkApart(base, h.list, h.size, live, k); }
    assert Conserved(g.list, g.size, v, core) by { UnlinkCovers(h.list, h.size, live, core, k); }
    assert LiveOk(base, v, g.size) by { UnlinkLive(base, h.list, h.size, live, k); }
  }

  /** Where the tail of n units that a larger block gives up begins (umalloc.c:79-80). */
  function Tail(h: Chain, k: int, n: int): int
    requires 0 <= k < |h.list| && h.list[k] in h.size
  {
    h.list[k] + h.size[h.list[k]] - n
  }

  ghost function Split(h: Chain, k: int, n: int): Chain
    requires 0 <= k < |h.list| && h.list[k] in h.size
  {
    Chain(h.list, h.ptr, h.size[h.list[k] := h.size[h.list[k]] - n][Tail(h, k, n) := n])
  }

  /** The headers a split writes belong to no other block. */
  lemma SplitAt(base: int, h: Chain, live: map<int, int>, k: int, n: int)
    requires Sized(base, h.list, h.size) && Spaced(h.list, h.size, {}) && LiveOk(base, live, h.size)
    requires Apart(h.list, h.size, live) && 1 <= k < |h.list| && 1 <= n < h.size[h.list[k]]
    ensures var q, s := Tail(h, k, n), Split(h, k, n).size;
            && q !in live && q !in h.list && base < q
            && (forall i :: 0 <= i < |h.list| ==>
                  h.list[i] in s && s[h.list[i]] == if i == k then h.size[h.list[k]] - n else h.size[h.list[i]])
            && (forall a :: a in live ==> a in s && s[a] == live[a] && (a + live[a] <= q || q + n <= a))
  {
    var list, size, q := h.list, h.size, Tail(h, k, n);
    Sorted(list, size, {}, 0, k);
    forall i | 0 <= i < |list|
      ensures list[i] in size && list[i] != q && (i != k ==> list[i] != list[k])
    {
      if i < k { Sorted(list, size, {}, i, k); } else if k < i { Sorted(list, size, {}, k, i); }
    }
    forall a | a in live
      ensures a != list[k] && a != q && (a + live[a] <= q || q + n <= a)
    {
      assert ClearAt(list, size, k, a, live[a]);
    }
  }

  lemma SplitSpaced(base: int, h: Chain, k: int, n: int)
    requires Sized(base, h.list, h.size) && Spaced(h.list, h.size, {}) && 1 <= k < |h.list|
      && 1 <= n < h.size[h.list[k]]
    requires var s := Split(h, k, n).size;
             forall i :: 0 <= i < |h.list| ==>
               h.list[i] in s && s[h.list[i]] == if i == k then h.size[h.list[k]] - n else h.size[h.list[i]]
    ensures Sized(base, h.list, Split(h, k, n).size) && Spaced(h.list, Split(h, k, n).size, {})
  {
    forall i | 0 <= i < |h.list| - 1
      ensures GapOk(h.list, Split(h, k, n).size, {}, i)
    {
      assert GapOk(h.list, h.size, {}, i);
    }
  }

  lemma SplitApart(base: int, h: Chain, live: map<int, int>, k: int, n: int)
    requires Sized(base, h.list, h.size) && Spaced(h.list, h.size, {}) && Apart(h.list, h.size, live)
    requires 1 <= k < |h.list| && 1 <= n < h.size[h.list[k]]
    requires var s := Split(h, k, n).size;
             forall i :: 0 <= i < |h.list| ==>
               h.list[i] in s && s[h.list[i]] == if i == k then h.size[h.list[k]] - n else h.size[h.list[i]]
    ensures Apart(h.list, Split(h, k, n).size, live[Tail(h, k, n) := n])
  {
    var list, s, q, v := h.list, Split(h, k, n).size, Tail(h, k, n), live[Tail(h, k, n) := n];
    forall i, a | 0 <= i < |list| && a in v
      ensures ClearAt(list, s, i, a, v[a])
    {
      if a == q {
        if i < k { Sorted(list, h.size, {}, i, k); } else if k < i { Sorted(list, h.size, {}, k, i); }
      } else {
        assert ClearAt(list, h.size, i, a, live[a]);
      }
    }
  }

  lemma SplitCovers(h: Chain, live: map<int, int>, core: set<int>, k: int, n: int)
    requires 0 <= k < |h.list| && h.list[k] in h.size && 1 <= n < h.size[h.list[k]] && Tail(h, k, n) !in live
    requires Conserved(h.list, h.size, live, core)
    requires var s := Split(h, k, n).size;
             forall i :: 0 <= i < |h.list| ==>
               && h.list[i] in s && h.list[i] in h.size
               && s[h.list[i]] == if i == k then h.size[h.list[k]] - n else h.size[h.list[i]]
    ensures Conserved(h.list, Split(h, k, n).size, live[Tail(h, k, n) := n], core)
  {
    var list, size, s, q, v := h.list, h.size, Split(h, k, n).size, Tail(h, k, n), live[Tail(h, k, n) := n];
    forall u
      ensures InFree(list, size, u) || InLive(live, u) <==> InFree(list, s, u) || InLive(v, u)
    {
      if InFree(list, size, u) {
        var i :| 0 <= i < |list| && Covers(list, size, i, u);
        if i == k && q <= u {
          assert q in v;
        } else {
          assert Covers(list, s, i, u);
        }
      }
      if InLive(live, u) {
        var a :| a in live && a <= u < a + live[a];
        assert a in v && v[a] == live[a];
      }
      if InFree(list, s, u) {
        var i :| 0 <= i < |list| && Covers(list, s, i, u);
        assert Covers(list, size, i, u);
      }
      if InLive(v, u) {
        var a :| a in v && a <= u < a + v[a];
        if a == q {
          assert Covers(list, size, k, u);
        } else {
          assert a in live;
        }
      }
    }
  }

  lemma SplitLive(base: int, h: Chain, live: map<int, int>, k: int, n: int)
    requires 0 <= k < |h.list| && h.list[k] in h.size && 1 <= n && LiveOk(base, live, h.size)
    requires var q, s := Tail(h, k, n), Split(h, k, n).size;
             base < q && forall a :: a in live ==> a in s && s[a] == live[a] && (a + live[a] <= q || q + n <= a)
    ensures LiveOk(base, live[Tail(h, k, n) := n], Split(h, k, n).size)
  {
  }

  lemma SplitKeeps(base: int, h: Chain, live: map<int, int>, core: set<int>, k: int, n: int)
    requires HeapOk(base, h, live, core) && 1 <= k < |h.list| && 1 <= n < h.size[h.list[k]]
    ensures Tail(h, k, n) !in live
    ensures HeapOk(base, Split(h, k, n), live[Tail(h, k, n) := n], core)
  {
    SplitAt(base, h, live, k, n);
    var g, v := Split(h, k, n), live[Tail(h, k, n) := n];
    assert Sized(base, g.list, g.size) && Spaced(g.list, g.size, {}) by { SplitSpaced(base, h, k, n); }
    assert Apart(g.list, g.size, v) by { SplitApart(base, h, live, k, n); }
    assert Conserved(g.list, g.size, v, core) by { SplitCovers(h, live, core, k, n); }
    assert LiveOk(base, v, g.size) by { SplitLive(base, h, live, k, n); }
  }
}
