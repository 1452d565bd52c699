/**
  The free list of umalloc.c, the allocator of section 8.7 of The C Programming Language, on values.
  Addresses count Header units.  The free blocks form one circular list in address order through
  their headers; `list` is that list written out from `base`, `live` the blocks handed out and `core`
  every unit ever obtained from sbrk.
*/
module Umalloc {

  // ---------------------------------------------------------------------------------------------
  // The shape of the heap
  // ---------------------------------------------------------------------------------------------

  /** The index after i in a circular list of n blocks. */
  function Next(i: int, n: int): int
  {
    if i + 1 < n then i + 1 else 0
  }

  /** How many links lead from index i to index j. */
  function Dist(i: int, j: int, n: int): int
  {
    if i <= j then j - i else n - i + j
  }

  /** The links form one cycle in list order. */
  ghost predicate Ring(list: seq<int>, ptr: map<int, int>)
  {
    forall i :: 0 <= i < |list| ==> LinkOk(list, ptr, i)
  }

  predicate LinkOk(list: seq<int>, ptr: map<int, int>, i: int)
    requires 0 <= i < |list|
  {
    list[i] in ptr && ptr[list[i]] == list[Next(i, |list|)]
  }

  /** The base block is empty and every other block is not. */
  ghost predicate Sized(base: int, list: seq<int>, size: map<int, int>)
  {
    && |list| >= 1 && list[0] == base && base in size && size[base] == 0
    && forall i :: 1 <= i < |list| ==> list[i] in size && size[list[i]] >= 1
  }

  /** Ascending, each block ending before the next begins; blocks at the positions in `loose` may touch. */
  ghost predicate Spaced(list: seq<int>, size: map<int, int>, loose: set<int>)
  {
    forall i :: 0 <= i < |list| - 1 ==> GapOk(list, size, loose, i)
  }

  predicate GapOk(list: seq<int>, size: map<int, int>, loose: set<int>, i: int)
    requires 0 <= i < |list| - 1
  {
    && list[i] in size && list[i] < list[i + 1]
    && (if i in loose then list[i] + size[list[i]] <= list[i + 1] else list[i] + size[list[i]] < list[i + 1])
  }

  /** Live blocks keep their size in their header and do not overlap. */
  ghost predicate LiveOk(base: int, live: map<int, int>, size: map<int, int>)
  {
    && (forall a :: a in live ==> base < a && 1 <= live[a] && a in size && size[a] == live[a])
    && (forall a, b :: a in live && b in live && a < b ==> a + live[a] <= b)
  }

  /** A block of n units at p and a live block at a of m units do not overlap. */
  predicate Clear(p: int, n: int, a: int, m: int)
  {
    (p < a && p + n <= a) || a + m <= p
  }

  /** No live block overlaps a free one. */
  ghost predicate Apart(list: seq<int>, size: map<int, int>, live: map<int, int>)
  {
    forall i, a :: 0 <= i < |list| && a in live ==> ClearAt(list, size, i, a, live[a])
  }

  predicate ClearAt(list: seq<int>, size: map<int, int>, i: int, a: int, m: int)
    requires 0 <= i < |list|
  {
    list[i] in size && Clear(list[i], size[list[i]], a, m)
  }

  predicate Covers(list: seq<int>, size: map<int, int>, i: int, u: int)
    requires 0 <= i < |list|
  {
    list[i] in size && list[i] <= u < list[i] + size[list[i]]
  }

  ghost predicate InFree(list: seq<int>, size: map<int, int>, u: int)
  {
    exists i :: 0 <= i < |list| && Covers(list, size, i, u)
  }

  ghost predicate InLive(live: map<int, int>, u: int)
  {
    exists a :: a in live && a <= u < a + live[a]
  }

  /** Every unit obtained lies in a free or a live block, and nothing else does. */
  ghost predicate Conserved(list: seq<int>, size: map<int, int>, live: map<int, int>, core: set<int>)
  {
    forall u :: u in core <==> InFree(list, size, u) || InLive(live, u)
  }

  /** The list of free blocks together with the headers that realise it. */
  datatype Chain = Chain(list: seq<int>, ptr: map<int, int>, size: map<int, int>)

  ghost predicate Loose(base: int, h: Chain, live: map<int, int>, core: set<int>, loose: set<int>)
  {
    && Sized(base, h.list, h.size) && Spaced(h.list, h.size, loose) && Ring(h.list, h.ptr)
    && LiveOk(base, live, h.size) && Apart(h.list, h.size, live) && Conserved(h.list, h.size, live, core)
  }

  /** One ascending cycle of free blocks that do not touch, disjoint from the live ones, nothing lost. */
  ghost predicate HeapOk(base: int, h: Chain, live: map<int, int>, core: set<int>)
  {
    Loose(base, h, live, core, {})
  }

  lemma {:induction false} Sorted(list: seq<int>, size: map<int, int>, loose: set<int>, i: int, j: int)
    requires Spaced(list, size, loose) && 0 <= i < j < |list|
    ensures list[i] in size && list[i] < list[j] && list[i] + size[list[i]] <= list[j]
    ensures i !in loose ==> list[i] + size[list[i]] < list[j]
    decreases j - i
  {
    assert GapOk(list, size, loose, i);
    if i + 1 < j {
      Sorted(list, size, loose, i + 1, j);
    }
  }

  /** No other position of the list holds the block at k. */
  ghost predicate OnlyAt(list: seq<int>, k: int)
    requires 0 <= k < |list|
  {
    forall i :: 0 <= i < |list| && i != k ==> list[i] != list[k]
  }

  lemma SortedOnlyAt(list: seq<int>, size: map<int, int>, loose: set<int>, k: int)
    requires Spaced(list, size, loose) && 0 <= k < |list|
    ensures OnlyAt(list, k)
  {
    forall i | 0 <= i < |list| && i != k
      ensures list[i] != list[k]
    {
      if i < k { Sorted(list, size, loose, i, k); } else { Sorted(list, size, loose, k, i); }
    }
  }

  /** The index of the last free block below address b. */
  ghost function Below(list: seq<int>, b: int): (t: int)
    requires |list| >= 1 && list[0] < b
    ensures 0 <= t < |list| && list[t] < b
    ensures t + 1 < |list| ==> b <= list[t + 1]
  {
    if |list| == 1 || b <= list[1] then 0 else 1 + Below(list[1..], b)
  }

  // ---------------------------------------------------------------------------------------------
  // Linking a live block into the list
  // ---------------------------------------------------------------------------------------------

  function Inserted(list: seq<int>, t: int, b: int): seq<int>
    requires 0 <= t < |list|
  {
    list[..t + 1] + [b] + list[t + 1..]
  }

  lemma InsertedAt(list: seq<int>, t: int, b: int)
    requires 0 <= t < |list|
    ensures var l := Inserted(list, t, b);
            && |l| == |list| + 1 && l[t + 1] == b
            && (forall i :: 0 <= i <= t ==> l[i] == list[i])
            && (forall i :: t + 1 < i < |l| ==> l[i] == list[i - 1])
  {
  }

  lemma InsertSpaced(base: int, list: seq<int>, size: map<int, int>, t: int, b: int)
    requires Sized(base, list, size) && Spaced(list, size, {}) && b in size && 1 <= size[b] && 0 <= t < |list|
    requires list[t] < b && list[t] + size[list[t]] <= b && (t + 1 < |list| ==> b + size[b] <= list[t + 1])
    ensures Sized(base, Inserted(list, t, b), size) && Spaced(Inserted(list, t, b), size, {t, t + 1})
  {
    InsertedAt(list, t, b);
    var l := Inserted(list, t, b);
    forall i | 1 <= i < |l|
      ensures l[i] in size && size[l[i]] >= 1
    {
      if i <= t { assert l[i] == list[i]; } else if i > t + 1 { assert l[i] == list[i - 1]; }
    }
    var loose := {t, t + 1};
    forall i | 0 <= i < |l| - 1
      ensures GapOk(l, size, loose, i)
    {
      if i < t {
        assert GapOk(list, size, {}, i);
      } else if i > t + 1 {
        assert GapOk(list, size, {}, i - 1);
      }
    }
  }

  lemma InsertApart(list: seq<int>, size: map<int, int>, live: map<int, int>, t: int, b: int)
    requires Apart(list, size, live) && b in live && b in size && size[b] == live[b] && 0 <= t < |list| && 1 <= live[b]
    requires forall a, c :: a in live && c in live && a < c ==> a + live[a] <= c
    ensures Apart(Inserted(list, t, b), size, live - {b})
  {
    InsertedAt(list, t, b);
    var l := Inserted(list, t, b);
    forall i, a | 0 <= i < |l| && a in live - {b}
      ensures ClearAt(l, size, i, a, (live - {b})[a])
    {
      if i != t + 1 {
        assert ClearAt(list, size, if i <= t then i else i - 1, a, live[a]);
      }
    }
  }

  lemma InsertCovers(list: seq<int>, size: map<int, int>, live: map<int, int>, core: set<int>, t: int, b: int)
    requires 0 <= t < |list| && b in live && b in size && size[b] == live[b] && Conserved(list, size, live, core)
    ensures Conserved(Inserted(list, t, b), size, live - {b}, core)
  {
    var l := Inserted(list, t, b);
    InsertedAt(list, t, b);
    forall u
      ensures InFree(list, size, u) || InLive(live, u) <==> InFree(l, size, u) || InLive(live - {b}, u)
    {
      if InFree(list, size, u) {
        var i :| 0 <= i < |list| && Covers(list, size, i, u);
        assert Covers(l, size, if i <= t then i else i + 1, u);
      }
      if InLive(live, u) {
        var a :| a in live && a <= u < a + live[a];
        if a == b {
          assert Covers(l, size, t + 1, u);
        } else {
          assert a in live - {b};
        }
      }
      if InFree(l, size, u) {
        var i :| 0 <= i < |l| && Covers(l, size, i, u);
        if i == t + 1 {
          assert InLive(live, u);
        } else {
          assert Covers(list, size, if i <= t then i else i - 1, u);
        }
      }
      if InLive(live - {b}, u) {
        var a :| a in live - {b} && a <= u < a + live[a];
        assert a in live;
      }
    }
  }

  lemma RingInsert(list: seq<int>, ptr: map<int, int>, t: int, b: int)
    requires Ring(list, ptr) && 0 <= t < |list| && b !in list && OnlyAt(list, t)
    ensures list[t] in ptr && Ring(Inserted(list, t, b), ptr[b := ptr[list[t]]][list[t] := b])
  {
    assert LinkOk(list, ptr, t);
    InsertedAt(list, t, b);
    var l, p := Inserted(list, t, b), ptr[b := ptr[list[t]]][list[t] := b];
    forall i | 0 <= i < |l|
      ensures LinkOk(l, p, i)
    {
      if i < t {
        assert LinkOk(list, ptr, i) && list[i] != list[t] && list[i] != b;
      } else if i > t + 1 {
        assert LinkOk(list, ptr, i - 1) && list[i - 1] != list[t] && list[i - 1] != b;
      } else {
        assert LinkOk(list, ptr, t);
      }
    }
  }

  // ---------------------------------------------------------------------------------------------
  // Joining two neighbours that touch
  // ---------------------------------------------------------------------------------------------

  function Merged(list: seq<int>, k: int): seq<int>
    requires 0 <= k < |list| - 1
  {
    list[..k + 1] + list[k + 2..]
  }

  function MergedSize(list: seq<int>, size: map<int, int>, k: int): map<int, int>
    requires 0 <= k < |list| - 1 && list[k] in size && list[k + 1] in size
  {
    size[list[k] := size[list[k]] + size[list[k + 1]]]
  }

  lemma MergedAt(list: seq<int>, k: int)
    requires 0 <= k < |list| - 1
    ensures var l := Merged(list, k);
            && |l| == |list| - 1
            && (forall i :: 0 <= i <= k ==> l[i] == list[i])
            && (forall i :: k < i < |l| ==> l[i] == list[i + 1])
  {
  }

  lemma MergeSpaced(base: int, list: seq<int>, size: map<int, int>, loose: set<int>, k: int)
    requires Sized(base, list, size) && Spaced(list, size, loose) && 1 <= k < |list| - 1 && OnlyAt(list, k)
    requires list[k] + size[list[k]] == list[k + 1] && (loose == {k - 1, k} || loose == {k})
    ensures Sized(base, Merged(list, k), MergedSize(list, size, k))
    ensures Spaced(Merged(list, k), MergedSize(list, size, k), loose - {k})
  {
    MergedAt(list, k);
    var l, s := Merged(list, k), MergedSize(list, size, k);
    forall i | 1 <= i < |l|
      ensures l[i] in s && s[l[i]] >= 1
    {
      if i != k { assert l[i] == list[if i < k then i else i + 1]; }
    }
    forall i | 0 <= i < |l| - 1
      ensures GapOk(l, s, loose - {k}, i)
    {
      var j := if i < k then i else i + 1;
      assert GapOk(list, size, loose, j);
      assert i != k ==> list[j] != list[k];
    }
  }

  lemma MergeApart(list: seq<int>, size: map<int, int>, live: map<int, int>, k: int)
    requires Apart(list, size, live) && 0 <= k < |list| - 1 && list[k] in size && list[k + 1] in size && OnlyAt(list, k)
    requires list[k] + size[list[k]] == list[k + 1] && 1 <= size[list[k + 1]]
    requires forall a :: a in live ==> 1 <= live[a]
    ensures Apart(Merged(list, k), MergedSize(list, size, k), live)
  {
    MergedAt(list, k);
    var l, s := Merged(list, k), MergedSize(list, size, k);
    forall i, a | 0 <= i < |l| && a in live
      ensures ClearAt(l, s, i, a, live[a])
    {
      var j := if i <= k then i else i + 1;
      assert ClearAt(list, size, j, a, live[a]);
      assert ClearAt(list, size, k + 1, a, live[a]);
    }
  }

  lemma MergeCovers(list: seq<int>, size: map<int, int>, live: map<int, int>, core: set<int>, k: int)
    requires 0 <= k < |list| - 1 && list[k] in size && list[k + 1] in size && OnlyAt(list, k)
    requires list[k] + size[list[k]] == list[k + 1] && 0 <= size[list[k]] && 0 <= size[list[k + 1]]
    requires Conserved(list, size, live, core)
    ensures Conserved(Merged(list, k), MergedSize(list, size, k), live, core)
  {
    var l, s := Merged(list, k), MergedSize(list, size, k);
    MergedAt(list, k);
    forall u
      ensures InFree(list, size, u) <==> InFree(l, s, u)
    {
      if InFree(list, size, u) {
        var i :| 0 <= i < |list| && Covers(list, size, i, u);
        assert Covers(l, s, if i <= k then i else i - 1, u);
      }
      if InFree(l, s, u) {
        var j :| 0 <= j < |l| && Covers(l, s, j, u);
        if j == k {
          assert Covers(list, size, k, u) || Covers(list, size, k + 1, u);
        } else {
          assert Covers(list, size, if j < k then j else j + 1, u);
        }
      }
    }
  }

  lemma RingMerge(list: seq<int>, ptr: map<int, int>, k: int)
    requires Ring(list, ptr) && 0 <= k < |list| - 1 && OnlyAt(list, k)
    ensures list[k + 1] in ptr && Ring(Merged(list, k), ptr[list[k] := ptr[list[k + 1]]])
  {
    assert LinkOk(list, ptr, k + 1);
    var l, p := Merged(list, k), ptr[list[k] := ptr[list[k + 1]]];
    MergedAt(list, k);
    forall i | 0 <= i < |l|
      ensures LinkOk(l, p, i)
    {
      var j := if i < k then i else i + 1;
      assert LinkOk(list, ptr, j) && (i != k ==> list[j] != list[k]);
    }
  }
}
