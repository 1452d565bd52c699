/** Path names: skipelem's splitting and what a walk through the directories finds (fs.c:583-657). */
module Paths {
  import opened Links

  predicate SlashFree(s: string)
  {
    forall i :: 0 <= i < |s| ==> s[i] != '/'
  }

  /** The first position from p on that is not a slash. */
  function Slashes(t: string, p: int): (r: int)
    requires 0 <= p <= |t|
    ensures p <= r <= |t| && (r < |t| ==> t[r] != '/')
    decreases |t| - p
  {
    if p < |t| && t[p] == '/' then Slashes(t, p + 1) else p
  }

  /** The end of the element that starts at p. */
  function ElemEnd(t: string, p: int): (r: int)
    requires 0 <= p <= |t|
    ensures p <= r <= |t| && (r < |t| ==> t[r] == '/') && (p < |t| && t[p] != '/' ==> p < r)
    decreases |t| - p
  {
    if p < |t| && t[p] != '/' then ElemEnd(t, p + 1) else p
  }

  /** The elements of a path from p on, cut to DIRSIZ characters. */
  function Elems(t: string, p: int): seq<string>
    requires 0 <= p <= |t|
    decreases |t| - p
  {
    var q := Slashes(t, p);
    if q == |t| then [] else [Trim(t[q..ElemEnd(t, q)])] + Elems(t, ElemEnd(t, q))
  }

  lemma SkipSlashes(t: string, p: int)
    requires 0 <= p <= |t|
    ensures Elems(t, Slashes(t, p)) == Elems(t, p) && Slashes(t, Slashes(t, p)) == Slashes(t, p)
  {
  }

  /** fs.c:595-618.  Not found stands for the null result. */
  method Skipelem(t: string, p: int) returns (found: bool, name: string, next: int)
    requires 0 <= p <= |t|
    ensures found <==> Elems(t, p) != []
    ensures found ==>
      p < next <= |t| && Elems(t, p) == [name] + Elems(t, next) && (next == |t| <==> Elems(t, next) == [])
  {
    var s := p;
    while s < |t| && t[s] == '/'
      invariant p <= s <= |t| && Slashes(t, s) == Slashes(t, p)
    {
      s := s + 1;
    }
    if s == |t| {
      return false, "", |t|;
    }
    var e := s;
    while e < |t| && t[e] != '/'
      invariant s <= e <= |t| && ElemEnd(t, e) == ElemEnd(t, s)
    {
      e := e + 1;
    }
    name := if e - s >= DIRSIZ then t[s..s + DIRSIZ] else t[s..e];
    assert name == Trim(t[s..e]) by {
      assert e - s > DIRSIZ ==> t[s..e][..DIRSIZ] == t[s..s + DIRSIZ];
    }
    next := e;
    while next < |t| && t[next] == '/'
      invariant e <= next <= |t| && Slashes(t, next) == Slashes(t, e)
    {
      next := next + 1;
    }
    SkipSlashes(t, e);
    SkipSlashes(t, p);
    return true, name, next;
  }

  // ---------------------------------------------------------------------------------------------
  // Splitting undoes joining
  // ---------------------------------------------------------------------------------------------

  predicate GoodNames(es: seq<string>)
  {
    forall i :: 0 <= i < |es| ==> es[i] != "" && SlashFree(es[i])
  }

  /** Each element behind a slash. */
  function Join(es: seq<string>): string
  {
    if es == [] then "" else "/" + es[0] + Join(es[1..])
  }

  function TrimAll(es: seq<string>): seq<string>
  {
    if es == [] then [] else [Trim(es[0])] + TrimAll(es[1..])
  }

  lemma {:induction false} ElemEndAt(t: string, p: int, q: int)
    requires 0 <= p <= q <= |t| && (forall i :: p <= i < q ==> t[i] != '/') && (q < |t| ==> t[q] == '/')
    ensures ElemEnd(t, p) == q
    decreases q - p
  {
    if p < q {
      ElemEndAt(t, p + 1, q);
    }
  }

  /** The elements found in a joined path are the ones that were joined, cut to DIRSIZ characters. */
  lemma {:induction false} SplitJoined(front: string, es: seq<string>)
    requires GoodNames(es)
    ensures Elems(front + Join(es), |front|) == TrimAll(es)
    decreases |es|
  {
    var t := front + Join(es);
    if es != [] {
      var e, rest := es[0], Join(es[1..]);
      var more := front + "/" + e;
      assert t == more + rest;
      var q := |front| + 1;
      assert t[q..|more|] == e;
      assert t[|front|] == '/' && t[q] == e[0];
      assert Slashes(t, |front|) == q;
      assert rest == "" || rest[0] == '/';
      ElemEndAt(t, q, |more|);
      SplitJoined(more, es[1..]);
    }
  }

  // ---------------------------------------------------------------------------------------------
  // A path behind another
  // ---------------------------------------------------------------------------------------------

  lemma {:induction false} Shifted(f: string, b: string, k: int)
    requires 0 <= k <= |b|
    ensures Slashes(f + b, |f| + k) == |f| + Slashes(b, k) && ElemEnd(f + b, |f| + k) == |f| + ElemEnd(b, k)
    decreases |b| - k
  {
    assert k < |b| ==> (f + b)[|f| + k] == b[k];
    if k < |b| {
      Shifted(f, b, k + 1);
    }
  }

  lemma SliceBehind(f: string, b: string, i: int, j: int)
    requires 0 <= i <= j <= |b|
    ensures (f + b)[|f| + i..|f| + j] == b[i..j]
  {
  }

  lemma SliceFront(a: string, b: string, i: int, j: int)
    requires 0 <= i <= j <= |a|
    ensures (a + b)[i..j] == a[i..j]
  {
  }

  /** The first element and the rest, by positions. */
  lemma ElemsAt(t: string, p: int, q: int, e: int)
    requires 0 <= p <= |t| && q == Slashes(t, p) && q < |t| && e == ElemEnd(t, q)
    ensures Elems(t, p) == [Trim(t[q..e])] + Elems(t, e)
  {
  }

  /** What stands in front does not matter. */
  lemma {:induction false} ElemsShifted(f: string, b: string, k: int)
    requires 0 <= k <= |b|
    ensures Elems(f + b, |f| + k) == Elems(b, k)
    decreases |b| - k
  {
    var t := f + b;
    Shifted(f, b, k);
    var q := Slashes(b, k);
    if q < |b| {
      var e := ElemEnd(b, q);
      Shifted(f, b, q);
      SliceBehind(f, b, q, e);
      ElemsAt(b, k, q, e);
      ElemsAt(t, |f| + k, |f| + q, |f| + e);
      ElemsShifted(f, b, e);
    }
  }

  lemma {:induction false} FrontScan(a: string, b: string, p: int)
    requires 0 <= p <= |a|
    ensures ElemEnd(a + "/" + b, p) == ElemEnd(a, p)
    ensures Slashes(a, p) < |a| ==> Slashes(a + "/" + b, p) == Slashes(a, p)
    ensures Slashes(a, p) == |a| ==> Slashes(a + "/" + b, p) == Slashes(a + "/" + b, |a| + 1)
    decreases |a| - p
  {
    var t := a + "/" + b;
    assert t[|a|] == '/' && (p < |a| ==> t[p] == a[p]);
    if p < |a| {
      FrontScan(a, b, p + 1);
    }
  }

  lemma Grouped(x: string, a: seq<string>, b: seq<string>)
    ensures [x] + (a + b) == ([x] + a) + b
  {
  }

  lemma SameStart(t: string, p: int, q: int)
    requires 0 <= p <= |t| && 0 <= q <= |t| && Slashes(t, p) == Slashes(t, q)
    ensures Elems(t, p) == Elems(t, q)
  {
  }

  /** The elements of a path behind another, with a slash in between, follow those of the other. */
  lemma {:induction false} ElemsBehind(a: string, b: string, p: int)
    requires 0 <= p <= |a|
    ensures Elems(a + "/" + b, p) == Elems(a, p) + Elems(b, 0)
    decreases |a| - p
  {
    var t := a + "/" + b;
    var q := Slashes(a, p);
    FrontScan(a, b, p);
    if q < |a| {
      FrontScan(a, b, q);
      var e := ElemEnd(a, q);
      assert t == a + ("/" + b);
      SliceFront(a, "/" + b, q, e);
      ElemsAt(a, p, q, e);
      ElemsAt(t, p, q, e);
      ElemsBehind(a, b, e);
      Grouped(Trim(a[q..e]), Elems(a, e), Elems(b, 0));
    } else {
      ElemsShifted(a + "/", b, 0);
      SameStart(t, p, |a| + 1);
      assert Elems(a, p) == [];
    }
  }

  // ---------------------------------------------------------------------------------------------
  // Walking
  // ---------------------------------------------------------------------------------------------

  /** The inode that a path of elements leads to from x, 0 if there is none. */
  function Walk(s: seq<Node>, x: int, es: seq<string>): int
    decreases |es|
  {
    if es == [] then x
    else if !IsDir(s, x) then 0
    else
      var next := Find(s[x].entries, es[0], 0);
      if next == 0 then 0 else Walk(s, next, es[1..])
  }

  /** Entries of a linked directory lead to inodes in use, and to linked directories only. */
  lemma FoundLinked(s: seq<Node>, slot: seq<int>, depth: seq<int>, d: int, k: int)
    requires Tree(s, slot, depth) && Linked(s, d) && Used(s, d, k)
    ensures var x := s[d].entries[k].inum;
            1 <= x < |s| && s[x].kind != 0 && (IsDir(s, x) ==> Linked(s, x))
  {
    assert DotsOk(s, d) && ChildOk(s, slot, depth, d) && EntryOk(s, slot, d, k);
  }

  /** From a linked directory, every path leads to an inode in use; if it is a directory, it is linked. */
  lemma {:induction false} WalkLinked(s: seq<Node>, slot: seq<int>, depth: seq<int>, x: int, es: seq<string>)
    requires Tree(s, slot, depth) && 1 <= x < |s| && s[x].kind != 0 && (IsDir(s, x) ==> Linked(s, x))
    ensures var y := Walk(s, x, es);
            y == 0 || (1 <= y < |s| && s[y].kind != 0 && (IsDir(s, y) ==> Linked(s, y)))
    decreases |es|
  {
    if es != [] && IsDir(s, x) {
      var next := Find(s[x].entries, es[0], 0);
      if next != 0 {
        var k := FindAt(s[x].entries, es[0], 0);
        FoundLinked(s, slot, depth, x, k);
        WalkLinked(s, slot, depth, next, es[1..]);
      }
    }
  }

  /** A walk whose beginning fails fails, to the end and to its last directory. */
  lemma {:induction false} WalkFrom(s: seq<Node>, x: int, es: seq<string>, rest: seq<string>)
    requires |s| == 0 || s[0].kind == 0
    ensures Walk(s, x, es + rest) ==
      (var d := Walk(s, x, es); if rest == [] then d else if IsDir(s, d) then Walk(s, d, rest) else 0)
    decreases |es|
  {
    var all := es + rest;
    if es == [] {
      assert all == rest;
    } else {
      if all == es {
        assert rest == [];
      }
      assert all[0] == es[0] && all[1..] == es[1..] + rest;
      if IsDir(s, x) {
        WalkFrom(s, Find(s[x].entries, es[0], 0), es[1..], rest);
      }
    }
  }

  lemma WalkAppend(s: seq<Node>, x: int, es: seq<string>, e: string)
    requires |s| == 0 || s[0].kind == 0
    ensures Walk(s, x, es + [e]) == (var d := Walk(s, x, es); if IsDir(s, d) then Find(s[d].entries, e, 0) else 0)
  {
    WalkFrom(s, x, es, [e]);
    assert [e][1..] == [];
  }
}
