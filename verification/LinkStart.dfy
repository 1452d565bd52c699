/**
  The trees mkfs makes, from which all runs start; and a run that leads to a directory which is unlinked but still in
  use, where link and create break the invariant.
*/
module LinkStart {
  import opened Links
  import opened LinkOps
  import opened LinkRuns
  import opened LinkCode

  /** A root directory whose dots name itself (mkfs.c:117-128). */
  function FreshTree(free: nat): seq<Node>
  {
    [Node(0, 0, []), Node(T_DIR, 1, [Dirent(ROOTINO, "."), Dirent(ROOTINO, "..")])] + seq(free, _ => Node(0, 0, []))
  }

  lemma FreshTreeGood(free: nat)
    ensures Good(FreshTree(free))
  {
    var s := FreshTree(free);
    var zeros := seq(|s|, _ => 0);
    forall d, k, x
      ensures Names(s, d, k, x) <==> (d, k, x) == (ROOTINO, 1, ROOTINO)
    {
    }
    forall x | 1 <= x < |s|
      ensures CountOk(s, x)
    {
      forall p: (int, int)
        ensures p in Refs(s, x) <==> x == ROOTINO && p == (ROOTINO, 1)
      {
        InRefs(s, x, p.0, p.1);
      }
      assert Refs(s, x) == if x == ROOTINO then {(ROOTINO, 1)} else {};
    }
    forall d | IsDir(s, d)
      ensures Unique(s[d].entries)
    {
      assert |Trim(".")| == 1 && |Trim("..")| == 2;
      assert forall j, k :: 0 <= j < 2 && 0 <= k < 2 ==> Apart(s[ROOTINO].entries, j, k);
    }
    assert Inv(s, zeros, zeros);
  }

  // ---------------------------------------------------------------------------------------------
  // The files of mkfs
  // ---------------------------------------------------------------------------------------------

  /** The root directory with a file for each name, in order (mkfs.c:130-156). */
  function WithFiles(names: seq<string>, free: nat): (s: seq<Node>)
    requires |names| <= free
    ensures |s| == 2 + free && |s[ROOTINO].entries| == 2 + |names|
  {
    if names == [] then FreshTree(free)
    else
      var n := |names| - 1;
      CreateState(WithFiles(names[..n], free), ROOTINO, 2 + n, names[n], 2 + n, T_FILE)
  }

  /** The names differ in their first 14 bytes, from each other and from the dots. */
  ghost predicate Different(names: seq<string>)
  {
    && (forall i :: 0 <= i < |names| ==> !Same(names[i], ".") && !Same(names[i], ".."))
    && (forall i, j :: 0 <= i < j < |names| ==> !Same(names[i], names[j]))
  }

  /** Entry k of the root, and the inodes that are left. */
  predicate RootEntry(s: seq<Node>, names: seq<string>, k: int)
    requires |s| > ROOTINO && 0 <= k < |s[ROOTINO].entries|
  {
    s[ROOTINO].entries[k] == if k == 0 then Dirent(ROOTINO, ".") else if k == 1 then Dirent(ROOTINO, "..")
                             else if k - 2 < |names| then Dirent(k, Trim(names[k - 2])) else Dirent(0, "")
  }

  lemma {:induction false} WithFilesAt(names: seq<string>, free: nat)
    requires |names| <= free
    ensures var s := WithFiles(names, free);
            && Linked(s, ROOTINO) && (forall i :: 2 + |names| <= i < |s| ==> s[i] == Node(0, 0, []))
            && forall k :: 0 <= k < |s[ROOTINO].entries| ==> RootEntry(s, names, k)
  {
    if names != [] {
      var front := names[..|names| - 1];
      WithFilesAt(front, free);
      var s := WithFiles(front, free);
      forall k | 0 <= k < 2 + |names|
        ensures RootEntry(WithFiles(names, free), names, k)
      {
        assert k < 2 + |front| ==> RootEntry(s, front, k);
      }
    }
  }

  lemma {:induction false} WithFilesGood(names: seq<string>, free: nat)
    requires |names| <= free && Different(names) && 2 + |names| <= MAXENTRIES
    ensures Good(WithFiles(names, free))
  {
    if names == [] {
      FreshTreeGood(free);
    } else {
      var n := |names| - 1;
      var front, name := names[..n], names[n];
      WithFilesGood(front, free);
      WithFilesAt(front, free);
      var s := WithFiles(front, free);
      var slot, depth :| Inv(s, slot, depth);
      forall k | 0 <= k < |s[ROOTINO].entries|
        ensures !Same(s[ROOTINO].entries[k].name, name) && s[ROOTINO].entries[k].inum != 0
      {
        assert RootEntry(s, front, k);
        assert k >= 2 ==> front[k - 2] == names[k - 2];
      }
      CreateGood(s, slot, depth, ROOTINO, 2 + n, name, 2 + n, T_FILE);
    }
  }

  /** Empty entries behind those of the root: what rounding up its size adds (mkfs.c:158-163). */
  function Padded(s: seq<Node>, m: nat): seq<Node>
    requires |s| > ROOTINO
  {
    s[ROOTINO := s[ROOTINO].(entries := s[ROOTINO].entries + seq(m, _ => Dirent(0, "")))]
  }

  lemma PadNames(s: seq<Node>, m: nat, d: int, k: int, x: int)
    requires |s| > ROOTINO
    ensures (Used(Padded(s, m), d, k) <==> Used(s, d, k)) && (Names(Padded(s, m), d, k, x) <==> Names(s, d, k, x))
  {
  }

  lemma PadGood(s: seq<Node>, m: nat)
    requires Good(s) && |s| > ROOTINO && |s[ROOTINO].entries| + m <= MAXENTRIES
    ensures Good(Padded(s, m))
  {
    var slot, depth :| Inv(s, slot, depth);
    var t := Padded(s, m);
    forall d, k, x
      ensures (Used(t, d, k) <==> Used(s, d, k)) && (Names(t, d, k, x) <==> Names(s, d, k, x))
    {
      PadNames(s, m, d, k, x);
    }
    forall x | 1 <= x < |t|
      ensures CountOk(t, x)
    {
      assert CountOk(s, x);
      forall p: (int, int)
        ensures p in Refs(t, x) <==> p in Refs(s, x)
      {
        InRefs(s, x, p.0, p.1);
        InRefs(t, x, p.0, p.1);
      }
      assert Refs(t, x) == Refs(s, x);
    }
    PadTree(s, slot, depth, m);
    assert Inv(t, slot, depth);
  }

  lemma PadTree(s: seq<Node>, slot: seq<int>, depth: seq<int>, m: nat)
    requires Tree(s, slot, depth) && |s[ROOTINO].entries| + m <= MAXENTRIES
    requires forall d, k :: Used(Padded(s, m), d, k) <==> Used(s, d, k)
    ensures Tree(Padded(s, m), slot, depth)
  {
    var t := Padded(s, m);
    forall d | 0 <= d < |t|
      ensures DotsOk(t, d) && ChildOk(t, slot, depth, d)
    {
      assert DotsOk(s, d) && ChildOk(s, slot, depth, d) && DotsOk(s, ROOTINO);
    }
    forall d | IsDir(t, d)
      ensures Unique(t[d].entries)
    {
      forall j, k | 0 <= j < |t[d].entries| && 0 <= k < |t[d].entries|
        ensures Apart(t[d].entries, j, k)
      {
        if j < |s[d].entries| && k < |s[d].entries| {
          assert Apart(s[d].entries, j, k);
        }
      }
    }
    forall d, k
      ensures EntryOk(t, slot, d, k) && EmptyOk(t, d, k)
    {
      assert EntryOk(s, slot, d, k) && EmptyOk(s, d, k) && DotsOk(s, ROOTINO);
    }
  }

  const PERBLOCK: int := 32

  /** The tree of a new file system: the files of mkfs, and the entries that fill up the last block of the root. */
  function MkfsTree(names: seq<string>, free: nat): seq<Node>
    requires |names| <= free
  {
    var c := 2 + |names|;
    Padded(WithFiles(names, free), (c / PERBLOCK + 1) * PERBLOCK - c)
  }

  lemma MkfsGood(names: seq<string>, free: nat)
    requires |names| <= free && Different(names) && ((2 + |names|) / PERBLOCK + 1) * PERBLOCK <= MAXENTRIES
    ensures Good(MkfsTree(names, free))
  {
    WithFilesGood(names, free);
    PadGood(WithFiles(names, free), ((2 + |names|) / PERBLOCK + 1) * PERBLOCK - (2 + |names|));
  }

  // ---------------------------------------------------------------------------------------------
  // A directory that is unlinked but still in use
  // ---------------------------------------------------------------------------------------------

  /** create gives the directory the first free inode and entry. */
  lemma CreateDoes(s: seq<Node>, dp: int, k: int, name: string, x: int, kind: int)
    requires Good(s) && Linked(s, dp) && Makes(s, dp, k, x) && !Present(s[dp].entries, name)
      && kind in {T_DIR, T_FILE, T_DEV} && dp != 0
    ensures var t := CreateState(s, dp, k, name, x, kind);
            Does(s, Create(dp, name, kind), t) && Good(t)
  {
    var slot, depth :| Inv(s, slot, depth);
    CreateGood(s, slot, depth, dp, k, name, x, kind);
  }

  /** mkdir /d, and a file /f. */
  function Made(free: nat): seq<Node>
    requires free >= 3
  {
    CreateState(CreateState(FreshTree(free), ROOTINO, 2, "d", 2, T_DIR), ROOTINO, 3, "f", 3, T_FILE)
  }

  /** The directory is removed while a process is in it. */
  function Orphaned(free: nat): seq<Node>
    requires free >= 3
  {
    Unlinked(Made(free), ROOTINO, 2, 2, true)
  }

  lemma MadeReached(free: nat)
    requires free >= 3
    ensures var s := CreateState(FreshTree(free), ROOTINO, 2, "d", 2, T_DIR);
            && Does(FreshTree(free), Create(ROOTINO, "d", T_DIR), s)
            && Does(s, Create(ROOTINO, "f", T_FILE), Made(free)) && Good(Made(free))
  {
    var r := FreshTree(free);
    var s := CreateState(r, ROOTINO, 2, "d", 2, T_DIR);
    Letters();
    FreshTreeGood(free);
    assert r[ROOTINO].entries == [Dirent(1, "."), Dirent(1, "..")];
    CreateDoes(r, ROOTINO, 2, "d", 2, T_DIR);
    assert s[ROOTINO].entries == [Dirent(1, "."), Dirent(1, ".."), Dirent(2, "d")];
    CreateDoes(s, ROOTINO, 3, "f", 3, T_FILE);
  }

  /** The names used here differ. */
  lemma Letters()
    ensures Trim(".") == "." && Trim("..") == ".." && Trim("d") == "d" && Trim("f") == "f" && Trim("x") == "x"
    ensures "." != ".." && "d" != "." && "f" != "." && "x" != "." && "f" != "d" && |".."| == 2
      && |"."| == |"d"| == |"f"| == |"x"| == 1
    ensures "d"[0] == 'd' && "f"[0] == 'f' && "x"[0] == 'x' && "."[0] == '.'
  {
  }

  lemma OrphanReached(free: nat)
    requires free >= 3
    ensures Does(Made(free), Unlink(ROOTINO, "d", true), Orphaned(free)) && Good(Orphaned(free))
    ensures var t := Orphaned(free);
            IsDir(t, 2) && !Linked(t, 2) && t[2].entries == [Dirent(2, "."), Dirent(1, "..")]
              && t[3] == Node(T_FILE, 1, [])
  {
    var s, t := Made(free), Orphaned(free);
    Letters();
    MadeReached(free);
    var slot, depth :| Inv(s, slot, depth);
    assert s[ROOTINO].entries == [Dirent(1, "."), Dirent(1, ".."), Dirent(2, "d"), Dirent(3, "f")];
    assert s[2] == Node(T_DIR, 1, [Dirent(2, "."), Dirent(1, "..")]);
    assert Removes(s, ROOTINO, "d", 2, 2);
    RemovesOrRefuses(s, slot, depth, ROOTINO, "d", 2, 2);
    UnlinkCounts(s, slot, depth, ROOTINO, 2, 2);
    UnlinkTree(s, slot, depth, ROOTINO, 2, 2);
    assert Inv(t, slot, depth);
  }

  /** The calls that lead from the tree of mkfs to the directory that is unlinked but in use. */
  function OrphanCalls(): seq<Call>
  {
    [Create(ROOTINO, "d", T_DIR), Create(ROOTINO, "f", T_FILE), Unlink(ROOTINO, "d", true)]
  }

  function OrphanStates(free: nat): seq<seq<Node>>
    requires free >= 3
  {
    var r := FreshTree(free);
    [r, CreateState(r, ROOTINO, 2, "d", 2, T_DIR), Made(free), Orphaned(free)]
  }

  /**
    From the tree of mkfs: mkdir /d, create /f, and unlink /d while a process is in it.  Then that process creates a
    file there, or links /f, and the invariant is gone.
  */
  lemma OrphanBreaks(free: nat)
    requires free >= 3
    ensures var states, calls := OrphanStates(free), OrphanCalls();
            forall i :: 0 <= i < 3 ==> Does(states[i], calls[i], states[i + 1])
    ensures Good(FreshTree(free)) && Good(Orphaned(free))
    ensures var t := CreateState(Orphaned(free), 2, 2, "x", 4, T_FILE);
            Does(Orphaned(free), Create(2, "x", T_FILE), t) && !Good(t)
    ensures var t := LinkState(Orphaned(free), 2, 2, "x", 3);
            Does(Orphaned(free), Link(3, 2, "x"), t) && !Good(t)
  {
    FreshTreeGood(free);
    MadeReached(free);
    OrphanReached(free);
    OrphanCreates(free);
    OrphanLinks(free);
  }

  lemma OrphanCreates(free: nat)
    requires free >= 3
    ensures var t := CreateState(Orphaned(free), 2, 2, "x", 4, T_FILE);
            Does(Orphaned(free), Create(2, "x", T_FILE), t) && !Good(t)
  {
    OrphanReached(free);
    Letters();
    var t := Orphaned(free);
    var slot, depth :| Inv(t, slot, depth);
    assert t[4] == Node(0, 0, []) && Makes(t, 2, 2, 4);
    CreateGood(t, slot, depth, 2, 2, "x", 4, T_FILE);
  }

  lemma OrphanLinks(free: nat)
    requires free >= 3
    ensures var t := LinkState(Orphaned(free), 2, 2, "x", 3);
            Does(Orphaned(free), Link(3, 2, "x"), t) && !Good(t)
  {
    OrphanReached(free);
    Letters();
    var t := Orphaned(free);
    var slot, depth :| Inv(t, slot, depth);
    assert Vacant(t[2].entries, 2);
    LinkGood(t, slot, depth, 2, 2, "x", 3);
  }
}
