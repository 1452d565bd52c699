/** The effects of link, create, unlink and the last iput on the tree, and that they keep its invariant. */
module LinkOps {
  import opened Links

  // ---------------------------------------------------------------------------------------------
  // link
  // ---------------------------------------------------------------------------------------------

  /** sys_link's effect: one more link, one more entry (sysfile.c:140-147). */
  function LinkState(s: seq<Node>, dp: int, k: int, name: string, x: int): seq<Node>
    requires 0 <= dp < |s| && 0 <= x < |s| && 0 <= k <= |s[dp].entries|
  {
    var s1 := s[x := s[x].(nlink := s[x].nlink + 1)];
    s1[dp := s1[dp].(entries := Put(s1[dp].entries, k, Dirent(x, Trim(name))))]
  }

  ghost predicate CanLink(s: seq<Node>, slot: seq<int>, depth: seq<int>, dp: int, k: int, name: string, x: int)
  {
    && Inv(s, slot, depth) && IsDir(s, dp) && 1 <= x < |s| && s[x].kind != 0 && s[x].kind != T_DIR
    && Vacant(s[dp].entries, k) && !Present(s[dp].entries, name)
  }

  /** A new name is not a dot, and its place lies behind the dots. */
  lemma NewName(s: seq<Node>, slot: seq<int>, depth: seq<int>, dp: int, k: int, name: string)
    requires Tree(s, slot, depth) && IsDir(s, dp) && Vacant(s[dp].entries, k) && !Present(s[dp].entries, name)
    ensures 2 <= k && Trim(name) != "." && Trim(name) != ".."
  {
    assert DotsOk(s, dp);
    var e := s[dp].entries;
    assert e[0].inum != 0 && e[1].inum != 0;
    assert !Same(e[0].name, name) && !Same(e[1].name, name);
  }

  lemma PutUnique(e: seq<Dirent>, k: int, x: int, name: string)
    requires Unique(e) && Vacant(e, k) && !Present(e, name)
    ensures Unique(Put(e, k, Dirent(x, Trim(name))))
  {
    var f := Put(e, k, Dirent(x, Trim(name)));
    forall i, j | 0 <= i < |f| && 0 <= j < |f|
      ensures Apart(f, i, j)
    {
      if i != k && j != k {
        assert Apart(e, i, j);
      }
    }
  }

  lemma LinkRefs(s: seq<Node>, slot: seq<int>, depth: seq<int>, dp: int, k: int, name: string, x: int, y: int)
    requires CanLink(s, slot, depth, dp, k, name, x) && 1 <= y < |s|
    ensures var t := LinkState(s, dp, k, name, x);
            if y == x && Linked(s, dp) then Gains(s, t, y, dp, k) else Unmoved(s, t, y)
  {
    NewName(s, slot, depth, dp, k, name);
  }

  /** link keeps the counts right exactly if the directory it links into is linked itself. */
  lemma LinkCounts(s: seq<Node>, slot: seq<int>, depth: seq<int>, dp: int, k: int, name: string, x: int)
    requires CanLink(s, slot, depth, dp, k, name, x)
    ensures Counts(LinkState(s, dp, k, name, x)) <==> Linked(s, dp)
  {
    var t := LinkState(s, dp, k, name, x);
    forall y | 1 <= y < |s|
      ensures CountOk(t, y) <==> y != x || Linked(s, dp)
    {
      LinkRefs(s, slot, depth, dp, k, name, x, y);
      assert CountOk(s, y);
      if y == x && Linked(s, dp) {
        GainCounts(s, t, y, dp, k);
      } else {
        UnmovedCounts(s, t, y);
      }
    }
    assert !Linked(s, dp) ==> !CountOk(t, x);
  }

  lemma LinkTree(s: seq<Node>, slot: seq<int>, depth: seq<int>, dp: int, k: int, name: string, x: int)
    requires CanLink(s, slot, depth, dp, k, name, x) && Linked(s, dp)
    ensures Tree(LinkState(s, dp, k, name, x), slot, depth)
  {
    var t := LinkState(s, dp, k, name, x);
    NewName(s, slot, depth, dp, k, name);
    PutUnique(s[dp].entries, k, x, name);
    forall d | 0 <= d < |t|
      ensures DotsOk(t, d) && ChildOk(t, slot, depth, d)
    {
      assert DotsOk(s, d) && ChildOk(s, slot, depth, d);
      assert DotsOk(s, dp);
    }
    forall d | IsDir(t, d)
      ensures Unique(t[d].entries)
    {
      assert IsDir(s, d);
    }
    forall d, m
      ensures EntryOk(t, slot, d, m) && EmptyOk(t, d, m)
    {
      assert EntryOk(s, slot, d, m) && EmptyOk(s, d, m);
      assert DotsOk(s, dp);
    }
  }

  // ---------------------------------------------------------------------------------------------
  // create
  // ---------------------------------------------------------------------------------------------

  function NewNode(kind: int, x: int, dp: int): Node
  {
    Node(kind, 1, if kind == T_DIR then [Dirent(x, "."), Dirent(dp, "..")] else [])
  }

  /** create's effect: a new inode, its dots if it is a directory, and its entry (sysfile.c:260-278). */
  function CreateState(s: seq<Node>, dp: int, k: int, name: string, x: int, kind: int): seq<Node>
    requires 0 <= dp < |s| && 0 <= x < |s| && 0 <= k <= |s[dp].entries|
  {
    var up := if kind == T_DIR then 1 else 0;
    var d := Node(s[dp].kind, s[dp].nlink + up, Put(s[dp].entries, k, Dirent(x, Trim(name))));
    s[x := NewNode(kind, x, dp)][dp := d]
  }

  ghost predicate CanCreate(s: seq<Node>, slot: seq<int>, depth: seq<int>, dp: int, k: int, name: string, x: int,
                            kind: int)
  {
    && Inv(s, slot, depth) && IsDir(s, dp) && 1 <= x < |s| && s[x].kind == 0 && kind in {T_DIR, T_FILE, T_DEV}
    && Vacant(s[dp].entries, k) && !Present(s[dp].entries, name)
  }

  /** Nothing names a free inode. */
  lemma FreeUnnamed(s: seq<Node>, slot: seq<int>, depth: seq<int>, x: int, d: int, k: int)
    requires Tree(s, slot, depth) && 0 <= x < |s| && s[x].kind == 0
    ensures !Names(s, d, k, x)
  {
    if Linked(s, d) {
      assert DotsOk(s, d) && EntryOk(s, slot, d, k) && ChildOk(s, slot, depth, d);
    }
  }

  lemma CreateRefs(s: seq<Node>, slot: seq<int>, depth: seq<int>, dp: int, k: int, name: string, x: int, kind: int,
                   y: int)
    requires CanCreate(s, slot, depth, dp, k, name, x, kind) && Linked(s, dp) && 1 <= y < |s|
    ensures var t := CreateState(s, dp, k, name, x, kind);
            if y == x then Gains(s, t, y, dp, k)
            else if y == dp && kind == T_DIR then Gains(s, t, y, x, 1)
            else Unmoved(s, t, y)
  {
    NewName(s, slot, depth, dp, k, name);
    FreeUnnamed(s, slot, depth, x, dp, k);
  }

  /** A linked directory has no entry for a directory whose own link count is zero. */
  lemma UnlinkedUnnamed(s: seq<Node>, slot: seq<int>, depth: seq<int>, d: int, p: int, k: int)
    requires Inv(s, slot, depth) && IsDir(s, d) && !Linked(s, d) && 2 <= k && Used(s, p, k) && IsDir(s, p)
    ensures s[p].entries[k].inum != d
  {
    assert EntryOk(s, slot, p, k) && EmptyOk(s, p, k);
    assert CountOk(s, p);
  }

  /** Creating anything in an unlinked directory breaks the invariant, whatever tree one tries to see. */
  lemma CreateUnlinked(s: seq<Node>, slot: seq<int>, depth: seq<int>, dp: int, k: int, name: string, x: int, kind: int,
                       slot': seq<int>, depth': seq<int>)
    requires CanCreate(s, slot, depth, dp, k, name, x, kind) && !Linked(s, dp)
    ensures !Inv(CreateState(s, dp, k, name, x, kind), slot', depth')
  {
    var t := CreateState(s, dp, k, name, x, kind);
    NewName(s, slot, depth, dp, k, name);
    assert CountOk(s, dp);
    if kind == T_DIR {
      if Inv(t, slot', depth') {
        assert ChildOk(t, slot', depth', dp);
        UnlinkedParent(s, slot, depth, dp, k, name, x, slot'[dp], Parent(t, dp));
      }
    } else {
      assert !EmptyOk(t, dp, k);
    }
  }

  lemma UnlinkedParent(s: seq<Node>, slot: seq<int>, depth: seq<int>, dp: int, k: int, name: string, x: int, m: int,
                       p: int)
    requires CanCreate(s, slot, depth, dp, k, name, x, T_DIR) && !Linked(s, dp) && 2 <= m
    ensures var t := CreateState(s, dp, k, name, x, T_DIR);
            !(IsDir(t, p) && Used(t, p, m) && t[p].entries[m].inum == dp)
  {
    if IsDir(s, p) && Used(s, p, m) {
      UnlinkedUnnamed(s, slot, depth, dp, p, m);
    }
  }

  lemma CreateCounts(s: seq<Node>, slot: seq<int>, depth: seq<int>, dp: int, k: int, name: string, x: int, kind: int)
    requires CanCreate(s, slot, depth, dp, k, name, x, kind) && Linked(s, dp)
    ensures Counts(CreateState(s, dp, k, name, x, kind))
  {
    var t := CreateState(s, dp, k, name, x, kind);
    forall y | 1 <= y < |s|
      ensures CountOk(t, y)
    {
      CreateRefs(s, slot, depth, dp, k, name, x, kind, y);
      assert CountOk(s, y);
      if y == x {
        FreeCount(s, slot, depth, x);
        GainCounts(s, t, y, dp, k);
      } else if y == dp && kind == T_DIR {
        GainCounts(s, t, y, x, 1);
      } else {
        UnmovedCounts(s, t, y);
      }
    }
  }

  lemma FreeCount(s: seq<Node>, slot: seq<int>, depth: seq<int>, x: int)
    requires Tree(s, slot, depth) && 0 <= x < |s| && s[x].kind == 0
    ensures |Refs(s, x)| == 0
  {
    forall p | p in Refs(s, x)
      ensures false
    {
      FreeUnnamed(s, slot, depth, x, p.0, p.1);
    }
    assert Refs(s, x) == {};
  }

  lemma CreateChild(s: seq<Node>, slot: seq<int>, depth: seq<int>, dp: int, k: int, name: string, x: int, kind: int,
                    d: int)
    requires CanCreate(s, slot, depth, dp, k, name, x, kind) && Linked(s, dp) && 0 <= d < |s|
    ensures ChildOk(CreateState(s, dp, k, name, x, kind), slot[x := k], depth[x := depth[dp] + 1], d)
  {
    NewName(s, slot, depth, dp, k, name);
    assert ChildOk(s, slot, depth, d) && ChildOk(s, slot, depth, dp);
    assert DotsOk(s, dp) && DotsOk(s, d);
  }

  lemma CreateEntry(s: seq<Node>, slot: seq<int>, depth: seq<int>, dp: int, k: int, name: string, x: int, kind: int,
                    d: int, m: int)
    requires CanCreate(s, slot, depth, dp, k, name, x, kind) && Linked(s, dp)
    ensures EntryOk(CreateState(s, dp, k, name, x, kind), slot[x := k], d, m)
    ensures EmptyOk(CreateState(s, dp, k, name, x, kind), d, m)
  {
    NewName(s, slot, depth, dp, k, name);
    assert EntryOk(s, slot, d, m) && EmptyOk(s, d, m) && DotsOk(s, dp);
  }

  lemma CreateUnique(s: seq<Node>, slot: seq<int>, depth: seq<int>, dp: int, k: int, name: string, x: int, kind: int,
                     d: int)
    requires CanCreate(s, slot, depth, dp, k, name, x, kind) && Linked(s, dp) && 0 <= d < |s|
    ensures var t := CreateState(s, dp, k, name, x, kind);
            DotsOk(t, d) && (IsDir(t, d) ==> Unique(t[d].entries))
  {
    NewName(s, slot, depth, dp, k, name);
    PutUnique(s[dp].entries, k, x, name);
    assert DotsOk(s, d);
    var t := CreateState(s, dp, k, name, x, kind);
    if d == x {
      forall i, j | 0 <= i < |t[x].entries| && 0 <= j < |t[x].entries|
        ensures Apart(t[x].entries, i, j)
      {
      }
    } else {
      assert IsDir(s, d) == IsDir(t, d);
    }
  }

  lemma CreateTree(s: seq<Node>, slot: seq<int>, depth: seq<int>, dp: int, k: int, name: string, x: int, kind: int)
    requires CanCreate(s, slot, depth, dp, k, name, x, kind) && Linked(s, dp)
    ensures Tree(CreateState(s, dp, k, name, x, kind), slot[x := k], depth[x := depth[dp] + 1])
  {
    var t, slot', depth' := CreateState(s, dp, k, name, x, kind), slot[x := k], depth[x := depth[dp] + 1];
    NewName(s, slot, depth, dp, k, name);
    assert DotsOk(s, dp);
    forall d | 0 <= d < |t|
      ensures DotsOk(t, d) && (IsDir(t, d) ==> Unique(t[d].entries)) && ChildOk(t, slot', depth', d)
    {
      CreateUnique(s, slot, depth, dp, k, name, x, kind, d);
      CreateChild(s, slot, depth, dp, k, name, x, kind, d);
    }
    forall d, m
      ensures EntryOk(t, slot', d, m) && EmptyOk(t, d, m)
    {
      CreateEntry(s, slot, depth, dp, k, name, x, kind, d, m);
    }
  }

  // ---------------------------------------------------------------------------------------------
  // unlink
  // ---------------------------------------------------------------------------------------------

  /** sys_unlink's effect: the entry is zeroed, and with a directory its ".." goes too (sysfile.c:218-228). */
  function UnlinkState(s: seq<Node>, dp: int, k: int, x: int): seq<Node>
    requires 0 <= dp < |s| && 0 <= x < |s| && 0 <= k < |s[dp].entries|
  {
    var up := if s[x].kind == T_DIR then 1 else 0;
    var s1 := s[dp := Node(s[dp].kind, s[dp].nlink - up, s[dp].entries[k := Dirent(0, "")])];
    s1[x := s1[x].(nlink := s1[x].nlink - 1)]
  }

  ghost predicate CanUnlink(s: seq<Node>, slot: seq<int>, depth: seq<int>, dp: int, k: int, x: int)
  {
    && Inv(s, slot, depth) && IsDir(s, dp) && 2 <= k && Used(s, dp, k) && s[dp].entries[k].inum == x
    && (IsDir(s, x) ==> forall m :: 2 <= m ==> !Used(s, x, m))
  }

  /** The panic "unlink: nlink < 1" cannot happen, and unlink never locks its directory twice. */
  lemma UnlinkSafe(s: seq<Node>, slot: seq<int>, depth: seq<int>, dp: int, k: int)
    requires Inv(s, slot, depth) && IsDir(s, dp) && 2 <= k && Used(s, dp, k)
    ensures var x := s[dp].entries[k].inum;
            Linked(s, dp) && 1 <= x < |s| && s[x].nlink >= 1 && s[x].kind != 0 && x != dp && x != ROOTINO
  {
    var x := s[dp].entries[k].inum;
    assert CountOk(s, dp) && EmptyOk(s, dp, k);
    assert EntryOk(s, slot, dp, k) && CountOk(s, x) && ChildOk(s, slot, depth, dp);
    NotDot(s, slot, depth, dp, k);
    InRefs(s, x, dp, k);
    assert Refs(s, x) != {};
  }

  lemma UnlinkRefs(s: seq<Node>, slot: seq<int>, depth: seq<int>, dp: int, k: int, x: int, y: int)
    requires CanUnlink(s, slot, depth, dp, k, x) && 1 <= y < |s|
    ensures 0 <= x < |s|
    ensures var t := UnlinkState(s, dp, k, x);
            if y == x then Gains(t, s, y, dp, k)
            else if y == dp && s[x].kind == T_DIR then Gains(t, s, y, x, 1)
            else Unmoved(s, t, y)
  {
    UnlinkSafe(s, slot, depth, dp, k);
    NotDot(s, slot, depth, dp, k);
    assert DotsOk(s, dp) && DotsOk(s, x) && DotsOk(s, y);
    DirStaysLinked(s, slot, depth, dp, k);
    if IsDir(s, x) {
      EmptyDirNamedOnce(s, slot, depth, dp, k, x);
      assert forall m :: Names(s, x, m, y) ==> m == 1;
    }
  }

  /** A directory that loses its last subdirectory still has the link of its own entry. */
  lemma DirStaysLinked(s: seq<Node>, slot: seq<int>, depth: seq<int>, dp: int, k: int)
    requires Inv(s, slot, depth) && IsDir(s, dp) && 2 <= k && Used(s, dp, k)
    ensures IsDir(s, s[dp].entries[k].inum) ==> s[dp].nlink >= 2
  {
    var x := s[dp].entries[k].inum;
    UnlinkSafe(s, slot, depth, dp, k);
    assert EntryOk(s, slot, dp, k) && CountOk(s, dp) && DotsOk(s, dp) && DotsOk(s, x);
    if IsDir(s, x) {
      assert ChildOk(s, slot, depth, dp);
      var own := if dp == ROOTINO then (dp, 1) else (Parent(s, dp), slot[dp]);
      if dp != ROOTINO {
        NotDot(s, slot, depth, own.0, own.1);
      }
      InRefs(s, dp, x, 1);
      InRefs(s, dp, own.0, own.1);
      var two := {(x, 1), own};
      assert two <= Refs(s, dp) && |two| == 2;
      Subset(two, Refs(s, dp));
    }
  }

  lemma Subset(a: set<(int, int)>, b: set<(int, int)>)
    requires a <= b
    ensures |a| <= |b|
  {
    assert b == a + (b - a);
  }

  lemma UnlinkCounts(s: seq<Node>, slot: seq<int>, depth: seq<int>, dp: int, k: int, x: int)
    requires CanUnlink(s, slot, depth, dp, k, x)
    ensures 0 <= x < |s| && Counts(UnlinkState(s, dp, k, x))
  {
    UnlinkSafe(s, slot, depth, dp, k);
    var t := UnlinkState(s, dp, k, x);
    forall y | 1 <= y < |s|
      ensures CountOk(t, y)
    {
      UnlinkRefs(s, slot, depth, dp, k, x, y);
      assert CountOk(s, y);
      if y == x {
        GainCounts(t, s, y, dp, k);
      } else if y == dp && s[x].kind == T_DIR {
        GainCounts(t, s, y, x, 1);
      } else {
        UnmovedCounts(s, t, y);
      }
    }
  }

  lemma UnlinkChild(s: seq<Node>, slot: seq<int>, depth: seq<int>, dp: int, k: int, x: int, d: int)
    requires CanUnlink(s, slot, depth, dp, k, x) && 0 <= d < |s|
    ensures 0 <= x < |s| && ChildOk(UnlinkState(s, dp, k, x), slot, depth, d)
  {
    UnlinkSafe(s, slot, depth, dp, k);
    DirStaysLinked(s, slot, depth, dp, k);
    assert ChildOk(s, slot, depth, d) && EntryOk(s, slot, dp, k);
    if IsDir(s, x) {
      EmptyDirNamedOnce(s, slot, depth, dp, k, x);
    }
  }

  lemma UnlinkEntry(s: seq<Node>, slot: seq<int>, depth: seq<int>, dp: int, k: int, x: int, d: int, m: int)
    requires CanUnlink(s, slot, depth, dp, k, x)
    ensures 0 <= x < |s| && EntryOk(UnlinkState(s, dp, k, x), slot, d, m)
    ensures EmptyOk(UnlinkState(s, dp, k, x), d, m)
  {
    UnlinkSafe(s, slot, depth, dp, k);
    DirStaysLinked(s, slot, depth, dp, k);
    assert EntryOk(s, slot, d, m) && EmptyOk(s, d, m) && EntryOk(s, slot, dp, k) && DotsOk(s, dp);
    if IsDir(s, x) {
      EmptyDirNamedOnce(s, slot, depth, dp, k, x);
      assert 2 <= m ==> !Used(s, x, m);
    }
  }

  lemma UnlinkUnique(s: seq<Node>, slot: seq<int>, depth: seq<int>, dp: int, k: int, x: int, d: int)
    requires CanUnlink(s, slot, depth, dp, k, x) && 0 <= d < |s|
    ensures 0 <= x < |s|
    ensures var t := UnlinkState(s, dp, k, x);
            DotsOk(t, d) && (IsDir(t, d) ==> Unique(t[d].entries))
  {
    UnlinkSafe(s, slot, depth, dp, k);
    assert DotsOk(s, d);
    var t := UnlinkState(s, dp, k, x);
    if IsDir(t, d) {
      assert IsDir(s, d);
      forall i, j | 0 <= i < |t[d].entries| && 0 <= j < |t[d].entries|
        ensures Apart(t[d].entries, i, j)
      {
        assert Apart(s[d].entries, i, j);
      }
    }
  }

  lemma UnlinkTree(s: seq<Node>, slot: seq<int>, depth: seq<int>, dp: int, k: int, x: int)
    requires CanUnlink(s, slot, depth, dp, k, x)
    ensures 0 <= x < |s| && Tree(UnlinkState(s, dp, k, x), slot, depth)
  {
    UnlinkSafe(s, slot, depth, dp, k);
    DirStaysLinked(s, slot, depth, dp, k);
    var t := UnlinkState(s, dp, k, x);
    forall d | 0 <= d < |t|
      ensures DotsOk(t, d) && (IsDir(t, d) ==> Unique(t[d].entries)) && ChildOk(t, slot, depth, d)
    {
      UnlinkUnique(s, slot, depth, dp, k, x, d);
      UnlinkChild(s, slot, depth, dp, k, x, d);
    }
    forall d, m
      ensures EntryOk(t, slot, d, m) && EmptyOk(t, d, m)
    {
      UnlinkEntry(s, slot, depth, dp, k, x, d, m);
    }
  }

  // ---------------------------------------------------------------------------------------------
  // iput of the last reference to an inode without links
  // ---------------------------------------------------------------------------------------------

  /** The inode is truncated and freed (fs.c:341-344). */
  function FreeState(s: seq<Node>, x: int): seq<Node>
    requires 0 <= x < |s|
  {
    s[x := Node(0, s[x].nlink, [])]
  }

  /** Nothing beyond the dots names an inode without links. */
  lemma ZeroUnnamed(s: seq<Node>, slot: seq<int>, depth: seq<int>, x: int, d: int, k: int)
    requires Inv(s, slot, depth) && 1 <= x < |s| && s[x].nlink == 0 && Linked(s, d) && 2 <= k && Used(s, d, k)
    ensures s[d].entries[k].inum != x
  {
    NotDot(s, slot, depth, d, k);
    InRefs(s, x, d, k);
    assert CountOk(s, x);
  }

  lemma FreeKeeps(s: seq<Node>, slot: seq<int>, depth: seq<int>, x: int)
    requires Inv(s, slot, depth) && 1 <= x < |s| && s[x].nlink == 0
    ensures Inv(FreeState(s, x), slot, depth)
  {
    var t := FreeState(s, x);
    forall y | 1 <= y < |s|
      ensures CountOk(t, y)
    {
      assert CountOk(s, y);
      UnmovedCounts(s, t, y);
    }
    forall d | 0 <= d < |t|
      ensures DotsOk(t, d) && (IsDir(t, d) ==> Unique(t[d].entries)) && ChildOk(t, slot, depth, d)
    {
      assert DotsOk(s, d) && (IsDir(t, d) ==> IsDir(s, d)) && ChildOk(s, slot, depth, d);
    }
    forall d, m
      ensures EntryOk(t, slot, d, m) && EmptyOk(t, d, m)
    {
      assert EntryOk(s, slot, d, m) && EmptyOk(s, d, m);
      if Linked(s, d) && 2 <= m && Used(s, d, m) {
        ZeroUnnamed(s, slot, depth, x, d, m);
      }
    }
  }
}
