/**
  The directory tree of sysfile.c and fs.c: inodes with link counts, and directories as lists of entries.
  A directory counts as linked while its own link count is positive.
*/
module Links {
  const T_DIR: int := 1
  const T_FILE: int := 2
  const T_DEV: int := 3
  const ROOTINO: int := 1
  const DIRSIZ: int := 14
  /** MAXFILE * BSIZE / sizeof(struct dirent). */
  const MAXENTRIES: int := 4480

  datatype Dirent = Dirent(inum: int, name: string)

  /** Kind 0 is a free inode. */
  datatype Node = Node(kind: int, nlink: int, entries: seq<Dirent>)

  /** What a dirent keeps of a name, and all that strncmp compares (fs.c:516-520). */
  function Trim(name: string): string
  {
    if |name| <= DIRSIZ then name else name[..DIRSIZ]
  }

  predicate Same(s: string, t: string)
  {
    Trim(s) == Trim(t)
  }

  /** Character i of a C string, zero at its end. */
  function Char(s: string, i: int): char
    requires 0 <= i
  {
    if i < |s| then s[i] else '\0'
  }

  /** Names are the same exactly if their first fourteen characters are, up to the end of the string (fs.c:516-520). */
  lemma SameChars(s: string, t: string)
    requires (forall i :: 0 <= i < |s| ==> s[i] != '\0') && (forall i :: 0 <= i < |t| ==> t[i] != '\0')
    ensures Same(s, t) <==> forall i :: 0 <= i < 14 ==> Char(s, i) == Char(t, i)
  {
    var a, b := Trim(s), Trim(t);
    if Same(s, t) {
      forall i | 0 <= i < 14
        ensures Char(s, i) == Char(t, i)
      {
        assert i < |a| ==> a[i] == s[i] && b[i] == t[i];
      }
    } else if forall i :: 0 <= i < 14 ==> Char(s, i) == Char(t, i) {
      assert Char(s, |a|) == Char(t, |a|) || |a| == 14;
      assert Char(s, |b|) == Char(t, |b|) || |b| == 14;
      assert forall i :: 0 <= i < |a| ==> a[i] == Char(s, i) && b[i] == Char(t, i);
      assert false;
    }
  }

  predicate IsDir(s: seq<Node>, d: int)
  {
    0 <= d < |s| && s[d].kind == T_DIR
  }

  predicate Linked(s: seq<Node>, d: int)
  {
    IsDir(s, d) && s[d].nlink > 0
  }

  /** Entry k of directory d is in use. */
  predicate Used(s: seq<Node>, d: int, k: int)
  {
    0 <= d < |s| && 0 <= k < |s[d].entries| && s[d].entries[k].inum != 0
  }

  /** Entry k of the linked directory d names inode x, and is not ".". */
  predicate Names(s: seq<Node>, d: int, k: int, x: int)
  {
    Linked(s, d) && Used(s, d, k) && s[d].entries[k].inum == x && s[d].entries[k].name != "."
  }

  ghost function Refs(s: seq<Node>, x: int): set<(int, int)>
  {
    set d, k | 0 <= d < |s| && 0 <= k < |s[d].entries| && Names(s, d, k, x) :: (d, k)
  }

  lemma InRefs(s: seq<Node>, x: int, d: int, k: int)
    ensures (d, k) in Refs(s, x) <==> Names(s, d, k, x)
  {
  }

  // ---------------------------------------------------------------------------------------------
  // The invariant
  // ---------------------------------------------------------------------------------------------

  /** The link count of x is the number of entries that name it. */
  ghost predicate CountOk(s: seq<Node>, x: int)
    requires 0 <= x < |s|
  {
    s[x].nlink == |Refs(s, x)|
  }

  /** "." and ".." come first. */
  predicate DotsOk(s: seq<Node>, d: int)
  {
    IsDir(s, d) ==>
      && 2 <= |s[d].entries| <= MAXENTRIES
      && s[d].entries[0] == Dirent(d, ".") && s[d].entries[1].name == ".." && s[d].entries[1].inum != 0
  }

  predicate Apart(e: seq<Dirent>, j: int, k: int)
    requires 0 <= j < |e| && 0 <= k < |e|
  {
    j != k && e[j].inum != 0 && e[k].inum != 0 ==> !Same(e[j].name, e[k].name)
  }

  /** Names are unique under the 14-byte comparison. */
  ghost predicate Unique(e: seq<Dirent>)
  {
    forall j, k :: 0 <= j < |e| && 0 <= k < |e| ==> Apart(e, j, k)
  }

  function Parent(s: seq<Node>, x: int): int
    requires 0 <= x < |s|
  {
    if |s[x].entries| < 2 then 0 else s[x].entries[1].inum
  }

  /** A linked directory other than the root is held by one entry of the directory its ".." names, one level up. */
  predicate ChildOk(s: seq<Node>, slot: seq<int>, depth: seq<int>, x: int)
    requires 0 <= x < |s| && |slot| == |depth| == |s|
  {
    Linked(s, x) && x != ROOTINO ==>
      var p := Parent(s, x);
      Linked(s, p) && 2 <= slot[x] && Used(s, p, slot[x]) && s[p].entries[slot[x]].inum == x && 0 <= depth[p] < depth[x]
  }

  /** What an entry beyond the dots names; only that entry names it if it is a directory. */
  predicate EntryOk(s: seq<Node>, slot: seq<int>, d: int, k: int)
  {
    Linked(s, d) && 2 <= k && Used(s, d, k) ==>
      var x := s[d].entries[k].inum;
      && 1 <= x < |s| && x < |slot| && s[x].kind != 0
      && (s[x].kind == T_DIR ==> x != ROOTINO && s[x].nlink > 0 && Parent(s, x) == d && slot[x] == k)
  }

  /** A directory that was unlinked holds nothing but its dots. */
  predicate EmptyOk(s: seq<Node>, d: int, k: int)
  {
    IsDir(s, d) && s[d].nlink == 0 && 2 <= k ==> !Used(s, d, k)
  }

  /** The link counts are right. */
  ghost predicate Counts(s: seq<Node>)
  {
    forall x :: 1 <= x < |s| ==> CountOk(s, x)
  }

  /** The directories form a tree below the root; slot and depth say where in it each directory is. */
  ghost predicate Tree(s: seq<Node>, slot: seq<int>, depth: seq<int>)
  {
    && |slot| == |depth| == |s| && Linked(s, ROOTINO) && Parent(s, ROOTINO) == ROOTINO && s[0].kind == 0
    && 0 <= depth[ROOTINO]
    && (forall d :: 0 <= d < |s| ==> DotsOk(s, d))
    && (forall d :: IsDir(s, d) ==> Unique(s[d].entries))
    && (forall x :: 0 <= x < |s| ==> ChildOk(s, slot, depth, x))
    && (forall d, k :: EntryOk(s, slot, d, k))
    && (forall d, k :: EmptyOk(s, d, k))
  }

  ghost predicate Inv(s: seq<Node>, slot: seq<int>, depth: seq<int>)
  {
    Tree(s, slot, depth) && Counts(s)
  }

  /** What every system call on a linked directory keeps. */
  ghost predicate Good(s: seq<Node>)
  {
    exists slot, depth :: Inv(s, slot, depth)
  }

  // ---------------------------------------------------------------------------------------------
  // The tree
  // ---------------------------------------------------------------------------------------------

  /** The directory reached by following ".." n times. */
  function Up(s: seq<Node>, x: int, n: nat): int
    decreases n
  {
    if n == 0 then x else if 0 <= x < |s| then Up(s, Parent(s, x), n - 1) else 0
  }

  /** From every linked directory, following ".." leads to the root. */
  lemma {:induction false} UpReachesRoot(s: seq<Node>, slot: seq<int>, depth: seq<int>, x: int) returns (n: nat)
    requires Tree(s, slot, depth) && Linked(s, x)
    ensures Up(s, x, n) == ROOTINO
    decreases if x == ROOTINO then 0 else depth[x] + 1
  {
    if x == ROOTINO {
      return 0;
    }
    assert ChildOk(s, slot, depth, x);
    n := UpReachesRoot(s, slot, depth, Parent(s, x));
    n := n + 1;
  }

  /** An empty linked directory is named by its one entry only, so its link count is one. */
  lemma EmptyDirNamedOnce(s: seq<Node>, slot: seq<int>, depth: seq<int>, d: int, k: int, x: int)
    requires Inv(s, slot, depth) && Linked(s, d) && 2 <= k && Used(s, d, k) && s[d].entries[k].inum == x && IsDir(s, x)
    requires forall m :: 2 <= m ==> !Used(s, x, m)
    ensures x != d && Refs(s, x) == {(d, k)} && s[x].nlink == 1 && Parent(s, x) == d
  {
    assert EntryOk(s, slot, d, k) && CountOk(s, x);
    NotDot(s, slot, depth, d, k);
    InRefs(s, x, d, k);
    forall e, m | Names(s, e, m, x)
      ensures (e, m) == (d, k)
    {
      assert DotsOk(s, e) && EntryOk(s, slot, e, m) && ChildOk(s, slot, depth, e);
    }
    forall p | p in Refs(s, x)
      ensures p == (d, k)
    {
      InRefs(s, x, p.0, p.1);
    }
    assert Refs(s, x) == {(d, k)};
    assert x != d by {
      assert ChildOk(s, slot, depth, x);
    }
  }

  /** Entries beyond the first two are named neither "." nor "..". */
  lemma NotDot(s: seq<Node>, slot: seq<int>, depth: seq<int>, d: int, k: int)
    requires Tree(s, slot, depth) && IsDir(s, d) && 2 <= k && Used(s, d, k)
    ensures s[d].entries[k].name != "." && s[d].entries[k].name != ".."
  {
    assert DotsOk(s, d);
    assert Apart(s[d].entries, 0, k) && Apart(s[d].entries, 1, k);
  }

  // ---------------------------------------------------------------------------------------------
  // Adding and removing references
  // ---------------------------------------------------------------------------------------------

  /** Writing a dirent over entry k, or behind the last one. */
  function Put(e: seq<Dirent>, k: int, de: Dirent): seq<Dirent>
    requires 0 <= k <= |e|
  {
    if k < |e| then e[k := de] else e + [de]
  }

  predicate Present(e: seq<Dirent>, name: string)
  {
    exists k :: 0 <= k < |e| && e[k].inum != 0 && Same(e[k].name, name)
  }

  /** The inode number of the first entry from k on that is in use and has the name, 0 if there is none. */
  function Find(e: seq<Dirent>, name: string, k: int): (r: int)
    requires 0 <= k <= |e|
    decreases |e| - k
  {
    if k == |e| then 0 else if e[k].inum != 0 && Same(e[k].name, name) then e[k].inum else Find(e, name, k + 1)
  }

  lemma {:induction false} FindAt(e: seq<Dirent>, name: string, k: int) returns (j: int)
    requires 0 <= k <= |e|
    ensures Find(e, name, k) != 0 ==> k <= j < |e| && e[j].inum == Find(e, name, k) && Same(e[j].name, name)
    ensures Find(e, name, k) == 0 ==> forall i :: k <= i < |e| ==> e[i].inum == 0 || !Same(e[i].name, name)
    decreases |e| - k
  {
    if k == |e| || (e[k].inum != 0 && Same(e[k].name, name)) {
      j := k;
    } else {
      j := FindAt(e, name, k + 1);
    }
  }

  /** k is where dirlink writes (fs.c:564-570). */
  ghost predicate Vacant(e: seq<Dirent>, k: int)
  {
    0 <= k <= |e| && k < MAXENTRIES && (k < |e| ==> e[k].inum == 0) && forall j :: 0 <= j < k ==> e[j].inum != 0
  }

  /** (d, k) names y afterwards, in addition to what named it before. */
  ghost predicate Gains(s: seq<Node>, t: seq<Node>, y: int, d: int, k: int)
  {
    !Names(s, d, k, y) && forall e, m :: Names(t, e, m, y) <==> Names(s, e, m, y) || (e == d && m == k)
  }

  ghost predicate Unmoved(s: seq<Node>, t: seq<Node>, y: int)
  {
    forall e, m :: Names(t, e, m, y) <==> Names(s, e, m, y)
  }

  lemma GainCounts(s: seq<Node>, t: seq<Node>, y: int, d: int, k: int)
    requires Gains(s, t, y, d, k)
    ensures |Refs(t, y)| == |Refs(s, y)| + 1
  {
    forall p: (int, int)
      ensures p in Refs(t, y) <==> p in Refs(s, y) + {(d, k)}
    {
      InRefs(s, y, p.0, p.1);
      InRefs(t, y, p.0, p.1);
    }
    InRefs(s, y, d, k);
    assert Refs(t, y) == Refs(s, y) + {(d, k)};
  }

  lemma UnmovedCounts(s: seq<Node>, t: seq<Node>, y: int)
    requires Unmoved(s, t, y)
    ensures |Refs(t, y)| == |Refs(s, y)|
  {
    forall p: (int, int)
      ensures p in Refs(t, y) <==> p in Refs(s, y)
    {
      InRefs(s, y, p.0, p.1);
      InRefs(t, y, p.0, p.1);
    }
    assert Refs(t, y) == Refs(s, y);
  }
}
