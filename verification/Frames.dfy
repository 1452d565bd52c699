/**
  Physical frames and two-level page tables (vm.c, kalloc.c).  A frame is free, or it belongs to one
  place: it is a page directory, the page table in one of its 1024 entries, the user page in one entry of
  such a table, or it is held by the kernel code that has just allocated it.
*/
module Frames {
  const ENTRIES: int := 1024
  /** Directory entries below this one map user memory: KERNBASE >> PDXSHIFT. */
  const USER: int := 512

  /** flags: the low bits of the entry, PTE_P among them. */
  datatype Pte = Pte(p: bool, f: int, flags: int)

  /** mmu.h:94-96. */
  const PTE_P: int := 1
  const PTE_W: int := 2
  const PTE_U: int := 4

  /** The bits PTE_P, PTE_W and PTE_U of an entry. */
  predicate Marked(flags: int)
  {
    flags % 2 == 1
  }

  predicate Writable(flags: int)
  {
    flags % 4 >= 2
  }

  predicate UserMay(flags: int)
  {
    flags % 8 >= 4
  }

  /** perm | PTE_P. */
  function OrP(perm: int): (flags: int)
    ensures Marked(flags) && perm <= flags <= perm + 1 && (Marked(perm) ==> flags == perm)
  {
    if perm % 2 == 1 then perm else perm + PTE_P
  }

  /** pte & ~PTE_U. */
  function ClearU(pte: Pte): (e: Pte)
    ensures e == pte.(flags := e.flags) && !UserMay(e.flags)
    ensures (Marked(e.flags) <==> Marked(pte.flags)) && (Writable(e.flags) <==> Writable(pte.flags))
  {
    if UserMay(pte.flags) then pte.(flags := pte.flags - PTE_U) else pte
  }

  const NONE: Pte := Pte(false, 0, 0)

  /** What a frame holds; a freed frame is filled with junk. */
  datatype Content = Junk | Table(e: seq<Pte>) | Data(x: seq<int>)

  datatype Owner =
    | Held
    | Gone(d: int, i: int)  // was Dir or Tab of a page directory that is being freed
    | Dir(d: int)
    | Tab(d: int, i: int)
    | User(d: int, i: int, j: int)

  type Mem = seq<Content>
  type Owners = map<int, Owner>

  function Entry(m: Mem, f: int, k: int): Pte
  {
    if 0 <= f < |m| && m[f].Table? && 0 <= k < |m[f].e| then m[f].e[k] else NONE
  }

  /** The page table in entry i of directory d, or 0. */
  function TabOf(m: Mem, d: int, i: int): int
  {
    if Entry(m, d, i).p then Entry(m, d, i).f else 0
  }

  /** The entry that maps page 1024 i + j in directory d. */
  function Leaf(m: Mem, d: int, i: int, j: int): Pte
  {
    if TabOf(m, d, i) != 0 then Entry(m, TabOf(m, d, i), j) else NONE
  }

  predicate IsTable(m: Mem, f: int)
  {
    0 < f < |m| && m[f].Table? && |m[f].e| == ENTRIES
  }

  predicate IsDir(owner: Owners, d: int)
  {
    d in owner && owner[d] == Dir(d)
  }

  predicate DirOk(m: Mem, owner: Owners, d: int)
  {
    IsDir(owner, d) ==> IsTable(m, d)
  }

  /** Present, writable and open to the user: directory entries leave the choice to the page tables (vm.c:49-52). */
  predicate Whole(flags: int)
  {
    Marked(flags) && Writable(flags) && UserMay(flags)
  }

  predicate TabOk(m: Mem, owner: Owners, d: int, i: int)
  {
    IsDir(owner, d) && 0 <= i < ENTRIES && Entry(m, d, i).p ==>
      var t := Entry(m, d, i).f;
      IsTable(m, t) && t in owner && owner[t] == Tab(d, i) && Whole(Entry(m, d, i).flags)
  }

  predicate LeafOk(m: Mem, owner: Owners, d: int, i: int, j: int)
  {
    IsDir(owner, d) && 0 <= i < USER && 0 <= j < ENTRIES && Leaf(m, d, i, j).p ==>
      var f := Leaf(m, d, i, j).f;
      0 < f < |m| && m[f].Data? && f in owner && owner[f] == User(d, i, j) && Marked(Leaf(m, d, i, j).flags)
  }

  /** An owned frame is where its owner says. */
  predicate PlaceOk(m: Mem, owner: Owners, f: int)
    requires f in owner
  {
    match owner[f]
    case Held => true
    case Gone(_, _) => true
    case Dir(d) => d == f
    case Tab(d, i) => IsDir(owner, d) && 0 <= i < ENTRIES && Entry(m, d, i).p && Entry(m, d, i).f == f
    case User(d, i, j) =>
      && IsDir(owner, d) && 0 <= i < USER && 0 <= j < ENTRIES
      && Leaf(m, d, i, j).p && Leaf(m, d, i, j).f == f
  }

  ghost predicate Own(m: Mem, owner: Owners)
  {
    && (forall d :: DirOk(m, owner, d))
    && (forall d, i :: TabOk(m, owner, d, i))
    && (forall d, i, j :: LeafOk(m, owner, d, i, j))
    && (forall f :: f in owner ==> PlaceOk(m, owner, f))
  }

  predicate InList(free: seq<int>, f: int)
  {
    f in free
  }

  /** Frames lo .. |m|-1 are on the free list, once, or owned. */
  ghost predicate FreeOk(m: Mem, free: seq<int>, owner: Owners, lo: int)
  {
    && 0 < lo <= |m|
    && (forall j, k :: 0 <= j < k < |free| ==> free[j] != free[k])
    && (forall f :: f in owner ==> lo <= f < |m|)
    && (forall f :: lo <= f < |m| ==> (InList(free, f) <==> f !in owner))
    && (forall f :: InList(free, f) ==> lo <= f < |m|)
  }

  // ---------------------------------------------------------------------------------------------
  // Handing a held frame to a page table, and back
  // ---------------------------------------------------------------------------------------------

  function SetPte(m: Mem, t: int, k: int, e: Pte): Mem
    requires 0 <= t < |m| && m[t].Table? && 0 <= k < |m[t].e|
  {
    m[t := Table(m[t].e[k := e])]
  }

  function ZeroTable(): Content
  {
    Table(seq(ENTRIES, _ => NONE))
  }

  /** Writing to a frame that is held, or gone, changes nothing that is mapped. */
  lemma HeldWrite(m: Mem, owner: Owners, f: int, c: Content)
    requires Own(m, owner) && 0 <= f < |m| && (f !in owner || owner[f].Held? || owner[f].Gone?)
    ensures Own(m[f := c], owner)
    ensures forall d, i :: IsDir(owner, d) && 0 <= i < ENTRIES ==> Entry(m[f := c], d, i) == Entry(m, d, i)
    ensures forall d, i, j :: IsDir(owner, d) && 0 <= i < ENTRIES ==> Leaf(m[f := c], d, i, j) == Leaf(m, d, i, j)
  {
    var n := m[f := c];
    forall d, i | IsDir(owner, d) && 0 <= i < ENTRIES
      ensures Entry(n, d, i) == Entry(m, d, i)
    {
    }
    forall d, i, j | IsDir(owner, d) && 0 <= i < ENTRIES
      ensures Leaf(n, d, i, j) == Leaf(m, d, i, j)
    {
      assert TabOk(m, owner, d, i);
    }
    forall d
      ensures DirOk(n, owner, d)
    {
      assert DirOk(m, owner, d);
    }
    forall d, i
      ensures TabOk(n, owner, d, i)
    {
      assert TabOk(m, owner, d, i);
    }
    forall d, i, j
      ensures LeafOk(n, owner, d, i, j)
    {
      assert LeafOk(m, owner, d, i, j);
    }
    forall g | g in owner
      ensures PlaceOk(n, owner, g)
    {
      assert PlaceOk(m, owner, g);
    }
  }

  lemma AddHeld(m: Mem, owner: Owners, f: int)
    requires Own(m, owner) && f !in owner
    ensures Own(m, owner[f := Held])
  {
    var own := owner[f := Held];
    forall d
      ensures DirOk(m, own, d)
    {
      assert DirOk(m, owner, d);
    }
    forall d, i
      ensures TabOk(m, own, d, i)
    {
      assert TabOk(m, owner, d, i);
    }
    forall d, i, j
      ensures LeafOk(m, own, d, i, j)
    {
      assert LeafOk(m, owner, d, i, j);
    }
    forall g | g in own
      ensures PlaceOk(m, own, g)
    {
      assert g != f ==> PlaceOk(m, owner, g);
    }
  }

  lemma DropHeld(m: Mem, owner: Owners, f: int)
    requires Own(m, owner) && f in owner && (owner[f].Held? || owner[f].Gone?)
    ensures Own(m, owner - {f})
  {
    var own := owner - {f};
    forall d
      ensures DirOk(m, own, d)
    {
      assert DirOk(m, owner, d);
    }
    forall d, i
      ensures TabOk(m, own, d, i)
    {
      assert TabOk(m, owner, d, i);
    }
    forall d, i, j
      ensures LeafOk(m, own, d, i, j)
    {
      assert LeafOk(m, owner, d, i, j);
    }
    forall g | g in own
      ensures PlaceOk(m, own, g)
    {
      assert PlaceOk(m, owner, g);
    }
  }

  /** A zeroed frame becomes a page directory. */
  lemma NewDir(m: Mem, owner: Owners, f: int)
    requires Own(m, owner) && f in owner && owner[f] == Held && 0 < f < |m| && m[f] == ZeroTable()
    ensures Own(m, owner[f := Dir(f)])
    ensures forall i :: 0 <= i < ENTRIES ==> Entry(m, f, i) == NONE
    ensures forall i, j :: 0 <= i < ENTRIES ==> Leaf(m, f, i, j) == NONE
  {
    var own := owner[f := Dir(f)];
    forall i | 0 <= i < ENTRIES
      ensures Entry(m, f, i) == NONE
    {
    }
    forall d
      ensures DirOk(m, own, d)
    {
      assert DirOk(m, owner, d);
    }
    forall d, i
      ensures TabOk(m, own, d, i)
    {
      assert TabOk(m, owner, d, i);
    }
    forall d, i, j
      ensures LeafOk(m, own, d, i, j)
    {
      assert LeafOk(m, owner, d, i, j);
    }
    forall g | g in own
      ensures PlaceOk(m, own, g)
    {
      assert PlaceOk(m, owner, g);
    }
  }

  /** No leaf or entry of any directory changes, except entry i of d. */
  ghost predicate SameLeaves(m: Mem, n: Mem, owner: Owners)
  {
    forall d, i, j :: IsDir(owner, d) && 0 <= i < ENTRIES ==> Leaf(n, d, i, j) == Leaf(m, d, i, j)
  }

  /** walkpgdir's new page table: empty, so it maps nothing (vm.c:45-52). */
  lemma NewTab(m: Mem, owner: Owners, d: int, i: int, t: int)
    requires Own(m, owner) && IsDir(owner, d) && 0 <= i < ENTRIES && !Entry(m, d, i).p
    requires t in owner && owner[t] == Held && 0 < t < |m| && m[t] == ZeroTable()
    ensures 0 <= d < |m| && m[d].Table? && i < |m[d].e|
    ensures Own(SetPte(m, d, i, Pte(true, t, PTE_P + PTE_W + PTE_U)), owner[t := Tab(d, i)])
    ensures SameLeaves(m, SetPte(m, d, i, Pte(true, t, PTE_P + PTE_W + PTE_U)), owner)
  {
    assert DirOk(m, owner, d);
    var n, own := SetPte(m, d, i, Pte(true, t, PTE_P + PTE_W + PTE_U)), owner[t := Tab(d, i)];
    assert forall c :: IsDir(own, c) <==> IsDir(owner, c);
    forall c, k, j | IsDir(owner, c) && 0 <= k < ENTRIES
      ensures Leaf(n, c, k, j) == Leaf(m, c, k, j)
    {
      assert TabOk(m, owner, c, k) && DirOk(m, owner, c);
    }
    forall c
      ensures DirOk(n, own, c)
    {
      assert DirOk(m, owner, c);
    }
    forall c, k
      ensures TabOk(n, own, c, k)
    {
      assert TabOk(m, owner, c, k) && DirOk(m, owner, c);
    }
    forall c, k, j
      ensures LeafOk(n, own, c, k, j)
    {
      assert LeafOk(m, owner, c, k, j);
    }
    forall g | g in own
      ensures PlaceOk(n, own, g)
    {
      assert PlaceOk(m, owner, g);
    }
  }

  /** Writing a page table entry changes the one leaf it stands for. */
  lemma LeafSet(m: Mem, owner: Owners, d: int, i: int, j: int, e: Pte, d': int, i': int, j': int)
    requires Own(m, owner) && IsDir(owner, d) && 0 <= i < ENTRIES && Entry(m, d, i).p && 0 <= j < ENTRIES
    requires IsDir(owner, d') && 0 <= i' < ENTRIES
    ensures IsTable(m, TabOf(m, d, i))
    ensures var n := SetPte(m, TabOf(m, d, i), j, e);
            Entry(n, d', i') == Entry(m, d', i')
              && Leaf(n, d', i', j') == if d' == d && i' == i && j' == j then e else Leaf(m, d', i', j')
  {
    assert TabOk(m, owner, d, i) && TabOk(m, owner, d', i') && DirOk(m, owner, d');
  }

  /** A held data frame becomes a user page. */
  lemma MapUser(m: Mem, owner: Owners, d: int, i: int, j: int, f: int, flags: int)
    requires Own(m, owner) && IsDir(owner, d) && 0 <= i < USER && 0 <= j < ENTRIES && Entry(m, d, i).p
      && !Leaf(m, d, i, j).p
    requires f in owner && owner[f] == Held && 0 < f < |m| && m[f].Data? && Marked(flags)
    ensures IsTable(m, TabOf(m, d, i))
    ensures Own(SetPte(m, TabOf(m, d, i), j, Pte(true, f, flags)), owner[f := User(d, i, j)])
  {
    assert TabOk(m, owner, d, i);
    var n, own := SetPte(m, TabOf(m, d, i), j, Pte(true, f, flags)), owner[f := User(d, i, j)];
    SetKeepsTables(m, owner, d, i, j, Pte(true, f, flags), own);
    forall c, k, l
      ensures LeafOk(n, own, c, k, l)
    {
      assert LeafOk(m, owner, c, k, l);
      if IsDir(own, c) && 0 <= k < ENTRIES {
        LeafSet(m, owner, d, i, j, Pte(true, f, flags), c, k, l);
      }
    }
    forall g | g in own
      ensures PlaceOk(n, own, g)
    {
      assert PlaceOk(m, owner, g);
      if own[g].User? || own[g].Tab? {
        LeafSet(m, owner, d, i, j, Pte(true, f, flags), own[g].d, own[g].i, if own[g].User? then own[g].j else 0);
      }
    }
  }

  lemma SetKeepsTables(m: Mem, owner: Owners, d: int, i: int, j: int, e: Pte, own: Owners)
    requires Own(m, owner) && IsDir(owner, d) && 0 <= i < ENTRIES && Entry(m, d, i).p && 0 <= j < ENTRIES
    requires forall f :: f in own && (own[f].Dir? || own[f].Tab?) ==> f in owner && owner[f] == own[f]
    requires forall f :: f in owner && (owner[f].Dir? || owner[f].Tab?) ==> f in own && owner[f] == own[f]
    ensures IsTable(m, TabOf(m, d, i))
    ensures forall c :: DirOk(SetPte(m, TabOf(m, d, i), j, e), own, c)
    ensures forall c, k :: TabOk(SetPte(m, TabOf(m, d, i), j, e), own, c, k)
  {
    assert TabOk(m, owner, d, i);
    var n := SetPte(m, TabOf(m, d, i), j, e);
    forall c
      ensures DirOk(n, own, c)
    {
      assert DirOk(m, owner, c);
    }
    forall c, k
      ensures TabOk(n, own, c, k)
    {
      assert TabOk(m, owner, c, k) && DirOk(m, owner, c);
    }
  }

  /** A kernel mapping: it owns no frame. */
  lemma MapKernel(m: Mem, owner: Owners, d: int, i: int, j: int, e: Pte)
    requires Own(m, owner) && IsDir(owner, d) && USER <= i < ENTRIES && 0 <= j < ENTRIES && Entry(m, d, i).p
    ensures IsTable(m, TabOf(m, d, i))
    ensures Own(SetPte(m, TabOf(m, d, i), j, e), owner)
  {
    assert TabOk(m, owner, d, i);
    var n := SetPte(m, TabOf(m, d, i), j, e);
    SetKeepsTables(m, owner, d, i, j, e, owner);
    forall c, k, l
      ensures LeafOk(n, owner, c, k, l)
    {
      assert LeafOk(m, owner, c, k, l);
      if IsDir(owner, c) && 0 <= k < ENTRIES {
        LeafSet(m, owner, d, i, j, e, c, k, l);
      }
    }
    forall g | g in owner
      ensures PlaceOk(n, owner, g)
    {
      assert PlaceOk(m, owner, g);
      if owner[g].User? || owner[g].Tab? {
        LeafSet(m, owner, d, i, j, e, owner[g].d, owner[g].i, if owner[g].User? then owner[g].j else 0);
      }
    }
  }

  /** Other flags in a user entry. */
  lemma Reflag(m: Mem, owner: Owners, d: int, i: int, j: int, flags: int)
    requires Own(m, owner) && IsDir(owner, d) && 0 <= i < USER && 0 <= j < ENTRIES && Entry(m, d, i).p
      && (Leaf(m, d, i, j).p ==> Marked(flags))
    ensures IsTable(m, TabOf(m, d, i))
    ensures Own(SetPte(m, TabOf(m, d, i), j, Leaf(m, d, i, j).(flags := flags)), owner)
  {
    assert TabOk(m, owner, d, i);
    var e := Leaf(m, d, i, j).(flags := flags);
    var n := SetPte(m, TabOf(m, d, i), j, e);
    SetKeepsTables(m, owner, d, i, j, e, owner);
    forall c, k, l
      ensures LeafOk(n, owner, c, k, l)
    {
      assert LeafOk(m, owner, c, k, l);
      if IsDir(owner, c) && 0 <= k < ENTRIES {
        LeafSet(m, owner, d, i, j, e, c, k, l);
      }
    }
    forall g | g in owner
      ensures PlaceOk(n, owner, g)
    {
      assert PlaceOk(m, owner, g);
      if owner[g].User? || owner[g].Tab? {
        LeafSet(m, owner, d, i, j, e, owner[g].d, owner[g].i, if owner[g].User? then owner[g].j else 0);
      }
    }
  }

  /** Clearing a user entry sets its frame free for kfree (vm.c:273-280). */
  lemma UnmapUser(m: Mem, owner: Owners, d: int, i: int, j: int)
    requires Own(m, owner) && IsDir(owner, d) && 0 <= i < USER && 0 <= j < ENTRIES && Leaf(m, d, i, j).p
    ensures IsTable(m, TabOf(m, d, i)) && Leaf(m, d, i, j).f in owner && owner[Leaf(m, d, i, j).f] == User(d, i, j)
    ensures Own(SetPte(m, TabOf(m, d, i), j, NONE), owner[Leaf(m, d, i, j).f := Held])
  {
    assert TabOk(m, owner, d, i) && LeafOk(m, owner, d, i, j);
    var f := Leaf(m, d, i, j).f;
    var n, own := SetPte(m, TabOf(m, d, i), j, NONE), owner[f := Held];
    SetKeepsTables(m, owner, d, i, j, NONE, own);
    forall c, k, l
      ensures LeafOk(n, own, c, k, l)
    {
      assert LeafOk(m, owner, c, k, l);
      if IsDir(own, c) && 0 <= k < ENTRIES {
        LeafSet(m, owner, d, i, j, NONE, c, k, l);
      }
    }
    forall g | g in own
      ensures PlaceOk(n, own, g)
    {
      assert PlaceOk(m, owner, g);
      if own[g].User? || own[g].Tab? {
        LeafSet(m, owner, d, i, j, NONE, own[g].d, own[g].i, if own[g].User? then own[g].j else 0);
      }
    }
  }

  // ---------------------------------------------------------------------------------------------
  // Taking a page directory down
  // ---------------------------------------------------------------------------------------------

  function Retired(o: Owner, d: int): Owner
  {
    if o == Dir(d) then Gone(d, -1) else if o.Tab? && o.d == d then Gone(d, o.i) else o
  }

  function RetireAll(owner: Owners, d: int): Owners
  {
    map f | f in owner :: Retired(owner[f], d)
  }

  /** With no user page left, a directory and its tables can go. */
  lemma Retire(m: Mem, owner: Owners, d: int)
    requires Own(m, owner) && IsDir(owner, d)
    requires forall i, j :: 0 <= i < USER && 0 <= j < ENTRIES ==> !Leaf(m, d, i, j).p
    ensures Own(m, RetireAll(owner, d))
    ensures forall i :: 0 <= i < ENTRIES && Entry(m, d, i).p ==>
      var t := Entry(m, d, i).f;
      t in owner && RetireAll(owner, d)[t] == Gone(d, i)
  {
    var own := RetireAll(owner, d);
    assert forall c :: IsDir(own, c) <==> IsDir(owner, c) && c != d by {
      forall c
        ensures IsDir(own, c) <==> IsDir(owner, c) && c != d
      {
        assert c in owner ==> PlaceOk(m, owner, c);
      }
    }
    forall c
      ensures DirOk(m, own, c)
    {
      assert DirOk(m, owner, c);
    }
    forall c, k
      ensures TabOk(m, own, c, k)
    {
      assert TabOk(m, owner, c, k);
    }
    forall c, k, l
      ensures LeafOk(m, own, c, k, l)
    {
      assert LeafOk(m, owner, c, k, l);
    }
    forall g | g in own
      ensures PlaceOk(m, own, g)
    {
      assert PlaceOk(m, owner, g);
    }
    forall i | 0 <= i < ENTRIES && Entry(m, d, i).p
      ensures var t := Entry(m, d, i).f; t in owner && own[t] == Gone(d, i)
    {
      assert TabOk(m, owner, d, i);
    }
  }
}
