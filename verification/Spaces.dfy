/** What a change to one address space leaves alone, and the pages of an address space by number. */
module Spaces {
  import opened Frames

  const PGSIZE: int := 4096
  const KERNBASE: int := 0x8000_0000
  const UINT: int := 0x1_0000_0000

  /** The number of pages that hold sz bytes: PGROUNDUP(sz) / PGSIZE. */
  function Up(sz: int): int
  {
    (sz + PGSIZE - 1) / PGSIZE
  }

  function ZeroPage(): (x: seq<int>)
    ensures |x| == 4096 && forall k :: 0 <= k < |x| ==> x[k] == 0
  {
    seq(PGSIZE, _ => 0)
  }

  predicate Of(o: Owner, d: int)
  {
    (o.Dir? || o.Tab? || o.User?) && o.d == d
  }

  /** Frame f does not belong to directory d, before or after, and has not changed; or it does, or is free. */
  predicate SameAt(m: Mem, own: Owners, n: Mem, own': Owners, d: int, f: int)
  {
    && ((f in own && !Of(own[f], d)) <==> (f in own' && !Of(own'[f], d)))
    && (f in own && !Of(own[f], d) ==> own'[f] == own[f] && 0 <= f < |m| && f < |n| && n[f] == m[f])
  }

  /** Everything outside the address space d is as before. */
  ghost predicate Others(m: Mem, own: Owners, n: Mem, own': Owners, d: int)
  {
    |n| == |m| && forall f :: SameAt(m, own, n, own', d, f)
  }

  lemma OthersTrans(m: Mem, own: Owners, m1: Mem, own1: Owners, m2: Mem, own2: Owners, d: int)
    requires Others(m, own, m1, own1, d) && Others(m1, own1, m2, own2, d)
    ensures Others(m, own, m2, own2, d)
  {
    forall f
      ensures SameAt(m, own, m2, own2, d, f)
    {
      assert SameAt(m, own, m1, own1, d, f) && SameAt(m1, own1, m2, own2, d, f);
    }
  }

  lemma OthersSelf(m: Mem, free: seq<int>, own: Owners, lo: int, d: int)
    requires FreeOk(m, free, own, lo)
    ensures Others(m, own, m, own, d)
  {
  }

  /** Page (i, j) of d: the same entry and, if it is a user page, the same bytes. */
  predicate SamePage(m: Mem, n: Mem, d: int, i: int, j: int)
  {
    var e := Leaf(m, d, i, j);
    Leaf(n, d, i, j) == e && (e.p && i < USER ==> 0 <= e.f < |m| && e.f < |n| && n[e.f] == m[e.f])
  }

  /** Page (i, j) is mapped to a fresh zero page if its number is in [lo, hi), and as before otherwise. */
  predicate GrownAt(m: Mem, n: Mem, d: int, lo: int, hi: int, i: int, j: int)
  {
    if lo <= i * ENTRIES + j < hi then
      var e := Leaf(n, d, i, j);
      e.p && Whole(e.flags) && e.flags < 8 && 0 <= e.f < |n| && n[e.f] == Data(ZeroPage())
    else SamePage(m, n, d, i, j)
  }

  ghost predicate Grown(m: Mem, n: Mem, d: int, lo: int, hi: int)
  {
    forall i, j :: 0 <= i < ENTRIES && 0 <= j < ENTRIES ==> GrownAt(m, n, d, lo, hi, i, j)
  }

  /** Page (i, j) is unmapped if its number is in [lo, hi), and as before otherwise. */
  predicate CutAt(m: Mem, n: Mem, d: int, lo: int, hi: int, i: int, j: int)
  {
    if lo <= i * ENTRIES + j < hi then !Leaf(n, d, i, j).p else SamePage(m, n, d, i, j)
  }

  ghost predicate Cut(m: Mem, n: Mem, d: int, lo: int, hi: int)
  {
    forall i, j :: 0 <= i < ENTRIES && 0 <= j < ENTRIES ==> CutAt(m, n, d, lo, hi, i, j)
  }

  predicate AbsentAt(m: Mem, d: int, pg: int, i: int, j: int)
  {
    i * ENTRIES + j >= pg ==> !Leaf(m, d, i, j).p
  }

  /** No page from pg on, in directory entries below top, is mapped. */
  ghost predicate AbsentFrom(m: Mem, d: int, pg: int, top: int)
  {
    forall i, j :: 0 <= i < top && 0 <= j < ENTRIES ==> AbsentAt(m, d, pg, i, j)
  }

  /** Page (i, j) is present exactly if its number is below n; then it is writable, and the user's but for page g. */
  predicate ExactAt(m: Mem, d: int, n: int, g: int, i: int, j: int)
  {
    var e, pg := Leaf(m, d, i, j), i * ENTRIES + j;
    && (e.p <==> pg < n)
    && (e.p ==> Marked(e.flags) && Writable(e.flags) && (UserMay(e.flags) <==> pg != g))
  }

  /**
    The kernel's entry for page pg: physical memory up to 0xE000000 from 0x80000000 on, read-only from 1 MB up to
    the kernel's data, the devices from 0xFE000000 on one to one, and nothing else; never for the user.
  */
  predicate KernelPage(e: Pte, data: int, pg: int)
  {
    if 0x8_0000 <= pg < 0x8_E000 then
      && e.p && e.f == pg - 0x8_0000 && Marked(e.flags) && !UserMay(e.flags)
      && (Writable(e.flags) <==> !(0x8_0100 <= pg < 0x8_0000 + data))
    else if 0xF_E000 <= pg < 0x10_0000 then
      e.p && e.f == pg && Marked(e.flags) && !UserMay(e.flags) && Writable(e.flags)
    else !e.p
  }

  predicate KernelLeaf(m: Mem, d: int, data: int, i: int, j: int)
  {
    KernelPage(Leaf(m, d, i, j), data, i * ENTRIES + j)
  }

  /** The half above KERNBASE is the kernel's. */
  ghost predicate KernelHalf(m: Mem, d: int, data: int)
  {
    forall i, j :: USER <= i < ENTRIES && 0 <= j < ENTRIES ==> KernelLeaf(m, d, data, i, j)
  }

  /** Exactly the user pages below n are present, all for the user but page g, and the kernel's half is whole. */
  ghost predicate Exact(m: Mem, d: int, data: int, n: int, g: int)
  {
    && KernelHalf(m, d, data)
    && forall i, j :: 0 <= i < USER && 0 <= j < ENTRIES ==> ExactAt(m, d, n, g, i, j)
  }

  lemma PageIndex(pg: int, i: int, j: int)
    requires 0 <= pg && 0 <= j < ENTRIES
    ensures 0 <= pg / ENTRIES && 0 <= pg % ENTRIES < ENTRIES
    ensures i * ENTRIES + j == pg <==> i == pg / ENTRIES && j == pg % ENTRIES
  {
  }

  /** Page (i, j) is as before, or absent both times. */
  predicate UnchangedAt(m: Mem, n: Mem, d: int, i: int, j: int)
  {
    SamePage(m, n, d, i, j) || (!Leaf(m, d, i, j).p && !Leaf(n, d, i, j).p)
  }

  /** The user pages of d are as before. */
  ghost predicate Unchanged(m: Mem, n: Mem, d: int)
  {
    forall i, j :: 0 <= i < ENTRIES && 0 <= j < ENTRIES ==> UnchangedAt(m, n, d, i, j)
  }

  /** A rolled-back allocuvm: what was added is cut again. */
  lemma RolledBack(m: Mem, m1: Mem, m2: Mem, d: int, lo: int, mid: int, hi: int)
    requires Grown(m, m1, d, lo, mid) && Cut(m1, m2, d, lo, hi) && lo <= mid <= hi <= USER * ENTRIES
      && AbsentFrom(m, d, lo, USER)
    ensures Unchanged(m, m2, d)
  {
    forall i, j | 0 <= i < ENTRIES && 0 <= j < ENTRIES
      ensures UnchangedAt(m, m2, d, i, j)
    {
      assert GrownAt(m, m1, d, lo, mid, i, j) && CutAt(m1, m2, d, lo, hi, i, j);
      assert i < USER ==> AbsentAt(m, d, lo, i, j);
    }
  }

  /** Junk in a held frame does not show. */
  lemma UnchangedJunk(m: Mem, n: Mem, own: Owners, d: int, f: int)
    requires Unchanged(m, n, d) && Own(n, own) && IsDir(own, d) && 0 <= f < |n| && f in own && own[f] == Held
    ensures Unchanged(m, n[f := Junk], d)
  {
    var z := n[f := Junk];
    HeldWrite(n, own, f, Junk);
    forall i, j | 0 <= i < ENTRIES && 0 <= j < ENTRIES
      ensures UnchangedAt(m, z, d, i, j)
    {
      assert UnchangedAt(m, n, d, i, j) && LeafOk(n, own, d, i, j);
      assert Leaf(z, d, i, j) == Leaf(n, d, i, j);
    }
  }

  lemma GrownFresh(m: Mem, m1: Mem, own1: Owners, d: int, lo: int, hi: int, f: int, c: Content)
    requires Grown(m, m1, d, lo, hi) && hi <= USER * ENTRIES && Own(m1, own1) && IsDir(own1, d) && 0 <= f < |m1|
      && f !in own1
    ensures Grown(m, m1[f := c], d, lo, hi)
  {
    var z := m1[f := c];
    HeldWrite(m1, own1, f, c);
    forall i, j | 0 <= i < ENTRIES && 0 <= j < ENTRIES
      ensures GrownAt(m, z, d, lo, hi, i, j)
    {
      assert GrownAt(m, m1, d, lo, hi, i, j) && LeafOk(m1, own1, d, i, j);
      assert Leaf(z, d, i, j) == Leaf(m1, d, i, j);
    }
  }

  lemma FreshHeld(m: Mem, own: Owners, m1: Mem, own1: Owners, d: int, f: int, c: Content)
    requires Others(m, own, m1, own1, d) && f !in own1 && f !in own && 0 <= f < |m1|
    ensures Others(m[f := c], own[f := Held], m1[f := c], own1[f := Held], d)
  {
    var m', own', m1', own1' := m[f := c], own[f := Held], m1[f := c], own1[f := Held];
    forall g
      ensures SameAt(m', own', m1', own1', d, g)
    {
      assert SameAt(m, own, m1, own1, d, g);
    }
  }

  lemma FreeSame(m: Mem, free: seq<int>, own: Owners, lo: int, n: Mem, own': Owners)
    requires FreeOk(m, free, own, lo) && |n| == |m| && own'.Keys == own.Keys
    ensures FreeOk(n, free, own', lo)
  {
    assert forall f :: f in own <==> f in own.Keys;
    assert forall f :: f in own' <==> f in own'.Keys;
  }

  /** Frame f is kept, but for directory d itself; a frame that is new is page table i of d. */
  predicate TabAddedAt(m: Mem, own: Owners, n: Mem, own': Owners, d: int, i: int, f: int)
  {
    && (f in own ==> f in own' && own'[f] == own[f] && (f != d ==> 0 <= f < |m| && f < |n| && n[f] == m[f]))
    && (f in own' && f !in own ==> own'[f] == Tab(d, i))
  }

  /** walkpgdir at most adds an empty page table i to d. */
  ghost predicate TabAdded(m: Mem, own: Owners, n: Mem, own': Owners, d: int, i: int)
  {
    |n| == |m| && SameLeaves(m, n, own) && forall f :: TabAddedAt(m, own, n, own', d, i, f)
  }

  lemma TabAddedNew(m: Mem, own: Owners, d: int, i: int, t: int, n: Mem, own': Owners)
    requires Own(m, own[t := Held]) && t !in own && 0 < t < |m| && IsDir(own, d) && 0 <= i < ENTRIES
      && !Entry(m, d, i).p
    requires (forall f :: f in own ==> 0 <= f < |m|)
    requires var z := m[t := ZeroTable()];
             0 <= d < |z| && z[d].Table? && i < |z[d].e| && n == SetPte(z, d, i, Pte(true, t, PTE_P + PTE_W + PTE_U))
               && own' == own[t := Tab(d, i)]
    ensures Own(n, own') && TabAdded(m, own, n, own', d, i) && TabOf(n, d, i) == t
  {
    var z, held := m[t := ZeroTable()], own[t := Held];
    HeldWrite(m, held, t, ZeroTable());
    assert IsDir(held, d);
    NewTab(z, held, d, i, t);
    assert held[t := Tab(d, i)] == own';
    forall c, k, l | IsDir(own, c) && 0 <= k < ENTRIES
      ensures Leaf(n, c, k, l) == Leaf(m, c, k, l)
    {
      assert IsDir(held, c);
      assert Leaf(z, c, k, l) == Leaf(m, c, k, l);
    }
    forall f
      ensures TabAddedAt(m, own, n, own', d, i, f)
    {
    }
  }

  lemma TabAddedPages(m: Mem, own: Owners, n: Mem, own': Owners, d: int, i: int)
    requires TabAdded(m, own, n, own', d, i) && IsDir(own, d) && Own(m, own)
    ensures forall k, l :: 0 <= k < ENTRIES && 0 <= l < ENTRIES ==> SamePage(m, n, d, k, l)
  {
    forall k, l | 0 <= k < ENTRIES && 0 <= l < ENTRIES
      ensures SamePage(m, n, d, k, l)
    {
      assert LeafOk(m, own, d, k, l);
      assert TabAddedAt(m, own, n, own', d, i, Leaf(m, d, k, l).f);
    }
  }

  // ---------------------------------------------------------------------------------------------
  // Changing one user page
  // ---------------------------------------------------------------------------------------------

  predicate OnePageAt(m: Mem, n: Mem, d: int, i: int, j: int, k: int, l: int)
  {
    (k == i && l == j) || SamePage(m, n, d, k, l)
  }

  /** Every user page of d but (i, j) is as before. */
  ghost predicate OnePage(m: Mem, n: Mem, d: int, i: int, j: int)
  {
    forall k, l :: 0 <= k < ENTRIES && 0 <= l < ENTRIES ==> OnePageAt(m, n, d, i, j, k, l)
  }

  /** Writing the entry of user page (i, j) leaves the other pages of d alone. */
  lemma SetPtePages(m: Mem, own: Owners, d: int, i: int, j: int, e: Pte)
    requires Own(m, own) && IsDir(own, d) && 0 <= i < USER && 0 <= j < ENTRIES && Entry(m, d, i).p
    ensures IsTable(m, TabOf(m, d, i)) && OnePage(m, SetPte(m, TabOf(m, d, i), j, e), d, i, j)
    ensures Leaf(SetPte(m, TabOf(m, d, i), j, e), d, i, j) == e
  {
    assert TabOk(m, own, d, i);
    var n := SetPte(m, TabOf(m, d, i), j, e);
    LeafSet(m, own, d, i, j, e, d, i, j);
    forall k, l | 0 <= k < ENTRIES && 0 <= l < ENTRIES
      ensures OnePageAt(m, n, d, i, j, k, l)
    {
      LeafSet(m, own, d, i, j, e, d, k, l);
      assert LeafOk(m, own, d, k, l);
    }
  }

  /** The table written to belongs to d, so nothing outside d changes; f is the frame that is gained. */
  lemma SetPteOthers(m: Mem, own: Owners, d: int, i: int, j: int, f: int, e: Pte)
    requires Own(m, own) && IsDir(own, d) && 0 <= i < USER && 0 <= j < ENTRIES && Entry(m, d, i).p && f in own
      && !Of(own[f], d)
    requires forall g :: g in own ==> 0 <= g < |m|
    ensures IsTable(m, TabOf(m, d, i))
    ensures Others(m, own - {f}, SetPte(m, TabOf(m, d, i), j, e), own[f := User(d, i, j)], d)
  {
    assert TabOk(m, own, d, i);
    var n, less, more := SetPte(m, TabOf(m, d, i), j, e), own - {f}, own[f := User(d, i, j)];
    forall g
      ensures SameAt(m, less, n, more, d, g)
    {
    }
  }

  /** The reverse: f is the frame that is given up. */
  lemma ClearPteOthers(m: Mem, own: Owners, d: int, i: int, j: int)
    requires Own(m, own) && IsDir(own, d) && 0 <= i < USER && 0 <= j < ENTRIES && Leaf(m, d, i, j).p
    requires forall g :: g in own ==> 0 <= g < |m|
    ensures IsTable(m, TabOf(m, d, i))
    ensures var f := Leaf(m, d, i, j).f;
            0 <= f < |m| && Others(m, own, SetPte(m, TabOf(m, d, i), j, NONE)[f := Junk], own - {f}, d)
  {
    assert TabOk(m, own, d, i) && LeafOk(m, own, d, i, j);
    var f := Leaf(m, d, i, j).f;
    var n, less := SetPte(m, TabOf(m, d, i), j, NONE)[f := Junk], own - {f};
    forall g
      ensures SameAt(m, own, n, less, d, g)
    {
    }
  }

  /** Junk in the frame given up does not show in any other page of d. */
  lemma ClearPtePages(m: Mem, own: Owners, d: int, i: int, j: int)
    requires Own(m, own) && IsDir(own, d) && 0 <= i < USER && 0 <= j < ENTRIES && Leaf(m, d, i, j).p
    ensures IsTable(m, TabOf(m, d, i))
    ensures var f := Leaf(m, d, i, j).f;
            var n := SetPte(m, TabOf(m, d, i), j, NONE);
            0 <= f < |m| && OnePage(m, n[f := Junk], d, i, j) && !Leaf(n[f := Junk], d, i, j).p
  {
    assert LeafOk(m, own, d, i, j);
    var f := Leaf(m, d, i, j).f;
    UnmapUser(m, own, d, i, j);
    SetPtePages(m, own, d, i, j, NONE);
    var n := SetPte(m, TabOf(m, d, i), j, NONE);
    HeldWrite(n, own[f := Held], f, Junk);
    assert IsDir(own[f := Held], d);
    var z := n[f := Junk];
    forall k, l | 0 <= k < ENTRIES && 0 <= l < ENTRIES
      ensures OnePageAt(m, z, d, i, j, k, l)
    {
      assert OnePageAt(m, n, d, i, j, k, l) && LeafOk(m, own, d, k, l);
      assert Leaf(z, d, k, l) == Leaf(n, d, k, l);
    }
  }

  /** A page table was added if need be, and then page (i, j) was set to the held frame f. */
  lemma MapWhole(m0: Mem, own0: Owners, m: Mem, own: Owners, d: int, i: int, j: int, f: int, e: Pte)
    requires Own(m0, own0) && IsDir(own0, d) && TabAdded(m0, own0, m, own, d, i) && Own(m, own)
    requires 0 <= i < USER && 0 <= j < ENTRIES && Entry(m, d, i).p && f in own0 && own0[f] == Held
    requires (forall g :: g in own0 ==> 0 <= g < |m0|) && (forall g :: g in own ==> 0 <= g < |m|)
    ensures IsTable(m, TabOf(m, d, i)) && f in own && own[f] == Held && m[f] == m0[f] && IsDir(own, d)
    ensures var n := SetPte(m, TabOf(m, d, i), j, e);
            OnePage(m0, n, d, i, j) && n[f] == m0[f] && Others(m0, own0 - {f}, n, own[f := User(d, i, j)], d)
  {
    assert TabAddedAt(m0, own0, m, own, d, i, f) && TabAddedAt(m0, own0, m, own, d, i, d);
    assert TabOk(m, own, d, i);
    var n, own' := SetPte(m, TabOf(m, d, i), j, e), own[f := User(d, i, j)];
    TabAddedPages(m0, own0, m, own, d, i);
    SetPtePages(m, own, d, i, j, e);
    forall k, l | 0 <= k < ENTRIES && 0 <= l < ENTRIES
      ensures OnePageAt(m0, n, d, i, j, k, l)
    {
      assert OnePageAt(m, n, d, i, j, k, l) && SamePage(m0, m, d, k, l);
    }
    SetPteOthers(m, own, d, i, j, f, e);
    var less0, less := own0 - {f}, own - {f};
    forall g
      ensures SameAt(m0, less0, n, own', d, g)
    {
      assert TabAddedAt(m0, own0, m, own, d, i, g);
      assert SameAt(m, less, n, own', d, g);
    }
  }

  // ---------------------------------------------------------------------------------------------
  // Page by page
  // ---------------------------------------------------------------------------------------------

  /** deallocuvm goes on by one page. */
  lemma CutNext(m: Mem, m1: Mem, m2: Mem, d: int, lo: int, pg: int)
    requires 0 <= lo <= pg < USER * ENTRIES && Cut(m, m1, d, lo, pg)
    requires OnePage(m1, m2, d, pg / ENTRIES, pg % ENTRIES) && !Leaf(m2, d, pg / ENTRIES, pg % ENTRIES).p
    ensures Cut(m, m2, d, lo, pg + 1)
  {
    var next := pg + 1;
    forall i, j | 0 <= i < ENTRIES && 0 <= j < ENTRIES
      ensures CutAt(m, m2, d, lo, next, i, j)
    {
      PageIndex(pg, i, j);
      assert CutAt(m, m1, d, lo, pg, i, j);
      assert OnePageAt(m1, m2, d, pg / ENTRIES, pg % ENTRIES, i, j);
    }
  }

  /** Where there is no page table, the rest of its 4 MB has nothing to unmap (vm.c:271-272). */
  lemma CutSkip(m: Mem, m1: Mem, d: int, lo: int, pg: int, hi: int)
    requires 0 <= lo <= pg <= hi <= (pg / ENTRIES + 1) * ENTRIES && Cut(m, m1, d, lo, pg)
      && TabOf(m1, d, pg / ENTRIES) == 0
    ensures Cut(m, m1, d, lo, hi)
  {
    forall i, j | 0 <= i < ENTRIES && 0 <= j < ENTRIES
      ensures CutAt(m, m1, d, lo, hi, i, j)
    {
      PageIndex(pg, i, j);
      assert CutAt(m, m1, d, lo, pg, i, j);
      assert pg <= i * ENTRIES + j < hi ==> i == pg / ENTRIES;
    }
  }

  lemma OnePageSelf(m: Mem, own: Owners, d: int, i: int, j: int)
    requires Own(m, own) && IsDir(own, d)
    ensures OnePage(m, m, d, i, j)
  {
    forall k, l | 0 <= k < ENTRIES && 0 <= l < ENTRIES
      ensures OnePageAt(m, m, d, i, j, k, l)
    {
      assert LeafOk(m, own, d, k, l);
    }
  }

  lemma PageBelow(pg: int, sz: int)
    requires 0 <= sz
    ensures pg * PGSIZE < sz <==> pg < Up(sz)
    ensures sz <= KERNBASE ==> Up(sz) <= USER * ENTRIES
    ensures 0 <= Up(sz) && Up(KERNBASE) == USER * ENTRIES
  {
  }

  lemma CutStart(m: Mem, own: Owners, d: int, lo: int)
    requires Own(m, own) && IsDir(own, d)
    ensures Cut(m, m, d, lo, lo)
  {
    forall i, j | 0 <= i < ENTRIES && 0 <= j < ENTRIES
      ensures CutAt(m, m, d, lo, lo, i, j)
    {
      assert LeafOk(m, own, d, i, j);
    }
  }

  /** allocuvm goes on by one page. */
  lemma GrownNext(m: Mem, m1: Mem, m2: Mem, d: int, lo: int, pg: int)
    requires 0 <= lo <= pg < USER * ENTRIES && Grown(m, m1, d, lo, pg)
    requires OnePage(m1, m2, d, pg / ENTRIES, pg % ENTRIES)
    requires var e := Leaf(m2, d, pg / ENTRIES, pg % ENTRIES);
             e.p && Whole(e.flags) && e.flags < 8 && 0 <= e.f < |m2| && m2[e.f] == Data(ZeroPage())
    ensures Grown(m, m2, d, lo, pg + 1)
  {
    var next := pg + 1;
    forall i, j | 0 <= i < ENTRIES && 0 <= j < ENTRIES
      ensures GrownAt(m, m2, d, lo, next, i, j)
    {
      PageIndex(pg, i, j);
      assert GrownAt(m, m1, d, lo, pg, i, j);
      assert OnePageAt(m1, m2, d, pg / ENTRIES, pg % ENTRIES, i, j);
    }
  }

  lemma GrownStart(m: Mem, own: Owners, d: int, lo: int)
    requires Own(m, own) && IsDir(own, d)
    ensures Grown(m, m, d, lo, lo)
  {
    forall i, j | 0 <= i < ENTRIES && 0 <= j < ENTRIES
      ensures GrownAt(m, m, d, lo, lo, i, j)
    {
      assert LeafOk(m, own, d, i, j);
    }
  }

  // ---------------------------------------------------------------------------------------------
  // Writing to a frame nobody owns yet
  // ---------------------------------------------------------------------------------------------

  lemma FreshOthers(m: Mem, own: Owners, f: int, c: Content, n: Mem, own': Owners, d: int)
    requires 0 <= f < |m| && f !in own && Others(m[f := c], own, n, own', d)
    ensures Others(m, own, n, own', d)
  {
    var m1 := m[f := c];
    forall g
      ensures SameAt(m, own, n, own', d, g)
    {
      assert SameAt(m1, own, n, own', d, g);
    }
  }

  lemma FreshPage(m: Mem, own: Owners, f: int, c: Content, n: Mem, d: int, i: int, j: int)
    requires Own(m, own) && IsDir(own, d) && 0 <= f < |m| && f !in own && OnePage(m[f := c], n, d, i, j)
    ensures OnePage(m, n, d, i, j)
  {
    var m1 := m[f := c];
    HeldWrite(m, own, f, c);
    forall k, l | 0 <= k < ENTRIES && 0 <= l < ENTRIES
      ensures OnePageAt(m, n, d, i, j, k, l)
    {
      assert OnePageAt(m1, n, d, i, j, k, l) && LeafOk(m, own, d, k, l);
      assert Leaf(m1, d, k, l) == Leaf(m, d, k, l);
    }
  }

  /** Handing the frame back afterwards leaves the address space as it was. */
  lemma FreshJunk(m: Mem, own: Owners, f: int, n: Mem, own': Owners, d: int)
    requires f !in own && f in own' && !Of(own'[f], d) && 0 <= f < |n| && Others(m, own[f := own'[f]], n, own', d)
      && f < |m|
    ensures Others(m, own, n[f := Junk], own' - {f}, d)
  {
    var with, n', less := own[f := own'[f]], n[f := Junk], own' - {f};
    forall g
      ensures SameAt(m, own, n', less, d, g)
    {
      assert SameAt(m, with, n, own', d, g);
    }
  }

  lemma NoGone(m: Mem, own: Owners, n: Mem, own': Owners, d: int)
    requires Others(m, own, n, own', d) && (forall g :: g in own ==> !own[g].Gone?)
    ensures forall g :: g in own' ==> !own'[g].Gone?
  {
    forall g | g in own'
      ensures !own'[g].Gone?
    {
      assert SameAt(m, own, n, own', d, g);
    }
  }

  // ---------------------------------------------------------------------------------------------
  // freevm
  // ---------------------------------------------------------------------------------------------

  /** The owners without those of directory d. */
  function Rest(own: Owners, d: int): Owners
  {
    map f | f in own && !Of(own[f], d) :: own[f]
  }

  predicate IsGone(o: Owner, d: int)
  {
    o.Gone? && o.d == d
  }

  /** Frame f is outside d and as before, or it is what is left of d, or free. */
  predicate LeftAt(m: Mem, own: Owners, n: Mem, own': Owners, d: int, f: int)
  {
    && ((f in own && !Of(own[f], d)) <==> (f in own' && !IsGone(own'[f], d)))
    && (f in own && !Of(own[f], d) ==> own'[f] == own[f] && 0 <= f < |m| && f < |n| && n[f] == m[f])
  }

  ghost predicate Left(m: Mem, own: Owners, n: Mem, own': Owners, d: int)
  {
    |n| == |m| && forall f :: LeftAt(m, own, n, own', d, f)
  }

  /** A frame that is still to be freed: a page table from entry i on, or d itself. */
  predicate ToFree(own: Owners, tbl: seq<Pte>, d: int, i: int, f: int)
    requires f in own && |tbl| == ENTRIES && 0 <= i
  {
    IsGone(own[f], d) ==>
      (own[f].i == -1 && f == d) || (i <= own[f].i < ENTRIES && tbl[own[f].i].p && tbl[own[f].i].f == f)
  }

  predicate StillGone(own: Owners, tbl: seq<Pte>, d: int, k: int)
    requires 0 <= k < |tbl|
  {
    tbl[k].p ==> tbl[k].f in own && own[tbl[k].f] == Gone(d, k)
  }

  /** The state of freevm's loop at directory entry i (vm.c:295-300). */
  ghost predicate Freeing(m: Mem, own: Owners, n: Mem, own': Owners, tbl: seq<Pte>, d: int, i: int)
  {
    && |tbl| == ENTRIES && 0 <= i && Left(m, own, n, own', d) && 0 <= d < |n| && n[d] == Table(tbl) && d in own'
    && own'[d] == Gone(d, -1)
    && (forall f :: f in own' ==> ToFree(own', tbl, d, i, f))
    && (forall k :: i <= k < ENTRIES ==> StillGone(own', tbl, d, k))
  }

  lemma AllCut(m: Mem, n: Mem, d: int)
    requires Cut(m, n, d, Up(0), Up(KERNBASE))
    ensures forall i, j :: 0 <= i < USER && 0 <= j < ENTRIES ==> !Leaf(n, d, i, j).p
  {
    forall i, j | 0 <= i < USER && 0 <= j < ENTRIES
      ensures !Leaf(n, d, i, j).p
    {
      assert CutAt(m, n, d, Up(0), Up(KERNBASE), i, j);
    }
  }

  lemma FreeingStart(m0: Mem, own0: Owners, m: Mem, own: Owners, d: int)
    requires Own(m, own) && IsDir(own, d) && Others(m0, own0, m, own, d) && (forall f :: f in own ==> !own[f].Gone?)
    requires forall i, j :: 0 <= i < USER && 0 <= j < ENTRIES ==> !Leaf(m, d, i, j).p
    ensures IsTable(m, d) && Own(m, RetireAll(own, d)) && Freeing(m0, own0, m, RetireAll(own, d), m[d].e, d, 0)
  {
    assert DirOk(m, own, d);
    Retire(m, own, d);
    var own' := RetireAll(own, d);
    forall f
      ensures LeftAt(m0, own0, m, own', d, f)
    {
      assert SameAt(m0, own0, m, own, d, f);
      assert f in own ==> PlaceOk(m, own, f);
    }
    forall f | f in own'
      ensures ToFree(own', m[d].e, d, 0, f)
    {
      assert PlaceOk(m, own, f);
    }
    forall k | 0 <= k < ENTRIES
      ensures StillGone(own', m[d].e, d, k)
    {
      assert Entry(m, d, k) == m[d].e[k];
    }
  }

  lemma FreeingNext(m0: Mem, own0: Owners, m: Mem, own: Owners, tbl: seq<Pte>, d: int, i: int)
    requires Freeing(m0, own0, m, own, tbl, d, i) && 0 <= i < ENTRIES && (forall f :: f in own ==> 0 <= f < |m|)
    ensures !tbl[i].p ==> Freeing(m0, own0, m, own, tbl, d, i + 1)
    ensures tbl[i].p ==>
      StillGone(own, tbl, d, i) && Freeing(m0, own0, m[tbl[i].f := Junk], own - {tbl[i].f}, tbl, d, i + 1)
  {
    assert StillGone(own, tbl, d, i);
    var t, next := tbl[i].f, i + 1;
    var n, less := if tbl[i].p then m[t := Junk] else m, if tbl[i].p then own - {t} else own;
    forall f
      ensures LeftAt(m0, own0, n, less, d, f)
    {
      assert LeftAt(m0, own0, m, own, d, f);
    }
    forall f | f in less
      ensures ToFree(less, tbl, d, next, f)
    {
      assert ToFree(own, tbl, d, i, f);
    }
    forall k | next <= k < ENTRIES
      ensures StillGone(less, tbl, d, k)
    {
      assert StillGone(own, tbl, d, k);
    }
  }

  lemma FreeingEnd(m0: Mem, own0: Owners, m: Mem, own: Owners, tbl: seq<Pte>, d: int)
    requires Freeing(m0, own0, m, own, tbl, d, ENTRIES) && (forall f :: f in own0 ==> !own0[f].Gone?)
    ensures own - {d} == Rest(own0, d) && Others(m0, own0, m[d := Junk], own - {d}, d)
    ensures forall f :: f in own - {d} ==> !own[f].Gone?
  {
    var n, less, rest := m[d := Junk], own - {d}, Rest(own0, d);
    forall f
      ensures SameAt(m0, own0, n, less, d, f) && (f in less ==> !own[f].Gone?)
      ensures f in less <==> f in rest
      ensures f in less ==> less[f] == rest[f]
    {
      assert LeftAt(m0, own0, m, own, d, f);
      assert f in own ==> ToFree(own, tbl, d, ENTRIES, f);
    }
    MapsEqual(less, rest);
  }

  lemma MapsEqual(a: Owners, b: Owners)
    requires forall f :: f in a <==> f in b
    requires forall f :: f in a ==> a[f] == b[f]
    ensures a == b
  {
    forall f | f in a.Keys
      ensures f in b.Keys
    {
    }
    forall f | f in b.Keys
      ensures f in a.Keys
    {
    }
    assert a.Keys == b.Keys;
    assert forall f | f in a.Keys :: a[f] == b[f];
  }

  /** A directory that was new and is gone again leaves no trace. */
  lemma AllBack(m: Mem, own: Owners, n: Mem, own': Owners, d: int)
    requires Others(m, own, n, own', d) && (forall f :: f in own ==> !Of(own[f], d))
      && (forall f :: f in own' ==> !Of(own'[f], d))
    ensures own' == own && forall f :: f in own ==> 0 <= f < |m| && n[f] == m[f]
  {
    forall f
      ensures f in own <==> f in own'
      ensures f in own ==> own'[f] == own[f] && 0 <= f < |m| && n[f] == m[f]
    {
      assert SameAt(m, own, n, own', d, f);
    }
    MapsEqual(own', own);
  }

  /** Nothing belongs to a frame that is not a directory. */
  lemma NoneOf(m: Mem, own: Owners, d: int)
    requires Own(m, own) && !IsDir(own, d)
    ensures forall f :: f in own ==> !Of(own[f], d)
  {
    forall f | f in own
      ensures !Of(own[f], d)
    {
      assert PlaceOk(m, own, f);
    }
  }

  // ---------------------------------------------------------------------------------------------
  // Copying
  // ---------------------------------------------------------------------------------------------

  /** A change inside d does not show in another address space. */
  lemma OthersPages(m: Mem, own: Owners, n: Mem, own': Owners, d: int, s: int, i: int, j: int)
    requires Own(m, own) && IsDir(own, s) && s != d && Others(m, own, n, own', d) && 0 <= i < ENTRIES
      && 0 <= j < ENTRIES
    ensures IsDir(own', s) && Entry(n, s, i) == Entry(m, s, i) && SamePage(m, n, s, i, j)
  {
    assert DirOk(m, own, s) && TabOk(m, own, s, i) && LeafOk(m, own, s, i, j);
    assert SameAt(m, own, n, own', d, s);
    assert SameAt(m, own, n, own', d, TabOf(m, s, i));
    assert SameAt(m, own, n, own', d, Leaf(m, s, i, j).f);
  }

  /** Page (i, j) of d is a copy of that of s, flags and bytes, if its number is below upto, and absent otherwise. */
  predicate CopiedAt(m: Mem, n: Mem, s: int, d: int, upto: int, i: int, j: int)
  {
    var a, b := Leaf(m, s, i, j), Leaf(n, d, i, j);
    if i * ENTRIES + j < upto then
      a.p && b.p && b.flags == a.flags && 0 <= a.f < |m| && 0 <= b.f < |n| && m[a.f].Data? && n[b.f] == m[a.f]
    else !b.p
  }

  ghost predicate Copied(m: Mem, n: Mem, s: int, d: int, upto: int)
  {
    forall i, j :: 0 <= i < USER && 0 <= j < ENTRIES ==> CopiedAt(m, n, s, d, upto, i, j)
  }

  lemma CopiedStart(m: Mem, n: Mem, s: int, d: int)
    requires AbsentFrom(n, d, 0, USER)
    ensures Copied(m, n, s, d, 0)
  {
    forall i, j | 0 <= i < USER && 0 <= j < ENTRIES
      ensures CopiedAt(m, n, s, d, 0, i, j)
    {
      assert AbsentAt(n, d, 0, i, j);
    }
  }

  lemma CopiedNext(m: Mem, n: Mem, n': Mem, s: int, d: int, pg: int)
    requires 0 <= pg < USER * ENTRIES && Copied(m, n, s, d, pg) && OnePage(n, n', d, pg / ENTRIES, pg % ENTRIES)
    requires CopiedAt(m, n', s, d, pg + 1, pg / ENTRIES, pg % ENTRIES)
    ensures Copied(m, n', s, d, pg + 1)
  {
    var next := pg + 1;
    forall i, j | 0 <= i < USER && 0 <= j < ENTRIES
      ensures CopiedAt(m, n', s, d, next, i, j)
    {
      PageIndex(pg, i, j);
      assert CopiedAt(m, n, s, d, pg, i, j);
      assert OnePageAt(n, n', d, pg / ENTRIES, pg % ENTRIES, i, j);
    }
  }

  /** Two address spaces share no user frame. */
  lemma DisjointFrames(m: Mem, own: Owners, s: int, d: int, i: int, j: int, k: int, l: int)
    requires Own(m, own) && IsDir(own, s) && IsDir(own, d) && s != d
    requires 0 <= i < USER && 0 <= j < ENTRIES && 0 <= k < USER && 0 <= l < ENTRIES && Leaf(m, s, i, j).p
      && Leaf(m, d, k, l).p
    ensures Leaf(m, s, i, j).f != Leaf(m, d, k, l).f
  {
    assert LeafOk(m, own, s, i, j) && LeafOk(m, own, d, k, l);
  }

  /** Junk in a frame nobody owns changes nothing. */
  lemma JunkUnowned(m: Mem, own: Owners, n: Mem, own': Owners, d: int, f: int)
    requires Others(m, own, n, own', d) && 0 <= f < |n| && f !in own'
    ensures Others(m, own, n[f := Junk], own', d)
  {
    var z := n[f := Junk];
    forall g
      ensures SameAt(m, own, z, own', d, g)
    {
      assert SameAt(m, own, n, own', d, g);
    }
  }

  /** All pages below n are present. */
  predicate PresentAt(m: Mem, d: int, pg: int)
  {
    Leaf(m, d, pg / ENTRIES, pg % ENTRIES).p
  }

  ghost predicate Present(m: Mem, d: int, n: int)
  {
    forall pg :: 0 <= pg < n ==> PresentAt(m, d, pg)
  }

  // ---------------------------------------------------------------------------------------------
  // Exactly the pages below the size
  // ---------------------------------------------------------------------------------------------

  lemma ExactAbsent(m: Mem, d: int, data: int, n: int, g: int)
    requires Exact(m, d, data, n, g)
    ensures AbsentFrom(m, d, n, USER)
  {
    forall i, j | 0 <= i < USER && 0 <= j < ENTRIES
      ensures AbsentAt(m, d, n, i, j)
    {
      assert ExactAt(m, d, n, g, i, j);
    }
  }

  lemma ExactPresent(m: Mem, d: int, data: int, n: int, g: int)
    requires Exact(m, d, data, n, g) && n <= USER * ENTRIES
    ensures Present(m, d, n)
  {
    forall pg | 0 <= pg < n
      ensures PresentAt(m, d, pg)
    {
      PageIndex(pg, pg / ENTRIES, pg % ENTRIES);
      assert ExactAt(m, d, n, g, pg / ENTRIES, pg % ENTRIES);
    }
  }

  lemma ExactGrown(m: Mem, n: Mem, d: int, data: int, lo: int, hi: int, g: int)
    requires Exact(m, d, data, lo, g) && Grown(m, n, d, lo, hi) && g < lo <= hi <= USER * ENTRIES
    ensures Exact(n, d, data, hi, g)
  {
    forall i, j | USER <= i < ENTRIES && 0 <= j < ENTRIES
      ensures KernelLeaf(n, d, data, i, j)
    {
      assert KernelLeaf(m, d, data, i, j) && GrownAt(m, n, d, lo, hi, i, j);
    }
    forall i, j | 0 <= i < USER && 0 <= j < ENTRIES
      ensures ExactAt(n, d, hi, g, i, j)
    {
      assert ExactAt(m, d, lo, g, i, j) && GrownAt(m, n, d, lo, hi, i, j);
    }
  }

  /** A page that was closed to the user is forgotten with its page. */
  function Kept(g: int, n: int): int
  {
    if g < n then g else -1
  }

  lemma ExactCut(m: Mem, n: Mem, d: int, data: int, lo: int, hi: int, g: int)
    requires Exact(m, d, data, hi, g) && Cut(m, n, d, lo, hi) && 0 <= lo <= hi <= USER * ENTRIES
    ensures Exact(n, d, data, lo, Kept(g, lo))
  {
    forall i, j | USER <= i < ENTRIES && 0 <= j < ENTRIES
      ensures KernelLeaf(n, d, data, i, j)
    {
      assert KernelLeaf(m, d, data, i, j) && CutAt(m, n, d, lo, hi, i, j);
    }
    forall i, j | 0 <= i < USER && 0 <= j < ENTRIES
      ensures ExactAt(n, d, lo, Kept(g, lo), i, j)
    {
      assert ExactAt(m, d, hi, g, i, j) && CutAt(m, n, d, lo, hi, i, j);
    }
  }

  lemma ExactUnchanged(m: Mem, n: Mem, d: int, data: int, lo: int, g: int)
    requires Exact(m, d, data, lo, g) && Unchanged(m, n, d)
    ensures Exact(n, d, data, lo, g)
  {
    forall i, j | USER <= i < ENTRIES && 0 <= j < ENTRIES
      ensures KernelLeaf(n, d, data, i, j)
    {
      assert KernelLeaf(m, d, data, i, j) && UnchangedAt(m, n, d, i, j);
    }
    forall i, j | 0 <= i < USER && 0 <= j < ENTRIES
      ensures ExactAt(n, d, lo, g, i, j)
    {
      assert ExactAt(m, d, lo, g, i, j) && UnchangedAt(m, n, d, i, j);
    }
  }

  /** A change to one user page leaves the kernel's half alone. */
  lemma KernelBeside(m: Mem, n: Mem, d: int, data: int, k: int, l: int)
    requires KernelHalf(m, d, data) && OnePage(m, n, d, k, l) && k < USER
    ensures KernelHalf(n, d, data)
  {
    forall i, j | USER <= i < ENTRIES && 0 <= j < ENTRIES
      ensures KernelLeaf(n, d, data, i, j)
    {
      assert KernelLeaf(m, d, data, i, j) && OnePageAt(m, n, d, k, l, i, j);
    }
  }

  /** A forked child has the pages of its parent, with the parent's rights. */
  lemma ExactCopied(m: Mem, n: Mem, s: int, d: int, data: int, pages: int, g: int)
    requires Exact(m, s, data, pages, g) && Copied(m, n, s, d, pages) && KernelHalf(n, d, data)
    ensures Exact(n, d, data, pages, g)
  {
    forall i, j | 0 <= i < USER && 0 <= j < ENTRIES
      ensures ExactAt(n, d, pages, g, i, j)
    {
      assert ExactAt(m, s, pages, g, i, j) && CopiedAt(m, n, s, d, pages, i, j);
    }
  }

  /** clearpteu closes page g. */
  lemma ExactClosed(m: Mem, n: Mem, d: int, data: int, pages: int, g: int)
    requires Exact(m, d, data, pages, -1) && 0 <= g < pages <= USER * ENTRIES
    requires OnePage(m, n, d, g / ENTRIES, g % ENTRIES)
    requires var e := Leaf(n, d, g / ENTRIES, g % ENTRIES);
             e.p && Marked(e.flags) && Writable(e.flags) && !UserMay(e.flags)
    ensures Exact(n, d, data, pages, g)
  {
    PageIndex(g, 0, 0);
    KernelBeside(m, n, d, data, g / ENTRIES, g % ENTRIES);
    forall i, j | 0 <= i < USER && 0 <= j < ENTRIES
      ensures ExactAt(n, d, pages, g, i, j)
    {
      PageIndex(g, i, j);
      assert ExactAt(m, d, pages, -1, i, j) && OnePageAt(m, n, d, g / ENTRIES, g % ENTRIES, i, j);
    }
  }

  /** The sizes for which the pages are exact are those with the same number of pages. */
  lemma ExactNot(m: Mem, d: int, data: int, a: int, b: int, g: int, h: int)
    requires Exact(m, d, data, a, g) && 0 <= a < b <= USER * ENTRIES
    ensures !Exact(m, d, data, b, h)
  {
    PageIndex(a, a / ENTRIES, a % ENTRIES);
    assert ExactAt(m, d, a, g, a / ENTRIES, a % ENTRIES);
    assert !ExactAt(m, d, b, h, a / ENTRIES, a % ENTRIES);
  }

  /** How many of the first n pages are present. */
  function CountPresent(m: Mem, d: int, n: int): int
  {
    if n <= 0 then 0 else CountPresent(m, d, n - 1) + if PresentAt(m, d, n - 1) then 1 else 0
  }

  lemma {:induction false} AllPresent(m: Mem, d: int, n: int)
    requires Present(m, d, n) && 0 <= n
    ensures CountPresent(m, d, n) == n
  {
    if n > 0 {
      AllPresent(m, d, n - 1);
      assert PresentAt(m, d, n - 1);
    }
  }
}
