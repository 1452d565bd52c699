/** kalloc.c and the page-table code of vm.c, at page granularity, updating frames and the free list in place. */
module VmCode {
  import opened Frames
  import opened Spaces
  import opened KernelMap
  import opened VmRuns
  import Break

  class Memory {
    /** The frames above the kernel, lo .. |mem|-1, are handed out by kalloc. */
    const lo: int
    var mem: Mem
    var free: seq<int>
    ghost var owner: Owners
    /** How often kalloc found the free list empty. */
    ghost var misses: int

    ghost predicate Owned()
      reads this
    {
      Own(mem, owner) && FreeOk(mem, free, owner, lo)
    }

    ghost predicate Valid()
      reads this
    {
      Owned() && forall f :: f in owner ==> !owner[f].Gone?
    }

    /** kinit and freerange (kalloc.c:31-53): the frames are freed one after the other. */
    constructor (first: int, end: int)
      requires 0 < first <= end
      ensures Valid() && lo == first && |mem| == end && owner == map[]
      ensures forall f :: first <= f < end ==> InList(free, f)
    {
      lo := first;
      mem := seq(end, _ => Junk);
      free := [];
      owner := AllHeld(first, end);
      new;
      var p := first;
      while p < end
        invariant first <= p <= end && Owned() && |mem| == end && lo == first
        invariant forall f :: f in owner <==> p <= f < end
        invariant forall f :: f in owner ==> owner[f] == Held
      {
        var panicked := Kfree(p);
        p := p + 1;
      }
      assert owner == map[];
    }

    /** kalloc.c:82-95. */
    method Kalloc() returns (f: int)
      requires Owned()
      modifies `free, `owner, `misses
      ensures Owned() && (f == 0 <==> old(free) == [])
      ensures misses == if f == 0 then old(misses) + 1 else old(misses)
      ensures f == 0 ==> owner == old(owner) && free == old(free)
      ensures f != 0 ==> f !in old(owner) && owner == old(owner)[f := Held] && 0 < f < |mem|
    {
      if free == [] {
        misses := misses + 1;
        return 0;
      }
      f := free[0];
      assert InList(free, f);
      AddHeld(mem, owner, f);
      free := free[1..];
      owner := owner[f := Held];
      assert forall g :: InList(free, g) <==> InList(old(free), g) && g != f;
    }

    /** kalloc.c:59-77.  The guard's panic does not happen: only frames that kalloc handed out come back. */
    method Kfree(f: int) returns (panicked: bool)
      requires Owned() && f in owner && (owner[f].Held? || owner[f].Gone?)
      modifies `free, `owner, `mem
      ensures !panicked && Owned() && owner == old(owner) - {f} && mem == old(mem)[f := Junk] && free == [f] + old(free)
    {
      if f < lo || f >= |mem| {
        return true;
      }
      HeldWrite(mem, owner, f, Junk);
      mem := mem[f := Junk];
      DropHeld(mem, owner, f);
      free := [f] + free;
      owner := owner - {f};
      assert forall g :: InList(free, g) <==> InList(old(free), g) || g == f;
      return false;
    }

    /** A fresh, empty page table for entry i (vm.c:45-52). */
    method NewTable(d: int, i: int) returns (t: int)
      requires Owned() && IsDir(owner, d) && 0 <= i < ENTRIES && !Entry(mem, d, i).p
      modifies `free, `owner, `mem, `misses
      ensures misses == if t == 0 then old(misses) + 1 else old(misses)
      ensures Owned() && t == TabOf(mem, d, i) && (t == 0 <==> old(free) == [])
      ensures t == 0 ==> mem == old(mem) && owner == old(owner) && free == old(free)
      ensures TabAdded(old(mem), old(owner), mem, owner, d, i)
    {
      t := Kalloc();
      if t == 0 {
        return 0;
      }
      ghost var m, own := mem, owner;
      assert DirOk(m, own, d);
      mem := mem[t := ZeroTable()];
      mem := mem[d := Table(mem[d].e[i := Pte(true, t, PTE_P + PTE_W + PTE_U)])];
      owner := owner[t := Tab(d, i)];
      TabAddedNew(m, old(owner), d, i, t, mem, owner);
      FreeSame(m, free, own, lo, mem, owner);
    }

    /** vm.c:35-55, for directory entry i. */
    method Walkpgdir(d: int, i: int, alloc: bool) returns (t: int)
      requires Owned() && IsDir(owner, d) && 0 <= i < ENTRIES
      modifies `free, `owner, `mem, `misses
      ensures misses == if alloc && t == 0 then old(misses) + 1 else old(misses)
      ensures Owned() && t == TabOf(mem, d, i) && IsDir(owner, d)
      ensures !alloc || t == 0 || old(Entry(mem, d, i).p) ==>
        mem == old(mem) && owner == old(owner) && free == old(free)
      ensures t != 0 ==> IsTable(mem, t) && Entry(mem, d, i).p
      ensures alloc && t == 0 ==> old(free) == []
      ensures TabAdded(old(mem), old(owner), mem, owner, d, i)
    {
      assert DirOk(mem, owner, d) && TabOk(mem, owner, d, i);
      if mem[d].e[i].p {
        return mem[d].e[i].f;
      }
      if !alloc {
        return 0;
      }
      t := NewTable(d, i);
      assert TabAddedAt(old(mem), old(owner), mem, owner, d, i, d);
      assert TabOk(mem, owner, d, i);
    }

    /** mappages for one user page (vm.c:68-79): frame f, held by the caller, becomes page pg of d. */
    method MapPage(d: int, pg: int, f: int, perm: int) returns (r: int, panicked: bool)
      requires Owned() && IsDir(owner, d) && 0 <= pg < USER * ENTRIES && f in owner && owner[f] == Held
        && 0 < f < |mem| && mem[f].Data?
      modifies `free, `owner, `mem, `misses
      ensures misses == if r == -1 && !panicked then old(misses) + 1 else old(misses)
      ensures Owned() && (r == 0 || r == -1) && |mem| == |old(mem)| && IsDir(owner, d)
      ensures panicked <==> old(Leaf(mem, d, pg / ENTRIES, pg % ENTRIES).p)
      ensures r == -1 ==> mem == old(mem) && owner == old(owner) && free == old(free) && (!panicked ==> free == [])
      ensures panicked ==> r == -1
      ensures r == 0 ==>
        Leaf(mem, d, pg / ENTRIES, pg % ENTRIES) == Pte(true, f, OrP(perm)) && mem[f] == old(mem)[f]
      ensures r == 0 ==> OnePage(old(mem), mem, d, pg / ENTRIES, pg % ENTRIES)
      ensures r == 0 ==> Others(old(mem), old(owner) - {f}, mem, owner, d) && forall g :: g in old(owner) ==> g in owner
    {
      PageIndex(pg, 0, 0);
      var i, j := pg / ENTRIES, pg % ENTRIES;
      var t := Walkpgdir(d, i, true);
      assert TabAddedAt(old(mem), old(owner), mem, owner, d, i, d);
      if t == 0 {
        return -1, false;
      }
      ghost var m, own := mem, owner;
      if mem[t].e[j].p {
        return -1, true;
      }
      var flags := OrP(perm);
      MapWhole(old(mem), old(owner), m, own, d, i, j, f, Pte(true, f, flags));
      assert forall g :: g in old(owner) ==> TabAddedAt(old(mem), old(owner), m, own, d, i, g);
      MapUser(m, own, d, i, j, f, flags);
      LeafSet(m, own, d, i, j, Pte(true, f, flags), d, i, j);
      mem := mem[t := Table(mem[t].e[j := Pte(true, f, flags)])];
      owner := owner[f := User(d, i, j)];
      FreeSame(m, free, own, lo, mem, owner);
      return 0, false;
    }

    /** One page of deallocuvm: free the frame, clear the entry (vm.c:273-280). */
    method UnmapPage(d: int, i: int, j: int) returns (panicked: bool)
      requires Owned() && IsDir(owner, d) && 0 <= i < USER && 0 <= j < ENTRIES && Leaf(mem, d, i, j).p
      modifies `free, `owner, `mem
      ensures !panicked && Owned() && IsDir(owner, d)
      ensures OnePage(old(mem), mem, d, i, j) && !Leaf(mem, d, i, j).p
      ensures Others(old(mem), old(owner), mem, owner, d)
    {
      assert TabOk(mem, owner, d, i) && LeafOk(mem, owner, d, i, j);
      var t := mem[d].e[i].f;
      var pa := mem[t].e[j].f;
      if pa == 0 {
        return true;
      }
      ClearPteOthers(mem, owner, d, i, j);
      ClearPtePages(mem, owner, d, i, j);
      UnmapUser(mem, owner, d, i, j);
      ghost var m, own := mem, owner;
      mem := mem[t := Table(mem[t].e[j := NONE])];
      owner := owner[pa := Held];
      FreeSame(m, free, own, lo, mem, owner);
      panicked := Kfree(pa);
      assert owner == own - {pa};
    }

    /**
      vm.c:257-283.  Exactly the pages from PGROUNDUP(newsz) up to oldsz are unmapped and their frames freed;
      the 4 MB steps over missing page tables leave out nothing.
    */
    method Deallocuvm(d: int, oldsz: int, newsz: int) returns (r: int, panicked: bool)
      requires Owned() && IsDir(owner, d) && 0 <= oldsz <= KERNBASE && 0 <= newsz < UINT
      modifies `free, `owner, `mem, `misses
      ensures misses == old(misses)
      ensures !panicked && Owned() && IsDir(owner, d) && Others(old(mem), old(owner), mem, owner, d)
      ensures r == if newsz >= oldsz then oldsz else newsz
      ensures newsz >= oldsz ==> mem == old(mem) && owner == old(owner) && free == old(free)
      ensures newsz < oldsz ==> Cut(old(mem), mem, d, Up(newsz), Up(oldsz))
    {
      panicked := false;
      if newsz >= oldsz {
        OthersSelf(mem, free, owner, lo, d);
        return oldsz, false;
      }
      ghost var m, own := mem, owner;
      ghost var top := Up(oldsz);
      var pg := Up(newsz);
      PageBelow(pg, newsz);
      PageBelow(pg, oldsz);
      OthersSelf(m, free, own, lo, d);
      CutStart(m, own, d, pg);
      while pg * PGSIZE < oldsz
        invariant Up(newsz) <= pg && !panicked && Owned() && IsDir(owner, d) && Others(m, own, mem, owner, d)
        invariant Cut(m, mem, d, Up(newsz), if pg < top then pg else top) && misses == old(misses)
        decreases oldsz - pg * PGSIZE
      {
        ghost var m1, own1 := mem, owner;
        PageIndex(pg, 0, 0);
        PageBelow(pg, oldsz);
        var t := Walkpgdir(d, pg / ENTRIES, false);
        if t == 0 {
          ghost var next := (pg / ENTRIES + 1) * ENTRIES;
          CutSkip(m, m1, d, Up(newsz), pg, if next < top then next else top);
          pg := (pg / ENTRIES + 1) * ENTRIES - 1;
        } else {
          if mem[t].e[pg % ENTRIES].p {
            panicked := UnmapPage(d, pg / ENTRIES, pg % ENTRIES);
            OthersTrans(m, own, m1, own1, mem, owner, d);
          } else {
            OnePageSelf(m1, own1, d, pg / ENTRIES, pg % ENTRIES);
          }
          CutNext(m, m1, mem, d, Up(newsz), pg);
        }
        pg := pg + 1;
      }
      PageBelow(pg, oldsz);
      return newsz, false;
    }

    /** vm.c:306-315: page pg is kept, but no longer for the user. */
    method Clearpteu(d: int, pg: int) returns (panicked: bool)
      requires Valid() && IsDir(owner, d) && 0 <= pg < USER * ENTRIES
      modifies `free, `owner, `mem, `misses
      ensures Valid() && owner == old(owner) && free == old(free) && misses == old(misses)
      ensures panicked <==> !old(Entry(mem, d, pg / ENTRIES).p)
      ensures panicked ==> mem == old(mem)
      ensures !panicked ==>
        var was, e := old(Leaf(mem, d, pg / ENTRIES, pg % ENTRIES)), Leaf(mem, d, pg / ENTRIES, pg % ENTRIES);
        && e == was.(flags := e.flags) && !UserMay(e.flags)
        && (Marked(e.flags) <==> Marked(was.flags)) && (Writable(e.flags) <==> Writable(was.flags))
        && OnePage(old(mem), mem, d, pg / ENTRIES, pg % ENTRIES) && Others(old(mem), old(owner), mem, owner, d)
    {
      PageIndex(pg, 0, 0);
      var i, j := pg / ENTRIES, pg % ENTRIES;
      var t := Walkpgdir(d, i, false);
      assert TabOk(mem, owner, d, i);
      if t == 0 {
        return true;
      }
      var e := ClearU(mem[t].e[j]);
      assert LeafOk(mem, owner, d, i, j);
      ReflagPages(mem, free, owner, lo, d, i, j, e.flags);
      mem := mem[t := Table(mem[t].e[j := e])];
      return false;
    }

    /** A frame with content x for page pg: kalloc, fill, mappages.  The result tells which of the two failed. */
    method AddPage(d: int, pg: int, x: seq<int>, perm: int) returns (f: int, r: int, panicked: bool)
      requires Owned() && IsDir(owner, d) && 0 <= pg < USER * ENTRIES && !Leaf(mem, d, pg / ENTRIES, pg % ENTRIES).p
      modifies `free, `owner, `mem, `misses
      ensures misses == if f == 0 || r == -1 then old(misses) + 1 else old(misses)
      ensures !panicked && Owned() && |mem| == |old(mem)| && IsDir(owner, d) && (r == 0 || r == -1)
      ensures f == 0 ==> mem == old(mem) && owner == old(owner) && free == old(free) && free == []
      ensures f != 0 && r == -1 ==>
        && f !in old(owner) && 0 < f < |mem| && mem == old(mem)[f := Data(x)] && owner == old(owner)[f := Held]
        && free == []
      ensures f != 0 && r == 0 ==>
        && Leaf(mem, d, pg / ENTRIES, pg % ENTRIES) == Pte(true, f, OrP(perm)) && 0 < f < |mem| && mem[f] == Data(x)
        && OnePage(old(mem), mem, d, pg / ENTRIES, pg % ENTRIES) && Others(old(mem), old(owner), mem, owner, d)
        && forall g :: g in old(owner) ==> g in owner
    {
      PageIndex(pg, 0, 0);
      f := Kalloc();
      if f == 0 {
        return 0, -1, false;
      }
      HeldWrite(old(mem), old(owner), f, Data(x));
      HeldWrite(mem, owner, f, Data(x));
      ghost var own := owner;
      mem := mem[f := Data(x)];
      FreeSame(old(mem), free, own, lo, mem, owner);
      r, panicked := MapPage(d, pg, f, perm);
      if r == 0 {
        assert own - {f} == old(owner);
        FreshOthers(old(mem), old(owner), f, Data(x), mem, owner, d);
        FreshPage(old(mem), old(owner), f, Data(x), mem, d, pg / ENTRIES, pg % ENTRIES);
      }
    }

    /** allocuvm's way out: deallocuvm, and kfree of the frame that could not be mapped (vm.c:237-248). */
    method RollBack(d: int, oldsz: int, newsz: int, f: int, ghost m: Mem, ghost own: Owners, ghost pg: int)
      requires Owned() && IsDir(owner, d) && 0 <= oldsz < newsz < KERNBASE && Up(oldsz) <= pg <= Up(newsz)
      requires Grown(m, mem, d, Up(oldsz), pg) && AbsentFrom(m, d, Up(oldsz), USER) && |mem| == |m|
      requires (forall g :: g in own ==> !own[g].Gone?)
      requires f == 0 ==> Others(m, own, mem, owner, d)
      requires f != 0 ==>
        f !in own && f in owner && owner[f] == Held && 0 < f < |m|
          && Others(m[f := mem[f]], own[f := Held], mem, owner, d)
      modifies `free, `owner, `mem, `misses
      ensures misses == old(misses)
      ensures Valid() && IsDir(owner, d) && Others(m, own, mem, owner, d) && Unchanged(m, mem, d)
    {
      ghost var m1, own1 := mem, owner;
      var r, panicked := Deallocuvm(d, newsz, oldsz);
      RolledBack(m, m1, mem, d, Up(oldsz), pg, Up(newsz));
      if f != 0 {
        ghost var m2, own2 := mem, owner;
        OthersTrans(m[f := m1[f]], own[f := Held], m1, own1, m2, own2, d);
        assert SameAt(m1, own1, m2, own2, d, f);
        FreshJunk(m[f := m1[f]], own, f, m2, own2, d);
        FreshOthers(m, own, f, m1[f], m2[f := Junk], own2 - {f}, d);
        UnchangedJunk(m, m2, own2, d, f);
        panicked := Kfree(f);
      } else {
        OthersTrans(m, own, m1, own1, mem, owner, d);
      }
      NoGone(m, own, mem, owner, d);
    }

    /**
      vm.c:221-251.  The new pages are mapped to fresh zeroed frames; if memory runs out the user pages are
      as before, though page tables may have been added.
    */
    method Allocuvm(d: int, oldsz: int, newsz: int) returns (r: int, panicked: bool)
      requires Valid() && IsDir(owner, d) && 0 <= oldsz <= KERNBASE && 0 <= newsz < UINT
        && AbsentFrom(mem, d, Up(oldsz), USER)
      modifies `free, `owner, `mem, `misses
      ensures !panicked && Valid() && IsDir(owner, d) && Others(old(mem), old(owner), mem, owner, d)
      ensures newsz >= KERNBASE || newsz < oldsz ==> mem == old(mem) && owner == old(owner) && free == old(free)
      ensures newsz >= KERNBASE ==> r == 0
      ensures newsz < KERNBASE && newsz < oldsz ==> r == oldsz
      ensures misses == old(misses) || (oldsz <= newsz < KERNBASE && misses == old(misses) + 1)
      ensures oldsz <= newsz < KERNBASE ==>
        if misses == old(misses) then r == newsz && Grown(old(mem), mem, d, Up(oldsz), Up(newsz))
          else r == 0 && Unchanged(old(mem), mem, d)
    {
      panicked := false;
      ghost var m, own := mem, owner;
      OthersSelf(m, free, own, lo, d);
      if newsz >= KERNBASE {
        return 0, false;
      }
      if newsz < oldsz {
        return oldsz, false;
      }
      var pg := Up(oldsz);
      PageBelow(pg, oldsz);
      PageBelow(pg, newsz);
      GrownStart(m, own, d, pg);
      while pg * PGSIZE < newsz
        invariant Up(oldsz) <= pg <= Up(newsz) && !panicked && Valid() && IsDir(owner, d)
          && Others(m, own, mem, owner, d)
        invariant misses == old(misses) && Grown(m, mem, d, Up(oldsz), pg) && forall g :: g in own ==> g in owner
      {
        PageBelow(pg, newsz);
        PageIndex(pg, 0, 0);
        ghost var m1, own1 := mem, owner;
        assert GrownAt(m, m1, d, Up(oldsz), pg, pg / ENTRIES, pg % ENTRIES)
          && AbsentAt(m, d, Up(oldsz), pg / ENTRIES, pg % ENTRIES);
        var f, rr;
        f, rr, panicked := AddPage(d, pg, ZeroPage(), PTE_W + PTE_U);
        if f == 0 || rr < 0 {
          if f != 0 {
            GrownFresh(m, m1, own1, d, Up(oldsz), pg, f, Data(ZeroPage()));
            FreshHeld(m, own, m1, own1, d, f, Data(ZeroPage()));
          }
          RollBack(d, oldsz, newsz, f, m, own, pg);
          return 0, false;
        }
        GrownNext(m, m1, mem, d, Up(oldsz), pg);
        OthersTrans(m, own, m1, own1, mem, owner, d);
        NoGone(m1, own1, mem, owner, d);
        pg := pg + 1;
      }
      PageBelow(pg, newsz);
      return newsz, false;
    }

    /** vm.c:287-302.  Everything the address space owned goes back to the free list; nothing else changes. */
    method Freevm(d: int) returns (panicked: bool)
      requires Valid() && IsDir(owner, d)
      modifies `free, `owner, `mem, `misses
      ensures misses == old(misses)
      ensures !panicked && Valid() && owner == Rest(old(owner), d)
      ensures Others(old(mem), old(owner), mem, owner, d)
    {
      ghost var m, own := mem, owner;
      var r;
      r, panicked := Deallocuvm(d, KERNBASE, 0);
      AllCut(m, mem, d);
      NoGone(m, own, mem, owner, d);
      FreeingStart(m, own, mem, owner, d);
      ghost var own1 := owner;
      owner := RetireAll(owner, d);
      FreeSame(mem, free, own1, lo, mem, owner);
      ghost var tbl := mem[d].e;
      var i := 0;
      while i < ENTRIES
        invariant 0 <= i <= ENTRIES && !panicked && Owned() && Freeing(m, own, mem, owner, tbl, d, i)
          && misses == old(misses)
      {
        FreeingNext(m, own, mem, owner, tbl, d, i);
        if mem[d].e[i].p {
          panicked := Kfree(mem[d].e[i].f);
        }
        i := i + 1;
      }
      FreeingEnd(m, own, mem, owner, tbl, d);
      panicked := Kfree(d);
    }

    /** One iteration of mappages on a kernel page (vm.c:68-79). */
    method MapKernelPage(d: int, pg: int, pa: int, perm: int, ghost data: int) returns (r: int, panicked: bool)
      requires Valid() && IsDir(owner, d) && KPAGE <= pg < PAGES && KernelOnly(mem, d, data, pg)
        && Pte(true, pa, OrP(perm)) == KernelPte(data, pg)
      modifies `free, `owner, `mem, `misses
      ensures misses == if r == -1 then old(misses) + 1 else old(misses)
      ensures !panicked && Valid() && IsDir(owner, d) && Others(old(mem), old(owner), mem, owner, d)
      ensures r == -1 ==> mem == old(mem) && owner == old(owner)
      ensures r != -1 ==> r == 0 && KernelOnly(mem, d, data, pg + 1)
    {
      PageIndex(pg, 0, 0);
      OthersSelf(mem, free, owner, lo, d);
      var i, j := pg / ENTRIES, pg % ENTRIES;
      var t := Walkpgdir(d, i, true);
      if t == 0 {
        return -1, false;
      }
      ghost var m, own := mem, owner;
      KernelNext(old(mem), old(owner), m, own, d, data, pg);
      KernelOthers(old(mem), old(owner), m, own, d, i, j, KernelPte(data, pg));
      MapKernel(m, own, d, i, j, KernelPte(data, pg));
      if mem[t].e[j].p {
        return -1, true;
      }
      mem := mem[t := Table(mem[t].e[j := Pte(true, pa, OrP(perm))])];
      FreeSame(m, free, own, lo, mem, owner);
      NoGone(old(mem), old(owner), mem, owner, d);
      return 0, false;
    }

    /** vm.c:60-80 for a segment of kmap. */
    method Mappages(d: int, k: Segment, ghost data: int) returns (r: int, panicked: bool)
      requires Valid() && IsDir(owner, d) && Linked(data) && k in Kmap(data) && KernelOnly(mem, d, data, k.page)
      modifies `free, `owner, `mem, `misses
      ensures misses == if r == -1 then old(misses) + 1 else old(misses)
      ensures !panicked && Valid() && IsDir(owner, d) && Others(old(mem), old(owner), mem, owner, d)
      ensures r == 0 || r == -1
      ensures r == 0 ==> KernelOnly(mem, d, data, k.page + k.n)
    {
      ghost var m, own := mem, owner;
      OthersSelf(m, free, own, lo, d);
      var a, last, pa := k.page, k.page + k.n - 1, k.frame;
      while true
        invariant k.page <= a <= last && pa == k.frame + (a - k.page) && misses == old(misses)
        invariant Valid() && IsDir(owner, d) && Others(m, own, mem, owner, d) && KernelOnly(mem, d, data, a)
        decreases last - a
      {
        ghost var m1, own1 := mem, owner;
        r, panicked := MapKernelPage(d, a, pa, k.perm, data);
        OthersTrans(m, own, m1, own1, mem, owner, d);
        if r < 0 {
          return -1, false;
        }
        if a == last {
          break;
        }
        a, pa := a + 1, pa + 1;
      }
      return 0, false;
    }

    /** vm.c:118-136.  A new page table with the kernel's mappings and no user page, or everything as it was. */
    method Setupkvm(data: int) returns (d: int, panicked: bool)
      requires Valid() && Linked(data)
      modifies `free, `owner, `mem, `misses
      ensures misses == if d == 0 then old(misses) + 1 else old(misses)
      ensures !panicked && Valid()
      ensures d == 0 ==> owner == old(owner) && |mem| == |old(mem)| && forall f :: f in owner ==> mem[f] == old(mem)[f]
      ensures d != 0 ==>
        d !in old(owner) && IsDir(owner, d) && Exact(mem, d, data, 0, -1)
          && Others(old(mem), old(owner), mem, owner, d)
    {
      panicked := false;
      ghost var m, own := mem, owner;
      d := Kalloc();
      if d == 0 {
        return 0, false;
      }
      NewDirectory(d, m, own, data);
      var kmap := Kmap(data);
      var k := 0;
      while k < |kmap|
        invariant 0 <= k <= |kmap| && Valid() && IsDir(owner, d) && Others(m, own, mem, owner, d) && !panicked
        invariant KernelOnly(mem, d, data, if k < |kmap| then kmap[k].page else PAGES) && misses == old(misses)
          && d != 0
      {
        ghost var m1, own1 := mem, owner;
        var r;
        r, panicked := Mappages(d, kmap[k], data);
        OthersTrans(m, own, m1, own1, mem, owner, d);
        if r < 0 {
          ghost var m2, own2 := mem, owner;
          panicked := Freevm(d);
          OthersTrans(m, own, m2, own2, mem, owner, d);
          AllBack(m, own, mem, owner, d);
          return 0, false;
        }
        if k == 2 {
          KernelGap(mem, d, data);
        }
        k := k + 1;
      }
      KernelExact(mem, d, data);
    }

    /** The frame just allocated is zeroed and becomes the page directory (vm.c:126). */
    method NewDirectory(d: int, ghost m: Mem, ghost own: Owners, ghost data: int)
      requires Valid() && d !in own && owner == own[d := Held] && 0 < d < |mem| && mem == m
        && (forall f :: f in own ==> 0 <= f < |m|)
      modifies `owner, `mem
      ensures Valid() && IsDir(owner, d) && Others(m, own, mem, owner, d) && KernelOnly(mem, d, data, KPAGE)
    {
      ghost var held := owner;
      HeldWrite(mem, owner, d, ZeroTable());
      mem := mem[d := ZeroTable()];
      NewDir(mem, owner, d);
      owner := owner[d := Dir(d)];
      FreeSame(m, free, held, lo, mem, owner);
      KernelStart(mem, d, data);
      forall f
        ensures SameAt(m, own, mem, owner, d, f)
      {
      }
    }

    /** One page of copyuvm (vm.c:330-342). */
    method CopyPage(s: int, d: int, pg: int, ghost m: Mem, ghost own: Owners, ghost data: int)
      returns (ok: bool, panicked: bool)
      requires Valid() && IsDir(owner, d) && IsDir(own, s) && s != d && Own(m, own) && Others(m, own, mem, owner, d)
      requires 0 <= pg < USER * ENTRIES && Copied(m, mem, s, d, pg) && KernelHalf(mem, d, data)
      modifies `free, `owner, `mem, `misses
      ensures misses == if !ok && !panicked then old(misses) + 1 else old(misses)
      ensures Valid() && IsDir(owner, d) && Others(m, own, mem, owner, d)
      ensures panicked <==> !PresentAt(m, s, pg)
      ensures ok ==> !panicked && Copied(m, mem, s, d, pg + 1) && KernelHalf(mem, d, data)
    {
      PageIndex(pg, 0, 0);
      var i, j := pg / ENTRIES, pg % ENTRIES;
      OthersPages(m, own, mem, owner, d, s, i, j);
      ghost var m1, own1 := mem, owner;
      var t := Walkpgdir(s, i, false);
      if t == 0 || !mem[t].e[j].p {
        return false, true;
      }
      var pa, flags := mem[t].e[j].f, mem[t].e[j].flags;
      assert LeafOk(m, own, s, i, j) && CopiedAt(m, m1, s, d, pg, i, j);
      var f, r;
      f, r, panicked := AddPage(d, pg, mem[pa].x, flags);
      if f == 0 {
        return false, false;
      }
      if r < 0 {
        JunkUnowned(m, own, m1, own1, d, f);
        panicked := Kfree(f);
        assert own1[f := Held] - {f} == own1;
        assert mem == m1[f := Junk];
        return false, false;
      }
      OthersTrans(m, own, m1, own1, mem, owner, d);
      NoGone(m1, own1, mem, owner, d);
      CopiedNext(m, m1, mem, s, d, pg);
      KernelBeside(m1, mem, d, data, i, j);
      return true, false;
    }

    /**
      vm.c:319-349.  The child gets equal pages in frames of its own; if memory runs out, all that was
      allocated goes back.  The panics happen only if a page below sz is missing.
    */
    method Copyuvm(s: int, sz: int, data: int) returns (d: int, panicked: bool)
      requires Valid() && IsDir(owner, s) && 0 <= sz <= KERNBASE && Linked(data)
      modifies `free, `owner, `mem, `misses
      ensures misses == if d == 0 && !panicked then old(misses) + 1 else old(misses)
      ensures panicked ==> !Present(old(mem), s, Up(sz))
      ensures !panicked ==> Valid()
      ensures !panicked && d == 0 ==>
        owner == old(owner) && |mem| == |old(mem)| && forall f :: f in owner ==> mem[f] == old(mem)[f]
      ensures !panicked && d != 0 ==>
        d !in old(owner) && IsDir(owner, d) && Others(old(mem), old(owner), mem, owner, d)
          && Copied(old(mem), mem, s, d, Up(sz)) && KernelHalf(mem, d, data)
    {
      ghost var m, own := mem, owner;
      d, panicked := Setupkvm(data);
      if d == 0 {
        return 0, false;
      }
      ExactAbsent(mem, d, data, 0, -1);
      CopiedStart(m, mem, s, d);
      var pg := 0;
      PageBelow(pg, sz);
      while pg * PGSIZE < sz
        invariant 0 <= pg <= Up(sz) && Valid() && IsDir(owner, d) && Others(m, own, mem, owner, d)
          && Copied(m, mem, s, d, pg)
        invariant KernelHalf(mem, d, data) && misses == old(misses)
      {
        PageBelow(pg, sz);
        var ok;
        ok, panicked := CopyPage(s, d, pg, m, own, data);
        if panicked {
          return 0, true;
        }
        if !ok {
          NoneOf(m, own, d);
          ghost var m2, own2 := mem, owner;
          panicked := Freevm(d);
          OthersTrans(m, own, m2, own2, mem, owner, d);
          AllBack(m, own, mem, owner, d);
          return 0, false;
        }
        pg := pg + 1;
      }
      PageBelow(pg, sz);
      return d, false;
    }

    /**
      proc.c:159-176.  The present pages are exactly those below the size, as long as the process is not shrunk
      to nothing: then the pages are freed but the call reports failure and the size stays.
    */
    method Growproc(d: int, sz: int, n: int, ghost data: int, ghost g: int) returns (r: int, newsz: int)
      requires Valid() && IsDir(owner, d) && 0 <= sz < KERNBASE && -KERNBASE <= n < KERNBASE
      requires Exact(mem, d, data, Up(sz), g) && -1 <= g < Up(sz)
      modifies `free, `owner, `mem, `misses
      ensures Valid() && IsDir(owner, d) && Others(old(mem), old(owner), mem, owner, d) && 0 <= newsz < KERNBASE
      ensures Exact(mem, d, data, Up(newsz), Kept(g, Up(newsz))) <==> !Break.FreesAll(sz, n)
      ensures Break.FreesAll(sz, n) ==> Exact(mem, d, data, 0, -1)
      ensures r == if Break.Answers(sz, n, misses == old(misses)) then 0 else -1
      ensures newsz == Break.SizeAfter(sz, n, misses == old(misses))
      ensures misses == old(misses) || (misses == old(misses) + 1 && 0 < n && sz + n < KERNBASE)
    {
      var panicked;
      newsz := sz;
      PageBelow(0, sz);
      ExactAbsent(mem, d, data, Up(sz), g);
      OthersSelf(mem, free, owner, lo, d);
      if n > 0 {
        newsz, panicked := Allocuvm(d, sz, (sz + n) % UINT);
        if newsz == 0 {
          ExactFailed(old(mem), mem, d, data, Up(sz), g);
          return -1, sz;
        }
        PageBelow(0, newsz);
        ExactGrown(old(mem), mem, d, data, Up(sz), Up(newsz), g);
      } else if n < 0 {
        newsz, panicked := Deallocuvm(d, sz, (sz + n) % UINT);
        NoGone(old(mem), old(owner), mem, owner, d);
        if newsz < sz {
          PageBelow(0, newsz);
          ExactCut(old(mem), mem, d, data, Up(newsz), Up(sz), g);
        }
        if newsz == 0 {
          if sz > 0 {
            ExactNot(mem, d, data, 0, Up(sz), -1, g);
          }
          return -1, sz;
        }
      }
      return 0, newsz;
    }

    /** sysproc.c:57-76.  When the present pages are exactly those below the size, this is sys_getvpages' number. */
    method Getptentries(d: int, sz: int, ghost data: int, ghost g: int) returns (count: int)
      requires Valid() && IsDir(owner, d) && 0 <= sz <= KERNBASE
      ensures count == CountPresent(mem, d, Up(sz))
      ensures Exact(mem, d, data, Up(sz), g) ==> count == Up(sz)
    {
      count := 0;
      var pg := 0;
      PageBelow(pg, sz);
      assert DirOk(mem, owner, d);
      while pg * PGSIZE < sz
        invariant 0 <= pg <= Up(sz) && count == CountPresent(mem, d, pg)
      {
        PageBelow(pg, sz);
        PageIndex(pg, 0, 0);
        assert TabOk(mem, owner, d, pg / ENTRIES);
        var pde := mem[d].e[pg / ENTRIES];
        if pde.p && mem[pde.f].e[pg % ENTRIES].p {
          count := count + 1;
        }
        pg := pg + 1;
      }
      PageBelow(pg, sz);
      if Exact(mem, d, data, Up(sz), g) {
        ExactPresent(mem, d, data, Up(sz), g);
        AllPresent(mem, d, Up(sz));
      }
    }

    /** The segments of exec one after the other (exec.c:43-58). */
    method GrowAll(d: int, tops: seq<int>, ghost data: int) returns (ok: bool, sz: int)
      requires Valid() && IsDir(owner, d) && Exact(mem, d, data, 0, -1) && Uints(tops)
      modifies `free, `owner, `mem, `misses
      ensures Valid() && IsDir(owner, d) && Others(old(mem), old(owner), mem, owner, d)
      ensures ok ==> sz == Top(tops) && 0 <= sz < KERNBASE && Exact(mem, d, data, Up(sz), -1)
      ensures ok <==> Loads(tops) && misses == old(misses)
      ensures misses == old(misses) || misses == old(misses) + 1
    {
      ghost var m, own := mem, owner;
      OthersSelf(m, free, own, lo, d);
      sz := 0;
      for i := 0 to |tops|
        invariant Valid() && IsDir(owner, d) && Others(m, own, mem, owner, d) && misses == old(misses)
        invariant sz == Top(tops[..i]) && 0 <= sz < KERNBASE && (i > 0 ==> sz > 0) && Loads(tops[..i])
        invariant Exact(mem, d, data, Up(sz), -1)
      {
        ghost var m1, own1 := mem, owner;
        TopMore(tops, i);
        LoadsMore(tops, i);
        PageBelow(0, sz);
        ExactAbsent(mem, d, data, Up(sz), -1);
        var r, panicked := Allocuvm(d, sz, tops[i]);
        OthersTrans(m, own, m1, own1, mem, owner, d);
        if r == 0 {
          return false, 0;
        }
        if sz <= tops[i] {
          PageBelow(0, tops[i]);
          ExactGrown(m1, mem, d, data, Up(sz), Up(tops[i]), -1);
        }
        sz := r;
      }
      assert tops[..|tops|] == tops;
      return true, sz;
    }

    /** Two pages above the segments: the stack, and below it one that the user may not touch (exec.c:65-68). */
    method NewStack(d: int, top: int, ghost data: int) returns (ok: bool, q: Shape)
      requires Valid() && IsDir(owner, d) && 0 <= top < KERNBASE && Exact(mem, d, data, Up(top), -1)
      modifies `free, `owner, `mem, `misses
      ensures Valid() && IsDir(owner, d) && Others(old(mem), old(owner), mem, owner, d)
      ensures ok <==> WithStack(top).sz < KERNBASE && misses == old(misses)
      ensures ok ==> q == WithStack(top) && Exact(mem, d, data, Up(q.sz), q.guard)
      ensures misses == old(misses) || misses == old(misses) + 1
    {
      ghost var m, own := mem, owner;
      var sz := Up(top) * PGSIZE;
      PageBelow(0, top);
      Rounded(Up(top));
      Rounded(Up(top) + 2);
      ExactAbsent(mem, d, data, Up(top), -1);
      var panicked;
      sz, panicked := Allocuvm(d, sz, sz + 2 * PGSIZE);
      if sz == 0 {
        return false, Shape(0, -1);
      }
      ghost var m1, own1 := mem, owner;
      PageBelow(0, sz);
      ExactGrown(m, mem, d, data, Up(top), Up(sz), -1);
      var g := (sz - 2 * PGSIZE) / PGSIZE;
      PageIndex(g, g / ENTRIES, g % ENTRIES);
      assert ExactAt(mem, d, Up(sz), -1, g / ENTRIES, g % ENTRIES);
      panicked := Clearpteu(d, g);
      ExactClosed(m1, mem, d, data, Up(sz), g);
      OthersTrans(m, own, m1, own1, mem, owner, d);
      return true, Shape(sz, g);
    }

    /** The address space that exec makes, or none (exec.c:38-68, 106-108). */
    method NewSpace(tops: seq<int>, data: int, ghost procs: seq<Process>) returns (d: int, q: Shape)
      requires Valid() && AllSpaces(mem, owner, data, procs) && Uints(tops) && Linked(data)
      modifies `free, `owner, `mem, `misses
      ensures Valid() && (misses == old(misses) || misses == old(misses) + 1)
      ensures d != 0 <==> Fits(tops) && misses == old(misses)
      ensures d != 0 ==> q == WithStack(Top(tops))
      ensures AllSpaces(mem, owner, data, if d == 0 then procs else procs + [Process(d, q)])
    {
      ghost var m, own := mem, owner;
      var panicked, ok, top;
      q := Shape(0, -1);
      d, panicked := Setupkvm(data);
      if d == 0 {
        SpacesSame(m, own, data, procs, mem);
        return 0, q;
      }
      NoneOf(m, own, d);
      ghost var m1, own1 := mem, owner;
      ok, top := GrowAll(d, tops, data);
      OthersTrans(m, own, m1, own1, mem, owner, d);
      if ok {
        ghost var m2, own2 := mem, owner;
        ok, q := NewStack(d, top, data);
        OthersTrans(m, own, m2, own2, mem, owner, d);
      }
      if !ok {
        ghost var m3, own3 := mem, owner;
        panicked := Freevm(d);
        OthersTrans(m, own, m3, own3, mem, owner, d);
        AllBack(m, own, mem, owner, d);
        SpacesSame(m, own, data, procs, mem);
        return 0, q;
      }
      TopBelow(tops);
      Rounded(Up(Top(tops)) + 2);
      SpaceAdded(m, own, data, procs, mem, owner, Process(d, q));
    }

    /** fork's copy of the address space of process k. */
    method ForkSpace(p: Process, data: int, ghost procs: seq<Process>, ghost k: int) returns (d: int, panicked: bool)
      requires Valid() && AllSpaces(mem, owner, data, procs) && 0 <= k < |procs| && procs[k] == p && Linked(data)
      modifies `free, `owner, `mem, `misses
      ensures misses == if d == 0 then old(misses) + 1 else old(misses)
      ensures !panicked && Valid()
      ensures AllSpaces(mem, owner, data, if d == 0 then procs else procs + [Process(d, p.shape)])
      ensures d != 0 ==> Copied(old(mem), mem, p.d, d, Up(p.shape.sz))
    {
      ghost var m, own := mem, owner;
      var sz := p.shape.sz;
      assert SpaceOk(mem, owner, data, p);
      PageBelow(0, sz);
      ExactPresent(mem, p.d, data, Up(sz), p.shape.guard);
      d, panicked := Copyuvm(p.d, sz, data);
      if d == 0 {
        SpacesSame(m, own, data, procs, mem);
      } else {
        ExactCopied(m, mem, p.d, d, data, Up(sz), p.shape.guard);
        SpaceAdded(m, own, data, procs, mem, owner, Process(d, p.shape));
      }
    }

    /** growproc of process k, unless that would shrink it to nothing. */
    method GrowSpace(procs: seq<Process>, k: int, n: int, ghost data: int) returns (now: seq<Process>)
      requires Valid() && AllSpaces(mem, owner, data, procs) && 0 <= k < |procs| && -KERNBASE <= n < KERNBASE
        && procs[k].shape.sz + n != 0
      modifies `free, `owner, `mem, `misses
      ensures Valid() && AllSpaces(mem, owner, data, now) && (misses == old(misses) || misses == old(misses) + 1)
      ensures Shapes(now) ==
        if misses == old(misses) then Shapes(procs)[k := Reshaped(procs[k].shape, n)] else Shapes(procs)
    {
      ghost var m, own := mem, owner;
      var p := procs[k];
      assert SpaceOk(mem, owner, data, p);
      var r, sz := Growproc(p.d, p.shape.sz, n, data, p.shape.guard);
      var q := Process(p.d, Shape(sz, Kept(p.shape.guard, Up(sz))));
      PageBelow(0, sz);
      SpaceChanged(m, own, data, procs, k, mem, owner, q);
      ShapesSet(procs, k, q);
      now := procs[k := q];
    }

    /** freevm of process k, by the parent that waits for it. */
    method ExitSpace(procs: seq<Process>, k: int, ghost data: int) returns (now: seq<Process>, panicked: bool)
      requires Valid() && AllSpaces(mem, owner, data, procs) && 0 <= k < |procs|
      modifies `free, `owner, `mem, `misses
      ensures !panicked && Valid() && AllSpaces(mem, owner, data, now) && misses == old(misses)
      ensures Shapes(now) == Shapes(procs)[..k] + Shapes(procs)[k + 1..]
    {
      ghost var m, own := mem, owner;
      assert SpaceOk(mem, owner, data, procs[k]);
      panicked := Freevm(procs[k].d);
      SpaceGone(m, own, data, procs, k, mem, owner);
      ShapesDrop(procs, k);
      now := procs[..k] + procs[k + 1..];
    }

    /** One call; it either has its whole effect, or kalloc found no frame and it has none. */
    method Perform(c: Call, data: int, procs: seq<Process>) returns (now: seq<Process>, panicked: bool)
      requires Valid() && AllSpaces(mem, owner, data, procs) && Linked(data)
      modifies `free, `owner, `mem, `misses
      ensures !panicked && Valid() && AllSpaces(mem, owner, data, now)
      ensures misses == old(misses) || misses == old(misses) + 1
      ensures Shapes(now) == if misses == old(misses) then After(Shapes(procs), c) else Shapes(procs)
    {
      now, panicked := procs, false;
      match c {
        case Spawn(tops) =>
          if Uints(tops) {
            var d, q := NewSpace(tops, data, procs);
            ShapesAdd(procs, Process(d, q));
            if d != 0 {
              now := procs + [Process(d, q)];
            }
          }
        case Grow(k, n) =>
          if 0 <= k < |procs| && -KERNBASE <= n < KERNBASE && procs[k].shape.sz + n != 0 {
            now := GrowSpace(procs, k, n, data);
          }
        case Fork(k) =>
          if 0 <= k < |procs| {
            var d;
            d, panicked := ForkSpace(procs[k], data, procs, k);
            ShapesAdd(procs, Process(d, procs[k].shape));
            if d != 0 {
              now := procs + [Process(d, procs[k].shape)];
            }
          }
        case Exit(k) =>
          if 0 <= k < |procs| {
            now, panicked := ExitSpace(procs, k, data);
          }
      }
    }

    /**
      In every run of exec, growproc, fork and exit, without shrinking to nothing, no panic happens, every frame in
      use belongs to a process, and every process has the kernel's mappings and exactly the pages below its size,
      all for the user but the guard page.  The shapes are those that the calls ask for, but for as many calls as
      kalloc found no frame.
    */
    method Run(calls: seq<Call>, data: int) returns (procs: seq<Process>, ghost oks: seq<bool>, panicked: bool)
      requires Valid() && owner == map[] && Linked(data)
      modifies `free, `owner, `mem, `misses
      ensures !panicked && Valid() && AllSpaces(mem, owner, data, procs)
      ensures |oks| == |calls| && Shapes(procs) == AfterAll(calls, oks) && misses == old(misses) + Failures(oks)
    {
      procs, oks, panicked := [], [], false;
      for i := 0 to |calls|
        invariant !panicked && Valid() && AllSpaces(mem, owner, data, procs) && |oks| == i
        invariant Shapes(procs) == AfterAll(calls[..i], oks) && misses == old(misses) + Failures(oks)
      {
        ghost var was := misses;
        procs, panicked := Perform(calls[i], data, procs);
        AfterMore(calls, i, oks, misses == was);
        oks := oks + [misses == was];
      }
      assert calls[..|calls|] == calls;
    }
  }

  lemma Rounded(n: int)
    requires 0 <= n
    ensures Up(n * PGSIZE) == n
  {
  }

  /** A failed allocuvm leaves the pages as they were. */
  lemma ExactFailed(m: Mem, n: Mem, d: int, data: int, pages: int, g: int)
    requires Exact(m, d, data, pages, g) && (n == m || Unchanged(m, n, d))
    ensures Exact(n, d, data, pages, g)
  {
    if Unchanged(m, n, d) {
      ExactUnchanged(m, n, d, data, pages, g);
    }
  }

  /** Before freerange the kernel holds every frame. */
  ghost function AllHeld(first: int, end: int): (own: Owners)
    ensures forall f :: f in own <==> first <= f < end
    ensures forall f :: f in own ==> own[f] == Held
    decreases end - first
  {
    if end <= first then map[] else AllHeld(first, end - 1)[end - 1 := Held]
  }
}
