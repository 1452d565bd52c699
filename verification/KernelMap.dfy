/** The kernel half of every page table: kmap and the loops of mappages and setupkvm that install it. */
module KernelMap {
  import opened Frames
  import opened Spaces

  /** KERNBASE, V2P(KERNLINK), PHYSTOP and DEVSPACE, in pages. */
  const KPAGE: int := USER * ENTRIES
  const EXTMEM: int := 256
  const PHYSTOP: int := 57344
  const DEVSPACE: int := 1040384
  const PAGES: int := ENTRIES * ENTRIES

  datatype Segment = Segment(page: int, n: int, frame: int, perm: int)

  /** vm.c:105-115; `data` is the page number of V2P(data). */
  function Kmap(data: int): seq<Segment>
  {
    [Segment(KPAGE, EXTMEM, 0, PTE_W),
     Segment(KPAGE + EXTMEM, data - EXTMEM, EXTMEM, 0),
     Segment(KPAGE + data, PHYSTOP - data, data, PTE_W),
     Segment(DEVSPACE, PAGES - DEVSPACE, DEVSPACE, PTE_W)]
  }

  predicate Linked(data: int)
  {
    EXTMEM < data < PHYSTOP
  }

  /** What kernel page pg is mapped to: physical memory from 0 on, the devices one to one, read-only below data. */
  function KernelPte(data: int, pg: int): Pte
  {
    if KPAGE <= pg < KPAGE + PHYSTOP then
      Pte(true, pg - KPAGE, if EXTMEM <= pg - KPAGE < data then PTE_P else PTE_P + PTE_W)
    else if DEVSPACE <= pg < PAGES then Pte(true, pg, PTE_P + PTE_W)
    else NONE
  }

  /** Kernel pages below upto are mapped; no other page is. */
  predicate KernelAt(m: Mem, d: int, data: int, upto: int, i: int, j: int)
  {
    Leaf(m, d, i, j) == if i >= USER && i * ENTRIES + j < upto then KernelPte(data, i * ENTRIES + j) else NONE
  }

  ghost predicate KernelOnly(m: Mem, d: int, data: int, upto: int)
  {
    forall i, j :: 0 <= i < ENTRIES && 0 <= j < ENTRIES ==> KernelAt(m, d, data, upto, i, j)
  }

  lemma KernelStart(m: Mem, d: int, data: int)
    requires forall i, j :: 0 <= i < ENTRIES ==> Leaf(m, d, i, j) == NONE
    ensures KernelOnly(m, d, data, KPAGE)
  {
  }

  /** Between two segments nothing is mapped. */
  lemma KernelGap(m: Mem, d: int, data: int)
    requires KernelOnly(m, d, data, KPAGE + PHYSTOP)
    ensures KernelOnly(m, d, data, DEVSPACE)
  {
    forall i, j | 0 <= i < ENTRIES && 0 <= j < ENTRIES
      ensures KernelAt(m, d, data, DEVSPACE, i, j)
    {
      assert KernelAt(m, d, data, KPAGE + PHYSTOP, i, j);
    }
  }

  /** One iteration of mappages on a kernel page. */
  lemma KernelNext(m0: Mem, own0: Owners, m: Mem, own: Owners, d: int, data: int, pg: int)
    requires Own(m, own) && IsDir(own0, d) && IsDir(own, d) && TabAdded(m0, own0, m, own, d, pg / ENTRIES)
    requires KPAGE <= pg < PAGES && Entry(m, d, pg / ENTRIES).p && KernelOnly(m0, d, data, pg)
    ensures IsTable(m, TabOf(m, d, pg / ENTRIES)) && !Leaf(m, d, pg / ENTRIES, pg % ENTRIES).p
    ensures KernelOnly(SetPte(m, TabOf(m, d, pg / ENTRIES), pg % ENTRIES, KernelPte(data, pg)), d, data, pg + 1)
  {
    var a, b, e, next := pg / ENTRIES, pg % ENTRIES, KernelPte(data, pg), pg + 1;
    PageIndex(pg, a, b);
    LeafSet(m, own, d, a, b, e, d, a, b);
    assert KernelAt(m0, d, data, pg, a, b);
    var n := SetPte(m, TabOf(m, d, a), b, e);
    forall i, j | 0 <= i < ENTRIES && 0 <= j < ENTRIES
      ensures KernelAt(n, d, data, next, i, j)
    {
      PageIndex(pg, i, j);
      LeafSet(m, own, d, a, b, e, d, i, j);
      assert KernelAt(m0, d, data, pg, i, j);
    }
  }

  /** A kernel entry is written into a table of d, so nothing outside d changes. */
  lemma KernelOthers(m0: Mem, own0: Owners, m: Mem, own: Owners, d: int, i: int, j: int, e: Pte)
    requires Own(m, own) && IsDir(own0, d) && IsDir(own, d) && TabAdded(m0, own0, m, own, d, i) && 0 <= i < ENTRIES
      && 0 <= j < ENTRIES
    requires Entry(m, d, i).p
    ensures IsTable(m, TabOf(m, d, i)) && Others(m0, own0, SetPte(m, TabOf(m, d, i), j, e), own, d)
  {
    assert TabOk(m, own, d, i);
    var n := SetPte(m, TabOf(m, d, i), j, e);
    forall f
      ensures SameAt(m0, own0, n, own, d, f)
    {
      assert TabAddedAt(m0, own0, m, own, d, i, f);
    }
  }

  /** clearpteu writes one entry of its own directory, and no frame changes hands. */
  lemma ReflagPages(m: Mem, free: seq<int>, own: Owners, lo: int, d: int, i: int, j: int, flags: int)
    requires Own(m, own) && FreeOk(m, free, own, lo) && IsDir(own, d) && 0 <= i < USER && 0 <= j < ENTRIES
      && Entry(m, d, i).p && TabAdded(m, own, m, own, d, i)
    requires Leaf(m, d, i, j).p ==> Marked(flags)
    ensures IsTable(m, TabOf(m, d, i))
    ensures var e := Leaf(m, d, i, j).(flags := flags);
            var n := SetPte(m, TabOf(m, d, i), j, e);
            Own(n, own) && FreeOk(n, free, own, lo) && OnePage(m, n, d, i, j) && Leaf(n, d, i, j) == e
              && Others(m, own, n, own, d)
  {
    var e := Leaf(m, d, i, j).(flags := flags);
    Reflag(m, own, d, i, j, flags);
    SetPtePages(m, own, d, i, j, e);
    KernelOthers(m, own, m, own, d, i, j, e);
    FreeSame(m, free, own, lo, SetPte(m, TabOf(m, d, i), j, e), own);
  }

  /** What setupkvm installs: the kernel's half and no user page. */
  lemma KernelExact(m: Mem, d: int, data: int)
    requires KernelOnly(m, d, data, PAGES) && Linked(data)
    ensures Exact(m, d, data, 0, -1)
  {
    forall i, j | USER <= i < ENTRIES && 0 <= j < ENTRIES
      ensures KernelLeaf(m, d, data, i, j)
    {
      assert KernelAt(m, d, data, PAGES, i, j);
    }
    forall i, j | 0 <= i < USER && 0 <= j < ENTRIES
      ensures ExactAt(m, d, 0, -1, i, j)
    {
      assert KernelAt(m, d, data, PAGES, i, j);
    }
  }
}
