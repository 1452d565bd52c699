/** The arithmetic of malloc and morecore, and what sbrk makes of it.  Addresses count units of the size of a header. */
module UmallocBreak {
  import Break
  import Spaces

  const HEADER: int := 8
  const WRAP: int := 0x1_0000_0000
  const MORE: int := 4096

  datatype Address = Null | At(addr: int)

  /** The units malloc asks for, in 32-bit arithmetic (umalloc.c:69). */
  function Units(nbytes: int): int
  {
    (nbytes + HEADER - 1) % WRAP / HEADER + 1
  }

  /** The units of the block that morecore makes (umalloc.c:52-58). */
  function Grown(nu: int): int
  {
    if nu < MORE then MORE else nu
  }

  /** The number of bytes as sbrk's int parameter receives it (umalloc.c:54). */
  function Asked(nu: int): int
  {
    var n := nu * HEADER % WRAP;
    if n < WRAP / 2 then n else n - WRAP
  }

  /** A process of this many units fits below the kernel. */
  predicate InHalf(sz: int)
  {
    0 <= sz * HEADER < Spaces.KERNBASE
  }

  ghost predicate Under(core: set<int>, a: int)
  {
    forall u :: u in core ==> 0 <= u < a
  }

  /** What sbrk(n) answers in a process of size sz units. */
  function Answer(sz: int, n: int, memory: bool): Address
  {
    if Break.Answers(sz * HEADER, n, memory) then At(sz) else Null
  }

  /** What it answers to morecore for a request of nbytes. */
  function Reply(nbytes: int, sz: int, memory: bool): Address
  {
    Answer(sz, Asked(Grown(Units(nbytes))), memory)
  }

  /** The size of the process afterwards, in units. */
  function NextBreak(sz: int, n: int, memory: bool): int
  {
    Break.SizeAfter(sz * HEADER, n, memory) / HEADER
  }

  /** The n units from g on. */
  ghost function Range(g: int, n: int): (r: set<int>)
    ensures forall u :: u in r <==> g <= u < g + n
    decreases n
  {
    if n <= 0 then {} else Range(g, n - 1) + {g + n - 1}
  }

  /** What the process has after sbrk(n), of what it had got from sbrk before. */
  ghost function Obtained(core: set<int>, sz: int, n: int, memory: bool): set<int>
  {
    var b := NextBreak(sz, n, memory);
    if Break.FreesAll(sz * HEADER, n) then {}
    else if b >= sz then core + Range(sz, b - sz)
    else set u | u in core && u < b
  }

  // ---------------------------------------------------------------------------------------------
  // Which requests are served
  // ---------------------------------------------------------------------------------------------

  /** Exactly the requests whose rounding does not wrap around get a block that holds them. */
  lemma UnitsSuffice(nbytes: int)
    requires 0 <= nbytes < WRAP
    ensures 1 <= Units(nbytes) && Units(nbytes) * HEADER <= WRAP
    ensures nbytes <= (Units(nbytes) - 1) * HEADER <==> nbytes <= WRAP - HEADER
  {
  }

  /** morecore makes the smallest block that has both the units asked for and 4096 of them. */
  lemma GrownLeast(nu: int, r: int)
    ensures r >= Grown(nu) <==> r >= nu && r >= 4096
  {
  }

  /** sbrk is asked for the units that morecore hands out exactly if their number of bytes is a positive int. */
  lemma AskedExactly(nbytes: int)
    requires 0 <= nbytes < WRAP
    ensures Asked(Grown(Units(nbytes))) == HEADER * Grown(Units(nbytes))
            <==> nbytes <= WRAP / 2 - 2 * HEADER || nbytes > WRAP - HEADER
  {
  }

  /**
    malloc serves a request from fresh memory, whole and in memory that was obtained, exactly up to 2^31 - 16
    bytes.
  */
  lemma Served(nbytes: int)
    requires 0 <= nbytes < WRAP
    ensures nbytes <= (Units(nbytes) - 1) * HEADER && Asked(Grown(Units(nbytes))) == HEADER * Grown(Units(nbytes))
            <==> nbytes <= WRAP / 2 - 2 * HEADER
  {
    AskedExactly(nbytes);
    UnitsSuffice(nbytes);
  }

  /** For 2^31 bytes sbrk is asked for a negative number. */
  lemma HugeRequest()
    ensures Units(0x8000_0000) == 0x1000_0001 && Asked(Grown(Units(0x8000_0000))) == 8 - 0x8000_0000
  {
  }

  /** The break does not move up then, so the next answer of sbrk lies in the block just handed out, or below it. */
  lemma BreakStays(nbytes: int, sz: int, memory: bool)
    requires 0 <= nbytes < WRAP && InHalf(sz) && WRAP / 2 - 2 * HEADER < nbytes <= WRAP - HEADER
    ensures NextBreak(sz, Asked(Grown(Units(nbytes))), memory) <= sz < sz + Units(nbytes)
  {
    AskedExactly(nbytes);
    var n := Asked(Grown(Units(nbytes)));
    assert n <= 0 && n % HEADER == 0;
  }

  /**
    A request of 2^32 - sz - 8 bytes, in a process of sz bytes: sbrk is asked for -sz bytes, frees all pages of the
    process and refuses.  In a process of 0x4000 bytes this is malloc(0xFFFFBFF8).
  */
  lemma FreesItself(sz: int, core: set<int>, memory: bool)
    requires 0 < sz && InHalf(sz)
    ensures var nbytes := WRAP - sz * HEADER - HEADER;
            && 0 <= nbytes < WRAP && Asked(Grown(Units(nbytes))) == -(sz * HEADER)
            && Reply(nbytes, sz, memory) == Null && Obtained(core, sz, Asked(Grown(Units(nbytes))), memory) == {}
    ensures sz == 0x800 ==> WRAP - sz * HEADER - HEADER == 0xFFFF_BFF8
  {
    var nu := 0x2000_0000 - sz;
    assert Units(WRAP - sz * HEADER - HEADER) == nu;
    assert nu * HEADER % WRAP == nu * HEADER;
  }

  // ---------------------------------------------------------------------------------------------
  // What morecore takes for its own, and what it got
  // ---------------------------------------------------------------------------------------------

  /** The units of the blocks, with nu more if sbrk answers. */
  ghost function Claimed(core: set<int>, sz: int, nu: int, memory: bool): set<int>
  {
    if Answer(sz, Asked(nu), memory).At? then core + Range(sz, nu) else core
  }

  /** sbrk was asked for exactly nu units, or it refused and there was nothing to lose. */
  ghost predicate Backed(core: set<int>, sz: int, nu: int, memory: bool)
  {
    Asked(nu) == HEADER * nu || (Answer(sz, Asked(nu), memory).Null? && core == {})
  }

  /** The two are the same exactly then. */
  lemma ObtainedIff(core: set<int>, sz: int, nu: int, memory: bool)
    requires 1 <= nu && nu * HEADER <= WRAP && 0 < sz && InHalf(sz) && Under(core, sz)
    ensures Claimed(core, sz, nu, memory) == Obtained(core, sz, Asked(nu), memory) <==> Backed(core, sz, nu, memory)
  {
    var n := Asked(nu);
    assert n == HEADER * nu || (n <= 0 && n % HEADER == 0);
    var b := NextBreak(sz, n, memory);
    if n == HEADER * nu {
      assert b == if Answer(sz, n, memory).At? then sz + nu else sz;
    } else {
      assert b <= sz;
      if Answer(sz, n, memory).At? {
        assert sz in Claimed(core, sz, nu, memory) && sz !in Obtained(core, sz, n, memory);
      } else {
        assert Obtained(core, sz, n, memory) == {};
      }
    }
  }

  /** What the process has lies below its size, as long as that is what the blocks are made of. */
  lemma BelowNext(core: set<int>, sz: int, n: int, memory: bool)
    requires 0 <= sz && Under(core, sz) && n % HEADER == 0 && InHalf(sz)
    ensures var b := NextBreak(sz, n, memory);
            InHalf(b) && Under(Obtained(core, sz, n, memory), b)
  {
  }
}
