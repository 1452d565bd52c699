/** sys_sbrk and growproc (sysproc.c:78-91, proc.c:159-176): what becomes of the size of a process, in bytes. */
module Break {
  import Spaces

  /** sbrk(n) answers with the old size sz; `memory` says whether kalloc found all the frames it was asked for. */
  predicate Answers(sz: int, n: int, memory: bool)
  {
    if n > 0 then sz + n < Spaces.KERNBASE && memory
    else if n == 0 then true
    else sz != 0 && sz + n != 0
  }

  /** The size afterwards; a shrink below zero wraps around and is ignored. */
  function SizeAfter(sz: int, n: int, memory: bool): int
  {
    if !Answers(sz, n, memory) || sz + n < 0 then sz else sz + n
  }

  /** A shrink to exactly nothing frees all pages, although it is refused and the size stays. */
  predicate FreesAll(sz: int, n: int)
  {
    n < 0 && sz + n == 0
  }
}
