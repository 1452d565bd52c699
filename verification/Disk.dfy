/**
  The disk of memide.c: an array of fixed-size blocks in which one block write is atomic, plus the
  layout of the on-disk redo log that log.c keeps in it.  A block is 128 words of 4 bytes.
*/
module Disk {

  const WORDS: int := 128

  datatype Block = Block(w: seq<int>)

  const MAXOPBLOCKS: int := 10
  const LOGSIZE: int := MAXOPBLOCKS * 3

  /** Where the log lives: blocks start .. start+size-1, the first of them the header (log.c:39-47). */
  datatype Layout = Layout(start: int, size: int, nblocks: int)
  {
    predicate Valid()
    {
      0 <= start && 2 <= size && start + size <= nblocks
    }

    /** A block that belongs to the file system proper, not to the log region. */
    predicate Home(b: int)
    {
      0 <= b < nblocks && !(start <= b < start + size)
    }

    /** The most entries the log can hold before log_write refuses (log.c:218). */
    function Limit(): int
    {
      if size - 1 < LOGSIZE then size - 1 else LOGSIZE
    }

    function LogBlock(tail: int): int
    {
      start + tail + 1
    }
  }

  /** mkfs's image: boot block, superblock, then nlog = LOGSIZE log blocks (mkfs.c:25, mkfs.c:101). */
  const MKFS_LAYOUT: Layout := Layout(2, LOGSIZE, 1000)

  /** Block numbers a committed header may name: home blocks, each once. */
  ghost predicate GoodTargets(l: Layout, s: seq<int>)
  {
    && (forall i :: 0 <= i < |s| ==> l.Home(s[i]))
    && (forall i, j :: 0 <= i < j < |s| ==> s[i] != s[j])
  }

  /** The header format: word 0 is the count, the next words the home block numbers (log.c:34-37). */
  function Count(h: Block): int
  {
    if h.w == [] then -1 else h.w[0]
  }

  predicate IsHeader(h: Block)
  {
    |h.w| == WORDS && 0 <= Count(h) < WORDS
  }

  function Targets(h: Block): (ts: seq<int>)
    requires IsHeader(h)
    ensures |ts| == Count(h)
  {
    h.w[1..1 + h.w[0]]
  }

  ghost predicate GoodHeader(l: Layout, h: Block)
  {
    IsHeader(h) && Count(h) <= l.Limit() && GoodTargets(l, Targets(h))
  }

  /** write_head leaves the words past the n-th entry as it found them (log.c:101-113). */
  function WithTargets(h: Block, s: seq<int>): (r: Block)
    requires |h.w| == WORDS && |s| < WORDS
    ensures IsHeader(r) && Targets(r) == s
  {
    Block([|s|] + s + h.w[1 + |s|..])
  }
}
