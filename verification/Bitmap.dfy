/**
  The free map of fs.c: one bit per block, packed eight to a byte and 4096 to a bitmap block.
*/
module Bitmap {
  import opened Words

  const BPB: int := BSIZE * 8

  type Bits = seq<seq<bv8>>

  /** 1 << k for a bit number. */
  function Mask(k: int): bv8
  {
    if k == 0 then 1 else if k == 1 then 2 else if k == 2 then 4 else if k == 3 then 8
    else if k == 4 then 16 else if k == 5 then 32 else if k == 6 then 64 else 128
  }

  predicate Has(x: bv8, j: int)
  {
    x & Mask(j) != 0
  }

  lemma MaskOr(x: bv8, j: int, k: int)
    requires 0 <= j < 8 && 0 <= k < 8
    ensures Has(x | Mask(k), j) <==> j == k || Has(x, j)
  {
  }

  lemma MaskClear(x: bv8, j: int, k: int)
    requires 0 <= j < 8 && 0 <= k < 8
    ensures Has(x & !Mask(k), j) <==> j != k && Has(x, j)
  {
  }

  // ---------------------------------------------------------------------------------------------
  // Bits by bitmap block, byte and bit number
  // ---------------------------------------------------------------------------------------------

  predicate BitAt(m: Bits, i: int, k: int, j: int)
  {
    0 <= i < |m| && 0 <= k < |m[i]| && Has(m[i][k], j)
  }

  function SetAt(m: Bits, i: int, k: int, j: int): Bits
    requires 0 <= i < |m| && 0 <= k < |m[i]|
  {
    m[i := m[i][k := m[i][k] | Mask(j)]]
  }

  function ClearAt(m: Bits, i: int, k: int, j: int): Bits
    requires 0 <= i < |m| && 0 <= k < |m[i]|
  {
    m[i := m[i][k := m[i][k] & !Mask(j)]]
  }

  lemma SetAtSets(m: Bits, i: int, k: int, j: int, i': int, k': int, j': int)
    requires 0 <= i < |m| && 0 <= k < |m[i]| && 0 <= j < 8 && 0 <= j' < 8
    ensures BitAt(SetAt(m, i, k, j), i', k', j') <==> (i == i' && k == k' && j == j') || BitAt(m, i', k', j')
  {
    MaskOr(m[i][k], j', j);
  }

  lemma ClearAtClears(m: Bits, i: int, k: int, j: int, i': int, k': int, j': int)
    requires 0 <= i < |m| && 0 <= k < |m[i]| && 0 <= j < 8 && 0 <= j' < 8
    ensures BitAt(ClearAt(m, i, k, j), i', k', j') <==> !(i == i' && k == k' && j == j') && BitAt(m, i', k', j')
  {
    MaskClear(m[i][k], j', j);
  }

  // ---------------------------------------------------------------------------------------------
  // Bits by block number
  // ---------------------------------------------------------------------------------------------

  function BlockOf(b: int): int { b / BPB }
  function ByteOf(b: int): int { b % BPB / 8 }
  function BitOf(b: int): int { b % 8 }

  lemma PlaceOf(b: int, c: int)
    requires 0 <= b && 0 <= c
    ensures 0 <= BlockOf(b) && 0 <= ByteOf(b) < BSIZE && 0 <= BitOf(b) < 8
    ensures 0 <= BlockOf(c) && 0 <= ByteOf(c) < BSIZE && 0 <= BitOf(c) < 8
    ensures b == c <==> BlockOf(b) == BlockOf(c) && ByteOf(b) == ByteOf(c) && BitOf(b) == BitOf(c)
  {
    Composed(b);
    Composed(c);
  }

  /** A block number from the place of its bit. */
  lemma Composed(b: int)
    requires 0 <= b
    ensures b == BPB * BlockOf(b) + 8 * ByteOf(b) + BitOf(b)
    ensures 0 <= BlockOf(b) && 0 <= ByteOf(b) < BSIZE && 0 <= BitOf(b) < 8
  {
    BitInBlock(b);
  }

  /** A bitmap with room for n blocks. */
  ghost predicate Roomy(m: Bits, n: int)
  {
    n <= |m| * BPB && forall i :: 0 <= i < |m| ==> |m[i]| == BSIZE
  }

  lemma RoomFor(m: Bits, n: int, b: int)
    requires Roomy(m, n) && 0 <= b < n
    ensures BlockOf(b) < |m| && |m[BlockOf(b)]| == BSIZE
  {
  }

  /** Whether block b is marked in use (fs.c:67). */
  predicate Bit(m: Bits, b: int)
  {
    BitAt(m, BlockOf(b), ByteOf(b), BitOf(b))
  }

  ghost function SetBit(m: Bits, b: int): Bits
  {
    if 0 <= BlockOf(b) < |m| && 0 <= ByteOf(b) < |m[BlockOf(b)]| then SetAt(m, BlockOf(b), ByteOf(b), BitOf(b)) else m
  }

  ghost function ClearBit(m: Bits, b: int): Bits
  {
    if 0 <= BlockOf(b) < |m| && 0 <= ByteOf(b) < |m[BlockOf(b)]| then ClearAt(m, BlockOf(b), ByteOf(b), BitOf(b)) else m
  }

  /** Setting a bit sets that bit and no other. */
  lemma SetBitSets(m: Bits, n: int, b: int, c: int)
    requires Roomy(m, n) && 0 <= b < n && 0 <= c
    ensures Roomy(SetBit(m, b), n)
    ensures Bit(SetBit(m, b), c) <==> c == b || Bit(m, c)
  {
    RoomFor(m, n, b);
    PlaceOf(b, c);
    SetAtSets(m, BlockOf(b), ByteOf(b), BitOf(b), BlockOf(c), ByteOf(c), BitOf(c));
  }

  /** Clearing a bit clears that bit and no other. */
  lemma ClearBitClears(m: Bits, n: int, b: int, c: int)
    requires Roomy(m, n) && 0 <= b < n && 0 <= c
    ensures Roomy(ClearBit(m, b), n)
    ensures Bit(ClearBit(m, b), c) <==> c != b && Bit(m, c)
  {
    RoomFor(m, n, b);
    PlaceOf(b, c);
    ClearAtClears(m, BlockOf(b), ByteOf(b), BitOf(b), BlockOf(c), ByteOf(c), BitOf(c));
  }

  /** Bit bi of the bitmap block that starts at block number start. */
  lemma ScanPlace(start: int, bi: int)
    requires 0 <= start && start % BPB == 0 && 0 <= bi < BPB
    ensures BlockOf(start + bi) == start / BPB && ByteOf(start + bi) == bi / 8 && BitOf(start + bi) == bi % 8
  {
    assert (start + bi) / BPB == start / BPB && (start + bi) % BPB == bi;
    assert (start + bi) % 8 == (start + bi) % BPB % 8;
  }

  lemma BitInBlock(b: int)
    requires 0 <= b
    ensures b % BPB % 8 == BitOf(b)
  {
    var q, r := b / BPB, b % BPB;
    assert b == 8 * (BSIZE * q) + r;
    Multiple(BSIZE * q, r);
  }

  lemma Multiple(k: int, r: int)
    requires 0 <= k && 0 <= r
    ensures (8 * k + r) % 8 == r % 8
  {
  }

  lemma NextBlock(start: int)
    requires start % BPB == 0
    ensures (start + BPB) % BPB == 0
  {
  }

  /** The test both scans make is the test of the block's bit. */
  lemma BitTest(m: Bits, size: int, start: int, bi: int)
    requires Roomy(m, size) && 0 <= start && start % BPB == 0 && 0 <= bi < BPB && start + bi < size
    ensures 0 <= start / BPB < |m| && 0 <= bi / 8 < |m[start / BPB]|
    ensures m[start / BPB][bi / 8] & Mask(bi % 8) == 0 <==> !Bit(m, start + bi)
  {
    ScanPlace(start, bi);
    RoomFor(m, size, start + bi);
  }

  /** The scan of balloc: two nested loops over bitmap blocks and their bits (fs.c:63-76). */
  method FindFree(m: Bits, size: int) returns (found: bool, b: int)
    requires 0 <= size && Roomy(m, size)
    ensures found ==> 0 <= b < size && !Bit(m, b) && forall c :: 0 <= c < b ==> Bit(m, c)
    ensures !found ==> forall c :: 0 <= c < size ==> Bit(m, c)
  {
    var start := 0;
    while start < size
      invariant 0 <= start && start % BPB == 0
      invariant forall c :: 0 <= c < start && c < size ==> Bit(m, c)
    {
      var bi := 0;
      while bi < BPB && start + bi < size
        invariant 0 <= bi <= BPB
        invariant forall c :: 0 <= c < start + bi && c < size ==> Bit(m, c)
      {
        BitTest(m, size, start, bi);
        if m[start / BPB][bi / 8] & Mask(bi % 8) == 0 {
          return true, start + bi;
        }
        assert Bit(m, start + bi);
        bi := bi + 1;
      }
      NextBlock(start);
      start := start + BPB;
    }
    return false, 0;
  }

  /** The counting loop of get_fs_stats (fs.c:697-706). */
  method CountFree(m: Bits, size: int) returns (free: int)
    requires 0 <= size && Roomy(m, size)
    ensures free == FreeBelow(m, size)
  {
    free := 0;
    var start := 0;
    while start < size
      invariant 0 <= start && start % BPB == 0
      invariant free == FreeBelow(m, if start < size then start else size)
    {
      var bi := 0;
      while bi < BPB && start + bi < size
        invariant 0 <= bi <= BPB && start + bi <= size
        invariant free == FreeBelow(m, start + bi)
      {
        BitTest(m, size, start, bi);
        if m[start / BPB][bi / 8] & Mask(bi % 8) == 0 {
          free := free + 1;
        }
        bi := bi + 1;
      }
      NextBlock(start);
      start := start + BPB;
    }
  }

  /** The number of clear bits among blocks 0 .. n-1. */
  ghost function FreeBelow(m: Bits, n: int): int
  {
    if n <= 0 then 0 else FreeBelow(m, n - 1) + if Bit(m, n - 1) then 0 else 1
  }
}
