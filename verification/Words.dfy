/** Little-endian 32-bit words in a block of 512 bytes, as an indirect block holds them. */
module Words {
  const BSIZE: int := 512

  /** A block of zero bytes. */
  function ZeroBlock(): (r: seq<int>)
    ensures |r| == BSIZE && forall i :: 0 <= i < BSIZE ==> r[i] == 0
  {
    seq(BSIZE, _ => 0)
  }

  /** The j-th uint of a block (fs.c:390). */
  function Word(b: seq<int>, j: int): int
  {
    if 0 <= j && 4 * j + 3 < |b| then
      b[4 * j] + 0x100 * b[4 * j + 1] + 0x1_0000 * b[4 * j + 2] + 0x100_0000 * b[4 * j + 3]
    else 0
  }

  function SetWord(b: seq<int>, j: int, w: int): (r: seq<int>)
    requires 0 <= j && 4 * j + 3 < |b|
    ensures |r| == |b|
  {
    b[4 * j := w % 0x100][4 * j + 1 := w / 0x100 % 0x100]
     [4 * j + 2 := w / 0x1_0000 % 0x100][4 * j + 3 := w / 0x100_0000 % 0x100]
  }

  lemma Digits(w: int)
    requires 0 <= w < 0x1_0000_0000
    ensures w == w % 0x100 + 0x100 * (w / 0x100 % 0x100) + 0x1_0000 * (w / 0x1_0000 % 0x100)
      + 0x100_0000 * (w / 0x100_0000 % 0x100)
  {
    assert w / 0x1_0000 == w / 0x100 / 0x100;
    assert w / 0x100_0000 == w / 0x1_0000 / 0x100;
  }

  /** Storing a word and reading it back; the other words keep their values. */
  lemma WordSet(b: seq<int>, j: int, w: int, k: int)
    requires 0 <= j && 4 * j + 3 < |b| && 0 <= w < 0x1_0000_0000 && 0 <= k
    ensures Word(SetWord(b, j, w), k) == if k == j then w else Word(b, k)
  {
    Digits(w);
  }

  lemma ZeroWord(j: int)
    ensures Word(ZeroBlock(), j) == 0
  {
  }
}
