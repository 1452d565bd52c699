/** All files at once, as byte sequences, and what a run of reads, writes and truncations does to them. */
module FileRuns {
  import opened Words
  import opened Inodes
  import opened Files
  import opened Writing

  datatype Call =
    | WriteAt(i: int, off: int, src: seq<int>)
    | ReadAt(i: int, off: int, n: int)
    | Truncate(i: int)

  datatype Answer = Answer(r: int, bytes: seq<int>)

  /** The contents of the files, by inode number. */
  type Contents = seq<seq<int>>

  /** File j has exactly the bytes c, and no holes. */
  ghost predicate FileIs(fs: Fs, j: int, c: seq<int>)
  {
    NoHoles(fs, j) && fs.inodes[j].size == |c| && Reads(fs, j, c)
  }

  ghost predicate FilesAre(fs: Fs, files: Contents)
  {
    |files| == |fs.inodes| && forall j :: 0 <= j < |files| ==> FileIs(fs, j, files[j])
  }

  /** Arguments as the C types allow them. */
  predicate InRange(n: int, c: Call)
  {
    match c
    case WriteAt(i, off, src) => 0 <= i < n && 0 <= off < UINT && |src| < UINT
    case ReadAt(i, off, k) => 0 <= i < n && 0 <= off < UINT && 0 <= k < UINT
    case Truncate(i) => 0 <= i < n
  }

  predicate ReadFails(len: int, off: int, n: int)
  {
    off > len || off + n >= UINT
  }

  function Least(a: int, b: int): int
  {
    if a < b then a else b
  }

  function After(files: Contents, c: Call): (r: Contents)
    requires InRange(|files|, c)
    ensures |r| == |files|
  {
    match c
    case WriteAt(i, off, src) => if Refuses(|files[i]|, off, |src|) then files
      else files[i := Splice(files[i], off, src)]
    case ReadAt(_, _, _) => files
    case Truncate(i) => files[i := []]
  }

  function Says(files: Contents, c: Call): Answer
    requires InRange(|files|, c)
  {
    match c
    case WriteAt(i, off, src) => Answer(if Refuses(|files[i]|, off, |src|) then -1 else |src|, [])
    case ReadAt(i, off, n) =>
      if ReadFails(|files[i]|, off, n) then Answer(-1, [])
      else
        var got := files[i][off..Least(off + n, |files[i]|)];
        Answer(|got|, got)
    case Truncate(_) => Answer(0, [])
  }

  ghost predicate AllInRange(n: int, calls: seq<Call>)
  {
    forall k :: 0 <= k < |calls| ==> InRange(n, calls[k])
  }

  /** The contents after a sequence of calls, and the answers on the way: the abstract file system. */
  ghost function AfterAll(files: Contents, calls: seq<Call>): (r: Contents)
    requires AllInRange(|files|, calls)
    ensures |r| == |files|
  {
    if calls == [] then files else After(AfterAll(files, calls[..|calls| - 1]), calls[|calls| - 1])
  }

  ghost function SaysAll(files: Contents, calls: seq<Call>): seq<Answer>
    requires AllInRange(|files|, calls)
  {
    if calls == [] then []
    else
      var front := calls[..|calls| - 1];
      SaysAll(files, front) + [Says(AfterAll(files, front), calls[|calls| - 1])]
  }

  /** What was written is read back where it was written; elsewhere, and in other files, all reads as before. */
  lemma ReadBack(files: Contents, i: int, off: int, src: seq<int>, j: int, at: int, n: int)
    requires InRange(|files|, WriteAt(i, off, src)) && InRange(|files|, ReadAt(j, at, n))
      && Says(files, WriteAt(i, off, src)).r == |src|
    ensures var now := After(files, WriteAt(i, off, src));
            && Says(now, ReadAt(i, off, |src|)) == Answer(|src|, src)
            && (j != i || at + n <= off || off + |src| <= Least(at, |files[i]|) ==>
                  Says(now, ReadAt(j, at, n)) == Says(files, ReadAt(j, at, n)))
  {
    var now := After(files, WriteAt(i, off, src));
    assert now[i] == Splice(files[i], off, src);
    assert now[i][off..off + |src|] == src;
    if j == i && at + n <= off {
      assert now[i][at..at + n] == files[i][at..at + n];
    } else if j == i && off + |src| <= at <= |files[i]| {
      assert now[i][at..Least(at + n, |files[i]|)] == files[i][at..Least(at + n, |files[i]|)];
    }
  }

  /** writei changes the one file, and no other. */
  lemma WriteFiles(f: Fs, g: Fs, files: Contents, i: int, off: int, src: seq<int>)
    requires FilesAre(f, files) && Shape(f) && Shape(g) && f.size == g.size && 0 <= i < |files|
      && 0 <= off <= |files[i]|
    requires FileWritten(f, g, i, files[i], off, src) && off + |src| <= MAXFILE * BSIZE
      && MappedTo(g, i, Blocks(g.inodes[i].size))
    ensures FilesAre(g, files[i := Splice(files[i], off, src)])
  {
    var after := files[i := Splice(files[i], off, src)];
    forall j | 0 <= j < |after|
      ensures FileIs(g, j, after[j])
    {
      assert FileIs(f, j, files[j]);
      if j != i {
        OthersRead(f, g, i, j, files[j]);
        OthersMapped(f, g, i, j, Blocks(|files[j]|));
      }
    }
  }

  /** A change to the addresses of one inode only leaves the other files alone. */
  lemma TruncFiles(f: Fs, g: Fs, files: Contents, i: int)
    requires FilesAre(f, files) && |g.inodes| == |f.inodes| && g.data == f.data && 0 <= i < |files|
    requires NoHoles(g, i) && g.inodes[i].size == 0
      && forall j :: 0 <= j < |files| && j != i ==> g.inodes[j] == f.inodes[j]
    ensures FilesAre(g, files[i := []])
  {
    var after := files[i := []];
    forall j | 0 <= j < |after|
      ensures FileIs(g, j, after[j])
    {
      assert FileIs(f, j, files[j]);
      if j != i {
        assert forall m :: Ref(g, j, m) == Ref(f, j, m);
        assert Indirect(g, j) == Indirect(f, j);
        SameFile(f, g, j, files[j]);
      }
    }
  }

  lemma SameFile(f: Fs, g: Fs, j: int, c: seq<int>)
    requires FileIs(f, j, c) && g.data == f.data && 0 <= j < |g.inodes| && g.inodes[j] == f.inodes[j]
    requires (forall m :: Ref(g, j, m) == Ref(f, j, m)) && Indirect(g, j) == Indirect(f, j)
    ensures FileIs(g, j, c)
  {
    forall pos | 0 <= pos < |c|
      ensures ByteIs(g, j, c, pos)
    {
      assert ByteIs(f, j, c, pos);
    }
    forall bn | 0 <= bn < MAXFILE
      ensures MapOk(g, j, Blocks(|c|), bn)
    {
      assert MapOk(f, j, Blocks(|c|), bn);
    }
  }
}
