/** The ring buffer of pipe.c; each method is what pipewrite or piperead does between two sleeps, under p->lock. */
module PipeCode {
  const PIPESIZE: int := 512
  const UINT: int := 0x1_0000_0000

  /** Byte number k is still in the ring. */
  predicate Kept(data: seq<int>, written: seq<int>, k: int)
  {
    |data| == PIPESIZE && 0 <= k < |written| && data[k % PIPESIZE] == written[k]
  }

  /** What a section ends with. */
  datatype Outcome = Return(r: int) | Sleep

  class PipeRing {
    var data: seq<int>
    /** Counters of bytes read and written, as unsigned ints. */
    var nread: int
    var nwrite: int
    var readopen: bool
    var writeopen: bool
    /** All bytes ever written and read. */
    ghost var written: seq<int>
    ghost var taken: seq<int>

    ghost predicate Valid()
      reads this
    {
      && |data| == PIPESIZE && taken <= written && |written| - |taken| <= PIPESIZE
      && nread == |taken| % UINT && nwrite == |written| % UINT
      && forall k :: |taken| <= k < |written| ==> Kept(data, written, k)
    }

    /** pipe.c:22-57. */
    constructor ()
      ensures Valid() && written == taken == [] && readopen && writeopen
    {
      data := seq(PIPESIZE, _ => 0);
      nread, nwrite, readopen, writeopen := 0, 0, true, true;
      written, taken := [], [];
    }

    /** pipe.c:59-75. */
    method Close(writable: bool) returns (gone: bool)
      requires Valid()
      modifies `readopen, `writeopen
      ensures Valid() && (gone <==> !readopen && !writeopen)
      ensures readopen == (old(readopen) && writable) && writeopen == (old(writeopen) && !writable)
    {
      if writable {
        writeopen := false;
      } else {
        readopen := false;
      }
      return !readopen && !writeopen;
    }

    /**
      pipe.c:84-97, from byte i on.  The bytes go to the end of what was written; it stops early exactly when the
      ring is full, and then fails if nobody can read or the process was killed.
    */
    method Write(addr: seq<int>, from: int, killed: bool) returns (i: int, o: Outcome)
      requires Valid() && 0 <= from <= |addr| < UINT / 2
      modifies `data, `nwrite, `written
      ensures Valid() && from <= i <= |addr| && written == old(written) + addr[from..i]
      ensures o == if i == |addr| then Return(|addr|) else if !readopen || killed then Return(-1) else Sleep
      ensures i < |addr| ==> |written| - |taken| == PIPESIZE
    {
      i := from;
      while i < |addr|
        invariant Valid() && from <= i <= |addr| && written == old(written) + addr[from..i]
      {
        FullTest(|taken|, |written|);
        if nwrite == (nread + PIPESIZE) % UINT {
          if !readopen || killed {
            return i, Return(-1);
          }
          return i, Sleep;
        }
        PutByte(addr[i]);
        i := i + 1;
      }
      return i, Return(|addr|);
    }

    /** pipe.c:93. */
    method PutByte(c: int)
      requires Valid() && |written| - |taken| < PIPESIZE
      modifies `data, `nwrite, `written
      ensures Valid() && written == old(written) + [c]
    {
      ghost var w := |written|;
      Slots(w);
      data := data[nwrite % PIPESIZE := c];
      nwrite := (nwrite + 1) % UINT;
      written := written + [c];
      forall k | |taken| <= k < |written|
        ensures Kept(data, written, k)
      {
        if k < w {
          assert Kept(old(data), old(written), k);
          SlotsApart(k, w);
        }
      }
    }

    /** pipe.c:116. */
    method TakeByte() returns (c: int)
      requires Valid() && |taken| < |written|
      modifies `nread, `taken
      ensures Valid() && taken == old(taken) + [c]
    {
      Slots(|taken|);
      assert Kept(data, written, |taken|);
      c := data[nread % PIPESIZE];
      nread := (nread + 1) % UINT;
      taken := taken + [c];
    }

    /**
      pipe.c:106-120.  The bytes read continue those read before; as many as asked for or as there are.  An empty
      pipe with an open writing end makes the reader sleep, or fail if it was killed.
    */
    method Read(n: int, killed: bool) returns (bytes: seq<int>, o: Outcome)
      requires Valid()
      modifies `nread, `taken
      ensures Valid() && taken == old(taken) + bytes
      ensures |written| == |old(taken)| && writeopen ==> bytes == [] && o == if killed then Return(-1) else Sleep
      ensures !(|written| == |old(taken)| && writeopen) ==>
        o == Return(|bytes|) && |bytes| == Least(n, |written| - |old(taken)|)
    {
      bytes := [];
      EmptyTest(|taken|, |written|);
      if nread == nwrite && writeopen {
        return [], if killed then Return(-1) else Sleep;
      }
      var i := 0;
      while i < n
        invariant Valid() && taken == old(taken) + bytes && |bytes| == i && (i <= n || i == 0)
      {
        EmptyTest(|taken|, |written|);
        if nread == nwrite {
          break;
        }
        var c := TakeByte();
        bytes := bytes + [c];
        i := i + 1;
      }
      assert |taken| == |old(taken)| + i && |taken| <= |written|;
      return bytes, Return(i);
    }
  }

  function Least(n: int, have: int): int
  {
    if n <= 0 then 0 else if n < have then n else have
  }

  /** The counters wrap, but PIPESIZE divides 2^32, so the slot is that of the true count. */
  lemma Slots(k: int)
    requires 0 <= k
    ensures k % UINT % PIPESIZE == k % PIPESIZE && (k % UINT + 1) % UINT == (k + 1) % UINT
  {
  }

  /** Two counts less than PIPESIZE apart have different slots. */
  lemma SlotsApart(k: int, w: int)
    requires 0 <= k < w < k + PIPESIZE
    ensures k % PIPESIZE != w % PIPESIZE
  {
  }

  /** The wrapped counters differ by PIPESIZE exactly if the ring is full. */
  lemma FullTest(r: int, w: int)
    requires 0 <= r <= w <= r + PIPESIZE
    ensures w % UINT == (r % UINT + PIPESIZE) % UINT <==> w == r + PIPESIZE
  {
  }

  lemma EmptyTest(r: int, w: int)
    requires 0 <= r <= w <= r + PIPESIZE
    ensures r % UINT == w % UINT <==> r == w
  {
  }
}
