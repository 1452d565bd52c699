/** The doubly linked ring of bio.c: prev and next by buffer number, with number n for bcache.head. */
module BufRing {
  /** The i-th buffer from head.next on; the head itself before the first and after the last. */
  function At(order: seq<int>, n: int, i: int): int
  {
    if 0 <= i < |order| then order[i] else n
  }

  predicate LinkOk(next: seq<int>, prev: seq<int>, order: seq<int>, n: int, i: int)
    requires |next| == |prev| == n + 1
  {
    var a, b := At(order, n, i), At(order, n, i + 1);
    0 <= a <= n && 0 <= b <= n && next[a] == b && prev[b] == a
  }

  /**
    The buffers in `order` are distinct, and following next from the head gives them in this order, prev in
    reverse.
  */
  ghost predicate Ring(next: seq<int>, prev: seq<int>, order: seq<int>, n: int)
  {
    && 0 <= n && |next| == |prev| == n + 1
    && (forall i :: 0 <= i < |order| ==> 0 <= order[i] < n)
    && (forall i, j :: 0 <= i < j < |order| ==> order[i] != order[j])
    && (forall i :: -1 <= i < |order| ==> LinkOk(next, prev, order, n, i))
  }

  /** order without its k-th element. */
  function Without(order: seq<int>, k: int): seq<int>
    requires 0 <= k < |order|
  {
    order[..k] + order[k + 1..]
  }

  /** Moving the k-th element to the front is a permutation. */
  lemma SameMembers(order: seq<int>, k: int)
    requires 0 <= k < |order|
    ensures multiset([order[k]] + Without(order, k)) == multiset(order)
    ensures forall x :: x in order ==> x in [order[k]] + Without(order, k)
  {
    assert order == order[..k] + [order[k]] + order[k + 1..];
  }

  /** Taking a buffer out of the ring by joining its two neighbours (bio.c:132-133). */
  lemma Unlink(next: seq<int>, prev: seq<int>, order: seq<int>, n: int, k: int, next': seq<int>, prev': seq<int>)
    requires Ring(next, prev, order, n) && 0 <= k < |order|
    requires var b := order[k];
             0 <= next[b] <= n && 0 <= prev[b] <= n && prev' == prev[next[b] := prev[b]]
               && next' == next[prev[b] := next[b]]
    ensures Ring(next', prev', Without(order, k), n)
  {
    var rest := Without(order, k);
    assert LinkOk(next, prev, order, n, k - 1) && LinkOk(next, prev, order, n, k);
    forall i | -1 <= i < |rest|
      ensures LinkOk(next', prev', rest, n, i)
    {
      var j := if i < k - 1 then i else i + 1;
      assert LinkOk(next, prev, order, n, j);
      assert i >= k ==> At(rest, n, i) == At(order, n, i + 1);
      assert i + 1 >= k ==> At(rest, n, i + 1) == At(order, n, i + 2);
    }
  }

  /** Putting a buffer between the head and the first one (bio.c:134-137). */
  lemma Push(next: seq<int>, prev: seq<int>, order: seq<int>, n: int, b: int, next': seq<int>, prev': seq<int>)
    requires Ring(next, prev, order, n) && 0 <= b < n && b !in order && 0 <= next[n] <= n
    requires next' == next[b := next[n]][n := b] && prev' == prev[b := n][next[n] := b]
    ensures Ring(next', prev', [b] + order, n)
  {
    var more := [b] + order;
    assert LinkOk(next, prev, order, n, -1);
    forall i | -1 <= i < |more|
      ensures LinkOk(next', prev', more, n, i)
    {
      assert i >= 1 ==> LinkOk(next, prev, order, n, i - 1);
      assert i >= 1 ==> At(more, n, i) == At(order, n, i - 1);
      assert i >= 0 ==> At(more, n, i + 1) == At(order, n, i);
    }
  }

  // ---------------------------------------------------------------------------------------------
  // The order of the last releases
  // ---------------------------------------------------------------------------------------------

  /** When b was released last, in a list of releases; -1 if never. */
  function LastUse(released: seq<int>, b: int): (r: int)
    ensures -1 <= r < |released|
  {
    if released == [] then -1
    else if released[|released| - 1] == b then |released| - 1
    else LastUse(released[..|released| - 1], b)
  }

  /** a was released after c; buffers never released count by number, as binit links them. */
  predicate Later(released: seq<int>, a: int, c: int)
  {
    LastUse(released, a) > LastUse(released, c) || (LastUse(released, a) == LastUse(released, c) && a > c)
  }

  /** The ring from head.next on: most recently released first. */
  ghost predicate ByRelease(order: seq<int>, released: seq<int>)
  {
    forall i, j :: 0 <= i < j < |order| ==> Later(released, order[i], order[j])
  }

  lemma PushByNumber(order: seq<int>, b: int)
    requires ByRelease(order, []) && forall i :: 0 <= i < |order| ==> order[i] < b
    ensures ByRelease([b] + order, [])
  {
    var more := [b] + order;
    forall i, j | 0 <= i < j < |more|
      ensures Later([], more[i], more[j])
    {
      assert more[j] == order[j - 1];
      if i > 0 {
        assert more[i] == order[i - 1] && Later([], order[i - 1], order[j - 1]);
      }
    }
  }

  lemma ReleaseFront(order: seq<int>, released: seq<int>, k: int)
    requires ByRelease(order, released) && 0 <= k < |order|
      && forall i, j :: 0 <= i < j < |order| ==> order[i] != order[j]
    ensures ByRelease([order[k]] + Without(order, k), released + [order[k]])
  {
    var b, more, now := order[k], [order[k]] + Without(order, k), released + [order[k]];
    assert now[..|released|] == released;
    forall i, j | 0 <= i < j < |more|
      ensures Later(now, more[i], more[j])
    {
      var j' := if j - 1 < k then j - 1 else j;
      assert more[j] == order[j'] && order[j'] != b;
      if i > 0 {
        var i' := if i - 1 < k then i - 1 else i;
        assert more[i] == order[i'] && order[i'] != b && Later(released, order[i'], order[j']);
      }
    }
  }
}
