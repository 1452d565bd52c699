/** The appends that outstanding operations may still make, as a sum over the operations. */
module Allowance {

  /** The appends the operations in `ids` may still make. */
  ghost function Unused(ids: set<int>, ops: map<int, int>, bound: int): int
    requires ids <= ops.Keys
  {
    if exists id :: id in ids then
      var id :| id in ids;
      bound - ops[id] + Unused(ids - {id}, ops, bound)
    else 0
  }

  lemma {:induction false} UnusedSplits(ids: set<int>, ops: map<int, int>, bound: int, id: int)
    requires id in ids && ids <= ops.Keys
    ensures Unused(ids, ops, bound) == bound - ops[id] + Unused(ids - {id}, ops, bound)
    decreases ids
  {
    var c :| c in ids && Unused(ids, ops, bound) == bound - ops[c] + Unused(ids - {c}, ops, bound);
    if c != id {
      UnusedSplits(ids - {c}, ops, bound, id);
      UnusedSplits(ids - {id}, ops, bound, c);
      assert ids - {c} - {id} == ids - {id} - {c};
    }
  }

  lemma {:induction false} UnusedSame(ids: set<int>, ops: map<int, int>, ops': map<int, int>, bound: int)
    requires ids <= ops.Keys && ids <= ops'.Keys && forall id :: id in ids ==> ops[id] == ops'[id]
    ensures Unused(ids, ops, bound) == Unused(ids, ops', bound)
    decreases ids
  {
    if id :| id in ids {
      UnusedSplits(ids, ops, bound, id);
      UnusedSplits(ids, ops', bound, id);
      UnusedSame(ids - {id}, ops, ops', bound);
    }
  }

  lemma {:induction false} UnusedBounded(ids: set<int>, ops: map<int, int>, bound: int)
    requires 0 <= bound && ids <= ops.Keys && forall id :: id in ids ==> 0 <= ops[id] <= bound
    ensures 0 <= Unused(ids, ops, bound) <= |ids| * bound
    decreases ids
  {
    if id :| id in ids {
      UnusedSplits(ids, ops, bound, id);
      UnusedBounded(ids - {id}, ops, bound);
      assert |ids| * bound == |ids - {id}| * bound + bound;
    } else {
      assert 0 <= |ids| * bound;
    }
  }
}
