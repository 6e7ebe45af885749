/** The grouping stack of `struct CalcState` (`paren_accum`,
    `paren_accum_set`, `paren_op` and `paren_depth`, amicalc.c:117-120): three
    parallel arrays of MAX_PAREN_DEPTH frames, of which the first `depth` are
    in use. */
module Grouping {
  import opened Config

  class ParenStack {
    const accums: array<real>
    const accumSets: array<bool>
    const ops: array<char>
    var depth: int

    ghost predicate Valid()
      reads this
    {
      && accums.Length == MAX_PAREN_DEPTH && accumSets.Length == MAX_PAREN_DEPTH
      && ops.Length == MAX_PAREN_DEPTH
      && 0 <= depth <= MAX_PAREN_DEPTH
    }

    /** The saved accumulators, oldest first. */
    ghost function Accums(): seq<real>
      reads this, accums
      requires Valid()
    {
      accums[..depth]
    }

    /** The saved accumulator flags, oldest first. */
    ghost function AccumSets(): seq<bool>
      reads this, accumSets
      requires Valid()
    {
      accumSets[..depth]
    }

    /** The saved pending operators, oldest first. */
    ghost function Ops(): seq<char>
      reads this, ops
      requires Valid()
    {
      ops[..depth]
    }

    constructor ()
      ensures Valid() && Accums() == [] && AccumSets() == [] && Ops() == []
      ensures fresh(accums) && fresh(accumSets) && fresh(ops)
    {
      accums := new real[MAX_PAREN_DEPTH];
      accumSets := new bool[MAX_PAREN_DEPTH];
      ops := new char[MAX_PAREN_DEPTH];
      depth := 0;
    }

    /** `paren_depth = 0` */
    method Clear()
      requires Valid()
      modifies this
      ensures Valid() && Accums() == [] && AccumSets() == [] && Ops() == []
    {
      depth := 0;
    }

    /** Save a frame on top (amicalc.c:982-985). */
    method Push(accum: real, accumSet: bool, op: char)
      requires Valid() && depth < MAX_PAREN_DEPTH
      modifies this, accums, accumSets, ops
      ensures Valid()
      ensures Accums() == old(Accums()) + [accum] && AccumSets() == old(AccumSets()) + [accumSet]
      ensures Ops() == old(Ops()) + [op]
    {
      accums[depth] := accum;
      accumSets[depth] := accumSet;
      ops[depth] := op;
      depth := depth + 1;
    }

    /** Take the top frame off (amicalc.c:1011-1014). */
    method Pop() returns (accum: real, accumSet: bool, op: char)
      requires Valid() && depth > 0
      modifies this
      ensures Valid() && depth == old(depth) - 1
      ensures Accums() == old(Accums())[..depth] && AccumSets() == old(AccumSets())[..depth]
      ensures Ops() == old(Ops())[..depth]
      ensures accum == old(Accums())[depth] && accumSet == old(AccumSets())[depth] && op == old(Ops())[depth]
    {
      depth := depth - 1;
      accum := accums[depth];
      accumSet := accumSets[depth];
      op := ops[depth];
    }
  }
}
