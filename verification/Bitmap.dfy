/** Mutable sets of document numbers. */
module Bitmap {
  import opened Bytes

  class Bitmap {
    var elems: set<u32>

    constructor (elems: set<u32>)
      ensures this.elems == elems
    {
      this.elems := elems;
    }

    method And(other: Bitmap)
      modifies this
      ensures elems == old(elems) * other.elems
    {
      elems := elems * other.elems;
    }

    method Or(other: Bitmap)
      modifies this
      ensures elems == old(elems) + other.elems
    {
      elems := elems + other.elems;
    }

    method AndNot(other: Bitmap)
      modifies this
      ensures elems == old(elems) - old(other.elems)
    {
      elems := elems - other.elems;
    }

    method Add(d: u32)
      modifies this
      ensures elems == old(elems) + {d}
    {
      elems := elems + {d};
    }

    /** The numbers from 0 up to n. */
    method AddRange(n: u32)
      modifies this
      ensures forall d: u32 :: d in elems <==> d in old(elems) || d < n
    {
      for i := 0 to n
        invariant forall d: u32 :: d in elems <==> d in old(elems) || d < i
      {
        elems := elems + {i};
      }
    }

    method Clone() returns (r: Bitmap)
      ensures fresh(r) && r.elems == elems
    {
      r := new Bitmap(elems);
    }
  }
}
