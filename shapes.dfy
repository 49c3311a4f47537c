/** Tensor shapes: element counts and packed strides are products of extents. */
module Shapes {
  /** The product of a run of extents; the empty product is 1. */
  function Product(dims: seq<int>): (p: int)
    ensures (forall k :: 0 <= k < |dims| ==> dims[k] >= 0) ==> p >= 0
    ensures (forall k :: 0 <= k < |dims| ==> dims[k] > 0) ==> p > 0
    ensures (exists k :: 0 <= k < |dims| && dims[k] == 0) ==> p == 0
  {
    if |dims| == 0 then 1 else dims[0] * Product(dims[1..])
  }

  /** Extending a run of extents on the right multiplies its product by the new extent. */
  lemma {:induction false} ProductSnoc(dims: seq<int>, d: int)
    ensures Product(dims + [d]) == Product(dims) * d
  {
    if |dims| == 0 {
      assert (dims + [d])[1..] == [];
    } else {
      assert (dims + [d])[1..] == dims[1..] + [d];
      ProductSnoc(dims[1..], d);
      var x, y := dims[0], Product(dims[1..]);
      assert x * (y * d) == (x * y) * d;
    }
  }
}
