/**
  Four-axis numeric arrays (batch, height, width, channels) as numpy holds
  them, the first-maximum argmax numpy uses, and the `uint8` cast.
 */
module Tensors {

  datatype Shape4 = Shape4(batch: nat, height: nat, width: nat, depth: nat)

  datatype Array4 = Array4(shape: Shape4, data: seq<seq<seq<seq<real>>>>)

  /** The nested data has exactly the extents its shape announces, as for
      every numpy array. */
  predicate WellFormed(a: Array4) {
    && |a.data| == a.shape.batch
    && (forall b :: 0 <= b < |a.data| ==> |a.data[b]| == a.shape.height)
    && (forall b, y :: 0 <= b < |a.data| && 0 <= y < |a.data[b]| ==>
          |a.data[b][y]| == a.shape.width)
    && (forall b, y, x :: 0 <= b < |a.data| && 0 <= y < |a.data[b]| && 0 <= x < |a.data[b][y]| ==>
          |a.data[b][y][x]| == a.shape.depth)
  }

  /** A rectangular array: what `np.array` and `model.predict` produce. */
  type Tensor4 = a: Array4 | WellFormed(a) witness Array4(Shape4(0, 0, 0, 0), [])

  /** `k` is the index numpy's argmax reports for `v`: a maximal score, and
      the first one on ties. */
  ghost predicate IsFirstMax(v: seq<real>, k: int) {
    && 0 <= k < |v|
    && (forall j :: 0 <= j < |v| ==> v[j] <= v[k])
    && (forall j :: 0 <= j < k ==> v[j] < v[k])
  }

  /** numpy's left-to-right scan: the running maximum is replaced only by a
      strictly greater score. */
  function Argmax(v: seq<real>): (k: nat)
    requires |v| > 0
    ensures IsFirstMax(v, k)
    decreases |v|
  {
    if |v| == 1 then 0
    else
      var k := Argmax(v[..|v| - 1]);
      if v[|v| - 1] > v[k] then |v| - 1 else k
  }

  /** At most one index is the first maximum, so the argmax of a score
      vector is fully determined by `IsFirstMax`. */
  lemma FirstMaxUnique(v: seq<real>, k1: int, k2: int)
    requires IsFirstMax(v, k1) && IsFirstMax(v, k2)
    ensures k1 == k2
  {
    // Both scores are maximal, so neither can be strictly below the other.
    assert v[k1] <= v[k2] && v[k2] <= v[k1];
  }

  /** numpy's `astype(np.uint8)` on a non-negative index: wraps modulo 256. */
  function ToUint8(k: nat): (b: nat)
    ensures b < 256
    ensures k < 256 ==> b == k
    ensures (k - b) % 256 == 0
  {
    k % 256
  }
}
